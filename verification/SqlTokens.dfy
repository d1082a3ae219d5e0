/** The tokenizer. It never looks back, and what it looks at beyond a token never
    changes the token; so a slice of the text that starts and ends with a token
    gives exactly the tokens in between. */
module SqlTokens {

  datatype Option<+T> = None | Some(value: T)

  datatype Kind = Keyword | Identifier | Operator | Symbol | Number | String

  datatype Tok = Tok(kind: Kind, value: string)

  /** A token and the text positions it covers; a string's quotes are inside. */
  datatype Token = Token(tok: Tok, lo: nat, hi: nat)

  /** The keywords that conditions and windows are written with, and all others. */
  const CONDITION_WORDS: seq<string> := ["and", "or", "is", "not", "null", "in"]

  const WINDOW_WORDS: seq<string> := ["over", "partition", "order", "by", "asc", "desc"]

  const OTHER_WORDS: seq<string> := [
    "select", "from", "where", "join", "on", "to", "group", "having",
    "limit", "offset", "use", "into", "insert", "import", "create", "describe", "explain", "analyze", "contains",
    "equals", "drop", "table", "database", "delete", "values", "alter", "add", "rename", "column", "index",
    "unique", "primary", "key", "references", "check", "as", "inner", "left", "outer", "u32", "u64",
    "f32", "f64", "string8", "bool", "i32", "i64", "true", "false", "date", "timestamp", "decimal", "numeric",
    "type", "enum", "with", "exists"]

  const OPERATORS: seq<string> := ["=", "==", "!=", ">", "<", ">=", "<="]

  predicate IsSpace(c: char) {
    c == ' ' || '\t' <= c <= '\r'
  }

  predicate IsAlpha(c: char) {
    ('a' <= c <= 'z') || ('A' <= c <= 'Z')
  }

  predicate IsDigit(c: char) {
    '0' <= c <= '9'
  }

  predicate IsSymbol(c: char) {
    c == ',' || c == '(' || c == ')' || c == ';' || c == '*' || c == '.'
  }

  predicate IsWord(c: char) {
    IsAlpha(c) || IsDigit(c) || c == '_'
  }

  function LowerChar(c: char): char {
    if 'A' <= c <= 'Z' then (c as int + 32) as char else c
  }

  function Lower(s: string): (l: string)
    ensures |l| == |s|
  {
    seq(|s|, i requires 0 <= i < |s| => LowerChar(s[i]))
  }

  predicate IsListed(words: seq<string>, s: string) {
    exists i :: 0 <= i < |words| && words[i] == s
  }

  predicate IsKeyword(s: string) {
    IsListed(CONDITION_WORDS, Lower(s)) || IsListed(WINDOW_WORDS, Lower(s)) || IsListed(OTHER_WORDS, Lower(s))
  }

  // ---- Lengths of what a text starts with ----

  function Spaces(s: string): (n: nat)
    ensures n <= |s| && (n < |s| ==> !IsSpace(s[n]))
  {
    if s != [] && IsSpace(s[0]) then 1 + Spaces(s[1..]) else 0
  }

  function WordLength(s: string): (n: nat)
    ensures n <= |s|
  {
    if s != [] && IsWord(s[0]) then 1 + WordLength(s[1..]) else 0
  }

  /** Digits, with one point between digits. */
  function NumberLength(s: string, hasPoint: bool): (n: nat)
    ensures n <= |s|
  {
    if s == [] then 0
    else if IsDigit(s[0]) then 1 + NumberLength(s[1..], hasPoint)
    else if !hasPoint && s[0] == '.' && |s| > 1 && IsDigit(s[1]) then 1 + NumberLength(s[1..], true)
    else 0
  }

  predicate EndsRun(c: char) {
    IsSpace(c) || IsAlpha(c) || IsDigit(c) || IsSymbol(c)
  }

  function RunLength(s: string): (n: nat)
    ensures n <= |s|
  {
    if s != [] && !EndsRun(s[0]) then 1 + RunLength(s[1..]) else 0
  }

  /** Up to the closing quote; two quotes are an escaped one. */
  function StringLength(s: string): (n: Option<nat>)
    ensures n.Some? ==> n.value < |s| && s[n.value] == '\''
  {
    if s == [] then None
    else if s[0] == '\'' then
      if |s| > 1 && s[1] == '\'' then
        var n := StringLength(s[2..]);
        if n.None? then None else Some(2 + n.value)
      else Some(0)
    else
      var n := StringLength(s[1..]);
      if n.None? then None else Some(1 + n.value)
  }

  function Unescaped(s: string): string {
    if s == [] then []
    else if s[0] == '\'' then ['\''] + (if |s| > 1 then Unescaped(s[2..]) else [])
    else [s[0]] + Unescaped(s[1..])
  }

  // ---- One token ----

  /** What a text that starts without a space starts with: a token, a run that is no
      operator and is dropped, or an unterminated string, which ends everything. */
  datatype Lexed = Found(tok: Tok, size: nat) | Dropped(size: nat) | Unterminated

  predicate StartsNumber(s: string) {
    s != [] && (IsDigit(s[0]) || (s[0] == '-' && |s| > 1 && IsDigit(s[1])))
  }

  function NumberSize(s: string): nat
    requires StartsNumber(s)
  {
    if s[0] == '-' then 1 + NumberLength(s[1..], false) else NumberLength(s, false)
  }

  function Lex(s: string): (l: Lexed)
    requires s != [] && !IsSpace(s[0])
    ensures !l.Unterminated? ==> 0 < l.size <= |s|
  {
    if s[0] == '\'' then
      var n := StringLength(s[1..]);
      if n.None? then Unterminated else Found(Tok(String, Unescaped(s[1..1 + n.value])), n.value + 2)
    else if StartsNumber(s) then Found(Tok(Number, s[..NumberSize(s)]), NumberSize(s))
    else if IsAlpha(s[0]) then
      var word := s[..WordLength(s)];
      Found(Tok(if IsKeyword(word) then Keyword else Identifier, word), WordLength(s))
    else if IsSymbol(s[0]) then Found(Tok(Symbol, s[..1]), 1)
    else
      var run := s[..RunLength(s)];
      if run in OPERATORS then Found(Tok(Operator, run), RunLength(s)) else Dropped(RunLength(s))
  }

  // ---- Nothing beyond a token changes it ----

  lemma {:induction false} SpacesCut(s: string, e: nat)
    requires Spaces(s) <= e <= |s|
    ensures Spaces(s[..e]) == Spaces(s)
  {
    if s != [] && IsSpace(s[0]) {
      SpacesCut(s[1..], e - 1);
      assert s[..e][1..] == s[1..][..e - 1];
    }
  }

  lemma {:induction false} WordCut(s: string, e: nat)
    requires WordLength(s) <= e <= |s|
    ensures WordLength(s[..e]) == WordLength(s)
  {
    if s != [] && IsWord(s[0]) {
      WordCut(s[1..], e - 1);
      assert s[..e][1..] == s[1..][..e - 1];
    }
  }

  lemma {:induction false} NumberCut(s: string, hasPoint: bool, e: nat)
    requires NumberLength(s, hasPoint) <= e <= |s|
    ensures NumberLength(s[..e], hasPoint) == NumberLength(s, hasPoint)
  {
    if s != [] && e > 0 {
      assert s[..e][1..] == s[1..][..e - 1];
      if IsDigit(s[0]) {
        NumberCut(s[1..], hasPoint, e - 1);
      } else if !hasPoint && s[0] == '.' && |s| > 1 && IsDigit(s[1]) {
        NumberCut(s[1..], true, e - 1);
      }
    }
  }

  lemma {:induction false} RunCut(s: string, e: nat)
    requires RunLength(s) <= e <= |s|
    ensures RunLength(s[..e]) == RunLength(s)
  {
    if s != [] && !EndsRun(s[0]) {
      RunCut(s[1..], e - 1);
      assert s[..e][1..] == s[1..][..e - 1];
    }
  }

  lemma {:induction false} StringCut(s: string, e: nat)
    requires StringLength(s).Some? && StringLength(s).value < e <= |s|
    ensures StringLength(s[..e]) == StringLength(s)
  {
    if s[0] == '\'' && |s| > 1 && s[1] == '\'' {
      StringCut(s[2..], e - 2);
      assert s[..e][2..] == s[2..][..e - 2];
    } else if s[0] != '\'' {
      StringCut(s[1..], e - 1);
      assert s[..e][1..] == s[1..][..e - 1];
    }
  }

  lemma {:induction false} LexCut(s: string, e: nat)
    requires s != [] && !IsSpace(s[0]) && !Lex(s).Unterminated? && Lex(s).size <= e <= |s|
    ensures Lex(s[..e]) == Lex(s)
  {
    var c := s[..e];
    assert c[0] == s[0];
    if s[0] == '\'' {
      QuotedCut(s, e);
    } else if StartsNumber(s) {
      NumberSizeCut(s, e);
      assert c[..NumberSize(s)] == s[..NumberSize(s)];
    } else {
      StartsNumberCut(s, e);
      OtherCut(s, e);
    }
  }

  lemma {:induction false} QuotedCut(s: string, e: nat)
    requires s != [] && s[0] == '\'' && StringLength(s[1..]).Some? && StringLength(s[1..]).value + 2 <= e <= |s|
    ensures Lex(s[..e]) == Lex(s)
  {
    var c, n := s[..e], StringLength(s[1..]).value;
    StringCut(s[1..], e - 1);
    assert c[1..] == s[1..][..e - 1];
    assert c[1..1 + n] == s[1..1 + n];
  }

  lemma {:induction false} StartsNumberCut(s: string, e: nat)
    requires 0 < e <= |s| && !StartsNumber(s)
    ensures !StartsNumber(s[..e])
  {
  }

  lemma {:induction false} OtherCut(s: string, e: nat)
    requires s != [] && !IsSpace(s[0]) && s[0] != '\'' && !StartsNumber(s) && Lex(s).size <= e <= |s|
    requires e > 0 && !StartsNumber(s[..e])
    ensures Lex(s[..e]) == Lex(s)
  {
    var c := s[..e];
    assert c[0] == s[0];
    if IsAlpha(s[0]) {
      WordCut(s, e);
      assert c[..WordLength(s)] == s[..WordLength(s)];
    } else if IsSymbol(s[0]) {
      assert c[..1] == s[..1];
    } else {
      RunCut(s, e);
      assert c[..RunLength(s)] == s[..RunLength(s)];
    }
  }

  lemma {:induction false} NumberSizeCut(s: string, e: nat)
    requires StartsNumber(s) && NumberSize(s) <= e <= |s|
    ensures StartsNumber(s[..e]) && NumberSize(s[..e]) == NumberSize(s)
  {
    if s[0] == '-' {
      NumberCut(s[1..], false, e - 1);
      assert s[..e][1..] == s[1..][..e - 1];
    } else {
      NumberCut(s, false, e);
    }
  }

  // ---- The tokens of a text ----

  /** What the tokenizer does next: stop, or skip some spaces and take a token or drop
      a run. */
  datatype Scan = Stop | Go(lead: nat, tok: Option<Tok>, size: nat)

  type Scanner = string -> Scan

  function ScanText(s: string): Scan {
    var rest := s[Spaces(s)..];
    if rest == [] then Stop
    else
      match Lex(rest)
      case Unterminated => Stop
      case Dropped(n) => Go(Spaces(s), None, n)
      case Found(tok, n) => Go(Spaces(s), Some(tok), n)
  }

  predicate GoesOn(scan: Scanner, s: string) {
    scan(s).Go? && 0 < scan(s).size && scan(s).lead + scan(s).size <= |s|
  }

  function Used(scan: Scanner, s: string): nat
    requires GoesOn(scan, s)
  {
    scan(s).lead + scan(s).size
  }

  function First(scan: Scanner, s: string, base: nat): seq<Token>
    requires GoesOn(scan, s)
  {
    var g := scan(s);
    if g.tok.Some? then [Token(g.tok.value, base + g.lead, base + g.lead + g.size)] else []
  }

  /** The tokens of a text that starts at the given position. */
  function TokensBy(scan: Scanner, s: string, base: nat): seq<Token>
    decreases |s|
  {
    if !GoesOn(scan, s) then []
    else First(scan, s, base) + TokensBy(scan, s[Used(scan, s)..], base + Used(scan, s))
  }

  function Tokens(text: string): seq<Token> {
    TokensBy(ScanText, text, 0)
  }

  /** What is taken does not depend on the text behind it, nor on skipped spaces. */
  ghost predicate LooksNoFurther(scan: Scanner) {
    && !GoesOn(scan, [])
    && (forall s: string, e: nat :: GoesOn(scan, s) && Used(scan, s) <= e <= |s| ==> scan(s[..e]) == scan(s))
    && (forall s: string :: GoesOn(scan, s) ==> scan(s[scan(s).lead..]) == scan(s).(lead := 0))
  }

  lemma {:induction false} ScanLooksNoFurther()
    ensures LooksNoFurther(ScanText)
  {
    forall s: string, e: nat | GoesOn(ScanText, s) && Used(ScanText, s) <= e <= |s|
      ensures ScanText(s[..e]) == ScanText(s)
    {
      SpacesCut(s, e);
      LexCut(s[Spaces(s)..], e - Spaces(s));
      assert s[..e][Spaces(s)..] == s[Spaces(s)..][..e - Spaces(s)];
    }
    forall s: string | GoesOn(ScanText, s)
      ensures ScanText(s[ScanText(s).lead..]) == ScanText(s).(lead := 0)
    {
      var rest := s[Spaces(s)..];
      assert Spaces(rest) == 0 && rest[0..] == rest;
    }
  }

  // ---- Slices, for any function that tokenizes by a scanner ----

  type Tokenizer = (string, nat) -> seq<Token>

  ghost predicate Unfolds(toks: Tokenizer, scan: Scanner, s: string, base: nat) {
    toks(s, base) ==
    if GoesOn(scan, s) then First(scan, s, base) + toks(s[Used(scan, s)..], base + Used(scan, s)) else []
  }

  ghost predicate Tokenizes(toks: Tokenizer, scan: Scanner) {
    forall s: string, base: nat :: Unfolds(toks, scan, s, base)
  }

  /** A token lies inside the text. */
  lemma {:induction false} TokenInside(toks: Tokenizer, scan: Scanner, s: string, base: nat, k: nat)
    requires Tokenizes(toks, scan) && k < |toks(s, base)|
    ensures base <= toks(s, base)[k].lo < toks(s, base)[k].hi <= base + |s|
    decreases |s|
  {
    assert Unfolds(toks, scan, s, base);
    var first, n := First(scan, s, base), Used(scan, s);
    if k >= |first| {
      TokenInside(toks, scan, s[n..], base + n, k - |first|);
    }
  }

  /** Cut behind a token, a text has the tokens up to there. */
  lemma {:induction false} TokensCut(toks: Tokenizer, scan: Scanner, s: string, base: nat, j: nat)
    requires Tokenizes(toks, scan) && LooksNoFurther(scan) && 0 < j <= |toks(s, base)|
    ensures var e := toks(s, base)[j - 1].hi - base;
            0 <= e <= |s| && toks(s[..e], base) == toks(s, base)[..j]
    decreases |s|
  {
    assert Unfolds(toks, scan, s, base);
    TokenInside(toks, scan, s, base, j - 1);
    var first, n := First(scan, s, base), Used(scan, s);
    var e := toks(s, base)[j - 1].hi - base;
    var later := s[n..];
    if j > |first| {
      TokenInside(toks, scan, later, base + n, j - |first| - 1);
      TokensCut(toks, scan, later, base + n, j - |first|);
    } else {
      NothingLeft(toks, scan, later[..0], base + n);
    }
    FirstStays(toks, scan, s, base, e);
  }

  /** Cut anywhere behind its first token, a text still starts with that token. */
  lemma {:induction false} FirstStays(toks: Tokenizer, scan: Scanner, s: string, base: nat, e: nat)
    requires Tokenizes(toks, scan) && LooksNoFurther(scan) && GoesOn(scan, s) && Used(scan, s) <= e <= |s|
    ensures var n := Used(scan, s);
            toks(s[..e], base) == First(scan, s, base) + toks(s[n..][..e - n], base + n)
  {
    var n := Used(scan, s);
    assert s[..e][n..] == s[n..][..e - n];
    assert Unfolds(toks, scan, s[..e], base);
  }

  /** From where a token starts, a text has that token and the ones behind it. */
  lemma {:induction false} TokensFrom(toks: Tokenizer, scan: Scanner, s: string, base: nat, i: nat)
    requires Tokenizes(toks, scan) && LooksNoFurther(scan) && i < |toks(s, base)|
    ensures var d := toks(s, base)[i].lo - base;
            0 <= d <= |s| && toks(s[d..], base + d) == toks(s, base)[i..]
    decreases |s|
  {
    assert Unfolds(toks, scan, s, base);
    TokenInside(toks, scan, s, base, i);
    var first, n := First(scan, s, base), Used(scan, s);
    var d := toks(s, base)[i].lo - base;
    if i >= |first| {
      TokenInside(toks, scan, s[n..], base + n, i - |first|);
      TokensFrom(toks, scan, s[n..], base + n, i - |first|);
      assert s[d..] == s[n..][d - n..];
    } else {
      var lead := scan(s).lead;
      assert d == lead;
      assert Unfolds(toks, scan, s[lead..], base + lead);
      assert s[lead..][n - lead..] == s[n..];
    }
  }

  lemma {:induction false} SliceBy(toks: Tokenizer, scan: Scanner, text: string, i: nat, j: nat)
    requires Tokenizes(toks, scan) && LooksNoFurther(scan) && i < j <= |toks(text, 0)|
    ensures var lo, hi := toks(text, 0)[i].lo, toks(text, 0)[j - 1].hi;
            lo <= hi <= |text| && toks(text[lo..hi], lo) == toks(text, 0)[i..j]
  {
    var ts := toks(text, 0);
    var lo, hi := ts[i].lo, ts[j - 1].hi;
    TokensFrom(toks, scan, text, 0, i);
    var tail := text[lo..];
    assert ts[i..][j - i - 1] == ts[j - 1];
    TokensCut(toks, scan, tail, lo, j - i);
    assert tail[..hi - lo] == text[lo..hi];
    assert ts[i..][..j - i] == ts[i..j];
  }

  function Bare(ts: seq<Token>): (toks: seq<Tok>)
    ensures |toks| == |ts|
  {
    seq(|ts|, i requires 0 <= i < |ts| => ts[i].tok)
  }

  lemma {:induction false} BareJoined(a: seq<Token>, b: seq<Token>)
    ensures Bare(a + b) == Bare(a) + Bare(b)
  {
  }

  lemma {:induction false} BaseDoesNotMatter(toks: Tokenizer, scan: Scanner, s: string, a: nat, b: nat)
    requires Tokenizes(toks, scan)
    ensures Bare(toks(s, a)) == Bare(toks(s, b))
    decreases |s|
  {
    assert Unfolds(toks, scan, s, a) && Unfolds(toks, scan, s, b);
    if GoesOn(scan, s) {
      var n := Used(scan, s);
      BaseDoesNotMatter(toks, scan, s[n..], a + n, b + n);
      BareJoined(First(scan, s, a), toks(s[n..], a + n));
      BareJoined(First(scan, s, b), toks(s[n..], b + n));
      assert Bare(First(scan, s, a)) == Bare(First(scan, s, b));
    }
  }

  function TokenizerOf(scan: Scanner): Tokenizer {
    (s: string, base: nat) => TokensBy(scan, s, base)
  }

  lemma {:induction false} TokenizerUnfolds(scan: Scanner)
    ensures Tokenizes(TokenizerOf(scan), scan)
  {
    forall s: string, base: nat
      ensures Unfolds(TokenizerOf(scan), scan, s, base)
    {
    }
  }

  /** The slice of a text from one token to another one tokenizes to exactly the
      tokens in between. */
  lemma {:induction false} SliceTokens(text: string, i: nat, j: nat)
    requires i < j <= |Tokens(text)|
    ensures var ts := Tokens(text);
            var lo, hi := ts[i].lo, ts[j - 1].hi;
            lo <= hi <= |text| && Bare(Tokens(text[lo..hi])) == Bare(ts[i..j])
  {
    var toks := TokenizerOf(ScanText);
    TokenizerUnfolds(ScanText);
    assert toks(text, 0) == Tokens(text);
    ScanLooksNoFurther();
    SliceBy(toks, ScanText, text, i, j);
    var lo, hi := Tokens(text)[i].lo, Tokens(text)[j - 1].hi;
    BaseDoesNotMatter(toks, ScanText, text[lo..hi], lo, 0);
    assert toks(text[lo..hi], 0) == Tokens(text[lo..hi]);
  }

  // ---- The tokenizer's loop ----

  /** Takes the token or drops the run at the position, behind the spaces there. */
  method TakeOne(text: string, pos: nat, ghost scan: Scanner) returns (found: Option<Token>, next: nat, done: bool)
    requires pos < |text| && scan == ScanText
    ensures done <==> !GoesOn(scan, text[pos..])
    ensures !done ==> next == pos + Used(scan, text[pos..])
    ensures !done ==> (if found.Some? then [found.value] else []) == First(scan, text[pos..], pos)
  {
    hide Lex, Spaces;
    var start := SkipSpaces(text, pos);
    assert text[pos..][Spaces(text[pos..])..] == text[start..];
    if start >= |text| {
      return None, start, true;
    }
    var l := Lex(text[start..]);
    if l.Unterminated? {
      return None, start, true;
    }
    next := start + l.size;
    done := false;
    found := if l.Found? then Some(Token(l.tok, start, next)) else None;
  }

  method Tokenize(text: string) returns (tokens: seq<Token>)
    ensures tokens == Tokens(text)
  {
    TokenizerUnfolds(ScanText);
    tokens := TokenizeBy(text, ScanText, TokenizerOf(ScanText));
  }

  method TokenizeBy(text: string, ghost scan: Scanner, ghost toks: Tokenizer) returns (tokens: seq<Token>)
    requires scan == ScanText && Tokenizes(toks, scan)
    ensures tokens == toks(text, 0)
  {
    tokens := [];
    var pos := 0;
    assert text[0..] == text;
    while pos < |text|
      invariant pos <= |text| && toks(text, 0) == tokens + toks(text[pos..], pos)
    {
      var found, next, done := StepOne(text, pos, scan, toks);
      if done {
        return;
      }
      tokens := tokens + found;
      pos := next;
    }
    NothingLeft(toks, scan, text[pos..], pos);
  }

  lemma {:induction false} NothingLeft(toks: Tokenizer, scan: Scanner, s: string, base: nat)
    requires Tokenizes(toks, scan) && s == []
    ensures toks(s, base) == []
  {
    assert Unfolds(toks, scan, s, base);
  }

  method StepOne(text: string, pos: nat, ghost scan: Scanner, ghost toks: Tokenizer) returns (found: seq<Token>, next: nat, done: bool)
    requires pos < |text| && scan == ScanText && Tokenizes(toks, scan)
    ensures done ==> toks(text[pos..], pos) == []
    ensures !done ==> pos < next <= |text| && toks(text[pos..], pos) == found + toks(text[next..], next)
  {
    assert Unfolds(toks, scan, text[pos..], pos);
    var token;
    token, next, done := TakeOne(text, pos, scan);
    found := if token.Some? then [token.value] else [];
    if !done {
      assert text[pos..][next - pos..] == text[next..];
    }
  }

  method SkipSpaces(text: string, from: nat) returns (pos: nat)
    requires from <= |text|
    ensures pos == from + Spaces(text[from..])
  {
    pos := from;
    while pos < |text| && IsSpace(text[pos])
      invariant from <= pos <= |text| && from + Spaces(text[from..]) == pos + Spaces(text[pos..])
    {
      assert text[pos..][1..] == text[pos + 1..];
      pos := pos + 1;
    }
  }
}
