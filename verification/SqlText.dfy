/** Expressions as text: what is printed tokenizes to the printed tokens, so it
    parses back; and every parsed expression can be printed. */
module SqlText {
  import opened SqlTokens
  import opened SqlOperands
  import opened SqlOperandText
  import opened SqlParser
  import opened SqlRoundTrip

  // ---- Tokens as text ----

  /** Every quote is written twice. */
  function Escaped(s: string): string {
    if s == [] then [] else (if s[0] == '\'' then "''" else [s[0]]) + Escaped(s[1..])
  }

  function TextOf(t: Tok): string {
    if t.kind.String? then "'" + Escaped(t.value) + "'" else t.value
  }

  /** Every token after a space. */
  function Spaced(ts: Toks): string {
    if ts == [] then [] else " " + TextOf(ts[0]) + Spaced(ts[1..])
  }

  /** Tokens with single spaces between them. */
  function TextOfAll(ts: Toks): string {
    if ts == [] then [] else TextOf(ts[0]) + Spaced(ts[1..])
  }

  function PrintText(e: Expr): string
    requires IsWellformed(e)
  {
    TextOfAll(Print(e, 0))
  }

  // ---- A token is found in its text ----

  predicate StartsSpaced(rest: string) {
    rest == [] || rest[0] == ' '
  }

  lemma {:induction false} WordFound(w: string, rest: string)
    requires (forall i :: 0 <= i < |w| ==> IsWord(w[i])) && StartsSpaced(rest)
    ensures WordLength(w + rest) == |w|
  {
    if w == [] {
      assert w + rest == rest;
    } else {
      WordFound(w[1..], rest);
      assert (w + rest)[1..] == w[1..] + rest;
    }
  }

  lemma {:induction false} RunFound(w: string, rest: string)
    requires (forall i :: 0 <= i < |w| ==> !EndsRun(w[i])) && StartsSpaced(rest)
    ensures RunLength(w + rest) == |w|
  {
    if w == [] {
      assert w + rest == rest;
    } else {
      RunFound(w[1..], rest);
      assert (w + rest)[1..] == w[1..] + rest;
    }
  }

  lemma {:induction false} NumberFound(w: string, hasPoint: bool, rest: string)
    requires NumberLength(w, hasPoint) == |w| && StartsSpaced(rest)
    ensures NumberLength(w + rest, hasPoint) == |w|
  {
    if w == [] {
      assert w + rest == rest;
    } else {
      assert (w + rest)[1..] == w[1..] + rest;
      if IsDigit(w[0]) {
        NumberFound(w[1..], hasPoint, rest);
      } else {
        NumberFound(w[1..], true, rest);
      }
    }
  }

  lemma {:induction false} StringFound(value: string, rest: string)
    requires StartsSpaced(rest)
    ensures StringLength(Escaped(value) + "'" + rest) == Some(|Escaped(value)|)
  {
    var s := Escaped(value) + "'" + rest;
    if value != [] {
      var behind := Escaped(value[1..]) + "'" + rest;
      StringFound(value[1..], rest);
      EscapedFirst(value, rest);
      PastEscaped(value[0], behind);
    }
  }

  lemma {:induction false} EscapedFirst(value: string, rest: string)
    requires value != []
    ensures Escaped(value) + "'" + rest == (if value[0] == '\'' then "''" else [value[0]]) + (Escaped(value[1..]) + "'" + rest)
  {
  }

  lemma {:induction false} PastEscaped(c: char, behind: string)
    requires StringLength(behind).Some?
    ensures StringLength((if c == '\'' then "''" else [c]) + behind) ==
            Some((if c == '\'' then 2 else 1) + StringLength(behind).value)
  {
    var s := (if c == '\'' then "''" else [c]) + behind;
    if c == '\'' {
      assert s[2..] == behind;
    } else {
      assert s[1..] == behind;
    }
  }

  lemma {:induction false} EscapedRoundTrip(value: string)
    ensures Unescaped(Escaped(value)) == value
  {
    if value != [] {
      EscapedRoundTrip(value[1..]);
      if value[0] == '\'' {
        assert Escaped(value)[2..] == Escaped(value[1..]);
      } else {
        assert Escaped(value)[1..] == Escaped(value[1..]);
      }
    }
  }

  predicate IsFound(t: Tok, rest: string) {
    var s := TextOf(t) + rest;
    TextOf(t) != [] && !IsSpace(s[0]) && Lex(s) == Found(t, |TextOf(t)|)
  }

  lemma {:induction false} StringTokenFound(t: Tok, rest: string)
    requires t.kind.String? && StartsSpaced(rest)
    ensures IsFound(t, rest)
  {
    StringFound(t.value, rest);
    EscapedRoundTrip(t.value);
    QuotedParts(Escaped(t.value), rest);
    LexQuoted("'" + Escaped(t.value) + "'" + rest, |Escaped(t.value)|);
  }

  lemma {:induction false} QuotedParts(inside: string, rest: string)
    ensures var s, n := "'" + inside + "'" + rest, |inside|;
            |s| > n + 1 && s[0] == '\'' && s[1..] == inside + "'" + rest && s[1..1 + n] == inside
  {
  }

  lemma {:induction false} LexQuoted(s: string, n: nat)
    requires s != [] && s[0] == '\'' && StringLength(s[1..]) == Some(n)
    ensures Lex(s) == Found(Tok(String, Unescaped(s[1..1 + n])), n + 2)
  {
  }

  lemma {:induction false} NameTokenFound(t: Tok, rest: string)
    requires (t.kind.Keyword? || t.kind.Identifier?) && IsLexeme(t) && StartsSpaced(rest)
    ensures IsFound(t, rest)
  {
    var s := t.value + rest;
    WordFound(t.value, rest);
    assert s[0] == t.value[0] && s[..|t.value|] == t.value;
  }

  lemma {:induction false} NumberTokenFound(t: Tok, rest: string)
    requires t.kind.Number? && IsLexeme(t) && StartsSpaced(rest)
    ensures IsFound(t, rest)
  {
    var s := t.value + rest;
    assert s[0] == t.value[0] && s[..|t.value|] == t.value;
    if t.value[0] == '-' {
      NumberFound(t.value[1..], false, rest);
      assert s[1..] == t.value[1..] + rest;
    } else {
      NumberFound(t.value, false, rest);
    }
  }

  lemma {:induction false} OperatorRuns(op: string)
    requires op in OPERATORS
    ensures op != [] && op[0] != '\'' && !StartsNumber(op) && !IsAlpha(op[0]) && !IsSymbol(op[0])
    ensures forall i :: 0 <= i < |op| ==> !EndsRun(op[i]) && op[i] != '-'
  {
  }

  lemma {:induction false} OperatorTokenFound(t: Tok, rest: string)
    requires t.kind.Operator? && IsLexeme(t) && StartsSpaced(rest)
    ensures IsFound(t, rest)
  {
    var s := t.value + rest;
    OperatorRuns(t.value);
    RunFound(t.value, rest);
    assert s[0] == t.value[0] && s[..|t.value|] == t.value;
  }

  lemma {:induction false} TokenFound(t: Tok, rest: string)
    requires IsLexeme(t) && StartsSpaced(rest)
    ensures IsFound(t, rest)
  {
    match t.kind
    case String => StringTokenFound(t, rest);
    case Number => NumberTokenFound(t, rest);
    case Operator => OperatorTokenFound(t, rest);
    case Symbol => assert (t.value + rest)[..1] == t.value;
    case _ => NameTokenFound(t, rest);
  }

  // ---- The tokens of printed text ----

  lemma {:induction false} SpacedStarts(ts: Toks)
    ensures StartsSpaced(Spaced(ts))
  {
  }

  /** The token, possibly after a space, is what the scanner takes next. */
  predicate Takes(scan: Scanner, t: Tok, rest: string) {
    var s, n := TextOf(t) + rest, |TextOf(t)|;
    n > 0 && scan(s) == Go(0, Some(t), n) && scan(" " + s) == Go(1, Some(t), n)
  }

  ghost predicate TakesAll(scan: Scanner, good: TokSet) {
    forall t, rest :: good(t) && StartsSpaced(rest) ==> Takes(scan, t, rest)
  }

  lemma {:induction false} ScanTakes(t: Tok, rest: string)
    requires IsLexeme(t) && StartsSpaced(rest)
    ensures Takes(ScanText, t, rest)
  {
    var s := TextOf(t) + rest;
    TokenFound(t, rest);
    assert Spaces(s) == 0 && s[0..] == s;
    assert (" " + s)[1..] == s;
    assert Spaces(" " + s) == 1;
  }

  lemma {:induction false} OneMoreToken(toks: Tokenizer, scan: Scanner, s: string, base: nat, t: Tok, lead: nat, size: nat)
    requires Tokenizes(toks, scan) && scan(s) == Go(lead, Some(t), size) && 0 < size && lead + size <= |s|
    ensures Bare(toks(s, base)) == [t] + Bare(toks(s[lead + size..], base + lead + size))
  {
    assert Unfolds(toks, scan, s, base);
    var n := lead + size;
    BareJoined(First(scan, s, base), toks(s[n..], base + n));
    assert Bare(First(scan, s, base)) == [t];
  }

  lemma {:induction false} SpacedTokens(toks: Tokenizer, scan: Scanner, good: TokSet, ts: Toks, base: nat)
    requires Tokenizes(toks, scan) && TakesAll(scan, good) && !GoesOn(scan, []) && AllIn(ts, good)
    ensures Bare(toks(Spaced(ts), base)) == ts
    decreases |ts|
  {
    if ts == [] {
      NothingIn(toks, scan, base);
    } else {
      var t, rest, n := ts[0], Spaced(ts[1..]), |TextOf(ts[0])|;
      SpacedStarts(ts[1..]);
      assert Takes(scan, t, rest);
      SpacedParts(TextOf(t), rest);
      assert Spaced(ts) == " " + TextOf(t) + rest;
      OneMoreToken(toks, scan, Spaced(ts), base, t, 1, n);
      SpacedTokens(toks, scan, good, ts[1..], base + 1 + n);
    }
  }

  lemma {:induction false} SpacedParts(word: string, rest: string)
    ensures var s := " " + word + rest; s == " " + (word + rest) && s[1 + |word|..] == rest
  {
  }

  lemma {:induction false} NothingIn(toks: Tokenizer, scan: Scanner, base: nat)
    requires Tokenizes(toks, scan) && !GoesOn(scan, [])
    ensures toks([], base) == []
  {
    assert Unfolds(toks, scan, [], base);
  }

  lemma {:induction false} TextTokensBy(toks: Tokenizer, scan: Scanner, good: TokSet, ts: Toks)
    requires Tokenizes(toks, scan) && TakesAll(scan, good) && !GoesOn(scan, []) && AllIn(ts, good)
    ensures Bare(toks(TextOfAll(ts), 0)) == ts
  {
    if ts == [] {
      NothingIn(toks, scan, 0);
    } else {
      var t, rest, n := ts[0], Spaced(ts[1..]), |TextOf(ts[0])|;
      SpacedStarts(ts[1..]);
      assert Takes(scan, t, rest);
      assert TextOfAll(ts)[n..] == rest;
      OneMoreToken(toks, scan, TextOfAll(ts), 0, t, 0, n);
      SpacedTokens(toks, scan, good, ts[1..], n);
    }
  }

  /** The text of tokens tokenizes to them. */
  lemma {:induction false} TextTokens(ts: Toks)
    requires AllIn(ts, IsLexeme)
    ensures Bare(Tokens(TextOfAll(ts))) == ts
  {
    var toks := TokenizerOf(ScanText);
    TokenizerUnfolds(ScanText);
    ScanLooksNoFurther();
    forall t, rest | IsLexeme(t) && StartsSpaced(rest)
      ensures Takes(ScanText, t, rest)
    {
      ScanTakes(t, rest);
    }
    TextTokensBy(toks, ScanText, IsLexeme, ts);
    assert toks(TextOfAll(ts), 0) == Tokens(TextOfAll(ts));
  }

  // ---- Printed expressions ----

  /** Column names are names, and no keywords; numbers are numbers, and an operator
      that is a keyword is a word. */
  predicate IsWritable(e: Expr) {
    match e
    case IsNull(o, _) => OperandIsWritable(o)
    case InList(o, _, items) => OperandIsWritable(o) && forall i :: 0 <= i < |items| ==> OperandIsWritable(items[i])
    case Compare(op, a, b) => OperandIsWritable(a) && OperandIsWritable(b) && (op !in OPERATORS ==> IsName(op))
    case And(_, a, b) => IsWritable(a) && IsWritable(b)
    case Or(_, a, b) => IsWritable(a) && IsWritable(b)
  }

  // The tokens of an expression, for any set of tokens.

  predicate PartsIn(e: Expr, good: TokSet) {
    match e
    case IsNull(o, _) => AllIn(PrintOperand(o), good)
    case InList(o, _, items) => AllIn(PrintOperand(o), good) && ListIn(items, good)
    case Compare(op, a, b) => AllIn(PrintOperand(a), good) && AllIn(PrintOp(op), good) && AllIn(PrintOperand(b), good)
    case And(word, a, b) => good(Tok(Keyword, word)) && PartsIn(a, good) && PartsIn(b, good)
    case Or(word, a, b) => good(Tok(Keyword, word)) && PartsIn(a, good) && PartsIn(b, good)
  }

  lemma {:induction false} ItemsAllIn(items: seq<Operand>, good: TokSet)
    requires items != [] && ListIn(items, good) && HasWords(good)
    ensures AllIn(PrintItems(items), good)
  {
    if |items| == 1 {
      JoinedIn(PrintOperand(items[0]), Word(Symbol, ")"), good);
    } else {
      ItemsAllIn(items[1..], good);
      JoinedIn(Word(Symbol, ","), PrintItems(items[1..]), good);
      JoinedIn(PrintOperand(items[0]), Word(Symbol, ",") + PrintItems(items[1..]), good);
    }
  }

  lemma {:induction false} TailIn(e: Expr, good: TokSet)
    requires IsWellformed(e) && !e.And? && !e.Or? && PartsIn(e, good) && HasWords(good)
    ensures AllIn(PrintTail(e), good)
  {
    match e
    case IsNull(_, negated) =>
      JoinedIn(Word(Keyword, "is"), PrintNot(negated), good);
      JoinedIn(Word(Keyword, "is") + PrintNot(negated), Word(Keyword, "null"), good);
    case InList(_, negated, items) =>
      ItemsAllIn(items, good);
      JoinedIn(PrintNot(negated), Word(Keyword, "in"), good);
      JoinedIn(PrintNot(negated) + Word(Keyword, "in"), Word(Symbol, "("), good);
      JoinedIn(PrintNot(negated) + Word(Keyword, "in") + Word(Symbol, "("), PrintItems(items), good);
    case Compare(op, _, b) => JoinedIn(PrintOp(op), PrintOperand(b), good);
  }

  lemma {:induction false} PlainIn(e: Expr, good: TokSet)
    requires IsWellformed(e) && PartsIn(e, good) && HasWords(good)
    ensures AllIn(PrintPlain(e), good)
    decreases e, 0
  {
    match e
    case And(word, a, b) => LinkedIn(a, 1, word, b, 2, good);
    case Or(word, a, b) => LinkedIn(a, 0, word, b, 1, good);
    case _ =>
      TailIn(e, good);
      LeafIsOperandAndTail(e);
      JoinedIn(PrintOperand(LeftOf(e)), PrintTail(e), good);
  }

  lemma {:induction false} LinkedIn(a: Expr, l: nat, word: string, b: Expr, m: nat, good: TokSet)
    requires IsWellformed(a) && PartsIn(a, good) && IsWellformed(b) && PartsIn(b, good) && good(Tok(Keyword, word)) && HasWords(good)
    ensures AllIn(Print(a, l) + Word(Keyword, word) + Print(b, m), good)
    decreases if a < b then b else a, 2
  {
    PrintedIn(a, l, good);
    PrintedIn(b, m, good);
    JoinedIn(Print(a, l), Word(Keyword, word), good);
    JoinedIn(Print(a, l) + Word(Keyword, word), Print(b, m), good);
  }

  lemma {:induction false} PrintedIn(e: Expr, level: nat, good: TokSet)
    requires IsWellformed(e) && PartsIn(e, good) && HasWords(good)
    ensures AllIn(Print(e, level), good)
    decreases e, 1
  {
    PlainIn(e, good);
    JoinedIn(Word(Symbol, "("), PrintPlain(e), good);
    JoinedIn(Word(Symbol, "(") + PrintPlain(e), Word(Symbol, ")"), good);
  }

  // Lexemes.

  lemma {:induction false} LinkWord(word: string)
    requires Lower(word) == "and" || Lower(word) == "or"
    ensures IsLexeme(Tok(Keyword, word))
  {
    assert CONDITION_WORDS[0] == "and" && CONDITION_WORDS[1] == "or";
    forall i | 0 <= i < |word|
      ensures IsAlpha(word[i])
    {
      assert Lower(word)[i] == LowerChar(word[i]);
    }
  }

  lemma {:induction false} OpLexemes(op: string)
    requires op in OPERATORS || (IsKeyword(op) && IsName(op))
    ensures AllIn(PrintOp(op), IsLexeme)
  {
  }

  lemma {:induction false} PartsAreLexemes(e: Expr)
    requires IsWellformed(e) && IsWritable(e)
    ensures PartsIn(e, IsLexeme)
  {
    match e
    case IsNull(o, _) => OperandLexemes(o);
    case InList(o, _, items) =>
      OperandLexemes(o);
      forall i | 0 <= i < |items|
        ensures AllIn(PrintOperand(items[i]), IsLexeme)
      {
        OperandLexemes(items[i]);
      }
    case Compare(op, a, b) =>
      OperandLexemes(a);
      OpLexemes(op);
      OperandLexemes(b);
    case And(word, a, b) =>
      LinkWord(word);
      PartsAreLexemes(a);
      PartsAreLexemes(b);
    case Or(word, a, b) =>
      LinkWord(word);
      PartsAreLexemes(a);
      PartsAreLexemes(b);
  }

  lemma {:induction false} PartsParseBack(e: Expr)
    requires IsWellformed(e) && PartsIn(e, IsLexeme)
    ensures ParseOr(Bare(Tokens(PrintText(e)))) == Some((e, []))
  {
    FixedWords();
    PrintedIn(e, 0, IsLexeme);
    TextTokens(Print(e, 0));
    PrintedParsesBack(e);
  }

  /** The text of an expression tokenizes and parses back to the same tree. */
  lemma {:induction false} TextParsesBack(e: Expr)
    requires IsWellformed(e) && IsWritable(e)
    ensures ParseOr(Bare(Tokens(PrintText(e)))) == Some((e, []))
  {
    PartsAreLexemes(e);
    PartsParseBack(e);
  }

  // ---- Parsed expressions ----

  /** Every token of a text is one that its own text gives back. */
  lemma {:induction false} LexIsLexeme(s: string)
    requires s != [] && !IsSpace(s[0]) && Lex(s).Found?
    ensures IsLexeme(Lex(s).tok)
  {
    if s[0] != '\'' {
      if StartsNumber(s) {
        NumberSizeCut(s, NumberSize(s));
      } else if IsAlpha(s[0]) {
        WordsOnly(s);
      }
    }
  }

  lemma {:induction false} WordsOnly(s: string)
    ensures forall i :: 0 <= i < WordLength(s) ==> IsWord(s[i])
    ensures s != [] && IsAlpha(s[0]) ==> WordLength(s) > 0
  {
    if s != [] && IsWord(s[0]) {
      WordsOnly(s[1..]);
      assert forall i :: 0 < i < WordLength(s) ==> s[i] == s[1..][i - 1];
    }
  }

  ghost predicate TakesOnly(scan: Scanner, good: TokSet) {
    forall s :: GoesOn(scan, s) && scan(s).tok.Some? ==> good(scan(s).tok.value)
  }

  lemma {:induction false} TokensIn(toks: Tokenizer, scan: Scanner, good: TokSet, s: string, base: nat)
    requires Tokenizes(toks, scan) && TakesOnly(scan, good)
    ensures AllIn(Bare(toks(s, base)), good)
    decreases |s|
  {
    assert Unfolds(toks, scan, s, base);
    if GoesOn(scan, s) {
      var n := Used(scan, s);
      TokensIn(toks, scan, good, s[n..], base + n);
      BareJoined(First(scan, s, base), toks(s[n..], base + n));
    }
  }

  lemma {:induction false} TextLexemes(text: string)
    ensures AllIn(Bare(Tokens(text)), IsLexeme)
  {
    var toks := TokenizerOf(ScanText);
    TokenizerUnfolds(ScanText);
    forall s | GoesOn(ScanText, s) && ScanText(s).tok.Some?
      ensures IsLexeme(ScanText(s).tok.value)
    {
      LexIsLexeme(s[Spaces(s)..]);
    }
    TokensIn(toks, ScanText, IsLexeme, text, 0);
    assert toks(text, 0) == Tokens(text);
  }

  ghost predicate ResultIn(r: Parsed<Expr>, good: TokSet) {
    r.Some? ==> IsWellformed(r.value.0) && PartsIn(r.value.0, good) && AllIn(r.value.1, good)
  }

  ghost predicate ListedIn(r: Parsed<seq<Operand>>, good: TokSet) {
    r.Some? ==> r.value.0 != [] && ListIn(r.value.0, good) && AllItems(r.value.0) && AllIn(r.value.1, good)
  }

  lemma {:induction false} ItemsParsedIn(ts: Toks, good: TokSet)
    requires AllIn(ts, good)
    ensures ListedIn(ParseItems(ts), good)
  {
    if ParseItems(ts).Some? {
      ItemIn(ts, good);
      SuffixIn(ts, 2, good);
      if IsAt(ts[1..], Symbol, ",") {
        var others := ParseItems(ts[2..]);
        ItemsParsedIn(ts[2..], good);
        ItemsAdded(ItemOf(ts[0]), others.value.0, good);
      } else {
        ItemsAdded(ItemOf(ts[0]), [], good);
        assert [ItemOf(ts[0])] + [] == [ItemOf(ts[0])];
        assert ParseItems(ts) == Some(([ItemOf(ts[0])], ts[2..]));
      }
    }
  }

  lemma {:induction false} ItemIn(ts: Toks, good: TokSet)
    requires AllIn(ts, good) && ts != [] && (ts[0].kind.Number? || ts[0].kind.String?)
    ensures AllIn(PrintOperand(ItemOf(ts[0])), good) && IsItem(ItemOf(ts[0]))
  {
    assert good(ts[0]);
  }

  lemma {:induction false} ItemsAdded(item: Operand, items: seq<Operand>, good: TokSet)
    requires AllIn(PrintOperand(item), good) && IsItem(item) && ListIn(items, good) && AllItems(items)
    ensures ListIn([item] + items, good) && AllItems([item] + items)
  {
  }

  lemma {:induction false} ComparedIn(left: Operand, ts: Toks, good: TokSet)
    requires IsOperand(left) && OperandFound(Some((left, ts)), good) && FitsKinds(good)
    requires ts != [] && !IsAt(ts, Keyword, "is") && !IsAt(ts, Keyword, "in")
    ensures ResultIn(ParseCompare(left, ts), good)
  {
    hide ParseOperand, IsOperand, HasWords;
    if ParseCompare(left, ts).Some? {
      assert good(ts[0]) && KindFits(ts[0]);
      SuffixIn(ts, 1, good);
      ParsedOperandFound(ts[1..], good);
      OperatorIsNoWord(ts[0]);
    }
  }

  lemma {:induction false} OperatorIsNoWord(t: Tok)
    requires KindFits(t) && (t.kind.Keyword? || t.kind.Operator?)
    ensures PrintOp(t.value) == [t]
  {
    if t.value in OPERATORS {
      OperatorRuns(t.value);
    }
  }

  lemma {:induction false} IsNullIn(left: Operand, ts: Toks, good: TokSet)
    requires IsOperand(left) && AllIn(PrintOperand(left), good) && AllIn(ts, good) && ts != []
    ensures ResultIn(ParseIsNull(left, ts), good)
  {
  }

  lemma {:induction false} InListIn(left: Operand, negated: bool, ts: Toks, good: TokSet)
    requires IsOperand(left) && AllIn(PrintOperand(left), good) && AllIn(ts, good)
    ensures ResultIn(ParseIn(left, negated, ts), good)
  {
    if ParseIn(left, negated, ts).Some? {
      SuffixIn(ts, 1, good);
      ItemsParsedIn(ts[1..], good);
      assert AllItems(ParseItems(ts[1..]).value.0);
    }
  }

  lemma {:induction false} TailParsedIn(left: Operand, ts: Toks, good: TokSet)
    requires IsOperand(left) && OperandFound(Some((left, ts)), good) && FitsKinds(good)
    ensures ResultIn(ParseTail(left, ts), good)
  {
    if IsAt(ts, Keyword, "is") {
      IsNullIn(left, ts, good);
    } else if StartsNotIn(ts) {
      SuffixIn(ts, 2, good);
      InListIn(left, true, ts[2..], good);
    } else if IsAt(ts, Keyword, "in") {
      SuffixIn(ts, 1, good);
      InListIn(left, false, ts[1..], good);
    } else if ts != [] {
      ComparedIn(left, ts, good);
    }
  }

  lemma {:induction false} ComparisonIn(ts: Toks, good: TokSet)
    requires AllIn(ts, good) && FitsKinds(good)
    ensures ResultIn(ParseComparison(ts), good)
    decreases |ts|, 0
  {
    if ParseComparison(ts).Some? {
      if !StartsSelect(ts) && IsAt(ts, Symbol, "(") {
        SuffixIn(ts, 1, good);
        OrIn(ts[1..], good);
        SuffixIn(ParseOr(ts[1..]).value.1, 1, good);
      } else {
        ParsedOperandFound(ts, good);
        TailParsedIn(ParseOperand(ts).value.0, ParseOperand(ts).value.1, good);
      }
    }
  }

  lemma {:induction false} AndIn(ts: Toks, good: TokSet)
    requires AllIn(ts, good) && FitsKinds(good)
    ensures ResultIn(ParseAnd(ts), good)
    decreases |ts|, 1
  {
    ComparisonIn(ts, good);
    if ParseComparison(ts).Some? {
      AndLoopIn(ParseComparison(ts).value.0, ParseComparison(ts).value.1, good);
    }
  }

  lemma {:induction false} AndLoopIn(left: Expr, ts: Toks, good: TokSet)
    requires IsWellformed(left) && PartsIn(left, good) && AllIn(ts, good) && FitsKinds(good)
    ensures ResultIn(AndLoop(left, ts), good)
    decreases |ts|, 2
  {
    if IsAt(ts, Keyword, "and") {
      SuffixIn(ts, 1, good);
      ComparisonIn(ts[1..], good);
      var right := ParseComparison(ts[1..]);
      if right.Some? {
        assert good(Tok(Keyword, ts[0].value));
        AndLoopIn(And(ts[0].value, left, right.value.0), right.value.1, good);
      }
    }
  }

  lemma {:induction false} OrIn(ts: Toks, good: TokSet)
    requires AllIn(ts, good) && FitsKinds(good)
    ensures ResultIn(ParseOr(ts), good)
    decreases |ts|, 3
  {
    AndIn(ts, good);
    if ParseAnd(ts).Some? {
      OrLoopIn(ParseAnd(ts).value.0, ParseAnd(ts).value.1, good);
    }
  }

  lemma {:induction false} OrLoopIn(left: Expr, ts: Toks, good: TokSet)
    requires IsWellformed(left) && PartsIn(left, good) && AllIn(ts, good) && FitsKinds(good)
    ensures ResultIn(OrLoop(left, ts), good)
    decreases |ts|, 4
  {
    if IsAt(ts, Keyword, "or") {
      SuffixIn(ts, 1, good);
      AndIn(ts[1..], good);
      var right := ParseAnd(ts[1..]);
      if right.Some? {
        assert good(Tok(Keyword, ts[0].value));
        OrLoopIn(Or(ts[0].value, left, right.value.0), right.value.1, good);
      }
    }
  }

  lemma {:induction false} LexemesFitKinds()
    ensures FitsKinds(IsLexeme)
  {
    FixedWords();
    assert NumberLength("1", false) == 1 + NumberLength("1"[1..], false);
    assert NumberLength("0", false) == 1 + NumberLength("0"[1..], false);
  }

  /** Whatever a text parses to, printing it gives a text that parses to the same. */
  lemma {:induction false} ParsedPrintsBack(text: string)
    requires ParseOr(Bare(Tokens(text))).Some?
    ensures var e := ParseOr(Bare(Tokens(text))).value.0;
            IsWellformed(e) && ParseOr(Bare(Tokens(PrintText(e)))) == Some((e, []))
  {
    var ts := Bare(Tokens(text));
    TextLexemes(text);
    LexemesFitKinds();
    OrIn(ts, IsLexeme);
    PartsParseBack(ParseOr(ts).value.0);
  }
}
