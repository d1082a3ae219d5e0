/** The tokens of the language, said without the tokenizer: with which token a text
    starts, and how long it is. */
module SqlLexicon {
  import opened SqlTokens
  import opened SqlText

  // ---- Words ----

  /** The same character, or the small letter of a capital one. */
  predicate SpellsChar(c: char, w: char) {
    if 'A' <= c <= 'Z' then 'a' <= w <= 'z' && w as int - 'a' as int == c as int - 'A' as int else w == c
  }

  predicate Spells(s: string, word: string) {
    |s| == |word| && forall i :: 0 <= i < |s| ==> SpellsChar(s[i], word[i])
  }

  /** Words are compared without regard to case. */
  lemma {:induction false} LowerIff(s: string, word: string)
    ensures Lower(s) == word <==> Spells(s, word)
  {
    if Spells(s, word) {
      forall i | 0 <= i < |s|
        ensures Lower(s)[i] == word[i]
      {
        assert SpellsChar(s[i], word[i]);
      }
    }
  }

  ghost predicate IsReserved(s: string) {
    exists word: string :: (word in CONDITION_WORDS || word in WINDOW_WORDS || word in OTHER_WORDS) && Spells(s, word)
  }

  lemma {:induction false} KeywordIff(s: string)
    ensures IsKeyword(s) <==> IsReserved(s)
  {
    LowerIff(s, Lower(s));
    if word: string :| (word in CONDITION_WORDS || word in WINDOW_WORDS || word in OTHER_WORDS) && Spells(s, word) {
      LowerIff(s, word);
    }
  }

  // ---- Numbers ----

  predicate Digits(s: string) {
    forall i :: 0 <= i < |s| ==> IsDigit(s[i])
  }

  /** k digits, and a point and more digits unless that is all. */
  predicate IsNumeral(v: string, k: nat) {
    && 0 < k <= |v| && Digits(v[..k])
    && (k == |v| || (v[k] == '.' && k + 1 < |v| && Digits(v[k + 1..])))
  }

  /** Nothing behind the first n characters goes on with a number that has k digits
      before its point. */
  predicate EndsNumeral(s: string, n: nat, k: nat)
    requires n <= |s|
  {
    n == |s| || (!IsDigit(s[n]) && !(k == n && s[n] == '.' && n + 1 < |s| && IsDigit(s[n + 1])))
  }

  ghost predicate StartsWithNumeral(s: string, n: nat) {
    n <= |s| && exists k: nat :: IsNumeral(s[..n], k) && EndsNumeral(s, n, k)
  }

  // ---- Tokens ----

  predicate StartsWithWord(s: string, n: nat) {
    && 0 < n <= |s| && IsAlpha(s[0]) && (forall i :: 0 <= i < n ==> IsWord(s[i]))
    && (n < |s| ==> !IsWord(s[n]))
  }

  predicate IsRun(s: string, n: nat) {
    n <= |s| && (forall i :: 0 <= i < n ==> !EndsRun(s[i])) && (n < |s| ==> EndsRun(s[n]))
  }

  predicate IsQuoted(s: string, value: string, n: nat) {
    var text := "'" + Escaped(value) + "'";
    n == |text| <= |s| && s[..n] == text && (n < |s| ==> s[n] != '\'')
  }

  /** The first n characters are the token: words and numbers reach as far as they can,
      a string up to a quote that is not doubled. */
  ghost predicate IsToken(s: string, t: Tok, n: nat) {
    match t.kind
    case String => IsQuoted(s, t.value, n)
    case Number =>
      && 0 < n <= |s| && t.value == s[..n]
      && if s[0] == '-' then StartsWithNumeral(s[1..], n - 1) else StartsWithNumeral(s, n)
    case Keyword => StartsWithWord(s, n) && t.value == s[..n] && IsReserved(t.value)
    case Identifier => StartsWithWord(s, n) && t.value == s[..n] && !IsReserved(t.value)
    case Symbol => n == 1 && s != [] && IsSymbol(s[0]) && t.value == s[..1]
    case Operator => IsRun(s, n) && t.value == s[..n] && t.value in OPERATORS
  }

  // ---- The tokenizer finds them ----

  lemma {:induction false} WordLengthIff(s: string, n: nat)
    ensures WordLength(s) == n <==> n <= |s| && (forall i :: 0 <= i < n ==> IsWord(s[i])) && (n < |s| ==> !IsWord(s[n]))
  {
    if s != [] && IsWord(s[0]) && n > 0 {
      WordLengthIff(s[1..], n - 1);
      assert n <= |s| ==> forall i :: 0 < i < n ==> s[i] == s[1..][i - 1];
      assert n < |s| ==> s[1..][n - 1] == s[n];
      if n <= |s| && forall i :: 0 <= i < n ==> IsWord(s[i]) {
        assert forall i :: 0 <= i < n - 1 ==> s[1..][i] == s[i + 1];
      }
    }
  }

  lemma {:induction false} RunLengthIff(s: string, n: nat)
    ensures RunLength(s) == n <==> IsRun(s, n)
  {
    if s != [] && !EndsRun(s[0]) && n > 0 {
      RunLengthIff(s[1..], n - 1);
      assert n <= |s| ==> forall i :: 0 < i < n ==> s[i] == s[1..][i - 1];
      if IsRun(s, n) {
        assert forall i :: 0 <= i < n - 1 ==> s[1..][i] == s[i + 1];
      }
    }
  }

  lemma {:induction false} DigitsLengthIff(s: string, n: nat)
    ensures NumberLength(s, true) == n <==> n <= |s| && Digits(s[..n]) && (n < |s| ==> !IsDigit(s[n]))
  {
    if s != [] && IsDigit(s[0]) && n > 0 {
      DigitsLengthIff(s[1..], n - 1);
      if n <= |s| {
        assert s[..n] == [s[0]] + s[1..][..n - 1];
        assert Digits(s[..n]) <==> Digits(s[1..][..n - 1]) by {
          assert forall i :: 0 < i < n ==> s[..n][i] == s[1..][..n - 1][i - 1];
        }
      }
    } else if s != [] && !IsDigit(s[0]) && 0 < n <= |s| {
      assert s[..n][0] == s[0];
    }
  }

  lemma {:induction false} NumeralStarts(s: string, n: nat)
    requires s != [] && IsDigit(s[0])
    ensures NumberLength(s, false) == n ==> StartsWithNumeral(s, n)
  {
    var rest := s[1..];
    if NumberLength(s, false) == n {
      if rest == [] {
        assert IsNumeral(s[..1], 1) && EndsNumeral(s, 1, 1);
      } else if IsDigit(rest[0]) {
        NumeralStarts(rest, n - 1);
        var k: nat :| IsNumeral(rest[..n - 1], k) && EndsNumeral(rest, n - 1, k);
        OneMoreDigit(s, n, k);
      } else if rest[0] == '.' && |rest| > 1 && IsDigit(rest[1]) {
        var m := NumberLength(rest[1..], true);
        DigitsLengthIff(rest[1..], m);
        assert n == m + 2;
        assert s[..n][..1] == [s[0]] && s[..n][2..] == rest[1..][..m];
        assert m > 0;
        assert IsNumeral(s[..n], 1) && EndsNumeral(s, n, 1);
      } else {
        assert IsNumeral(s[..1], 1) && EndsNumeral(s, 1, 1);
      }
    }
  }

  lemma {:induction false} OneMoreDigit(s: string, n: nat, k: nat)
    requires 1 < n <= |s| && IsDigit(s[0]) && IsNumeral(s[1..][..n - 1], k) && EndsNumeral(s[1..], n - 1, k)
    ensures IsNumeral(s[..n], k + 1) && EndsNumeral(s, n, k + 1)
  {
    var v, w := s[1..][..n - 1], s[..n];
    assert w[0] == s[0] && w[1..] == v;
    assert w == [w[0]] + w[1..];
    assert w[..k + 1] == [s[0]] + v[..k];
    assert k + 1 < |w| ==> w[k + 2..] == v[k + 1..];
  }

  /** Only one size reaches as far as a number can. */
  lemma {:induction false} OneNumeral(s: string, n: nat, m: nat)
    requires StartsWithNumeral(s, n) && StartsWithNumeral(s, m)
    ensures n == m
  {
    var k: nat :| IsNumeral(s[..n], k) && EndsNumeral(s, n, k);
    var l: nat :| IsNumeral(s[..m], l) && EndsNumeral(s, m, l);
    if n < m {
      LongerNumeral(s, n, k, m, l);
    } else if m < n {
      LongerNumeral(s, m, l, n, k);
    }
  }

  lemma {:induction false} LongerNumeral(s: string, n: nat, k: nat, m: nat, l: nat)
    requires n < m <= |s| && IsNumeral(s[..n], k) && IsNumeral(s[..m], l)
    ensures !EndsNumeral(s, n, k)
  {
    assert forall i :: 0 <= i < k ==> s[..n][..k][i] == s[i];
    assert forall i :: 0 <= i < l ==> s[..m][..l][i] == s[i];
    assert k < n ==> s[..n][k] == s[k] && forall i :: k < i < n ==> s[..n][k + 1..][i - k - 1] == s[i];
    assert l < m ==> s[..m][l] == s[l] && forall i :: l < i < m ==> s[..m][l + 1..][i - l - 1] == s[i];
    assert forall i :: 0 <= i < k ==> IsDigit(s[i]);
    assert forall i :: 0 <= i < l ==> IsDigit(s[i]);
    if l == n {
      assert k == n;
      assert s[n] == '.' && IsDigit(s[n + 1]);
    } else {
      assert IsDigit(s[n]);
    }
  }

  lemma {:induction false} NumberLengthIff(s: string, n: nat)
    requires s != [] && IsDigit(s[0])
    ensures NumberLength(s, false) == n <==> StartsWithNumeral(s, n)
  {
    NumeralStarts(s, NumberLength(s, false));
    if StartsWithNumeral(s, n) {
      OneNumeral(s, n, NumberLength(s, false));
    }
  }

  // ---- Strings ----

  lemma {:induction false} QuoteEnds(value: string, rest: string)
    requires rest == [] || rest[0] != '\''
    ensures StringLength(Escaped(value) + "'" + rest) == Some(|Escaped(value)|)
  {
    var s := Escaped(value) + "'" + rest;
    if value != [] {
      QuoteEnds(value[1..], rest);
      EscapedFirst(value, rest);
      PastEscaped(value[0], Escaped(value[1..]) + "'" + rest);
    }
  }

  lemma {:induction false} EscapedIs(s: string)
    requires StringLength(s).Some?
    ensures var n := StringLength(s).value;
            Escaped(Unescaped(s[..n])) == s[..n] && (n + 1 < |s| ==> s[n + 1] != '\'')
  {
    var n := StringLength(s).value;
    if s[0] == '\'' && |s| > 1 && s[1] == '\'' {
      EscapedIs(s[2..]);
      assert s[..n][2..] == s[2..][..n - 2];
      assert s[..n] == "''" + s[2..][..n - 2];
      assert Unescaped(s[..n])[1..] == Unescaped(s[2..][..n - 2]);
    } else if s[0] != '\'' {
      EscapedIs(s[1..]);
      assert s[..n][1..] == s[1..][..n - 1];
      assert s[..n] == [s[0]] + s[1..][..n - 1];
      assert Unescaped(s[..n])[1..] == Unescaped(s[1..][..n - 1]);
    }
  }

  lemma {:induction false} QuotedIff(s: string, value: string, n: nat)
    requires s != [] && s[0] == '\''
    ensures Lex(s) == Found(Tok(String, value), n) <==> IsQuoted(s, value, n)
  {
    if StringLength(s[1..]).Some? {
      FoundIsQuoted(s);
    }
    if IsQuoted(s, value, n) {
      QuotedIsFound(s, value, n);
    }
    hide IsQuoted, StringLength, Unescaped, StartsNumber;
  }

  lemma {:induction false} FoundIsQuoted(s: string)
    requires s != [] && s[0] == '\'' && StringLength(s[1..]).Some?
    ensures var m := StringLength(s[1..]).value; IsQuoted(s, Unescaped(s[1..1 + m]), m + 2)
  {
    var rest := s[1..];
    var m := StringLength(rest).value;
    EscapedIs(rest);
    hide StringLength, Escaped, Unescaped;
    assert s[1..1 + m] == rest[..m];
    assert s[..m + 2] == "'" + rest[..m] + "'";
    assert m + 2 < |s| ==> s[m + 2] == rest[m + 1];
  }

  lemma {:induction false} QuotedIsFound(s: string, value: string, n: nat)
    requires s != [] && s[0] == '\'' && IsQuoted(s, value, n)
    ensures StringLength(s[1..]) == Some(n - 2) && Unescaped(s[1..n - 1]) == value
  {
    QuoteEnds(value, s[n..]);
    EscapedRoundTrip(value);
    InsideQuotes(s, Escaped(value), n);
  }

  lemma {:induction false} InsideQuotes(s: string, e: string, n: nat)
    requires n == |e| + 2 <= |s| && s[..n] == "'" + e + "'"
    ensures s[1..] == e + "'" + s[n..] && s[1..n - 1] == e
  {
    var quoted := s[..n];
    assert s == quoted + s[n..];
    assert quoted[1..] == e + "'";
    assert s[1..] == quoted[1..] + s[n..];
    assert quoted[1..][..|e|] == e && s[1..n - 1] == quoted[1..][..|e|];
  }

  // ---- Every token ----

  lemma {:induction false} NumberIff(s: string, t: Tok, n: nat)
    requires StartsNumber(s) && t.kind.Number?
    ensures Lex(s) == Found(t, n) <==> IsToken(s, t, n)
  {
    if s[0] == '-' {
      if n > 0 {
        NumberLengthIff(s[1..], n - 1);
      }
    } else {
      NumberLengthIff(s, n);
    }
  }

  lemma {:induction false} NumeralHasDigit(s: string, n: nat)
    requires StartsWithNumeral(s, n)
    ensures s != [] && IsDigit(s[0])
  {
    var k: nat :| IsNumeral(s[..n], k) && EndsNumeral(s, n, k);
    assert s[..n][..k][0] == s[0];
  }

  lemma {:induction false} NumberStarts(s: string, t: Tok, n: nat)
    requires t.kind.Number? && IsToken(s, t, n)
    ensures StartsNumber(s)
  {
    if s[0] == '-' {
      NumeralHasDigit(s[1..], n - 1);
    } else {
      NumeralHasDigit(s, n);
    }
  }

  lemma {:induction false} WordIff(s: string, t: Tok, n: nat)
    requires s != [] && IsAlpha(s[0])
    ensures Lex(s) == Found(t, n) <==> (t.kind.Keyword? || t.kind.Identifier?) && IsToken(s, t, n)
  {
    WordLengthIff(s, n);
    KeywordIff(s[..WordLength(s)]);
    hide IsReserved, IsKeyword, WordLength;
  }

  lemma {:induction false} OperatorIff(s: string, t: Tok, n: nat)
    requires s != [] && !IsSpace(s[0]) && s[0] != '\'' && !StartsNumber(s) && !IsAlpha(s[0]) && !IsSymbol(s[0])
    ensures Lex(s) == Found(t, n) <==> t.kind.Operator? && IsToken(s, t, n)
  {
    RunLengthIff(s, n);
  }

  lemma {:induction false} OperatorStarts(s: string, t: Tok, n: nat)
    requires s != [] && t.kind.Operator? && IsToken(s, t, n)
    ensures s[0] != '\'' && !StartsNumber(s) && !IsAlpha(s[0]) && !IsSymbol(s[0])
  {
    OperatorRuns(t.value);
    assert n > 0 && s[..n][0] == s[0];
  }

  /** A text starts with the token the tokenizer finds, and with no other. */
  lemma {:induction false} LexIff(s: string, t: Tok, n: nat)
    requires s != [] && !IsSpace(s[0])
    ensures Lex(s) == Found(t, n) <==> IsToken(s, t, n)
  {
    if t.kind.Operator? && IsToken(s, t, n) {
      OperatorStarts(s, t, n);
    }
    if t.kind.Number? && IsToken(s, t, n) {
      NumberStarts(s, t, n);
    }
    if s[0] == '\'' {
      QuotedIff(s, t.value, n);
    } else if StartsNumber(s) {
      if t.kind.Number? { NumberIff(s, t, n); }
    } else if IsAlpha(s[0]) {
      WordIff(s, t, n);
    } else if !IsSymbol(s[0]) {
      OperatorIff(s, t, n);
    }
  }

  /** Without a token, an open string ends the text, and anything else is dropped up to
      a space, a letter, a digit or a symbol. */
  lemma {:induction false} NoTokenIff(s: string, n: nat)
    requires s != [] && !IsSpace(s[0]) && forall t, m :: !IsToken(s, t, m)
    ensures Lex(s) == Unterminated <==> s[0] == '\''
    ensures Lex(s) == Dropped(n) <==> s[0] != '\'' && IsRun(s, n)
  {
    if Lex(s).Found? {
      LexIff(s, Lex(s).tok, Lex(s).size);
    }
    RunLengthIff(s, n);
  }

  // ---- Whole texts ----

  /** The first n characters of a text are a token. */
  type Lexicon = (string, Tok, nat) -> bool

  ghost predicate HasNoToken(lex: Lexicon, s: string) {
    forall t, n :: !lex(s, t, n)
  }

  /** k spaces, and behind them the first character that is none. */
  predicate LeadsTo(s: string, k: nat) {
    k < |s| && (forall i :: 0 <= i < k ==> IsSpace(s[i])) && !IsSpace(s[k])
  }

  /** Behind k spaces, n characters are a token, or a run that is dropped. */
  ghost predicate ReadsOne(lex: Lexicon, s: string, k: nat, t: Option<Tok>, n: nat) {
    && LeadsTo(s, k) && 0 < n && k + n <= |s|
    && if t.Some? then lex(s[k..], t.value, n) else HasNoToken(lex, s[k..]) && s[k] != '\'' && IsRun(s[k..], n)
  }

  /** Only spaces are left, or a string that nothing closes. */
  ghost predicate ReadsNone(lex: Lexicon, s: string) {
    forall k: nat :: LeadsTo(s, k) ==> HasNoToken(lex, s[k..]) && s[k] == '\''
  }

  /** The tokens of a text that starts at the given position, with their places. */
  ghost predicate Reads(lex: Lexicon, s: string, base: nat, ts: seq<Token>)
    decreases |s|, 1
  {
    (ReadsNone(lex, s) && ts == []) || exists k: nat, t: Option<Tok>, n: nat :: ReadsOn(lex, s, base, ts, k, t, n)
  }

  /** The token or the run behind k spaces, and then the rest. */
  ghost predicate ReadsOn(lex: Lexicon, s: string, base: nat, ts: seq<Token>, k: nat, t: Option<Tok>, n: nat)
    decreases |s|, 0
  {
    && ReadsOne(lex, s, k, t, n)
    && (t.Some? ==> ts != [] && ts[0] == Token(t.value, base + k, base + k + n))
    && Reads(lex, s[k + n..], base + k + n, if t.Some? then ts[1..] else ts)
  }

  lemma {:induction false} SpacesIff(s: string, k: nat)
    ensures LeadsTo(s, k) <==> k < |s| && Spaces(s) == k
  {
    if s != [] && IsSpace(s[0]) && k > 0 {
      SpacesIff(s[1..], k - 1);
      assert k < |s| ==> s[1..][k - 1] == s[k] && forall i :: 0 < i < k ==> s[i] == s[1..][i - 1];
      if LeadsTo(s, k) {
        assert forall i :: 0 <= i < k - 1 ==> s[1..][i] == s[i + 1];
      }
    }
  }

  lemma {:induction false} NoTokenIs(s: string)
    requires s != [] && !IsSpace(s[0])
    ensures HasNoToken(IsToken, s) <==> !Lex(s).Found?
  {
    if Lex(s).Found? {
      LexIff(s, Lex(s).tok, Lex(s).size);
    }
    if t, n :| IsToken(s, t, n) {
      LexIff(s, t, n);
    }
  }

  lemma {:induction false} ScanIff(s: string, k: nat, t: Option<Tok>, n: nat)
    ensures ReadsOne(IsToken, s, k, t, n) <==> ScanText(s) == Go(k, t, n)
    ensures ReadsNone(IsToken, s) <==> ScanText(s) == Stop
  {
    var lead := Spaces(s);
    SpacesIff(s, k);
    SpacesIff(s, lead);
    if lead < |s| {
      var rest := s[lead..];
      NoTokenIs(rest);
      if t.Some? {
        LexIff(rest, t.value, n);
      } else if HasNoToken(IsToken, rest) {
        NoTokenIff(rest, n);
      }
      if HasNoToken(IsToken, rest) && Lex(rest).Dropped? {
        NoTokenIff(rest, Lex(rest).size);
      }
      forall j: nat
        ensures LeadsTo(s, j) <==> j == lead
      {
        SpacesIff(s, j);
      }
    } else {
      forall j: nat
        ensures !LeadsTo(s, j)
      {
        SpacesIff(s, j);
      }
    }
  }

  /** A scanner that reads texts this way. */
  ghost predicate IsReader(lex: Lexicon, scan: Scanner) {
    && (forall s: string, k: nat, t: Option<Tok>, n: nat :: ReadsOne(lex, s, k, t, n) <==> scan(s) == Go(k, t, n))
    && (forall s: string :: ReadsNone(lex, s) <==> scan(s) == Stop)
  }

  lemma {:induction false} ScanTextReads()
    ensures IsReader(IsToken, ScanText)
  {
    hide ReadsOne, ReadsNone, ScanText;
    forall s: string, k: nat, t: Option<Tok>, n: nat
      ensures ReadsOne(IsToken, s, k, t, n) <==> ScanText(s) == Go(k, t, n)
    {
      ScanIff(s, k, t, n);
    }
    forall s: string
      ensures ReadsNone(IsToken, s) <==> ScanText(s) == Stop
    {
      ScanIff(s, 0, None, 0);
    }
  }

  lemma {:induction false} FirstRead(lex: Lexicon, s: string, base: nat, ts: seq<Token>) returns (k: nat, t: Option<Tok>, n: nat)
    requires Reads(lex, s, base, ts) && !ReadsNone(lex, s)
    ensures ReadsOn(lex, s, base, ts, k, t, n) && ReadsOne(lex, s, k, t, n)
  {
    hide ReadsNone, ReadsOne;
    k, t, n :| ReadsOn(lex, s, base, ts, k, t, n);
  }

  lemma {:induction false} OnlyReading(lex: Lexicon, scan: Scanner, s: string, base: nat, ts: seq<Token>)
    requires IsReader(lex, scan) && scan(s).Go?
    ensures GoesOn(scan, s)
    ensures Reads(lex, s, base, ts) <==> ReadsOn(lex, s, base, ts, scan(s).lead, scan(s).tok, scan(s).size)
  {
    var Go(k, t, n) := scan(s);
    assert ReadsOne(lex, s, k, t, n) && !ReadsNone(lex, s);
    hide ReadsNone;
    if Reads(lex, s, base, ts) {
      var l, u, m := FirstRead(lex, s, base, ts);
      assert scan(s) == Go(l, u, m);
    }
  }

  lemma {:induction false} NothingRead(lex: Lexicon, scan: Scanner, s: string, base: nat, ts: seq<Token>)
    requires IsReader(lex, scan) && scan(s) == Stop
    ensures Reads(lex, s, base, ts) <==> ts == []
  {
    forall k: nat, t: Option<Tok>, n: nat
      ensures !ReadsOn(lex, s, base, ts, k, t, n)
    {
      assert !ReadsOne(lex, s, k, t, n);
    }
  }

  lemma {:induction false} HeadIff(t: Option<Tok>, first: Token, ts: seq<Token>, rest: seq<Token>)
    ensures ts == (if t.Some? then [first] else []) + rest <==>
            if t.Some? then ts != [] && ts[0] == first && ts[1..] == rest else ts == rest
  {
    if t.Some? && ts != [] {
      assert ts == [ts[0]] + ts[1..];
    }
  }

  lemma {:induction false} ReadsBy(lex: Lexicon, toks: Tokenizer, scan: Scanner, s: string, base: nat, ts: seq<Token>)
    requires Tokenizes(toks, scan) && IsReader(lex, scan)
    ensures Reads(lex, s, base, ts) <==> ts == toks(s, base)
    decreases |s|, 1
  {
    assert Unfolds(toks, scan, s, base);
    if scan(s).Go? {
      OnlyReading(lex, scan, s, base, ts);
      assert ReadsOne(lex, s, scan(s).lead, scan(s).tok, scan(s).size);
      ReadsOnBy(lex, toks, scan, s, base, ts);
    } else {
      NothingRead(lex, scan, s, base, ts);
    }
    hide *;
  }

  lemma {:induction false} ReadsOnBy(lex: Lexicon, toks: Tokenizer, scan: Scanner, s: string, base: nat, ts: seq<Token>)
    requires Tokenizes(toks, scan) && IsReader(lex, scan) && GoesOn(scan, s)
    requires ReadsOne(lex, s, scan(s).lead, scan(s).tok, scan(s).size) && Unfolds(toks, scan, s, base)
    ensures ReadsOn(lex, s, base, ts, scan(s).lead, scan(s).tok, scan(s).size) <==> ts == toks(s, base)
    decreases |s|, 0
  {
    hide Reads, ReadsOne, Tokenizes, IsReader;
    var Go(k, t, n) := scan(s);
    var rest := toks(s[k + n..], base + k + n);
    if t.None? {
      ReadsBy(lex, toks, scan, s[k + n..], base + k + n, ts);
      HeadIff(t, Token(Tok(Symbol, ""), 0, 1), ts, rest);
    } else {
      if ts != [] {
        ReadsBy(lex, toks, scan, s[k + n..], base + k + n, ts[1..]);
      }
      HeadIff(t, Token(t.value, base + k, base + k + n), ts, rest);
    }
  }

  /** The tokenizer reads a text in this way, and there is no other way to read it. */
  lemma {:induction false} TokensAre(text: string, ts: seq<Token>)
    ensures Reads(IsToken, text, 0, ts) <==> ts == Tokens(text)
  {
    var toks := TokenizerOf(ScanText);
    TokenizerUnfolds(ScanText);
    assert toks(text, 0) == Tokens(text);
    ScanTextReads();
    ReadsBy(IsToken, toks, ScanText, text, 0, ts);
  }
}
