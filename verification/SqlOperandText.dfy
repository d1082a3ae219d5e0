/** The tokens operands are printed with: lexemes when the operand can be written, and
    tokens like the parsed ones when it was parsed. */
module SqlOperandText {
  import opened SqlTokens
  import opened SqlOperands
  import opened SqlOperandTrip

  predicate IsName(s: string) {
    s != [] && IsAlpha(s[0]) && forall i :: 0 <= i < |s| ==> IsWord(s[i])
  }

  predicate IsNumber(s: string) {
    StartsNumber(s) && NumberSize(s) == |s|
  }

  /** A token that its text gives back. */
  predicate IsLexeme(t: Tok) {
    match t.kind
    case Keyword => IsName(t.value) && IsKeyword(t.value)
    case Identifier => IsName(t.value) && !IsKeyword(t.value)
    case Operator => t.value in OPERATORS
    case Symbol => |t.value| == 1 && IsSymbol(t.value[0])
    case Number => IsNumber(t.value)
    case String => true
  }

  // ---- Any set of tokens ----

  type TokSet = Tok -> bool

  predicate AllIn(ts: Toks, good: TokSet) {
    forall i :: 0 <= i < |ts| ==> good(ts[i])
  }

  lemma {:induction false} JoinedIn(a: Toks, b: Toks, good: TokSet)
    requires AllIn(a, good) && AllIn(b, good)
    ensures AllIn(a + b, good)
  {
  }

  lemma {:induction false} WordIn(kind: Kind, value: string, good: TokSet)
    requires good(Tok(kind, value))
    ensures AllIn(Word(kind, value), good)
  {
  }

  /** A word in front of tokens. */
  lemma {:induction false} WordedIn(kind: Kind, value: string, ts: Toks, good: TokSet)
    requires good(Tok(kind, value)) && AllIn(ts, good)
    ensures AllIn(Word(kind, value) + ts, good)
  {
  }

  lemma {:induction false} SuffixIn(ts: Toks, k: nat, good: TokSet)
    requires AllIn(ts, good) && k <= |ts|
    ensures AllIn(ts[k..], good)
  {
  }

  /** The words that are printed as they are. */
  predicate HasWords(good: TokSet) {
    && good(Tok(Keyword, "is")) && good(Tok(Keyword, "not")) && good(Tok(Keyword, "null")) && good(Tok(Keyword, "in"))
    && good(Tok(Keyword, "over")) && good(Tok(Keyword, "partition")) && good(Tok(Keyword, "order")) && good(Tok(Keyword, "by"))
    && good(Tok(Symbol, "(")) && good(Tok(Symbol, ")")) && good(Tok(Symbol, ",")) && good(Tok(Symbol, "."))
    && good(Tok(Symbol, "*"))
  }

  // ---- Printed parts ----

  predicate ListIn(os: seq<Operand>, good: TokSet) {
    forall i :: 0 <= i < |os| ==> AllIn(PrintOperand(os[i]), good)
  }

  predicate KeysIn(keys: seq<SortKey>, good: TokSet) {
    forall i :: 0 <= i < |keys| ==> AllIn(PrintKey(keys[i]), good)
  }

  lemma {:induction false} ColumnIn(qualifier: Option<string>, name: string, good: TokSet)
    requires good(Tok(Identifier, name)) && (qualifier.Some? ==> good(Tok(Identifier, qualifier.value))) && good(Tok(Symbol, "."))
    ensures AllIn(PrintOperand(Column(qualifier, name)), good)
  {
    WordIn(Identifier, name, good);
    if qualifier.Some? {
      WordedIn(Identifier, qualifier.value, Word(Symbol, "."), good);
      JoinedIn(Word(Identifier, qualifier.value) + Word(Symbol, "."), Word(Identifier, name), good);
    }
  }

  lemma {:induction false} PrintListIn(os: seq<Operand>, good: TokSet)
    requires ListIn(os, good) && HasWords(good)
    ensures AllIn(PrintList(os), good)
  {
    hide HasWords;
    if |os| == 1 {
      assert PrintList(os) == PrintOperand(os[0]);
    } else if |os| > 1 {
      PrintListIn(os[1..], good);
      CommaIn(PrintOperand(os[0]), PrintList(os[1..]), good);
    }
  }

  lemma {:induction false} PrintKeysIn(keys: seq<SortKey>, good: TokSet)
    requires KeysIn(keys, good) && HasWords(good)
    ensures AllIn(PrintKeys(keys), good)
  {
    hide HasWords;
    if |keys| == 1 {
      assert PrintKeys(keys) == PrintKey(keys[0]);
    } else if |keys| > 1 {
      PrintKeysIn(keys[1..], good);
      CommaIn(PrintKey(keys[0]), PrintKeys(keys[1..]), good);
    }
  }

  lemma {:induction false} CommaIn(first: Toks, others: Toks, good: TokSet)
    requires AllIn(first, good) && AllIn(others, good) && HasWords(good)
    ensures AllIn(first + (Word(Symbol, ",") + others), good)
  {
    WordedIn(Symbol, ",", others, good);
    JoinedIn(first, Word(Symbol, ",") + others, good);
  }

  lemma {:induction false} KeyIn(k: SortKey, good: TokSet)
    requires AllIn(PrintOperand(k.key), good) && (k.direction.Some? ==> good(Tok(Keyword, k.direction.value)))
    ensures AllIn(PrintKey(k), good)
  {
    JoinedIn(PrintOperand(k.key), PrintDirection(k.direction), good);
  }

  lemma {:induction false} WindowIn(w: Window, good: TokSet)
    requires ListIn(w.partition, good) && KeysIn(w.order, good) && HasWords(good)
    ensures AllIn(PrintWindow(w), good)
  {
    hide PrintList, PrintKeys;
    PrintListIn(w.partition, good);
    PrintKeysIn(w.order, good);
    WordedIn(Keyword, "by", PrintList(w.partition), good);
    WordedIn(Keyword, "partition", Word(Keyword, "by") + PrintList(w.partition), good);
    WordedIn(Keyword, "by", PrintKeys(w.order), good);
    WordedIn(Keyword, "order", Word(Keyword, "by") + PrintKeys(w.order), good);
    JoinedIn(PrintOrder(w.order), Word(Symbol, ")"), good);
    JoinedIn(PrintPartition(w.partition), PrintOrder(w.order) + Word(Symbol, ")"), good);
    WordedIn(Symbol, "(", PrintPartition(w.partition) + (PrintOrder(w.order) + Word(Symbol, ")")), good);
  }

  lemma {:induction false} CallIn(name: string, args: seq<Operand>, window: Option<Window>, good: TokSet)
    requires good(Tok(Identifier, name)) && ListIn(args, good) && HasWords(good)
    requires window.Some? ==> AllIn(PrintWindow(window.value), good)
    ensures AllIn(PrintOperand(Call(name, args, window)), good)
  {
    hide PrintList, PrintWindow;
    PrintListIn(args, good);
    if window.Some? {
      WordedIn(Keyword, "over", PrintWindow(window.value), good);
    }
    WordedIn(Symbol, ")", PrintOver(window), good);
    JoinedIn(PrintList(args), Word(Symbol, ")") + PrintOver(window), good);
    WordedIn(Symbol, "(", PrintList(args) + (Word(Symbol, ")") + PrintOver(window)), good);
    WordedIn(Identifier, name, Word(Symbol, "(") + (PrintList(args) + (Word(Symbol, ")") + PrintOver(window))), good);
  }

  // ---- Operands that can be written ----

  predicate NameIsWritable(name: string) {
    IsName(name) && !IsKeyword(name)
  }

  /** Names are names, and no keywords; numbers are numbers. */
  predicate OperandIsWritable(o: Operand)
    decreases o
  {
    match o
    case Column(qualifier, name) => (qualifier.Some? ==> NameIsWritable(qualifier.value)) && NameIsWritable(name)
    case Star => true
    case Numeric(text) => IsNumber(text)
    case Literal(_) => true
    case Call(name, args, window) =>
      && NameIsWritable(name) && (forall i :: 0 <= i < |args| ==> OperandIsWritable(args[i]))
      && (window.Some? ==> WindowIsWritable(window.value))
  }

  predicate WindowIsWritable(w: Window)
    decreases w
  {
    && (forall i :: 0 <= i < |w.partition| ==> OperandIsWritable(w.partition[i]))
    && KeysAreWritable(w.order)
  }

  predicate KeysAreWritable(keys: seq<SortKey>)
    decreases keys
  {
    forall i :: 0 <= i < |keys| ==> KeyIsWritable(keys[i])
  }

  predicate KeyIsWritable(k: SortKey)
    decreases k
  {
    OperandIsWritable(k.key)
  }

  lemma {:induction false} FixedWords()
    ensures HasWords(IsLexeme)
  {
    ConditionWords();
    WindowWords();
  }

  lemma {:induction false} ConditionWords()
    ensures IsLexeme(Tok(Keyword, "is")) && IsLexeme(Tok(Keyword, "not"))
    ensures IsLexeme(Tok(Keyword, "null")) && IsLexeme(Tok(Keyword, "in"))
  {
    hide IsLexeme;
    LowerWords();
    ConditionWord("is", 2);
    ConditionWord("not", 3);
    ConditionWord("null", 4);
    ConditionWord("in", 5);
  }

  lemma {:induction false} WindowWords()
    ensures IsLexeme(Tok(Keyword, "over")) && IsLexeme(Tok(Keyword, "partition"))
    ensures IsLexeme(Tok(Keyword, "order")) && IsLexeme(Tok(Keyword, "by"))
  {
    hide IsLexeme;
    LowerWords();
    WindowWord("over", 0);
    WindowWord("partition", 1);
    WindowWord("order", 2);
    WindowWord("by", 3);
  }

  lemma {:induction false} ConditionWord(word: string, i: nat)
    requires i < |CONDITION_WORDS| && CONDITION_WORDS[i] == word && Lower(word) == word && IsName(word)
    ensures IsLexeme(Tok(Keyword, word))
  {
  }

  lemma {:induction false} WindowWord(word: string, i: nat)
    requires i < |WINDOW_WORDS| && WINDOW_WORDS[i] == word && Lower(word) == word && IsName(word)
    ensures IsLexeme(Tok(Keyword, word))
  {
  }

  lemma {:induction false} DirectionIsLexeme(word: string)
    requires IsDirection(word)
    ensures IsLexeme(Tok(Keyword, word))
  {
    assert WINDOW_WORDS[4] == "asc" && WINDOW_WORDS[5] == "desc";
    forall i | 0 <= i < |word|
      ensures IsAlpha(word[i])
    {
      assert Lower(word)[i] == LowerChar(word[i]);
    }
  }

  lemma {:induction false} OperandLexemes(o: Operand)
    requires OperandIsWritable(o) && (o.Call? ==> IsCall(o))
    ensures AllIn(PrintOperand(o), IsLexeme)
    decreases o
  {
    FixedWords();
    match o
    case Column(qualifier, name) => ColumnIn(qualifier, name, IsLexeme);
    case Call(name, args, window) =>
      ListLexemes(args);
      if window.Some? {
        WindowLexemes(window.value);
      }
      CallIn(name, args, window, IsLexeme);
    case _ =>
  }

  lemma {:induction false} ListLexemes(os: seq<Operand>)
    requires AllArgs(os) && forall i :: 0 <= i < |os| ==> OperandIsWritable(os[i])
    ensures ListIn(os, IsLexeme)
    decreases os
  {
    forall i | 0 <= i < |os|
      ensures AllIn(PrintOperand(os[i]), IsLexeme)
    {
      OperandLexemes(os[i]);
    }
  }

  lemma {:induction false} WindowLexemes(w: Window)
    requires WindowIsWritable(w) && IsWindow(w)
    ensures AllIn(PrintWindow(w), IsLexeme)
    decreases w
  {
    FixedWords();
    ListLexemes(w.partition);
    forall i | 0 <= i < |w.order|
      ensures AllIn(PrintKey(w.order[i]), IsLexeme)
    {
      KeyLexemes(w.order[i]);
    }
    WindowIn(w, IsLexeme);
  }

  lemma {:induction false} KeyLexemes(k: SortKey)
    requires KeyIsWritable(k) && IsKey(k)
    ensures AllIn(PrintKey(k), IsLexeme)
    decreases k
  {
    OperandLexemes(k.key);
    if k.direction.Some? {
      DirectionIsLexeme(k.direction.value);
    }
    KeyIn(k, IsLexeme);
  }

  // ---- Operands that were parsed ----

  /** Tokens whose kind fits their value, and the truth values as numbers. */
  ghost predicate FitsKinds(good: TokSet) {
    && HasWords(good) && good(Tok(Number, "1")) && good(Tok(Number, "0"))
    && forall t :: good(t) ==> KindFits(t)
  }

  predicate KindFits(t: Tok) {
    && (t.kind.Keyword? ==> IsKeyword(t.value) && IsName(t.value))
    && (t.kind.Operator? ==> t.value in OPERATORS)
  }

  /** What was found is an operand, printed with such tokens, and the rest has such
      tokens; behind a call without a window there is no OVER. */
  ghost predicate OperandFound(r: Parsed<Operand>, good: TokSet) {
    r.Some? ==>
      && AllIn(PrintOperand(r.value.0), good) && AllIn(r.value.1, good)
      && (r.value.0.Call? ==> IsCall(r.value.0) && (r.value.0.window.None? ==> !IsAt(r.value.1, Keyword, "over")))
  }

  ghost predicate ListFound(r: Parsed<seq<Operand>>, columns: bool, good: TokSet) {
    r.Some? ==> ListIn(r.value.0, good) && AllArgs(r.value.0) && (columns ==> AllColumns(r.value.0)) && AllIn(r.value.1, good)
  }

  ghost predicate WindowFound(r: Parsed<Window>, good: TokSet) {
    r.Some? ==> AllIn(PrintWindow(r.value.0), good) && IsWindow(r.value.0) && AllIn(r.value.1, good)
  }

  ghost predicate KeysFound(r: Parsed<seq<SortKey>>, good: TokSet) {
    r.Some? ==> KeysIn(r.value.0, good) && AreKeys(r.value.0) && AllIn(r.value.1, good)
  }

  ghost predicate KeyFound(r: Parsed<SortKey>, good: TokSet) {
    r.Some? ==> AllIn(PrintKey(r.value.0), good) && IsKey(r.value.0) && AllIn(r.value.1, good)
  }

  lemma {:induction false} ColumnRefFound(ts: Toks, good: TokSet)
    requires AllIn(ts, good) && HasWords(good)
    ensures OperandFound(ParseColumnRef(ts), good)
    ensures ParseColumnRef(ts).Some? ==> ParseColumnRef(ts).value.0.Column?
  {
    if ParseColumnRef(ts).Some? {
      var (o, rest) := ParseColumnRef(ts).value;
      assert good(ts[0]) && ts[0] == Tok(Identifier, ts[0].value);
      if o.qualifier.Some? {
        assert good(ts[2]) && ts[2] == Tok(Identifier, ts[2].value);
        SuffixIn(ts, 3, good);
      } else {
        SuffixIn(ts, 1, good);
      }
      ColumnIn(o.qualifier, o.name, good);
    }
  }

  lemma {:induction false} ItemIn(t: Tok, good: TokSet)
    requires good(t) && (t.kind.Number? || t.kind.String?)
    ensures AllIn(PrintOperand(ItemOf(t)), good)
  {
  }

  lemma {:induction false} ArgFound(ts: Toks, columns: bool, good: TokSet)
    requires AllIn(ts, good) && HasWords(good)
    ensures var r := ParseArg(ts, columns); OperandFound(r, good) && (r.Some? ==> IsArg(r.value.0) && (columns ==> r.value.0.Column?))
  {
    ColumnRefFound(ts, good);
    if ts != [] {
      SuffixIn(ts, 1, good);
      assert good(ts[0]);
      if ts[0].kind.Number? || ts[0].kind.String? {
        ItemIn(ts[0], good);
      }
      WordIn(Symbol, "*", good);
    }
  }

  lemma {:induction false} OnMore<T>(one: T, others: seq<T>)
    ensures forall i :: 0 <= i < |others| + 1 ==> ([one] + others)[i] == if i == 0 then one else others[i - 1]
  {
  }

  lemma {:induction false} ParsedListFound(ts: Toks, columns: bool, good: TokSet)
    requires AllIn(ts, good) && HasWords(good)
    ensures ListFound(ParseList(ts, columns), columns, good)
    decreases |ts|
  {
    if ParseList(ts, columns).Some? {
      hide ParseArg, ParseList, HasWords;
      var one, rest := ListParts(ts, columns);
      ArgFound(ts, columns, good);
      if IsAt(rest, Symbol, ",") {
        SuffixIn(rest, 1, good);
        ParsedListFound(rest[1..], columns, good);
        OnMore(one, ParseList(rest[1..], columns).value.0);
      }
    }
  }

  lemma {:induction false} CallFound(ts: Toks, good: TokSet)
    requires AllIn(ts, good) && HasWords(good) && StartsCall(ts)
    ensures OperandFound(ParseCall(ts), good)
    decreases |ts|, 0
  {
    hide HasWords;
    SuffixIn(ts, 2, good);
    assert good(ts[0]) && ts[0] == Tok(Identifier, ts[0].value);
    ParsedListFound(ts[2..], false, good);
    var args := ParseArgs(ts[2..]);
    if args.Some? {
      OverFound(ts[0].value, args.value.0, args.value.1, good);
    }
  }

  lemma {:induction false} OverFound(name: string, args: seq<Operand>, ts: Toks, good: TokSet)
    requires AllIn(ts, good) && HasWords(good) && good(Tok(Identifier, name)) && ListIn(args, good) && AllArgs(args)
    ensures OperandFound(ParseOver(name, args, ts), good)
    decreases |ts|, 0
  {
    hide HasWords;
    if IsAt(ts, Symbol, ")") {
      SuffixIn(ts, 1, good);
      if IsAt(ts[1..], Keyword, "over") {
        SuffixIn(ts, 2, good);
        ParsedWindowFound(ts[2..], good);
        var window := ParseWindow(ts[2..]);
        if window.Some? {
          CallIn(name, args, Some(window.value.0), good);
        }
      } else {
        CallIn(name, args, None, good);
      }
    }
  }

  lemma {:induction false} ParsedWindowFound(ts: Toks, good: TokSet)
    requires AllIn(ts, good) && HasWords(good)
    ensures WindowFound(ParseWindow(ts), good)
    decreases |ts|, 0
  {
    hide HasWords;
    if IsAt(ts, Symbol, "(") {
      SuffixIn(ts, 1, good);
      PartitionFound(ts[1..], good);
      var partition := ParsePartition(ts[1..]);
      if partition.Some? {
        WindowEndFound(partition.value.0, partition.value.1, good);
      }
    }
  }

  lemma {:induction false} PartitionFound(ts: Toks, good: TokSet)
    requires AllIn(ts, good) && HasWords(good)
    ensures ListFound(ParsePartition(ts), true, good)
  {
    hide HasWords, ParseList;
    if IsAt(ts, Keyword, "partition") && IsAt(ts[1..], Keyword, "by") {
      SuffixIn(ts, 2, good);
      ParsedListFound(ts[2..], true, good);
    }
  }

  lemma {:induction false} WindowEndFound(partition: seq<Operand>, ts: Toks, good: TokSet)
    requires AllIn(ts, good) && HasWords(good) && ListIn(partition, good) && AllColumns(partition)
    ensures WindowFound(ParseWindowEnd(partition, ts), good)
    decreases |ts|, 5
  {
    hide HasWords;
    OrderFound(ts, good);
    var order := ParseOrder(ts);
    if order.Some? && IsAt(order.value.1, Symbol, ")") {
      SuffixIn(order.value.1, 1, good);
      WindowIn(Window(partition, order.value.0), good);
    }
  }

  lemma {:induction false} OrderFound(ts: Toks, good: TokSet)
    requires AllIn(ts, good) && HasWords(good)
    ensures KeysFound(ParseOrder(ts), good)
    decreases |ts|, 4
  {
    hide HasWords;
    if IsAt(ts, Keyword, "order") && IsAt(ts[1..], Keyword, "by") {
      SuffixIn(ts, 2, good);
      ParsedKeysFound(ts[2..], good);
    }
  }

  lemma {:induction false} ParsedKeysFound(ts: Toks, good: TokSet)
    requires AllIn(ts, good) && HasWords(good)
    ensures KeysFound(ParseKeys(ts), good)
    decreases |ts|, 3
  {
    if ParseKeys(ts).Some? {
      hide ParseKey, ParseKeys, HasWords;
      var one, rest := KeysParts(ts);
      ParsedKeyFound(ts, good);
      if IsAt(rest, Symbol, ",") {
        SuffixIn(rest, 1, good);
        ParsedKeysFound(rest[1..], good);
        OnMore(one, ParseKeys(rest[1..]).value.0);
      }
    }
  }

  lemma {:induction false} ParsedKeyFound(ts: Toks, good: TokSet)
    requires AllIn(ts, good) && HasWords(good)
    ensures KeyFound(ParseKey(ts), good)
    decreases |ts|, 2
  {
    hide HasWords;
    ColumnOrCallFound(ts, good);
    var key := ParseColumnOrCall(ts);
    if key.Some? {
      var (k, rest) := WithDirection(key.value.0, key.value.1);
      if StartsDirection(key.value.1) {
        assert good(key.value.1[0]) && key.value.1[0] == Tok(Keyword, key.value.1[0].value);
        SuffixIn(key.value.1, 1, good);
      }
      KeyIn(k, good);
    }
  }

  lemma {:induction false} ColumnOrCallFound(ts: Toks, good: TokSet)
    requires AllIn(ts, good) && HasWords(good)
    ensures var r := ParseColumnOrCall(ts); OperandFound(r, good) && (r.Some? ==> r.value.0.Column? || r.value.0.Call?)
    decreases |ts|, 1
  {
    if StartsCall(ts) {
      CallFound(ts, good);
    } else {
      ColumnRefFound(ts, good);
    }
  }

  lemma {:induction false} ParsedOperandFound(ts: Toks, good: TokSet)
    requires AllIn(ts, good) && FitsKinds(good)
    ensures OperandFound(ParseOperand(ts), good) && (ParseOperand(ts).Some? ==> IsOperand(ParseOperand(ts).value.0))
  {
    hide HasWords, ParseColumnOrCall, IsCall;
    if ParseOperand(ts).Some? {
      var o := ParseOperand(ts).value.0;
      assert good(ts[0]) && ts[0] == Tok(ts[0].kind, ts[0].value);
      if ts[0].kind.Identifier? {
        ColumnOrCallFound(ts, good);
      } else {
        assert o == Numeric("1") || o == Numeric("0") || o == Numeric(ts[0].value) || o == Literal(ts[0].value);
        SuffixIn(ts, 1, good);
      }
    }
  }
}
