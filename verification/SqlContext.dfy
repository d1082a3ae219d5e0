/** The parse functions as they move through the token array, and the CHECK clause
    that keeps the source text of its condition. */
module SqlContext {
  import opened SqlTokens
  import opened SqlOperands
  import opened SqlParser
  import opened SqlRoundTrip
  import opened SqlDenotes

  class ParseCtx {
    const tokens: seq<Token>
    const toks: Toks
    var pos: nat

    constructor (tokens: seq<Token>)
      ensures Valid() && pos == 0 && this.tokens == tokens
    {
      this.tokens := tokens;
      toks := Bare(tokens);
      pos := 0;
    }

    predicate Valid()
      reads this
    {
      pos <= |toks| && toks == Bare(tokens)
    }

    function Rest(): Toks
      requires Valid()
      reads this
    {
      toks[pos..]
    }

    /** The outcome of a parse function on the tokens that were left. */
    ghost predicate Did<T>(r: Parsed<T>, node: Option<T>)
      reads this
    {
      && Valid()
      && (node.None? <==> r.None?)
      && (node.Some? ==> r == Some((node.value, Rest())))
    }

    method Check(ahead: nat, kind: Kind, value: string) returns (yes: bool)
      requires Valid()
      ensures yes <==> pos + ahead <= |toks| && IsAt(toks[pos + ahead..], kind, value)
    {
      yes := pos + ahead < |toks| && toks[pos + ahead].kind == kind && Lower(toks[pos + ahead].value) == value;
    }

    method Match(kind: Kind, value: string) returns (yes: bool)
      requires Valid()
      modifies this`pos
      ensures Valid() && (yes <==> IsAt(old(Rest()), kind, value))
      ensures pos == if yes then old(pos) + 1 else old(pos)
    {
      yes := Check(0, kind, value);
      if yes {
        pos := pos + 1;
      }
    }

    method CheckSelect() returns (yes: bool)
      requires Valid()
      ensures yes <==> StartsSelect(Rest())
    {
      yes := Check(0, Symbol, "(");
      if yes {
        yes := Check(1, Keyword, "select");
        assert Rest()[1..] == toks[pos + 1..];
      }
    }

    method CheckCall() returns (yes: bool)
      requires Valid()
      ensures yes <==> StartsCall(Rest())
    {
      yes := pos < |toks| && toks[pos].kind.Identifier?;
      if yes {
        yes := Check(1, Symbol, "(");
        assert Rest()[1..] == toks[pos + 1..];
      }
    }

    method ParseOperandAt() returns (node: Option<Operand>)
      requires Valid()
      modifies this`pos
      ensures Did(ParseOperand(old(Rest())), node)
    {
      ghost var rest := Rest();
      var select := CheckSelect();
      if pos >= |toks| || select {
        return None;
      }
      var token := toks[pos];
      assert rest[1..] == toks[pos + 1..];
      if token.kind.Identifier? {
        node := ParseColumnOrCallAt();
      } else if token.kind.Number? || token.kind.String? {
        pos := pos + 1;
        node := Some(ItemOf(token));
      } else if token.kind.Keyword? && (Lower(token.value) == "true" || Lower(token.value) == "false") {
        pos := pos + 1;
        node := Some(Numeric(if Lower(token.value) == "true" then "1" else "0"));
      } else {
        node := None;
      }
    }

    method ParseColumnOrCallAt() returns (node: Option<Operand>)
      requires Valid()
      modifies this`pos
      ensures Did(ParseColumnOrCall(old(Rest())), node)
      decreases |toks| - pos, 1
    {
      var call := CheckCall();
      if call {
        node := ParseCallAt();
      } else {
        node := ParseColumnRefAt();
      }
    }

    /** A column, with its table before a point. */
    method ParseColumnRefAt() returns (node: Option<Operand>)
      requires Valid()
      modifies this`pos
      ensures Did(ParseColumnRef(old(Rest())), node)
    {
      ghost var rest := Rest();
      if pos >= |toks| || !toks[pos].kind.Identifier? {
        return None;
      }
      assert rest[1..] == toks[pos + 1..];
      var name := toks[pos].value;
      var point := Check(1, Symbol, ".");
      if point && pos + 2 < |toks| && toks[pos + 2].kind.Identifier? {
        node := Some(Column(Some(name), toks[pos + 2].value));
        pos := pos + 3;
      } else {
        node := Some(Column(None, name));
        pos := pos + 1;
      }
    }

    method ParseArgAt(columns: bool) returns (node: Option<Operand>)
      requires Valid()
      modifies this`pos
      ensures Did(ParseArg(old(Rest()), columns), node)
    {
      ghost var rest := Rest();
      if !columns {
        var star := Match(Symbol, "*");
        if star {
          assert rest[1..] == Rest();
          return Some(Star);
        }
        if pos < |toks| && (toks[pos].kind.Number? || toks[pos].kind.String?) {
          node := Some(ItemOf(toks[pos]));
          pos := pos + 1;
          assert rest[1..] == Rest();
          return;
        }
      }
      node := ParseColumnRefAt();
    }

    /** Arguments, or the columns of PARTITION BY. */
    method ParseListAt(columns: bool) returns (nodes: Option<seq<Operand>>)
      requires Valid()
      modifies this`pos
      ensures Did(ParseList(old(Rest()), columns), nodes)
    {
      hide ParseArg;
      ghost var whole := ParseList(Rest(), columns);
      var found: seq<Operand> := [];
      NothingPrefixed(whole);
      while true
        invariant Valid() && whole == Prefixed(found, ParseList(Rest(), columns))
        decreases |toks| - pos
      {
        var one := ParseArgAt(columns);
        if one.None? {
          return None;
        }
        ghost var rest, before := Rest(), found;
        found := found + [one.value];
        var comma := Match(Symbol, ",");
        if !comma {
          return Some(found);
        }
        assert rest[1..] == Rest();
        PrefixedTwice(before, one.value, ParseList(rest[1..], columns));
      }
    }

    method ParseArgsAt() returns (nodes: Option<seq<Operand>>)
      requires Valid()
      modifies this`pos
      ensures Did(ParseArgs(old(Rest())), nodes)
    {
      var none := Check(0, Symbol, ")");
      if none {
        nodes := Some([]);
      } else {
        nodes := ParseListAt(false);
      }
    }

    method ParseCallAt() returns (node: Option<Operand>)
      requires Valid() && StartsCall(Rest())
      modifies this`pos
      ensures Did(ParseCall(old(Rest())), node)
      decreases |toks| - pos, 0
    {
      hide ParseOver, ParseArgs;
      ghost var rest := Rest();
      var name := toks[pos].value;
      pos := pos + 2;
      assert rest[2..] == Rest();
      var args := ParseArgsAt();
      if args.None? {
        return None;
      }
      node := ParseOverAt(name, args.value);
    }

    method ParseOverAt(name: string, args: seq<Operand>) returns (node: Option<Operand>)
      requires Valid()
      modifies this`pos
      ensures Did(ParseOver(name, args, old(Rest())), node)
      decreases |toks| - pos, 0
    {
      hide ParseWindow;
      ghost var rest := Rest();
      var closed := Match(Symbol, ")");
      if !closed {
        return None;
      }
      assert rest[1..] == Rest();
      var over := Match(Keyword, "over");
      if !over {
        return Some(Call(name, args, None));
      }
      assert rest[2..] == Rest();
      var window := ParseWindowAt();
      node := if window.None? then None else Some(Call(name, args, Some(window.value)));
    }

    method ParseWindowAt() returns (window: Option<Window>)
      requires Valid()
      modifies this`pos
      ensures Did(ParseWindow(old(Rest())), window)
      decreases |toks| - pos, 0
    {
      hide ParsePartition, ParseWindowEnd;
      ghost var rest := Rest();
      var open := Match(Symbol, "(");
      if !open {
        return None;
      }
      assert rest[1..] == Rest();
      var partition := ParsePartitionAt();
      if partition.None? {
        return None;
      }
      window := ParseWindowEndAt(partition.value);
    }

    method ParsePartitionAt() returns (columns: Option<seq<Operand>>)
      requires Valid()
      modifies this`pos
      ensures Did(ParsePartition(old(Rest())), columns)
    {
      hide ParseList;
      ghost var rest := Rest();
      var partition := Match(Keyword, "partition");
      if !partition {
        return Some([]);
      }
      assert rest[1..] == Rest();
      var byNext := Match(Keyword, "by");
      if !byNext {
        return None;
      }
      assert rest[2..] == Rest();
      columns := ParseListAt(true);
    }

    method ParseWindowEndAt(partition: seq<Operand>) returns (window: Option<Window>)
      requires Valid()
      modifies this`pos
      ensures Did(ParseWindowEnd(partition, old(Rest())), window)
      decreases |toks| - pos, 5
    {
      hide ParseOrder;
      var order := ParseOrderAt();
      if order.None? {
        return None;
      }
      ghost var after := Rest();
      var closed := Match(Symbol, ")");
      assert closed ==> Rest() == after[1..];
      window := if closed then Some(Window(partition, order.value)) else None;
    }

    method ParseOrderAt() returns (keys: Option<seq<SortKey>>)
      requires Valid()
      modifies this`pos
      ensures Did(ParseOrder(old(Rest())), keys)
      decreases |toks| - pos, 4
    {
      hide ParseKeys;
      ghost var rest := Rest();
      var order := Match(Keyword, "order");
      if !order {
        return Some([]);
      }
      assert rest[1..] == Rest();
      var byNext := Match(Keyword, "by");
      if !byNext {
        return None;
      }
      assert rest[2..] == Rest();
      keys := ParseKeysAt();
    }

    method ParseKeysAt() returns (keys: Option<seq<SortKey>>)
      requires Valid()
      modifies this`pos
      ensures Did(ParseKeys(old(Rest())), keys)
      decreases |toks| - pos, 3
    {
      hide ParseKey;
      ghost var whole := ParseKeys(Rest());
      var found: seq<SortKey> := [];
      NothingPrefixed(whole);
      while true
        invariant Valid() && pos >= old(pos) && whole == Prefixed(found, ParseKeys(Rest()))
        decreases |toks| - pos
      {
        var one := ParseKeyAt();
        if one.None? {
          return None;
        }
        ghost var rest, before := Rest(), found;
        found := found + [one.value];
        var comma := Match(Symbol, ",");
        if !comma {
          return Some(found);
        }
        assert rest[1..] == Rest();
        PrefixedTwice(before, one.value, ParseKeys(rest[1..]));
      }
    }

    method ParseKeyAt() returns (key: Option<SortKey>)
      requires Valid()
      modifies this`pos
      ensures Did(ParseKey(old(Rest())), key)
      decreases |toks| - pos, 2
    {
      hide ParseColumnOrCall;
      var sorted := ParseColumnOrCallAt();
      if sorted.None? {
        return None;
      }
      ghost var rest := Rest();
      if pos < |toks| && toks[pos].kind.Keyword? && (Lower(toks[pos].value) == "asc" || Lower(toks[pos].value) == "desc") {
        key := Some(SortKey(sorted.value, Some(toks[pos].value)));
        pos := pos + 1;
        assert rest[1..] == Rest();
      } else {
        key := Some(SortKey(sorted.value, None));
      }
    }

    method ParseItemsAt() returns (items: Option<seq<Operand>>)
      requires Valid()
      modifies this`pos
      ensures Did(ParseItems(old(Rest())), items)
      decreases |toks| - pos
    {
      ghost var rest := Rest();
      if pos >= |toks| || !(toks[pos].kind.Number? || toks[pos].kind.String?) {
        return None;
      }
      var item := ItemOf(toks[pos]);
      pos := pos + 1;
      assert rest[1..] == Rest();
      var comma := Match(Symbol, ",");
      if comma {
        assert rest[2..] == Rest();
        var others := ParseItemsAt();
        items := if others.None? then None else Some([item] + others.value);
        return;
      }
      var closed := Match(Symbol, ")");
      assert closed ==> rest[2..] == Rest();
      items := if closed then Some([item]) else None;
    }

    method ParseIsNullAt(left: Operand) returns (node: Option<Expr>)
      requires Valid() && pos < |toks|
      modifies this`pos
      ensures Did(ParseIsNull(left, old(Rest())), node)
    {
      ghost var rest := Rest();
      pos := pos + 1;
      assert rest[1..] == Rest();
      var negated := Match(Keyword, "not");
      assert Rest() == if negated then rest[2..] else rest[1..];
      ghost var after := Rest();
      var isNull := Match(Keyword, "null");
      assert isNull ==> Rest() == after[1..];
      node := if isNull then Some(IsNull(left, negated)) else None;
    }

    method ParseInAt(left: Operand, negated: bool) returns (node: Option<Expr>)
      requires Valid()
      modifies this`pos
      ensures Did(ParseIn(left, negated, old(Rest())), node)
    {
      ghost var rest := Rest();
      var select := CheckSelect();
      if select {
        return None;
      }
      var open := Match(Symbol, "(");
      if !open {
        return None;
      }
      assert rest[1..] == Rest();
      var items := ParseItemsAt();
      node := if items.None? then None else Some(InList(left, negated, items.value));
    }

    method ParseCompareAt(left: Operand) returns (node: Option<Expr>)
      requires Valid()
      modifies this`pos
      ensures Did(ParseCompare(left, old(Rest())), node)
    {
      ghost var rest := Rest();
      if pos >= |toks| || !(toks[pos].kind.Operator? || toks[pos].kind.Keyword?) {
        return None;
      }
      var op := toks[pos].value;
      pos := pos + 1;
      assert rest[1..] == Rest();
      var right := ParseOperandAt();
      node := if right.None? then None else Some(Compare(op, left, right.value));
    }

    method ParseTailAt(left: Operand) returns (node: Option<Expr>)
      requires Valid()
      modifies this`pos
      ensures Did(ParseTail(left, old(Rest())), node)
    {
      ghost var rest := Rest();
      var isNull := Check(0, Keyword, "is");
      if isNull {
        node := ParseIsNullAt(left);
        return;
      }
      var negated := CheckNotIn();
      var plain := Check(0, Keyword, "in");
      if negated {
        pos := pos + 2;
        assert rest[2..] == Rest();
        node := ParseInAt(left, true);
      } else if plain {
        pos := pos + 1;
        assert rest[1..] == Rest();
        node := ParseInAt(left, false);
      } else {
        node := ParseCompareAt(left);
      }
    }

    method CheckNotIn() returns (yes: bool)
      requires Valid()
      ensures yes <==> StartsNotIn(Rest())
    {
      yes := Check(0, Keyword, "not");
      if yes {
        yes := Check(1, Keyword, "in");
        assert Rest()[1..] == toks[pos + 1..];
      }
    }

    method CheckExists() returns (yes: bool)
      requires Valid()
      ensures yes <==> StartsExists(Rest())
    {
      yes := Check(0, Keyword, "exists");
      if !yes {
        yes := Check(0, Keyword, "not");
        if yes {
          yes := Check(1, Keyword, "exists");
          assert Rest()[1..] == toks[pos + 1..];
        }
      }
    }

    method ParseComparisonAt() returns (node: Option<Expr>)
      requires Valid()
      modifies this`pos
      ensures Did(ParseComparison(old(Rest())), node)
      decreases |toks| - pos, 1
    {
      var existsNext := CheckExists();
      if existsNext {
        return None;
      }
      var select := CheckSelect();
      var open := Check(0, Symbol, "(");
      if !select && open {
        node := ParseGroupAt();
        return;
      }
      var left := ParseOperandAt();
      if left.None? {
        return None;
      }
      node := ParseTailAt(left.value);
    }

    method ParseGroupAt() returns (node: Option<Expr>)
      requires Valid() && !StartsExists(Rest()) && !StartsSelect(Rest()) && IsAt(Rest(), Symbol, "(")
      modifies this`pos
      ensures Did(ParseComparison(old(Rest())), node)
      decreases |toks| - pos, 0
    {
      ghost var rest := Rest();
      pos := pos + 1;
      assert rest[1..] == Rest();
      var inner := ParseOrAt();
      if inner.None? {
        return None;
      }
      ghost var after := Rest();
      var closed := Match(Symbol, ")");
      assert closed ==> Rest() == after[1..];
      node := if closed then inner else None;
    }

    method ParseAndAt() returns (node: Option<Expr>)
      requires Valid()
      modifies this`pos
      ensures Did(ParseAnd(old(Rest())), node)
      decreases |toks| - pos, 2
    {
      hide ParseComparison;
      ghost var r := ParseAnd(Rest());
      var left := ParseComparisonAt();
      if left.None? {
        return None;
      }
      var tree := left.value;
      var more := Check(0, Keyword, "and");
      while more
        invariant Valid() && pos > old(pos) && r == AndLoop(tree, Rest()) && (more <==> IsAt(Rest(), Keyword, "and"))
        decreases |toks| - pos
      {
        var word := toks[pos].value;
        ghost var rest := Rest();
        pos := pos + 1;
        assert rest[1..] == Rest();
        var right := ParseComparisonAt();
        if right.None? {
          return None;
        }
        tree := And(word, tree, right.value);
        more := Check(0, Keyword, "and");
      }
      node := Some(tree);
    }

    method ParseOrAt() returns (node: Option<Expr>)
      requires Valid()
      modifies this`pos
      ensures Did(ParseOr(old(Rest())), node)
      decreases |toks| - pos, 3
    {
      hide ParseAnd;
      ghost var r := ParseOr(Rest());
      var left := ParseAndAt();
      if left.None? {
        return None;
      }
      var tree := left.value;
      var more := Check(0, Keyword, "or");
      while more
        invariant Valid() && pos > old(pos) && r == OrLoop(tree, Rest()) && (more <==> IsAt(Rest(), Keyword, "or"))
        decreases |toks| - pos
      {
        var word := toks[pos].value;
        ghost var rest := Rest();
        pos := pos + 1;
        assert rest[1..] == Rest();
        var right := ParseAndAt();
        if right.None? {
          return None;
        }
        tree := Or(word, tree, right.value);
        more := Check(0, Keyword, "or");
      }
      node := Some(tree);
    }

    /** CHECK, behind its keyword: the condition in parentheses, and its source text. */
    method ParseCheck(source: string) returns (check: Option<(Expr, string)>)
      requires Valid() && tokens == Tokens(source)
      modifies this`pos
      ensures Valid()
      ensures check.Some? <==> exists n, e :: IsEnclosed(old(Rest()), n, e)
      ensures check.Some? ==>
                && old(pos) + 2 <= pos && IsEnclosed(old(Rest()), pos - old(pos) - 1, check.value.0)
                && IsSource(source, tokens, old(pos) + 1, pos - 1, check.value.1)
      ensures check.Some? ==> IsAt(old(Rest()), Symbol, "(") && IsCondition(old(Rest())[1..], check.value.0, check.value.1)
    {
      hide ParseOr, IsEnclosed, IsSource, IsCondition;
      ghost var before := Rest();
      CheckIff(before);
      var open := Match(Symbol, "(");
      if !open {
        return None;
      }
      assert before[1..] == Rest();
      check := Capture(source);
      if check.None? {
        return;
      }
      ghost var behind := Rest();
      var closed := Match(Symbol, ")");
      if closed {
        EnclosedParses(before, pos - old(pos) - 1, check.value.0);
        assert before[pos - old(pos) - 1..] == behind;
      } else {
        check := None;
      }
    }

    /** A condition, with the source text from its first token to its last one. */
    method Capture(source: string) returns (condition: Option<(Expr, string)>)
      requires Valid() && tokens == Tokens(source)
      modifies this`pos
      ensures Valid() && (condition.Some? <==> ParseOr(old(Rest())).Some?)
      ensures condition.Some? ==> IsCondition(old(Rest()), condition.value.0, condition.value.1)
      ensures condition.Some? ==>
                ParseOr(old(Rest())) == Some((condition.value.0, Rest())) && IsSource(source, tokens, old(pos), pos, condition.value.1)
    {
      var start := pos;
      var expr := ParseOrAt();
      if expr.None? {
        return None;
      }
      CheckTextParsesBack(source, toks, start, pos, expr.value);
      condition := Some((expr.value, source[tokens[start].lo..tokens[pos - 1].hi]));
    }
  }

  /** The text is the source from token i up to token j. */
  predicate IsSource(source: string, tokens: seq<Token>, i: nat, j: nat, text: string) {
    i < j <= |tokens| && tokens[i].lo <= tokens[j - 1].hi <= |source| && text == source[tokens[i].lo..tokens[j - 1].hi]
  }

  /** When a CHECK clause is accepted. */
  lemma {:induction false} CheckIff(ts: Toks)
    ensures (exists n, e :: IsEnclosed(ts, n, e)) <==>
            IsAt(ts, Symbol, "(") && ParseOr(ts[1..]).Some? && IsAt(ParseOr(ts[1..]).value.1, Symbol, ")")
  {
    if n, e :| IsEnclosed(ts, n, e) {
      EnclosedParses(ts, n, e);
    }
    if IsAt(ts, Symbol, "(") && ParseOr(ts[1..]).Some? && IsAt(ParseOr(ts[1..]).value.1, Symbol, ")") {
      var (e, rest) := ParseOr(ts[1..]).value;
      OrDenotes(ts[1..]);
      var n := |ts| - |rest|;
      assert rest == ts[1..][|ts[1..]| - |rest|..] == ts[n..];
      EnclosedParses(ts, n, e);
      assert IsEnclosed(ts, n, e);
    }
  }

  /** The tokens start with the condition, and its text alone parses to it. */
  ghost predicate IsCondition(ts: Toks, e: Expr, text: string) {
    && ParseOr(ts).Some? && ParseOr(ts).value.0 == e
    && ParseOr(Bare(Tokens(text))) == Some((e, []))
  }

  /** Parses the text of a condition again, when its table is loaded. */
  method ParseCheckText(text: string) returns (node: Option<Expr>)
    ensures node.None? <==> ParseOr(Bare(Tokens(text))).None?
    ensures node.Some? ==> node.value == ParseOr(Bare(Tokens(text))).value.0
  {
    var tokens := Tokenize(text);
    var ctx := new ParseCtx(tokens);
    assert ctx.toks[0..] == Bare(tokens);
    node := ctx.ParseOrAt();
  }

  /** What CREATE TABLE keeps is what loading the table gives back. */
  method CheckSurvivesReload(source: string, at: nat) returns (created: Option<(Expr, string)>, loaded: Option<Expr>)
    requires at <= |Tokens(source)|
    ensures created.Some? <==> exists n, e :: IsEnclosed(Bare(Tokens(source))[at..], n, e)
    ensures created.Some? ==> loaded == Some(created.value.0)
  {
    var tokens := Tokenize(source);
    var ctx := new ParseCtx(tokens);
    ctx.pos := at;
    assert ctx.Rest() == Bare(Tokens(source))[at..];
    created := ctx.ParseCheck(source);
    if created.Some? {
      loaded := ParseCheckText(created.value.1);
    } else {
      loaded := None;
    }
  }
}
