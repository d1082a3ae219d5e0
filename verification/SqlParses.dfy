/** The parser finds what the grammar denotes: tokens that denote a tree parse to it,
    whatever follows that cannot belong to them. */
module SqlParses {
  import opened SqlTokens
  import opened SqlOperands
  import opened SqlOperandTrip
  import opened SqlParser
  import opened SqlRoundTrip
  import opened SqlGrammar

  lemma {:induction false} FirstOf(ts: Toks, rest: Toks)
    requires ts != []
    ensures (ts + rest)[0] == ts[0] && (ts + rest)[1..] == ts[1..] + rest
  {
  }

  lemma {:induction false} SecondOf(ts: Toks, rest: Toks)
    requires |ts| > 1
    ensures (ts + rest)[1..][0] == ts[1] && (ts + rest)[2..] == ts[2..] + rest
  {
  }

  /** Tokens split in front of the k-th one. */
  lemma {:induction false} SplitAt(ts: Toks, k: nat, rest: Toks)
    requires k < |ts|
    ensures ts + rest == ts[..k] + ([ts[k]] + (ts[k + 1..] + rest))
    ensures var behind := [ts[k]] + (ts[k + 1..] + rest);
            behind[0] == ts[k] && behind[1..] == ts[k + 1..] + rest
  {
  }

  lemma {:induction false} SplitBefore(ts: Toks, k: nat, rest: Toks)
    requires k <= |ts|
    ensures ts + rest == ts[..k] + (ts[k..] + rest)
  {
  }

  lemma {:induction false} ColumnParses(ts: Toks, o: Operand, rest: Toks)
    requires DenotesColumn(ts, o) && !IsAt(rest, Symbol, ".")
    ensures ParseColumnRef(ts + rest) == Some((o, rest))
  {
    var all := ts + rest;
    if o.qualifier.None? {
      assert all[1..] == rest;
    } else {
      assert all[1..][0] == ts[1] && all[2] == ts[2] && all[3..] == rest;
    }
  }

  lemma {:induction false} ItemParses(ts: Toks, o: Operand, columns: bool, rest: Toks)
    requires DenotesItem(ts, o, columns) && !IsAt(rest, Symbol, ".")
    ensures ParseArg(ts + rest, columns) == Some((o, rest)) && ts != []
  {
    if o.Column? {
      ColumnParses(ts, o, rest);
      FirstOf(ts, rest);
    } else {
      assert (ts + rest)[1..] == rest;
    }
  }

  lemma {:induction false} ListParses(ts: Toks, os: seq<Operand>, columns: bool, rest: Toks)
    requires DenotesList(ts, os, columns) && !IsAt(rest, Symbol, ",") && !IsAt(rest, Symbol, ".")
    ensures ParseList(ts + rest, columns) == Some((os, rest))
    decreases |os|
  {
    hide ParseArg, ParseList, DenotesItem;
    if |os| == 1 {
      ItemParses(ts, os[0], columns, rest);
      ListOnce(ts + rest, columns, os[0], rest);
      assert os == [os[0]];
    } else {
      var k: nat :| IsSplit(ts, k) && DenotesItem(ts[..k], os[0], columns) && DenotesList(ts[k + 1..], os[1..], columns);
      var behind := [ts[k]] + (ts[k + 1..] + rest);
      LowerWords();
      SplitAt(ts, k, rest);
      ItemParses(ts[..k], os[0], columns, behind);
      ListOnce(ts + rest, columns, os[0], behind);
      ListParses(ts[k + 1..], os[1..], columns, rest);
      assert os == [os[0]] + os[1..];
    }
  }

  lemma {:induction false} ListStarts(ts: Toks, os: seq<Operand>, columns: bool)
    requires DenotesList(ts, os, columns)
    ensures ts != [] && !IsTok(ts[0], Symbol, ")")
  {
    if |os| > 1 {
      var k: nat :| IsSplit(ts, k) && DenotesItem(ts[..k], os[0], columns) && DenotesList(ts[k + 1..], os[1..], columns);
      assert ts[..k][0] == ts[0];
    }
  }

  lemma {:induction false} ArgsParse(ts: Toks, os: seq<Operand>, rest: Toks)
    requires DenotesArgs(ts, os) && IsAt(rest, Symbol, ")")
    ensures ParseArgs(ts + rest) == Some((os, rest))
  {
    if os == [] {
      assert ts + rest == rest;
    } else {
      ListStarts(ts, os, false);
      ListParses(ts, os, false, rest);
      FirstOf(ts, rest);
    }
  }

  lemma {:induction false} CallParses(ts: Toks, o: Operand, rest: Toks)
    requires DenotesCall(ts, o) && (o.window.None? ==> !IsAt(rest, Keyword, "over"))
    ensures StartsCall(ts + rest) && ParseCall(ts + rest) == Some((o, rest))
    decreases |ts|, 0
  {
    hide ParseArgs, ParseOver, DenotesArgs;
    var k: nat :| 2 <= k < |ts| && DenotesArgs(ts[2..k], o.args) && IsTok(ts[k], Symbol, ")") && DenotesOver(ts[k + 1..], o.window);
    var behind := [ts[k]] + (ts[k + 1..] + rest);
    ArgsParse(ts[2..k], o.args, behind);
    OverParses(o.name, o.args, ts[k], ts[k + 1..], o.window, rest);
    CallParts(ts, k, rest);
  }

  lemma {:induction false} CallParts(ts: Toks, k: nat, rest: Toks)
    requires 2 <= k < |ts|
    ensures (ts + rest)[0] == ts[0] && (ts + rest)[1..][0] == ts[1]
    ensures (ts + rest)[2..] == ts[2..k] + ([ts[k]] + (ts[k + 1..] + rest))
  {
  }

  lemma {:induction false} OverParses(name: string, args: seq<Operand>, close: Tok, ts: Toks, window: Option<Window>, rest: Toks)
    requires IsTok(close, Symbol, ")") && DenotesOver(ts, window) && (window.None? ==> !IsAt(rest, Keyword, "over"))
    ensures ParseOver(name, args, [close] + (ts + rest)) == Some((Call(name, args, window), rest))
    decreases |ts|, 1
  {
    hide ParseWindow;
    var all := [close] + (ts + rest);
    assert all[1..] == ts + rest;
    if window.None? {
      assert ts + rest == rest;
    } else {
      FirstOf(ts, rest);
      assert all[2..] == ts[1..] + rest;
      WindowParses(ts[1..], window.value, rest);
    }
  }

  lemma {:induction false} WindowParses(ts: Toks, w: Window, rest: Toks)
    requires DenotesWindow(ts, w)
    ensures ParseWindow(ts + rest) == Some((w, rest))
    decreases |ts|, 0
  {
    hide ParsePartition, ParseOrder, DenotesPartition, DenotesOrder;
    var n := |ts| - 1;
    var k: nat :| 1 <= k < |ts| && DenotesPartition(ts[1..k], w.partition) && DenotesOrder(ts[k..n], w.order);
    var close := [ts[n]] + rest;
    var order := ts[k..n] + close;
    LowerWords();
    FirstOf(ts, rest);
    assert ts[1..] + rest == ts[1..k] + order;
    OrderFirst(ts[k..n], w.order, close);
    PartitionParses(ts[1..k], w.partition, order);
    OrderParses(ts[k..n], w.order, close);
    assert close[1..] == rest;
  }

  lemma {:induction false} OrderFirst(ts: Toks, keys: seq<SortKey>, rest: Toks)
    requires DenotesOrder(ts, keys) && IsAt(rest, Symbol, ")")
    ensures var all := ts + rest; !IsAt(all, Symbol, ",") && !IsAt(all, Symbol, ".") && !IsAt(all, Keyword, "partition")
  {
    if keys == [] {
      assert ts + rest == rest;
    } else {
      FirstOf(ts, rest);
    }
  }

  lemma {:induction false} PartitionParses(ts: Toks, columns: seq<Operand>, rest: Toks)
    requires DenotesPartition(ts, columns) && !IsAt(rest, Symbol, ",") && !IsAt(rest, Symbol, ".") && !IsAt(rest, Keyword, "partition")
    ensures ParsePartition(ts + rest) == Some((columns, rest))
  {
    hide ParseList, DenotesList;
    if columns == [] {
      assert ts + rest == rest;
    } else {
      FirstOf(ts, rest);
      SecondOf(ts, rest);
      ListParses(ts[2..], columns, true, rest);
    }
  }

  lemma {:induction false} OrderParses(ts: Toks, keys: seq<SortKey>, rest: Toks)
    requires DenotesOrder(ts, keys) && IsAt(rest, Symbol, ")")
    ensures ParseOrder(ts + rest) == Some((keys, rest))
    decreases |ts|, 0
  {
    hide ParseKeys, DenotesKeys;
    if keys == [] {
      assert ts + rest == rest;
    } else {
      FirstOf(ts, rest);
      SecondOf(ts, rest);
      KeysParse(ts[2..], keys, rest);
    }
  }

  lemma {:induction false} KeysParse(ts: Toks, keys: seq<SortKey>, rest: Toks)
    requires DenotesKeys(ts, keys) && IsAt(rest, Symbol, ")")
    ensures ParseKeys(ts + rest) == Some((keys, rest))
    decreases |ts|, 4
  {
    hide ParseKey, ParseKeys, DenotesKey;
    if |keys| == 1 {
      KeyParses(ts, keys[0], rest);
      KeysOnce(ts + rest, keys[0], rest);
      assert keys == [keys[0]];
    } else {
      var k: nat :| IsSplit(ts, k) && DenotesKey(ts[..k], keys[0]) && DenotesKeys(ts[k + 1..], keys[1..]);
      var behind := [ts[k]] + (ts[k + 1..] + rest);
      SplitAt(ts, k, rest);
      KeyParses(ts[..k], keys[0], behind);
      KeysOnce(ts + rest, keys[0], behind);
      KeysParse(ts[k + 1..], keys[1..], rest);
      assert keys == [keys[0]] + keys[1..];
    }
  }

  lemma {:induction false} KeyParses(ts: Toks, k: SortKey, rest: Toks)
    requires DenotesKey(ts, k) && (IsAt(rest, Symbol, ")") || IsAt(rest, Symbol, ","))
    ensures ParseKey(ts + rest) == Some((k, rest))
    decreases |ts|, 3
  {
    hide ParseColumnOrCall, DenotesColumnOrCall;
    if k.direction.None? {
      ColumnOrCallParses(ts, k.key, rest);
    } else {
      var n := |ts| - 1;
      var behind := [ts[n]] + rest;
      assert ts + rest == ts[..n] + behind && behind[1..] == rest;
      ColumnOrCallParses(ts[..n], k.key, behind);
    }
  }

  lemma {:induction false} ColumnOrCallParses(ts: Toks, o: Operand, rest: Toks)
    requires DenotesColumnOrCall(ts, o) && EndsOperand(o, rest)
    ensures ParseColumnOrCall(ts + rest) == Some((o, rest)) && ts != [] && ts[0].kind.Identifier?
    decreases |ts|, 2
  {
    hide ParseCall, ParseColumnRef;
    if o.Call? {
      CallParses(ts, o, rest);
    } else {
      ColumnParses(ts, o, rest);
      ColumnStartsNoCall(ts, o, rest);
    }
  }

  lemma {:induction false} ColumnStartsNoCall(ts: Toks, o: Operand, rest: Toks)
    requires DenotesColumn(ts, o) && !IsAt(rest, Symbol, "(")
    ensures !StartsCall(ts + rest)
  {
    var all := ts + rest;
    if o.qualifier.None? {
      assert all[1..] == rest;
    } else {
      assert all[1..][0] == ts[1];
    }
  }

  /** Tokens that denote an operand parse to it. */
  lemma {:induction false} OperandParses(ts: Toks, o: Operand, rest: Toks)
    requires DenotesOperand(ts, o) && EndsOperand(o, rest)
    ensures ParseOperand(ts + rest) == Some((o, rest)) && ts != [] && !ts[0].kind.Symbol?
    ensures !IsTok(ts[0], Keyword, "exists") && !IsTok(ts[0], Keyword, "not") && !IsTok(ts[0], Keyword, "in")
  {
    hide ParseColumnOrCall, DenotesCall;
    LowerWords();
    if o.Column? || o.Call? {
      ColumnOrCallParses(ts, o, rest);
      FirstOf(ts, rest);
    } else {
      assert (ts + rest)[1..] == rest && (ts + rest)[0] == ts[0];
    }
  }

  // ---- Comparisons ----

  lemma {:induction false} ItemsParse(ts: Toks, items: seq<Operand>, close: Tok, rest: Toks)
    requires DenotesItems(ts, items) && IsTok(close, Symbol, ")")
    ensures ParseItems(ts + ([close] + rest)) == Some((items, rest))
    decreases |items|
  {
    var all := ts + ([close] + rest);
    assert all[0] == ts[2 * 0] && items[0] == ItemOf(all[0]);
    if |items| == 1 {
      assert all[1..][0] == close && all[2..] == rest && items == [items[0]];
    } else {
      assert all[1..][0] == ts[2 * 0 + 1];
      assert all[2..] == ts[2..] + ([close] + rest) && items == [items[0]] + items[1..];
      ItemsRest(ts, items);
      ItemsParse(ts[2..], items[1..], close, rest);
    }
  }

  lemma {:induction false} ItemsRest(ts: Toks, items: seq<Operand>)
    requires DenotesItems(ts, items) && |items| > 1
    ensures DenotesItems(ts[2..], items[1..])
  {
    forall i | 0 <= i < |items| - 1
      ensures (ts[2..][2 * i].kind.Number? || ts[2..][2 * i].kind.String?) && items[1..][i] == ItemOf(ts[2..][2 * i])
    {
      assert ts[2..][2 * i] == ts[2 * (i + 1)];
    }
    forall i | 0 <= i < |items| - 2
      ensures IsTok(ts[2..][2 * i + 1], Symbol, ",")
    {
      assert ts[2..][2 * i + 1] == ts[2 * (i + 1) + 1];
    }
  }

  lemma {:induction false} NullParses(ts: Toks, left: Operand, negated: bool, rest: Toks)
    requires DenotesNull(ts, negated)
    ensures ParseTail(left, ts + rest) == Some((IsNull(left, negated), rest))
  {
    var all := ts + rest;
    LowerWords();
    if negated {
      assert all[1..][0] == ts[1] && all[2..][0] == ts[2] && all[2..][1..] == rest;
    } else {
      assert all[1..][0] == ts[1] && all[1..][1..] == rest;
    }
  }

  lemma {:induction false} InParses(ts: Toks, left: Operand, negated: bool, items: seq<Operand>, rest: Toks)
    requires DenotesIn(ts, negated, items)
    ensures ParseTail(left, ts + rest) == Some((InList(left, negated, items), rest))
  {
    hide ParseItems, DenotesItems;
    var all, n, m := ts + rest, if negated then 1 else 0, |ts| - 1;
    var list, inside := all[n + 1..], ts[n + 2..m] + ([ts[m]] + rest);
    ItemsParse(ts[n + 2..m], items, ts[m], rest);
    LowerWords();
    assert list[0] == ts[n + 1] && list[1..] == inside;
    ListStartsNoSelect(ts[n + 2..m], items, inside, ts[m], rest);
    assert all[0] == ts[0];
    assert negated ==> all[1..][0] == ts[1] && all[2..] == list;
  }

  lemma {:induction false} ListStartsNoSelect(ts: Toks, items: seq<Operand>, all: Toks, close: Tok, rest: Toks)
    requires DenotesItems(ts, items) && all == ts + ([close] + rest)
    ensures !IsAt(all, Keyword, "select")
  {
    assert all[0] == ts[2 * 0];
  }

  lemma {:induction false} CompareParses(ts: Toks, e: Expr, rest: Toks)
    requires e.Compare? && DenotesTail(ts, e) && Ends(rest)
    ensures ParseTail(e.left, ts + rest) == Some((e, rest))
  {
    hide ParseOperand, DenotesOperand;
    FirstOf(ts, rest);
    OperandParses(ts[1..], e.right, rest);
    assert (ts + rest)[1..][0] == ts[1];
  }

  lemma {:induction false} TailParses(ts: Toks, e: Expr, rest: Toks)
    requires !e.And? && !e.Or? && DenotesTail(ts, e) && Ends(rest)
    ensures ParseTail(LeftOperand(e), ts + rest) == Some((e, rest)) && ts != []
    ensures EndsOperand(LeftOperand(e), ts + rest)
  {
    FirstOf(ts, rest);
    match e
    case IsNull(left, negated) => NullParses(ts, left, negated, rest);
    case InList(left, negated, items) => InParses(ts, left, negated, items, rest);
    case Compare(_, _, _) => CompareParses(ts, e, rest);
  }

  lemma {:induction false} LeafParses(ts: Toks, e: Expr, k: nat, rest: Toks)
    requires !e.And? && !e.Or? && k < |ts| && DenotesOperand(ts[..k], LeftOperand(e)) && DenotesTail(ts[k..], e) && Ends(rest)
    ensures ParseComparison(ts + rest) == Some((e, rest))
  {
    hide ParseOperand, ParseTail, DenotesOperand, DenotesTail;
    var left, tail := ts[..k], ts[k..] + rest;
    SplitBefore(ts, k, rest);
    TailParses(ts[k..], e, rest);
    OperandParses(left, LeftOperand(e), tail);
    FirstOf(left, tail);
    assert (left + tail)[0] == left[0];
  }

  // ---- Expressions ----

  lemma {:induction false} DenotedStarts(ts: Toks, e: Expr)
    requires DenotesOr(ts, e) || DenotesAnd(ts, e) || DenotesComparison(ts, e)
    ensures ts != [] && !IsTok(ts[0], Keyword, "select")
    decreases |ts|, if DenotesComparison(ts, e) then 0 else if DenotesAnd(ts, e) then 1 else 2
  {
    if DenotesComparison(ts, e) {
      DenotedComparisonStarts(ts, e);
    } else if DenotesAnd(ts, e) {
      var k: nat :| IsLink(ts, k, "and", e.word) && DenotesAnd(ts[..k], e.first) && DenotesComparison(ts[k + 1..], e.second);
      DenotedStarts(ts[..k], e.first);
    } else {
      var k: nat :| IsLink(ts, k, "or", e.word) && DenotesOr(ts[..k], e.first) && DenotesAnd(ts[k + 1..], e.second);
      DenotedStarts(ts[..k], e.first);
    }
  }

  lemma {:induction false} DenotedComparisonStarts(ts: Toks, e: Expr)
    requires DenotesComparison(ts, e)
    ensures ts != [] && !IsTok(ts[0], Keyword, "select")
  {
    if !IsTok(ts[0], Symbol, "(") {
      var k: nat :| k < |ts| && DenotesOperand(ts[..k], LeftOperand(e)) && DenotesTail(ts[k..], e);
      OperandIsNoSelect(ts[..k], LeftOperand(e));
      assert ts[..k][0] == ts[0];
    }
  }

  lemma {:induction false} OperandIsNoSelect(ts: Toks, o: Operand)
    requires DenotesOperand(ts, o)
    ensures ts != [] && !IsTok(ts[0], Keyword, "select")
  {
  }

  lemma {:induction false} ComparisonParses(ts: Toks, e: Expr, rest: Toks)
    requires DenotesComparison(ts, e) && Ends(rest)
    ensures ParseComparison(ts + rest) == Some((e, rest))
    decreases |ts|, 0
  {
    if |ts| > 2 && IsTok(ts[0], Symbol, "(") && IsTok(ts[|ts| - 1], Symbol, ")") && DenotesOr(ts[1..|ts| - 1], e) {
      hide ParseOr, DenotesOr;
      var all, inner, close := ts + rest, ts[1..|ts| - 1], [ts[|ts| - 1]] + rest;
      LowerWords();
      assert all[1..] == inner + close && close[1..] == rest;
      DenotedStarts(inner, e);
      assert all[1..][0] == inner[0];
      OrParses(inner, e, close);
      assert OrLoop(e, close) == Some((e, close));
    } else {
      var k: nat :| k < |ts| && DenotesOperand(ts[..k], LeftOperand(e)) && DenotesTail(ts[k..], e);
      LeafParses(ts, e, k, rest);
    }
  }

  lemma {:induction false} AndParses(ts: Toks, e: Expr, rest: Toks)
    requires DenotesAnd(ts, e) && Ends(rest)
    ensures ParseAnd(ts + rest) == AndLoop(e, rest)
    decreases |ts|, 1
  {
    hide ParseComparison, DenotesComparison;
    if DenotesComparison(ts, e) {
      ComparisonParses(ts, e, rest);
    } else {
      var k: nat :| IsLink(ts, k, "and", e.word) && DenotesAnd(ts[..k], e.first) && DenotesComparison(ts[k + 1..], e.second);
      var behind := [ts[k]] + (ts[k + 1..] + rest);
      SplitAt(ts, k, rest);
      AndParses(ts[..k], e.first, behind);
      ComparisonParses(ts[k + 1..], e.second, rest);
      AndLoopOnce(e.first, behind, e.second, rest);
      assert e == And(ts[k].value, e.first, e.second);
    }
  }

  lemma {:induction false} OrParses(ts: Toks, e: Expr, rest: Toks)
    requires DenotesOr(ts, e) && Ends(rest) && !IsAt(rest, Keyword, "and")
    ensures ParseOr(ts + rest) == OrLoop(e, rest)
    decreases |ts|, 2
  {
    hide ParseAnd, DenotesAnd;
    if DenotesAnd(ts, e) {
      AndParses(ts, e, rest);
    } else {
      var k: nat :| IsLink(ts, k, "or", e.word) && DenotesOr(ts[..k], e.first) && DenotesAnd(ts[k + 1..], e.second);
      var behind := [ts[k]] + (ts[k + 1..] + rest);
      SplitAt(ts, k, rest);
      OrParses(ts[..k], e.first, behind);
      AndParses(ts[k + 1..], e.second, rest);
      OrLoopOnce(e.first, behind, e.second, rest);
      assert e == Or(ts[k].value, e.first, e.second);
    }
  }
}
