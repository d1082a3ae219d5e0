/** What the parser finds is what the grammar denotes: the tokens it takes denote the
    tree it returns. So a text parses to a tree if and only if its tokens denote it. */
module SqlDenotes {
  import opened SqlTokens
  import opened SqlOperands
  import opened SqlOperandTrip
  import opened SqlParser
  import opened SqlGrammar
  import opened SqlParses

  /** The rest is what is left behind the first tokens. */
  predicate Leaves(ts: Toks, rest: Toks) {
    |rest| <= |ts| && rest == ts[|ts| - |rest|..]
  }

  function Taken(ts: Toks, rest: Toks): Toks
    requires |rest| <= |ts|
  {
    ts[..|ts| - |rest|]
  }

  lemma {:induction false} TakenBy(ts: Toks, n: nat)
    requires n <= |ts|
    ensures Leaves(ts, ts[n..]) && Taken(ts, ts[n..]) == ts[..n]
  {
  }

  /** A first part, j tokens behind it, and a last part. */
  lemma {:induction false} TakenTwice(ts: Toks, first: Toks, j: nat, rest: Toks)
    requires Leaves(ts, first) && j <= |first| && Leaves(first[j..], rest)
    ensures Leaves(ts, rest)
    ensures var n := |ts| - |first|;
            && n + j <= |Taken(ts, rest)| && Taken(ts, rest)[..n] == Taken(ts, first)
            && Taken(ts, rest)[n + j..] == Taken(first[j..], rest)
            && forall i :: 0 <= i < j ==> Taken(ts, rest)[n + i] == first[i]
  {
    var n := |ts| - |first|;
    assert first[j..] == ts[n + j..];
  }

  lemma {:induction false} ColumnDenotes(ts: Toks)
    requires ParseColumnRef(ts).Some?
    ensures var (o, rest) := ParseColumnRef(ts).value; Leaves(ts, rest) && DenotesColumn(Taken(ts, rest), o)
  {
    var (o, rest) := ParseColumnRef(ts).value;
    if o.qualifier.Some? {
      assert ts[1] == ts[1..][0];
      TakenBy(ts, 3);
    } else {
      TakenBy(ts, 1);
    }
  }

  lemma {:induction false} ItemDenotes(ts: Toks, columns: bool)
    requires ParseArg(ts, columns).Some?
    ensures var (o, rest) := ParseArg(ts, columns).value; Leaves(ts, rest) && DenotesItem(Taken(ts, rest), o, columns)
  {
    if ParseColumnRef(ts).Some? {
      ColumnDenotes(ts);
    }
    if ts != [] {
      TakenBy(ts, 1);
    }
  }

  lemma {:induction false} ListDenotes(ts: Toks, columns: bool)
    requires ParseList(ts, columns).Some?
    ensures var (os, rest) := ParseList(ts, columns).value; Leaves(ts, rest) && DenotesList(Taken(ts, rest), os, columns)
    decreases |ts|
  {
    hide ParseArg, ParseList, DenotesItem;
    var one, first := ListParts(ts, columns);
    ItemDenotes(ts, columns);
    if IsAt(first, Symbol, ",") {
      ListDenotes(first[1..], columns);
      var (others, rest) := ParseList(first[1..], columns).value;
      TakenTwice(ts, first, 1, rest);
      ListJoined(Taken(ts, rest), |ts| - |first|, one, others, columns);
    } else {
      assert [one][0] == one;
    }
  }

  lemma {:induction false} ListJoined(ts: Toks, k: nat, one: Operand, others: seq<Operand>, columns: bool)
    requires IsSplit(ts, k) && DenotesItem(ts[..k], one, columns) && DenotesList(ts[k + 1..], others, columns)
    ensures DenotesList(ts, [one] + others, columns)
  {
    assert ([one] + others)[1..] == others;
  }

  lemma {:induction false} ArgsDenote(ts: Toks)
    requires ParseArgs(ts).Some?
    ensures var (os, rest) := ParseArgs(ts).value; Leaves(ts, rest) && DenotesArgs(Taken(ts, rest), os)
  {
    if IsAt(ts, Symbol, ")") {
      TakenBy(ts, 0);
    } else {
      ListDenotes(ts, false);
      ListIsNotEmpty(ts, false);
    }
  }

  lemma {:induction false} ListIsNotEmpty(ts: Toks, columns: bool)
    requires ParseList(ts, columns).Some?
    ensures ParseList(ts, columns).value.0 != []
  {
    var one, first := ListParts(ts, columns);
  }

  lemma {:induction false} CallDenotes(ts: Toks)
    requires StartsCall(ts) && ParseCall(ts).Some?
    ensures var (o, rest) := ParseCall(ts).value; Leaves(ts, rest) && DenotesCall(Taken(ts, rest), o)
    decreases |ts|, 0
  {
    hide ParseArgs, ParseOver, DenotesArgs, DenotesOver;
    var (args, first) := ParseArgs(ts[2..]).value;
    var (o, rest) := ParseOver(ts[0].value, args, first).value;
    ArgsDenote(ts[2..]);
    OverDenotes(ts[0].value, args, first);
    TakenBy(ts, 2);
    TakenTwice(ts, ts[2..], 0, first);
    TakenTwice(ts, first, 1, rest);
    CallJoined(Taken(ts, rest), |ts| - |first|, o);
  }

  lemma {:induction false} CallJoined(ts: Toks, k: nat, o: Operand)
    requires o.Call? && 2 <= k < |ts| && ts[0] == Tok(Identifier, o.name) && IsTok(ts[1], Symbol, "(")
    requires DenotesArgs(ts[2..k], o.args) && IsTok(ts[k], Symbol, ")") && DenotesOver(ts[k + 1..], o.window)
    ensures DenotesCall(ts, o)
  {
  }

  /** The parenthesis, and the window behind it. */
  lemma {:induction false} OverDenotes(name: string, args: seq<Operand>, ts: Toks)
    requires ParseOver(name, args, ts).Some?
    ensures var (o, rest) := ParseOver(name, args, ts).value;
            && IsAt(ts, Symbol, ")") && Leaves(ts[1..], rest) && o.Call? && o == Call(name, args, o.window)
            && DenotesOver(Taken(ts[1..], rest), o.window)
            && (o.window.None? ==> !IsAt(rest, Keyword, "over"))
    decreases |ts|, 0
  {
    hide ParseWindow, DenotesWindow;
    if IsAt(ts[1..], Keyword, "over") {
      WindowDenotes(ts[2..]);
      var rest := ParseWindow(ts[2..]).value.1;
      TakenBy(ts[1..], 1);
      assert ts[1..][1..] == ts[2..];
      TakenTwice(ts[1..], ts[2..], 0, rest);
    } else {
      TakenBy(ts[1..], 0);
    }
  }

  lemma {:induction false} WindowDenotes(ts: Toks)
    requires ParseWindow(ts).Some?
    ensures var (w, rest) := ParseWindow(ts).value; Leaves(ts, rest) && DenotesWindow(Taken(ts, rest), w)
    decreases |ts|, 0
  {
    hide ParsePartition, ParseWindowEnd, DenotesPartition, DenotesOrder, DenotesWindow;
    var (partition, first) := ParsePartition(ts[1..]).value;
    var (w, rest) := ParseWindowEnd(partition, first).value;
    PartitionDenotes(ts[1..]);
    WindowEndDenotes(partition, first);
    TakenBy(ts, 1);
    TakenTwice(ts, ts[1..], 0, first);
    TakenTwice(ts, first, 0, rest);
    var k, end := |ts| - |first|, Taken(first, rest);
    var all := Taken(ts, rest);
    assert all[k..] == end && all[k..|all| - 1] == end[..|end| - 1] && all[..k] == Taken(ts, first);
    assert all[1..k] == Taken(ts[1..], first);
    WindowJoined(all, k, w);
  }

  /** The sort keys, and the closing parenthesis. */
  lemma {:induction false} WindowEndDenotes(partition: seq<Operand>, ts: Toks)
    requires ParseWindowEnd(partition, ts).Some?
    ensures var (w, rest) := ParseWindowEnd(partition, ts).value;
            && Leaves(ts, rest) && w.partition == partition && Taken(ts, rest) != []
            && var n := |Taken(ts, rest)| - 1; IsTok(Taken(ts, rest)[n], Symbol, ")") && DenotesOrder(Taken(ts, rest)[..n], w.order)
    decreases |ts|, 6
  {
    hide ParseOrder, DenotesOrder, Taken, Leaves;
    var (order, close) := ParseOrder(ts).value;
    OrderDenotes(ts);
    LastTaken(ts, close);
  }

  lemma {:induction false} LastTaken(ts: Toks, close: Toks)
    requires Leaves(ts, close) && close != []
    ensures Leaves(ts, close[1..])
    ensures var all := Taken(ts, close[1..]);
            all != [] && all[|all| - 1] == close[0] && all[..|all| - 1] == Taken(ts, close)
  {
    TakenBy(close, 1);
    TakenTwice(ts, close, 1, close[1..]);
  }

  lemma {:induction false} WindowJoined(ts: Toks, k: nat, w: Window)
    requires 1 <= k < |ts| && IsTok(ts[0], Symbol, "(") && IsTok(ts[|ts| - 1], Symbol, ")")
    requires DenotesPartition(ts[1..k], w.partition) && DenotesOrder(ts[k..|ts| - 1], w.order)
    ensures DenotesWindow(ts, w)
  {
  }

  lemma {:induction false} PartitionDenotes(ts: Toks)
    requires ParsePartition(ts).Some?
    ensures var (columns, rest) := ParsePartition(ts).value; Leaves(ts, rest) && DenotesPartition(Taken(ts, rest), columns)
  {
    hide ParseList, DenotesList;
    if IsAt(ts, Keyword, "partition") {
      ListDenotes(ts[2..], true);
      ListIsNotEmpty(ts[2..], true);
      var rest := ParseList(ts[2..], true).value.1;
      TakenBy(ts, 2);
      TakenTwice(ts, ts[2..], 0, rest);
      assert ts[1..][0] == ts[1];
    } else {
      TakenBy(ts, 0);
    }
  }

  lemma {:induction false} OrderDenotes(ts: Toks)
    requires ParseOrder(ts).Some?
    ensures var (keys, rest) := ParseOrder(ts).value; Leaves(ts, rest) && DenotesOrder(Taken(ts, rest), keys)
    decreases |ts|, 0
  {
    hide ParseKeys, DenotesKeys;
    if IsAt(ts, Keyword, "order") {
      KeysDenote(ts[2..]);
      KeysAreNotEmpty(ts[2..]);
      var rest := ParseKeys(ts[2..]).value.1;
      TakenBy(ts, 2);
      TakenTwice(ts, ts[2..], 0, rest);
      assert ts[1..][0] == ts[1];
    } else {
      TakenBy(ts, 0);
    }
  }

  lemma {:induction false} KeysAreNotEmpty(ts: Toks)
    requires ParseKeys(ts).Some?
    ensures ParseKeys(ts).value.0 != []
  {
    var one, first := KeysParts(ts);
  }

  lemma {:induction false} KeysDenote(ts: Toks)
    requires ParseKeys(ts).Some?
    ensures var (keys, rest) := ParseKeys(ts).value; Leaves(ts, rest) && DenotesKeys(Taken(ts, rest), keys)
    decreases |ts|, 4
  {
    hide ParseKey, ParseKeys, DenotesKey;
    var one, first := KeysParts(ts);
    KeyDenotes(ts);
    if IsAt(first, Symbol, ",") {
      KeysDenote(first[1..]);
      var (others, rest) := ParseKeys(first[1..]).value;
      TakenTwice(ts, first, 1, rest);
      KeysJoined(Taken(ts, rest), |ts| - |first|, one, others);
    } else {
      assert [one][0] == one;
    }
  }

  lemma {:induction false} KeysJoined(ts: Toks, k: nat, one: SortKey, others: seq<SortKey>)
    requires IsSplit(ts, k) && DenotesKey(ts[..k], one) && DenotesKeys(ts[k + 1..], others)
    ensures DenotesKeys(ts, [one] + others)
  {
    assert ([one] + others)[1..] == others;
  }

  lemma {:induction false} KeyDenotes(ts: Toks)
    requires ParseKey(ts).Some?
    ensures var (k, rest) := ParseKey(ts).value; Leaves(ts, rest) && DenotesKey(Taken(ts, rest), k)
    decreases |ts|, 3
  {
    hide ParseColumnOrCall, DenotesColumnOrCall;
    ColumnOrCallDenotes(ts);
    var (key, first) := ParseColumnOrCall(ts).value;
    if StartsDirection(first) {
      TakenBy(first, 1);
      TakenTwice(ts, first, 1, first[1..]);
      var taken := Taken(ts, first[1..]);
      assert taken[..|taken| - 1] == Taken(ts, first);
    }
  }

  lemma {:induction false} ColumnOrCallDenotes(ts: Toks)
    requires ParseColumnOrCall(ts).Some?
    ensures var (o, rest) := ParseColumnOrCall(ts).value; Leaves(ts, rest) && DenotesColumnOrCall(Taken(ts, rest), o)
    decreases |ts|, 2
  {
    if StartsCall(ts) {
      CallDenotes(ts);
    } else {
      ColumnDenotes(ts);
    }
  }

  /** What is behind a call without a window is no OVER. */
  lemma {:induction false} OperandDenotes(ts: Toks)
    requires ParseOperand(ts).Some?
    ensures var (o, rest) := ParseOperand(ts).value;
            && Leaves(ts, rest) && DenotesOperand(Taken(ts, rest), o)
            && (o.Call? && o.window.None? ==> !IsAt(rest, Keyword, "over"))
  {
    if ts[0].kind.Identifier? {
      ColumnOrCallDenotes(ts);
      if StartsCall(ts) {
        var (args, first) := ParseArgs(ts[2..]).value;
        OverDenotes(ts[0].value, args, first);
      }
    } else {
      TakenBy(ts, 1);
    }
  }

  // ---- Comparisons ----

  lemma {:induction false} ItemsDenote(ts: Toks)
    requires ParseItems(ts).Some?
    ensures var (items, rest) := ParseItems(ts).value;
            && Leaves(ts, rest) && Taken(ts, rest) != [] && var inside := Taken(ts, rest)[..|Taken(ts, rest)| - 1];
               DenotesItems(inside, items) && IsTok(Taken(ts, rest)[|inside|], Symbol, ")")
  {
    if IsAt(ts[1..], Symbol, ",") {
      ItemsDenote(ts[2..]);
      var (others, rest) := ParseItems(ts[2..]).value;
      TakenBy(ts, 2);
      TakenTwice(ts, ts[2..], 0, rest);
      var taken := Taken(ts, rest);
      var inside := taken[..|taken| - 1];
      assert inside[2..] == Taken(ts[2..], rest)[..|taken| - 3] && ts[1] == ts[1..][0];
      ItemsJoined(inside, others);
    } else {
      TakenBy(ts, 2);
      assert ts[1] == ts[1..][0];
      assert Taken(ts, ts[2..])[..1] == [ts[0]];
    }
  }

  lemma {:induction false} ItemsJoined(ts: Toks, others: seq<Operand>)
    requires |ts| > 2 && DenotesItems(ts[2..], others) && (ts[0].kind.Number? || ts[0].kind.String?) && IsTok(ts[1], Symbol, ",")
    ensures DenotesItems(ts, [ItemOf(ts[0])] + others)
  {
    var items := [ItemOf(ts[0])] + others;
    forall i | 0 <= i < |items|
      ensures (ts[2 * i].kind.Number? || ts[2 * i].kind.String?) && items[i] == ItemOf(ts[2 * i])
    {
      assert i > 0 ==> ts[2 * i] == ts[2..][2 * (i - 1)] && items[i] == others[i - 1];
    }
    forall i | 0 <= i < |items| - 1
      ensures IsTok(ts[2 * i + 1], Symbol, ",")
    {
      assert i > 0 ==> ts[2 * i + 1] == ts[2..][2 * (i - 1) + 1];
    }
  }

  lemma {:induction false} NullDenotes(left: Operand, ts: Toks)
    requires IsAt(ts, Keyword, "is") && ParseIsNull(left, ts).Some?
    ensures var (e, rest) := ParseIsNull(left, ts).value;
            Leaves(ts, rest) && e.IsNull? && e.operand == left && DenotesNull(Taken(ts, rest), e.negated)
  {
    if IsAt(ts[1..], Keyword, "not") {
      assert ts[2..][1..] == ts[3..] && ts[1..][0] == ts[1] && ts[2..][0] == ts[2];
      TakenBy(ts, 3);
    } else {
      assert ts[1..][1..] == ts[2..] && ts[1..][0] == ts[1];
      TakenBy(ts, 2);
    }
  }

  /** The IN list behind the word IN; n is 1 with NOT in front of it. */
  lemma {:induction false} InDenotes(left: Operand, ts: Toks, n: nat)
    requires n < 2 && |ts| > n && (n == 1 ==> IsTok(ts[0], Keyword, "not")) && IsTok(ts[n], Keyword, "in")
    requires ParseIn(left, n == 1, ts[n + 1..]).Some?
    ensures var (e, rest) := ParseIn(left, n == 1, ts[n + 1..]).value;
            Leaves(ts, rest) && e.InList? && e.operand == left && e.negated == (n == 1) && DenotesIn(Taken(ts, rest), n == 1, e.items)
  {
    hide ParseItems, DenotesItems, DenotesIn;
    var list := ts[n + 1..];
    var (items, rest) := ParseItems(list[1..]).value;
    ItemsDenote(list[1..]);
    assert list[1..] == ts[n + 2..] && list[0] == ts[n + 1];
    TakenBy(ts, n + 2);
    TakenTwice(ts, ts[n + 2..], 0, rest);
    InJoined(Taken(ts, rest), n, Taken(ts[n + 2..], rest), items);
  }

  lemma {:induction false} InJoined(ts: Toks, n: nat, list: Toks, items: seq<Operand>)
    requires n < 2 && |ts| >= n + 2 && (n == 1 ==> IsTok(ts[0], Keyword, "not")) && IsTok(ts[n], Keyword, "in") && IsTok(ts[n + 1], Symbol, "(")
    requires ts[n + 2..] == list && list != [] && IsTok(list[|list| - 1], Symbol, ")") && DenotesItems(list[..|list| - 1], items)
    ensures DenotesIn(ts, n == 1, items)
  {
    ItemsAreThere(list[..|list| - 1], items);
    assert list[..|list| - 1] == ts[n + 2..|ts| - 1];
  }

  lemma {:induction false} ItemsAreThere(ts: Toks, items: seq<Operand>)
    requires DenotesItems(ts, items)
    ensures ts != []
  {
  }

  lemma {:induction false} CompareDenotes(left: Operand, ts: Toks)
    requires ParseCompare(left, ts).Some? && !IsAt(ts, Keyword, "is") && !IsAt(ts, Keyword, "in")
    requires left.Call? && left.window.None? ==> !IsAt(ts, Keyword, "over")
    ensures var (e, rest) := ParseCompare(left, ts).value;
            Leaves(ts, rest) && e.Compare? && e.left == left && DenotesTail(Taken(ts, rest), e)
  {
    hide ParseOperand, DenotesOperand;
    OperandDenotes(ts[1..]);
    var rest := ParseOperand(ts[1..]).value.1;
    TakenBy(ts, 1);
    TakenTwice(ts, ts[1..], 0, rest);
  }

  lemma {:induction false} TailDenotes(left: Operand, ts: Toks)
    requires ParseTail(left, ts).Some? && (left.Call? && left.window.None? ==> !IsAt(ts, Keyword, "over"))
    ensures var (e, rest) := ParseTail(left, ts).value;
            Leaves(ts, rest) && !e.And? && !e.Or? && LeftOperand(e) == left && DenotesTail(Taken(ts, rest), e)
  {
    if IsAt(ts, Keyword, "is") {
      NullDenotes(left, ts);
    } else if StartsNotIn(ts) {
      assert ts[1..][0] == ts[1];
      InDenotes(left, ts, 1);
    } else if IsAt(ts, Keyword, "in") {
      InDenotes(left, ts, 0);
    } else {
      CompareDenotes(left, ts);
    }
  }

  // ---- Expressions ----

  lemma {:induction false} ComparisonDenotes(ts: Toks)
    requires ParseComparison(ts).Some?
    ensures var (e, rest) := ParseComparison(ts).value; Leaves(ts, rest) && DenotesComparison(Taken(ts, rest), e)
    decreases |ts|, 1
  {
    if !StartsSelect(ts) && IsAt(ts, Symbol, "(") {
      GroupDenotes(ts);
    } else {
      hide ParseOperand, ParseTail, DenotesOperand, DenotesTail;
      OperandDenotes(ts);
      var (left, first) := ParseOperand(ts).value;
      TailDenotes(left, first);
      var (e, rest) := ParseTail(left, first).value;
      TakenTwice(ts, first, 0, rest);
      LeafJoined(Taken(ts, rest), e, |ts| - |first|, Taken(first, rest));
    }
  }

  lemma {:induction false} LeafJoined(ts: Toks, e: Expr, k: nat, tail: Toks)
    requires !e.And? && !e.Or? && k <= |ts| && tail == ts[k..] && DenotesOperand(ts[..k], LeftOperand(e)) && DenotesTail(tail, e)
    ensures DenotesComparison(ts, e)
  {
    assert tail != [];
  }

  lemma {:induction false} GroupDenotes(ts: Toks)
    requires !StartsExists(ts) && !StartsSelect(ts) && IsAt(ts, Symbol, "(") && ParseComparison(ts).Some?
    ensures var (e, rest) := ParseComparison(ts).value; Leaves(ts, rest) && DenotesComparison(Taken(ts, rest), e)
    decreases |ts|, 0
  {
    hide ParseOr, DenotesOr;
    var (e, close) := ParseOr(ts[1..]).value;
    OrDenotes(ts[1..]);
    TakenBy(ts, 1);
    TakenTwice(ts, ts[1..], 0, close);
    TakenBy(close, 1);
    TakenTwice(ts, close, 1, close[1..]);
    var taken, inner := Taken(ts, close[1..]), Taken(ts[1..], close);
    DenotedStarts(inner, e);
    assert inner == taken[1..|taken| - 1];
  }

  lemma {:induction false} AndDenotes(ts: Toks)
    requires ParseAnd(ts).Some?
    ensures var (e, rest) := ParseAnd(ts).value; Leaves(ts, rest) && DenotesAnd(Taken(ts, rest), e)
    decreases |ts|, 2
  {
    hide ParseComparison, DenotesComparison, AndLoop;
    ComparisonDenotes(ts);
    var (left, first) := ParseComparison(ts).value;
    AndLoopDenotes(ts, left, first);
  }

  /** The loop goes on behind what it has. */
  lemma {:induction false} AndLoopDenotes(ts: Toks, left: Expr, first: Toks)
    requires |first| < |ts| && Leaves(ts, first) && DenotesAnd(Taken(ts, first), left) && AndLoop(left, first).Some?
    ensures var (e, rest) := AndLoop(left, first).value; Leaves(ts, rest) && DenotesAnd(Taken(ts, rest), e)
    decreases |first|, 1
  {
    hide ParseComparison, DenotesComparison, DenotesAnd;
    if IsAt(first, Keyword, "and") {
      ComparisonDenotes(first[1..]);
      var (right, next) := ParseComparison(first[1..]).value;
      var more := And(first[0].value, left, right);
      TakenTwice(ts, first, 1, next);
      AndJoined(Taken(ts, next), |ts| - |first|, more);
      AndLoopDenotes(ts, more, next);
    }
  }

  lemma {:induction false} AndJoined(ts: Toks, k: nat, e: Expr)
    requires e.And? && IsLink(ts, k, "and", e.word) && DenotesAnd(ts[..k], e.first) && DenotesComparison(ts[k + 1..], e.second)
    ensures DenotesAnd(ts, e)
  {
  }

  lemma {:induction false} OrDenotes(ts: Toks)
    requires ParseOr(ts).Some?
    ensures var (e, rest) := ParseOr(ts).value; Leaves(ts, rest) && DenotesOr(Taken(ts, rest), e)
    decreases |ts|, 3
  {
    hide ParseAnd, DenotesAnd, OrLoop;
    AndDenotes(ts);
    var (left, first) := ParseAnd(ts).value;
    OrLoopDenotes(ts, left, first);
  }

  lemma {:induction false} OrLoopDenotes(ts: Toks, left: Expr, first: Toks)
    requires |first| < |ts| && Leaves(ts, first) && DenotesOr(Taken(ts, first), left) && OrLoop(left, first).Some?
    ensures var (e, rest) := OrLoop(left, first).value; Leaves(ts, rest) && DenotesOr(Taken(ts, rest), e)
    decreases |first|, 2
  {
    hide ParseAnd, DenotesAnd, DenotesOr;
    if IsAt(first, Keyword, "or") {
      AndDenotes(first[1..]);
      var (right, next) := ParseAnd(first[1..]).value;
      var more := Or(first[0].value, left, right);
      TakenTwice(ts, first, 1, next);
      OrJoined(Taken(ts, next), |ts| - |first|, more);
      OrLoopDenotes(ts, more, next);
    }
  }

  lemma {:induction false} OrJoined(ts: Toks, k: nat, e: Expr)
    requires e.Or? && IsLink(ts, k, "or", e.word) && DenotesOr(ts[..k], e.first) && DenotesAnd(ts[k + 1..], e.second)
    ensures DenotesOr(ts, e)
  {
  }

  // ---- What a text parses to ----

  /** Tokens parse to an operand if and only if they denote it. */
  lemma {:induction false} OperandIff(ts: Toks, o: Operand)
    ensures ParseOperand(ts) == Some((o, [])) <==> DenotesOperand(ts, o)
  {
    if ParseOperand(ts) == Some((o, [])) {
      OperandDenotes(ts);
      assert Taken(ts, []) == ts;
    }
    if DenotesOperand(ts, o) {
      OperandParses(ts, o, []);
      assert ts + [] == ts;
    }
  }

  /** Tokens parse to an expression if and only if they denote it. */
  lemma {:induction false} ExpressionIff(ts: Toks, e: Expr)
    ensures ParseOr(ts) == Some((e, [])) <==> DenotesOr(ts, e)
  {
    if ParseOr(ts) == Some((e, [])) {
      OrDenotes(ts);
      assert Taken(ts, []) == ts;
    }
    if DenotesOr(ts, e) {
      OrParses(ts, e, []);
      assert ts + [] == ts;
    }
  }

  /** An expression in front of a closing parenthesis. */
  lemma {:induction false} EnclosedIff(ts: Toks, n: nat, e: Expr)
    requires n < |ts| && IsTok(ts[n], Symbol, ")")
    ensures ParseOr(ts) == Some((e, ts[n..])) <==> DenotesOr(ts[..n], e)
  {
    if ParseOr(ts) == Some((e, ts[n..])) {
      OrDenotes(ts);
    }
    if DenotesOr(ts[..n], e) {
      LowerWords();
      OrParses(ts[..n], e, ts[n..]);
      assert ts[..n] + ts[n..] == ts;
    }
  }

  /** An expression in parentheses, up to the n-th token. */
  ghost predicate IsEnclosed(ts: Toks, n: nat, e: Expr) {
    1 <= n < |ts| && IsTok(ts[0], Symbol, "(") && IsTok(ts[n], Symbol, ")") && DenotesOr(ts[1..n], e)
  }

  /** Behind an opening parenthesis the parser finds an expression and a closing
      parenthesis if and only if the tokens start so. */
  lemma {:induction false} EnclosedParses(ts: Toks, n: nat, e: Expr)
    requires ts != []
    ensures IsEnclosed(ts, n, e) <==>
            IsTok(ts[0], Symbol, "(") && 1 <= n <= |ts| && ParseOr(ts[1..]) == Some((e, ts[n..])) && IsAt(ts[n..], Symbol, ")")
  {
    if 1 <= n < |ts| && IsTok(ts[n], Symbol, ")") {
      EnclosedIff(ts[1..], n - 1, e);
      assert ts[1..][n - 1] == ts[n] && ts[1..][n - 1..] == ts[n..] && ts[1..][..n - 1] == ts[1..n];
    }
  }

  /** The same of a text. */
  lemma {:induction false} TextIff(text: string, e: Expr)
    ensures ParseOr(Bare(Tokens(text))) == Some((e, [])) <==> DenotesOr(Bare(Tokens(text)), e)
  {
    ExpressionIff(Bare(Tokens(text)), e);
  }

  /** Tokens denote at most one expression. */
  lemma {:induction false} DenotesOne(ts: Toks, a: Expr, b: Expr)
    requires DenotesOr(ts, a) && DenotesOr(ts, b)
    ensures a == b
  {
    ExpressionIff(ts, a);
    ExpressionIff(ts, b);
  }
}
