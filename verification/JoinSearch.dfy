/** The search for a join order: the cost of an order, the dynamic program over
    subsets of relations, and the greedy search for larger joins. */
module JoinSearch {
  import opened Predicates
  import opened ColumnClasses

  const OPT_JOIN_DP_MAX_RELATIONS := 10
  const OPT_ESTIMATE_LEAF_CAPACITY := 16

  /** An equality between a column of each of two relations. */
  datatype Edge = Edge(a: ColumnRef, b: ColumnRef, isDerived: bool)

  /** Estimated rows per relation, and the equalities between them. */
  datatype JoinGraph = JoinGraph(rows: seq<real>, edges: seq<Edge>)

  /** The cost of a hash join and the estimates behind it, which the search only uses. */
  datatype CostModel = CostModel(
    hashJoin: (real, real, real) -> real,
    selectivity: (Edge, real, real) -> real,
    combineAnd: seq<real> -> real)

  predicate GraphFits(g: JoinGraph) {
    forall e <- g.edges :: e.a.rel < |g.rows| && e.b.rel < |g.rows| && e.a.rel != e.b.rel
  }

  predicate Ties(e: Edge, subset: set<nat>, next: nat) {
    (e.a.rel == next && e.b.rel in subset) || (e.b.rel == next && e.a.rel in subset)
  }

  predicate Tied(g: JoinGraph, subset: set<nat>, next: nat) {
    exists e <- g.edges :: Ties(e, subset, next)
  }

  function Selectivities(g: JoinGraph, m: CostModel, edges: seq<Edge>, subset: set<nat>, subsetRows: real, next: nat): seq<real>
    requires next < |g.rows|
  {
    if edges == [] then []
    else
      var e := edges[|edges| - 1];
      var aIsNext := e.a.rel == next && e.b.rel in subset;
      var rowsA := if aIsNext then g.rows[next] else subsetRows;
      var rowsB := if aIsNext then subsetRows else g.rows[next];
      Selectivities(g, m, edges[..|edges| - 1], subset, subsetRows, next)
      + if Ties(e, subset, next) then [m.selectivity(e, rowsA, rowsB)] else []
  }

  /** At most the first 16 of them count. */
  function Counted(selectivities: seq<real>): (counted: seq<real>)
    ensures |counted| <= OPT_ESTIMATE_LEAF_CAPACITY
  {
    if |selectivities| > OPT_ESTIMATE_LEAF_CAPACITY then selectivities[..OPT_ESTIMATE_LEAF_CAPACITY] else selectivities
  }

  function Product(rowsA: real, rowsB: real, selectivity: real): real {
    rowsA * rowsB * selectivity
  }

  /** Estimated rows after joining one more relation, None when no edge ties it to
      the ones already joined. */
  function JoinExtendRows(g: JoinGraph, m: CostModel, subset: set<nat>, subsetRows: real, next: nat): Option<real>
    requires next < |g.rows|
  {
    var all := Selectivities(g, m, g.edges, subset, subsetRows, next);
    if all == [] then None else Some(Product(subsetRows, g.rows[next], m.combineAnd(Counted(all))))
  }

  /** The estimated rows that stand behind one end of an edge. */
  function EndRows(g: JoinGraph, subsetRows: real, next: nat, end: ColumnRef): real
    requires next < |g.rows|
  {
    if end.rel == next then g.rows[next] else subsetRows
  }

  /** The selectivity of an edge is told the rows behind its own two ends. */
  predicate IsSelectivity(g: JoinGraph, m: CostModel, e: Edge, subset: set<nat>, subsetRows: real, next: nat, value: real)
    requires next < |g.rows|
  {
    Ties(e, subset, next) && value == m.selectivity(e, EndRows(g, subsetRows, next, e.a), EndRows(g, subsetRows, next, e.b))
  }

  /** The values are the selectivities of the edges that tie the relation to the
      subset, in list order. */
  ghost predicate AreSelectivities(g: JoinGraph, m: CostModel, edges: seq<Edge>, subset: set<nat>, subsetRows: real, next: nat, picks: seq<nat>, values: seq<real>)
    requires next < |g.rows|
  {
    && |values| == |picks|
    && (forall i, j :: 0 <= i < j < |picks| ==> picks[i] < picks[j])
    && (forall k :: 0 <= k < |picks| ==> picks[k] < |edges| && IsSelectivity(g, m, edges[picks[k]], subset, subsetRows, next, values[k]))
    && (forall i: nat :: i < |edges| && Ties(edges[i], subset, next) ==> i in picks)
  }

  lemma {:induction false} SelectivitiesAre(g: JoinGraph, m: CostModel, edges: seq<Edge>, subset: set<nat>, subsetRows: real, next: nat) returns (picks: seq<nat>)
    requires next < |g.rows| && next !in subset
    ensures AreSelectivities(g, m, edges, subset, subsetRows, next, picks, Selectivities(g, m, edges, subset, subsetRows, next))
  {
    picks := [];
    if edges != [] {
      var n := |edges| - 1;
      var before := SelectivitiesAre(g, m, edges[..n], subset, subsetRows, next);
      picks := if Ties(edges[n], subset, next) then before + [n] else before;
      PickedOneMore(g, m, edges, subset, subsetRows, next, before, Selectivities(g, m, edges[..n], subset, subsetRows, next));
    }
  }

  lemma {:induction false} PickedOneMore(g: JoinGraph, m: CostModel, edges: seq<Edge>, subset: set<nat>, subsetRows: real, next: nat, picks: seq<nat>, values: seq<real>)
    requires next < |g.rows| && next !in subset && edges != []
    requires AreSelectivities(g, m, edges[..|edges| - 1], subset, subsetRows, next, picks, values)
    ensures var n := |edges| - 1;
            var e := edges[n];
            if Ties(e, subset, next)
            then AreSelectivities(g, m, edges, subset, subsetRows, next, picks + [n],
                                  values + [m.selectivity(e, EndRows(g, subsetRows, next, e.a), EndRows(g, subsetRows, next, e.b))])
            else AreSelectivities(g, m, edges, subset, subsetRows, next, picks, values)
  {
    var n := |edges| - 1;
    var init := edges[..n];
    forall i: nat | i < |edges| && Ties(edges[i], subset, next)
      ensures i == n || i in picks
    {
      if i < n {
        assert init[i] == edges[i];
      }
    }
  }

  /** The estimate multiplies the rows of both sides with the combined selectivity of
      the first edges between them. */
  lemma {:induction false} ExtendedRowsAre(g: JoinGraph, m: CostModel, subset: set<nat>, subsetRows: real, next: nat) returns (picks: seq<nat>, values: seq<real>, counted: seq<real>)
    requires next < |g.rows| && next !in subset && Tied(g, subset, next)
    ensures AreSelectivities(g, m, g.edges, subset, subsetRows, next, picks, values) && values != []
    ensures counted == if |values| < 16 then values else values[..16]
    ensures JoinExtendRows(g, m, subset, subsetRows, next) == Some(subsetRows * g.rows[next] * m.combineAnd(counted))
  {
    picks := SelectivitiesAre(g, m, g.edges, subset, subsetRows, next);
    values := Selectivities(g, m, g.edges, subset, subsetRows, next);
    counted := Counted(values);
    ExtendIffTied(g, m, subset, subsetRows, next);
    assert values[..|values|] == values;
  }

  lemma {:induction false} EarlierSelectivities(g: JoinGraph, m: CostModel, edges: seq<Edge>, n: nat, subset: set<nat>, subsetRows: real, next: nat)
    requires next < |g.rows| && n <= |edges|
    ensures Selectivities(g, m, edges[..n], subset, subsetRows, next) <= Selectivities(g, m, edges, subset, subsetRows, next)
  {
    if n < |edges| {
      EarlierSelectivities(g, m, edges[..|edges| - 1], n, subset, subsetRows, next);
      assert edges[..|edges| - 1][..n] == edges[..n];
    } else {
      assert edges[..n] == edges;
    }
  }

  method ExtendRows(g: JoinGraph, m: CostModel, subset: set<nat>, subsetRows: real, next: nat) returns (rows: Option<real>)
    requires next < |g.rows|
    ensures rows == JoinExtendRows(g, m, subset, subsetRows, next)
  {
    var selectivities := [];
    ghost var all := Selectivities(g, m, g.edges, subset, subsetRows, next);
    for index := 0 to |g.edges|
      invariant selectivities == Counted(Selectivities(g, m, g.edges[..index], subset, subsetRows, next))
    {
      var e := g.edges[index];
      assert g.edges[..index + 1][..index] == g.edges[..index];
      if Ties(e, subset, next) {
        if |selectivities| >= OPT_ESTIMATE_LEAF_CAPACITY {
          EarlierSelectivities(g, m, g.edges, index, subset, subsetRows, next);
          assert selectivities == Counted(all);
          break;
        }
        var aIsNext := e.a.rel == next && e.b.rel in subset;
        var rowsA := if aIsNext then g.rows[next] else subsetRows;
        var rowsB := if aIsNext then subsetRows else g.rows[next];
        selectivities := selectivities + [m.selectivity(e, rowsA, rowsB)];
      }
    }
    assert g.edges[..|g.edges|] == g.edges;
    assert selectivities == Counted(all) && m.combineAnd(selectivities) == m.combineAnd(Counted(all));
    rows := if selectivities == [] then None else Some(Product(subsetRows, g.rows[next], m.combineAnd(selectivities)));
  }

  lemma {:induction false} ExtendsIffTied(g: JoinGraph, m: CostModel, edges: seq<Edge>, subset: set<nat>, subsetRows: real, next: nat)
    requires next < |g.rows|
    ensures Selectivities(g, m, edges, subset, subsetRows, next) != [] <==> exists e <- edges :: Ties(e, subset, next)
  {
    if edges != [] {
      var init, last := edges[..|edges| - 1], edges[|edges| - 1];
      ExtendsIffTied(g, m, init, subset, subsetRows, next);
      assert edges == init + [last];
      assert forall e :: e in edges <==> e in init || e == last;
    }
  }

  lemma {:induction false} ExtendIffTied(g: JoinGraph, m: CostModel, subset: set<nat>, subsetRows: real, next: nat)
    requires next < |g.rows|
    ensures JoinExtendRows(g, m, subset, subsetRows, next).Some? <==> Tied(g, subset, next)
  {
    ExtendsIffTied(g, m, g.edges, subset, subsetRows, next);
  }

  // ---- Orders ----

  function Members(order: seq<nat>): set<nat> {
    set r | r in order
  }

  predicate Distinct(order: seq<nat>) {
    forall i, j :: 0 <= i < j < |order| ==> order[i] != order[j]
  }

  predicate Below(order: seq<nat>, n: nat) {
    forall i :: 0 <= i < |order| ==> order[i] < n
  }

  /** Every relation of 0..n-1 exactly once. */
  predicate IsOrder(order: seq<nat>, n: nat) {
    |order| == n && Distinct(order) && Below(order, n)
  }

  /** Every relation after the first is tied to the ones before it. */
  predicate EveryPrefixTied(g: JoinGraph, order: seq<nat>) {
    forall k :: 1 <= k < |order| ==> Tied(g, Members(order[..k]), order[k])
  }

  datatype Reached = Reached(rows: real, cost: real)

  /** Rows and cost of joining in the given order, None where an edge is missing. */
  function OrderCost(g: JoinGraph, m: CostModel, order: seq<nat>): Option<Reached>
    requires order != [] && Below(order, |g.rows|)
  {
    var k := |order| - 1;
    if k == 0 then Some(Reached(g.rows[order[0]], 0.0))
    else
      var before := OrderCost(g, m, order[..k]);
      if before.None? then None
      else
        var rows := JoinExtendRows(g, m, Members(order[..k]), before.value.rows, order[k]);
        if rows.None? then None
        else Some(Reached(rows.value, before.value.cost + m.hashJoin(g.rows[order[k]], before.value.rows, rows.value)))
  }

  lemma {:induction false} PrefixHasCost(g: JoinGraph, m: CostModel, order: seq<nat>, k: nat)
    requires 0 < k <= |order| && Below(order, |g.rows|) && OrderCost(g, m, order).Some?
    ensures OrderCost(g, m, order[..k]).Some?
  {
    if k < |order| {
      PrefixHasCost(g, m, order[..|order| - 1], k);
      assert order[..|order| - 1][..k] == order[..k];
    } else {
      assert order[..k] == order;
    }
  }

  method CostOfOrder(g: JoinGraph, m: CostModel, order: seq<nat>) returns (reached: Option<Reached>)
    requires order != [] && Below(order, |g.rows|)
    ensures reached == OrderCost(g, m, order)
  {
    var rows, cost := g.rows[order[0]], 0.0;
    for position := 1 to |order|
      invariant OrderCost(g, m, order[..position]) == Some(Reached(rows, cost))
    {
      var next := order[position];
      var extended := ExtendRows(g, m, Members(order[..position]), rows, next);
      assert order[..position + 1][..position] == order[..position];
      if extended.None? {
        if OrderCost(g, m, order).Some? {
          PrefixHasCost(g, m, order, position + 1);
        }
        return None;
      }
      cost := cost + m.hashJoin(g.rows[next], rows, extended.value);
      rows := extended.value;
    }
    assert order[..|order|] == order;
    reached := Some(Reached(rows, cost));
  }

  lemma {:induction false} CostIffTied(g: JoinGraph, m: CostModel, order: seq<nat>)
    requires order != [] && Below(order, |g.rows|)
    ensures OrderCost(g, m, order).Some? <==> EveryPrefixTied(g, order)
  {
    var k := |order| - 1;
    if k > 0 {
      var init := order[..k];
      CostIffTied(g, m, init);
      assert forall j :: 1 <= j < k ==> init[..j] == order[..j];
      if OrderCost(g, m, init).Some? {
        ExtendIffTied(g, m, Members(init), OrderCost(g, m, init).value.rows, order[k]);
      }
    }
  }

  lemma {:induction false} MembersSplit(order: seq<nat>, n: nat)
    requires order != []
    ensures var k := |order| - 1;
            && Members(order) == Members(order[..k]) + {order[k]}
            && (Distinct(order) ==> order[k] !in Members(order[..k]) && Distinct(order[..k]))
            && (Below(order, n) ==> Below(order[..k], n) && order[k] < n)
            && (k == 0 ==> Members(order) == {order[0]})
  {
    var k := |order| - 1;
    assert order == order[..k] + [order[k]];
  }

  // ---- Connectedness ----

  /** No proper part of the relations is cut off from the rest. */
  ghost predicate ConnectedGraph(g: JoinGraph) {
    forall part: set<nat> :: part != {} && (forall r <- part :: r < |g.rows|) && |part| < |g.rows| ==>
      exists next: nat :: next < |g.rows| && next !in part && Tied(g, part, next)
  }

  lemma {:induction false} BoundedSetSize(s: set<nat>, n: nat)
    requires forall r <- s :: r < n
    ensures |s| <= n && (|s| == n ==> forall r: nat :: r < n ==> r in s)
  {
    if n > 0 {
      var smaller := s - {n - 1};
      BoundedSetSize(smaller, n - 1);
      if n - 1 in s {
        assert s == smaller + {n - 1};
      } else {
        assert s == smaller;
      }
    }
  }

  lemma {:induction false} DistinctSize(order: seq<nat>)
    requires Distinct(order)
    ensures |Members(order)| == |order|
  {
    if order != [] {
      var k := |order| - 1;
      DistinctSize(order[..k]);
      assert Members(order) == Members(order[..k]) + {order[k]};
      assert order[k] !in Members(order[..k]);
    }
  }

  lemma {:induction false} OrderCoversAll(order: seq<nat>, n: nat, r: nat)
    requires IsOrder(order, n) && r < n
    ensures r in order
  {
    DistinctSize(order);
    BoundedSetSize(Members(order), n);
    assert r in Members(order);
  }

  /** An order whose every prefix is tied exists only in a connected graph. */
  lemma {:induction false} TiedOrderMeansConnected(g: JoinGraph, order: seq<nat>)
    requires GraphFits(g) && IsOrder(order, |g.rows|) && EveryPrefixTied(g, order)
    ensures ConnectedGraph(g)
  {
    forall part: set<nat> | part != {} && (forall r <- part :: r < |g.rows|) && |part| < |g.rows|
      ensures exists next: nat :: next < |g.rows| && next !in part && Tied(g, part, next)
    {
      var inside :| inside in part;
      OrderCoversAll(order, |g.rows|, inside);
      BoundedSetSize(part, |g.rows|);
      assert exists r: nat :: r < |g.rows| && r !in part by {
        if forall r: nat :: r < |g.rows| ==> r in part {
          FullSetSize(part, |g.rows|);
        }
      }
      var outside: nat :| outside < |g.rows| && outside !in part;
      OrderCoversAll(order, |g.rows|, outside);
      var k := FirstChange(order, part);
      assert Tied(g, Members(order[..k]), order[k]);
      var e :| e in g.edges && Ties(e, Members(order[..k]), order[k]);
      var other := if e.a.rel == order[k] && e.b.rel in Members(order[..k]) then e.b.rel else e.a.rel;
      assert other in order[..k];
      if order[k] in part {
        assert other !in part && Ties(e, part, other);
      } else {
        assert other in part && Ties(e, part, order[k]);
      }
    }
  }

  lemma {:induction false} FullSetSize(s: set<nat>, n: nat)
    requires forall r: nat :: r < n ==> r in s
    ensures |s| >= n
  {
    if n > 0 {
      FullSetSize(s - {n - 1}, n - 1);
    }
  }

  /** The first position on the other side of the part than all before it. */
  lemma {:induction false} FirstChange(order: seq<nat>, part: set<nat>) returns (k: nat)
    requires (exists r <- order :: r in part) && (exists r <- order :: r !in part)
    ensures 1 <= k < |order|
    ensures forall j :: 0 <= j < k ==> (order[j] in part <==> order[k] !in part)
  {
    k := 1;
    while k < |order| && (order[k] in part <==> order[0] in part)
      invariant 1 <= k <= |order|
      invariant forall j :: 0 <= j < k ==> (order[j] in part <==> order[0] in part)
    {
      k := k + 1;
    }
  }

  // ---- Subsets as bit masks ----

  function Pow2(k: nat): (p: nat)
    ensures p > 0
  {
    if k == 0 then 1 else 2 * Pow2(k - 1)
  }

  predicate Bit(mask: nat, k: nat) {
    if k == 0 then mask % 2 == 1 else Bit(mask / 2, k - 1)
  }

  function Bits(mask: nat, n: nat): set<nat> {
    set k: nat | k < n && Bit(mask, k)
  }

  lemma {:induction false} SetBit(mask: nat, k: nat, j: nat)
    requires !Bit(mask, k)
    ensures Bit(mask + Pow2(k), j) <==> j == k || Bit(mask, j)
  {
    if k > 0 {
      assert (mask + Pow2(k)) / 2 == mask / 2 + Pow2(k - 1) && (mask + Pow2(k)) % 2 == mask % 2;
      if j > 0 {
        SetBit(mask / 2, k - 1, j - 1);
      }
    } else {
      assert (mask + 1) / 2 == mask / 2 && (mask + 1) % 2 == 1;
    }
  }

  lemma {:induction false} SetBitSet(mask: nat, k: nat, n: nat)
    requires k < n && !Bit(mask, k)
    ensures Bits(mask + Pow2(k), n) == Bits(mask, n) + {k}
  {
    forall j: nat | j < n
      ensures Bit(mask + Pow2(k), j) <==> j == k || Bit(mask, j)
    {
      SetBit(mask, k, j);
    }
  }

  lemma {:induction false} SetBitFits(mask: nat, k: nat, n: nat)
    requires k < n && !Bit(mask, k) && mask < Pow2(n)
    ensures mask + Pow2(k) < Pow2(n)
  {
    assert Pow2(n) == 2 * Pow2(n - 1);
    if k > 0 {
      assert mask / 2 < Pow2(n - 1);
      SetBitFits(mask / 2, k - 1, n - 1);
      assert Pow2(k) == 2 * Pow2(k - 1) && mask == 2 * (mask / 2) + mask % 2;
    } else {
      assert mask % 2 == 0;
    }
  }

  lemma {:induction false} NoBits(mask: nat, n: nat)
    requires mask < Pow2(n) && Bits(mask, n) == {}
    ensures mask == 0
  {
    if n > 0 {
      assert 0 !in Bits(mask, n);
      forall k: nat | k < n - 1
        ensures !Bit(mask / 2, k)
      {
        assert k + 1 !in Bits(mask, n);
      }
      NoBits(mask / 2, n - 1);
    }
  }

  lemma {:induction false} ZeroHasNoBits(k: nat)
    ensures !Bit(0, k)
  {
    if k > 0 {
      ZeroHasNoBits(k - 1);
    }
  }

  lemma {:induction false} AllBits(mask: nat, n: nat)
    requires mask < Pow2(n) && forall k: nat :: k < n ==> Bit(mask, k)
    ensures mask == Pow2(n) - 1
  {
    if n > 0 {
      forall k: nat | k < n - 1
        ensures Bit(mask / 2, k)
      {
        assert Bit(mask, k + 1);
      }
      assert Bit(mask, 0);
      AllBits(mask / 2, n - 1);
    }
  }

  lemma {:induction false} SingleBit(k: nat, n: nat)
    requires k < n
    ensures Bits(Pow2(k), n) == {k} && Pow2(k) < Pow2(n)
  {
    forall j: nat
      ensures !Bit(0, j)
    {
      ZeroHasNoBits(j);
    }
    SetBitSet(0, k, n);
    SetBitFits(0, k, n);
  }

  lemma {:induction false} FullMask(n: nat, k: nat)
    requires k < n
    ensures Bit(Pow2(n) - 1, k)
  {
    if k > 0 {
      assert (Pow2(n) - 1) / 2 == Pow2(n - 1) - 1;
      FullMask(n - 1, k - 1);
    }
  }

  // ---- The dynamic program ----

  /** The best way found so far to reach a set of relations. */
  datatype JoinState = JoinState(valid: bool, cost: real, rows: real, last: nat, previous: nat)

  const NO_STATE := JoinState(false, 0.0, 0.0, 0, 0)

  /** A valid state is a single relation, or extends a valid smaller state. */
  ghost predicate StateFits(g: JoinGraph, m: CostModel, states: seq<JoinState>, mask: nat)
    requires |states| == Pow2(|g.rows|) && mask < |states|
  {
    var n, s := |g.rows|, states[mask];
    s.valid ==>
      && s.last < n
      && if s.previous == 0 then mask == Pow2(s.last) && s.rows == g.rows[s.last] && s.cost == 0.0
         else
           && 0 < s.previous < mask && mask == s.previous + Pow2(s.last) && !Bit(s.previous, s.last)
           && states[s.previous].valid
           && JoinExtendRows(g, m, Bits(s.previous, n), states[s.previous].rows, s.last) == Some(s.rows)
           && s.cost == states[s.previous].cost + m.hashJoin(g.rows[s.last], states[s.previous].rows, s.rows)
  }

  /** No one-relation extension of a valid state is cheaper than the state it reaches. */
  ghost predicate Bellman(g: JoinGraph, m: CostModel, states: seq<JoinState>, mask: nat, next: nat)
    requires |states| == Pow2(|g.rows|) && mask < |states| && next < |g.rows|
  {
    var n := |g.rows|;
    states[mask].valid && !Bit(mask, next) ==>
      var rows := JoinExtendRows(g, m, Bits(mask, n), states[mask].rows, next);
      rows.Some? ==>
        && mask + Pow2(next) < |states|
        && states[mask + Pow2(next)].valid
        && states[mask + Pow2(next)].cost <= states[mask].cost + m.hashJoin(g.rows[next], states[mask].rows, rows.value)
  }

  /** All masks below the mark have been extended by every relation. */
  ghost predicate Filled(g: JoinGraph, m: CostModel, states: seq<JoinState>, mark: nat) {
    var n := |g.rows|;
    && |states| == Pow2(n)
    && (forall mask :: 0 <= mask < |states| ==> StateFits(g, m, states, mask))
    && (forall r :: 0 <= r < n ==> Pow2(r) < |states| && states[Pow2(r)].valid)
    && !states[0].valid
    && (forall mask, next: nat :: 0 < mask < mark && mask < |states| && next < n ==> Bellman(g, m, states, mask, next))
  }

  ghost predicate PreviousUpTo(states: seq<JoinState>, mark: nat) {
    forall mask :: 0 <= mask < |states| && states[mask].valid ==> states[mask].previous <= mark
  }

  /** The states after one more relation has been tried on top of a mask. */
  function Relaxed(g: JoinGraph, m: CostModel, states: seq<JoinState>, mask: nat, next: nat): (relaxed: seq<JoinState>)
    requires |states| == Pow2(|g.rows|) && mask < |states| && next < |g.rows|
    ensures |relaxed| == |states|
  {
    var before := states[mask];
    if !before.valid || Bit(mask, next) then states
    else
      var rows := JoinExtendRows(g, m, Bits(mask, |g.rows|), before.rows, next);
      if rows.None? then states
      else
        var cost := before.cost + m.hashJoin(g.rows[next], before.rows, rows.value);
        var newMask := mask + Pow2(next);
        SetBitFits(mask, next, |g.rows|);
        if !states[newMask].valid || cost < states[newMask].cost
        then states[newMask := JoinState(true, cost, rows.value, next, mask)]
        else states
  }

  lemma {:induction false} RelaxedStates(g: JoinGraph, m: CostModel, states: seq<JoinState>, mask: nat, next: nat)
    requires |states| == Pow2(|g.rows|) && 0 < mask < |states| && next < |g.rows|
    ensures var after := Relaxed(g, m, states, mask, next);
            && (forall x :: 0 <= x < |states| && x != mask + Pow2(next) ==> after[x] == states[x])
            && (forall x :: 0 <= x < |states| && states[x].valid ==> after[x].valid && after[x].cost <= states[x].cost)
            && (forall x :: 0 <= x < |states| && after[x] != states[x] ==> after[x].previous == mask)
            && Bellman(g, m, after, mask, next)
            && ((forall x :: 0 <= x < |states| ==> StateFits(g, m, states, x)) && PreviousUpTo(states, mask)
                ==> forall x :: 0 <= x < |states| ==> StateFits(g, m, after, x))
  {
    if !Bit(mask, next) {
      SetBitFits(mask, next, |g.rows|);
    }
    var after := Relaxed(g, m, states, mask, next);
    if (forall x :: 0 <= x < |states| ==> StateFits(g, m, states, x)) && PreviousUpTo(states, mask) {
      forall x | 0 <= x < |states|
        ensures StateFits(g, m, after, x)
      {
        assert StateFits(g, m, states, x);
        if after[x] == states[x] && states[x].valid {
          assert after[states[x].previous] == states[states[x].previous];
        }
      }
    }
  }

  /** The search stands at a mask, with the relations below next tried on it. */
  ghost predicate Front(g: JoinGraph, m: CostModel, states: seq<JoinState>, mask: nat, next: nat) {
    && Filled(g, m, states, mask) && PreviousUpTo(states, mask) && 0 < mask < |states| && next <= |g.rows|
    && forall j: nat :: j < next ==> Bellman(g, m, states, mask, j)
  }

  lemma {:induction false} FrontAdvances(g: JoinGraph, m: CostModel, states: seq<JoinState>, mask: nat, next: nat)
    requires Front(g, m, states, mask, next) && next < |g.rows|
    ensures Front(g, m, Relaxed(g, m, states, mask, next), mask, next + 1)
  {
    var n, after := |g.rows|, Relaxed(g, m, states, mask, next);
    RelaxedStates(g, m, states, mask, next);
    forall q, j: nat | 0 < q < mask && j < n
      ensures Bellman(g, m, after, q, j)
    {
      assert Bellman(g, m, states, q, j);
    }
    forall j: nat | j < next + 1
      ensures Bellman(g, m, after, mask, j)
    {
      if j < next {
        assert Bellman(g, m, states, mask, j);
      }
    }
  }

  lemma {:induction false} FrontMovesOn(g: JoinGraph, m: CostModel, states: seq<JoinState>, mask: nat)
    requires Front(g, m, states, mask, |g.rows|)
    ensures Filled(g, m, states, mask + 1) && PreviousUpTo(states, mask + 1)
  {
  }

  // ---- What a filled table means ----

  /** The order a valid state was reached by. */
  ghost function PathOf(g: JoinGraph, m: CostModel, states: seq<JoinState>, mask: nat): (order: seq<nat>)
    requires Filled(g, m, states, |states|) && mask < |states| && states[mask].valid
    ensures order != []
    decreases mask
  {
    assert StateFits(g, m, states, mask);
    var s := states[mask];
    if s.previous == 0 then [s.last] else PathOf(g, m, states, s.previous) + [s.last]
  }

  lemma {:induction false} CostOfLast(g: JoinGraph, m: CostModel, init: seq<nat>, last: nat)
    requires init != [] && Below(init, |g.rows|) && last < |g.rows| && OrderCost(g, m, init).Some?
    ensures Below(init + [last], |g.rows|)
    ensures var before := OrderCost(g, m, init).value;
            var rows := JoinExtendRows(g, m, Members(init), before.rows, last);
            OrderCost(g, m, init + [last]) ==
            if rows.None? then None
            else Some(Reached(rows.value, before.cost + m.hashJoin(g.rows[last], before.rows, rows.value)))
  {
    assert (init + [last])[..|init|] == init;
  }

  lemma {:induction false} MembersOfLast(init: seq<nat>, last: nat)
    ensures Members(init + [last]) == Members(init) + {last}
    ensures Distinct(init) && last !in Members(init) ==> Distinct(init + [last])
  {
    assert forall r :: r in init + [last] <==> r in init || r == last;
    assert forall i :: 0 <= i < |init| ==> init[i] in Members(init);
  }

  /** The path joins the relations of the mask once each, at the state's cost. */
  lemma {:induction false} PathFits(g: JoinGraph, m: CostModel, states: seq<JoinState>, mask: nat)
    requires Filled(g, m, states, |states|) && mask < |states| && states[mask].valid
    ensures IsPath(g, m, states, mask, PathOf(g, m, states, mask))
    decreases mask
  {
    assert StateFits(g, m, states, mask);
    var s, n := states[mask], |g.rows|;
    if s.previous == 0 {
      SingleBit(s.last, n);
      assert Members([s.last]) == {s.last};
    } else {
      PathFits(g, m, states, s.previous);
      PathExtends(g, m, states, mask, PathOf(g, m, states, s.previous));
    }
  }

  /** The order joins the relations of the mask once each, at the state's cost. */
  ghost predicate IsPath(g: JoinGraph, m: CostModel, states: seq<JoinState>, mask: nat, order: seq<nat>)
    requires mask < |states|
  {
    && order != [] && Distinct(order) && Below(order, |g.rows|) && Members(order) == Bits(mask, |g.rows|)
    && OrderCost(g, m, order) == Some(Reached(states[mask].rows, states[mask].cost))
  }

  lemma {:induction false} PathExtends(g: JoinGraph, m: CostModel, states: seq<JoinState>, mask: nat, before: seq<nat>)
    requires |states| == Pow2(|g.rows|) && mask < |states| && states[mask].valid && states[mask].previous != 0
    requires StateFits(g, m, states, mask) && IsPath(g, m, states, states[mask].previous, before)
    ensures IsPath(g, m, states, mask, before + [states[mask].last])
  {
    var s, n := states[mask], |g.rows|;
    SetBitSet(s.previous, s.last, n);
    MembersOfLast(before, s.last);
    CostOfLast(g, m, before, s.last);
    assert s.last !in Bits(s.previous, n);
  }

  lemma {:induction false} FullSize(n: nat)
    ensures |Bits(Pow2(n) - 1, n)| == n
  {
    var full := Pow2(n) - 1;
    forall k: nat | k < n
      ensures k in Bits(full, n)
    {
      FullMask(n, k);
    }
    BoundedSetSize(Bits(full, n), n);
    FullSetSize(Bits(full, n), n);
  }

  lemma {:induction false} FullPathIsOrder(g: JoinGraph, m: CostModel, states: seq<JoinState>)
    requires Filled(g, m, states, |states|) && states[|states| - 1].valid
    ensures IsOrder(PathOf(g, m, states, |states| - 1), |g.rows|)
  {
    var order := PathOf(g, m, states, |states| - 1);
    PathFits(g, m, states, |states| - 1);
    FullSize(|g.rows|);
    DistinctSize(order);
  }

  /** In a connected graph, the set of all relations is reached. */
  lemma {:induction false} ConnectedReachesAll(g: JoinGraph, m: CostModel, states: seq<JoinState>, mask: nat)
    requires Filled(g, m, states, |states|) && ConnectedGraph(g)
    requires 0 < mask < |states| && states[mask].valid
    ensures states[|states| - 1].valid
    decreases |states| - mask
  {
    var n := |g.rows|;
    var part := Bits(mask, n);
    if mask != |states| - 1 {
      if part == {} {
        NoBits(mask, n);
      }
      BoundedSetSize(part, n);
      if |part| == n {
        forall k: nat | k < n
          ensures Bit(mask, k)
        {
          assert k in part;
        }
        AllBits(mask, n);
      }
      var next: nat :| next < n && next !in part && Tied(g, part, next);
      ExtendIffTied(g, m, part, states[mask].rows, next);
      assert Bellman(g, m, states, mask, next);
      ConnectedReachesAll(g, m, states, mask + Pow2(next));
    }
  }

  // ---- Optimality ----

  /** The estimate for a set of relations does not depend on the order they join in. */
  ghost predicate RowsDependOnSetOnly(g: JoinGraph, m: CostModel, rowsOf: set<nat> -> real) {
    && (forall r: nat :: r < |g.rows| ==> rowsOf({r}) == g.rows[r])
    && forall part: set<nat>, next: nat ::
         next < |g.rows| && next !in part && JoinExtendRows(g, m, part, rowsOf(part), next).Some? ==>
           JoinExtendRows(g, m, part, rowsOf(part), next).value == rowsOf(part + {next})
  }

  lemma {:induction false} RowsAreOfSet(g: JoinGraph, m: CostModel, rowsOf: set<nat> -> real, order: seq<nat>)
    requires RowsDependOnSetOnly(g, m, rowsOf) && order != [] && Below(order, |g.rows|) && Distinct(order)
    requires OrderCost(g, m, order).Some?
    ensures OrderCost(g, m, order).value.rows == rowsOf(Members(order))
  {
    var k := |order| - 1;
    MembersSplit(order, |g.rows|);
    if k > 0 {
      RowsAreOfSet(g, m, rowsOf, order[..k]);
    }
  }

  lemma {:induction false} StateRows(g: JoinGraph, m: CostModel, states: seq<JoinState>, rowsOf: set<nat> -> real, mask: nat)
    requires Filled(g, m, states, |states|) && RowsDependOnSetOnly(g, m, rowsOf)
    requires mask < |states| && states[mask].valid
    ensures states[mask].rows == rowsOf(Bits(mask, |g.rows|))
  {
    PathFits(g, m, states, mask);
    RowsAreOfSet(g, m, rowsOf, PathOf(g, m, states, mask));
  }

  /** The table holds the order's set, at no higher cost. */
  ghost predicate NoDearer(g: JoinGraph, m: CostModel, states: seq<JoinState>, order: seq<nat>, mask: nat)
    requires order != [] && Below(order, |g.rows|) && OrderCost(g, m, order).Some?
  {
    && 0 < mask < |states| && Bits(mask, |g.rows|) == Members(order)
    && states[mask].valid && states[mask].cost <= OrderCost(g, m, order).value.cost
  }

  lemma {:induction false} MinimalStep(g: JoinGraph, m: CostModel, states: seq<JoinState>, init: seq<nat>, last: nat, before: nat)
    requires Filled(g, m, states, |states|) && init != [] && Below(init, |g.rows|) && last < |g.rows|
    requires OrderCost(g, m, init).Some? && Below(init + [last], |g.rows|) && OrderCost(g, m, init + [last]).Some?
    requires last !in Members(init) && NoDearer(g, m, states, init, before)
    requires states[before].rows == OrderCost(g, m, init).value.rows
    ensures NoDearer(g, m, states, init + [last], before + Pow2(last))
  {
    assert last !in Bits(before, |g.rows|);
    assert Bellman(g, m, states, before, last);
    SetBitSet(before, last, |g.rows|);
    MembersOfLast(init, last);
    CostOfLast(g, m, init, last);
  }

  lemma {:induction false} MinimalBase(g: JoinGraph, m: CostModel, states: seq<JoinState>, order: seq<nat>)
    requires Filled(g, m, states, |states|) && |order| == 1 && Below(order, |g.rows|)
    ensures OrderCost(g, m, order).Some? && NoDearer(g, m, states, order, Pow2(order[0]))
  {
    SingleBit(order[0], |g.rows|);
    SingleStateIsFree(g, m, states, order[0]);
    assert Members(order) == {order[0]};
  }

  lemma {:induction false} MinimalNext(g: JoinGraph, m: CostModel, states: seq<JoinState>, rowsOf: set<nat> -> real, order: seq<nat>, init: seq<nat>, last: nat, before: nat)
    requires Filled(g, m, states, |states|) && RowsDependOnSetOnly(g, m, rowsOf)
    requires init != [] && Below(init, |g.rows|) && Distinct(init) && last < |g.rows| && last !in Members(init)
    requires order == init + [last]
    requires OrderCost(g, m, init).Some? && Below(order, |g.rows|) && OrderCost(g, m, order).Some?
    requires NoDearer(g, m, states, init, before)
    ensures NoDearer(g, m, states, order, before + Pow2(last))
  {
    StateRows(g, m, states, rowsOf, before);
    RowsAreOfSet(g, m, rowsOf, init);
    MinimalStep(g, m, states, init, last, before);
  }

  lemma {:induction false} CostOfPrefix(g: JoinGraph, m: CostModel, order: seq<nat>)
    requires |order| > 1 && Below(order, |g.rows|) && OrderCost(g, m, order).Some?
    ensures var init := order[..|order| - 1];
            Below(init, |g.rows|) && OrderCost(g, m, init).Some? && order == init + [order[|order| - 1]]
  {
  }

  lemma {:induction false} PrefixIsOrder(g: JoinGraph, m: CostModel, order: seq<nat>)
    requires |order| > 1 && Below(order, |g.rows|) && Distinct(order) && OrderCost(g, m, order).Some?
    ensures var init, last := order[..|order| - 1], order[|order| - 1];
            && init != [] && Below(init, |g.rows|) && Distinct(init) && last < |g.rows| && last !in Members(init)
            && OrderCost(g, m, init).Some? && order == init + [last]
  {
    CostOfPrefix(g, m, order);
    MembersSplit(order, |g.rows|);
  }

  /** Any order whose prefixes are tied costs at least what the table holds for its set. */
  lemma {:induction false} TableIsMinimal(g: JoinGraph, m: CostModel, states: seq<JoinState>, rowsOf: set<nat> -> real, order: seq<nat>)
    requires Filled(g, m, states, |states|) && RowsDependOnSetOnly(g, m, rowsOf)
    requires order != [] && Below(order, |g.rows|) && Distinct(order) && OrderCost(g, m, order).Some?
    ensures exists mask: nat :: NoDearer(g, m, states, order, mask)
    decreases |order|
  {
    if |order| == 1 {
      MinimalBase(g, m, states, order);
    } else {
      var init, last := order[..|order| - 1], order[|order| - 1];
      PrefixIsOrder(g, m, order);
      TableIsMinimal(g, m, states, rowsOf, init);
      var before: nat :| NoDearer(g, m, states, init, before);
      MinimalNext(g, m, states, rowsOf, order, init, last, before);
    }
  }

  lemma {:induction false} SingleStateIsFree(g: JoinGraph, m: CostModel, states: seq<JoinState>, r: nat)
    requires Filled(g, m, states, |states|) && r < |g.rows|
    ensures Pow2(r) < |states| && states[Pow2(r)].valid && states[Pow2(r)].cost == 0.0
  {
    var mask, n := Pow2(r), |g.rows|;
    assert StateFits(g, m, states, mask);
    var s := states[mask];
    if s.previous != 0 {
      SingleBit(r, n);
      SetBitSet(s.previous, s.last, n);
    }
  }

  /** The full state is as cheap as any order of all relations. */
  lemma {:induction false} FullStateIsMinimal(g: JoinGraph, m: CostModel, states: seq<JoinState>, rowsOf: set<nat> -> real, order: seq<nat>)
    requires Filled(g, m, states, |states|) && RowsDependOnSetOnly(g, m, rowsOf)
    requires |g.rows| > 0 && IsOrder(order, |g.rows|) && OrderCost(g, m, order).Some?
    ensures states[|states| - 1].valid && states[|states| - 1].cost <= OrderCost(g, m, order).value.cost
  {
    TableIsMinimal(g, m, states, rowsOf, order);
    var mask: nat :| NoDearer(g, m, states, order, mask);
    forall k: nat | k < |g.rows|
      ensures Bit(mask, k)
    {
      OrderCoversAll(order, |g.rows|, k);
      assert k in Bits(mask, |g.rows|);
    }
    AllBits(mask, |g.rows|);
  }

  // ---- The search methods ----

  function InitialStates(g: JoinGraph, k: nat): (states: seq<JoinState>)
    requires k <= |g.rows|
    ensures |states| == Pow2(|g.rows|)
  {
    if k == 0 then seq(Pow2(|g.rows|), _ => NO_STATE)
    else
      SingleBit(k - 1, |g.rows|);
      InitialStates(g, k - 1)[Pow2(k - 1) := JoinState(true, 0.0, g.rows[k - 1], k - 1, 0)]
  }

  lemma {:induction false} Pow2Distinct(a: nat, b: nat)
    requires a < b
    ensures Pow2(a) < Pow2(b)
  {
    if b > a + 1 {
      Pow2Distinct(a, b - 1);
    }
  }

  predicate SingleState(g: JoinGraph, states: seq<JoinState>, r: nat)
    requires r < |g.rows|
  {
    Pow2(r) < |states| && states[Pow2(r)] == JoinState(true, 0.0, g.rows[r], r, 0)
  }

  ghost predicate OnlySingles(g: JoinGraph, states: seq<JoinState>, k: nat) {
    forall mask: nat :: mask < |states| && states[mask].valid ==>
      exists r: nat :: r < k && r < |g.rows| && mask == Pow2(r) && SingleState(g, states, r)
  }

  lemma {:induction false} InitialStateIs(g: JoinGraph, k: nat, r: nat)
    requires r < k <= |g.rows|
    ensures SingleState(g, InitialStates(g, k), r)
  {
    SingleBit(k - 1, |g.rows|);
    if r < k - 1 {
      InitialStateIs(g, k - 1, r);
      Pow2Distinct(r, k - 1);
    }
  }

  lemma {:induction false} InitialStatesAre(g: JoinGraph, k: nat)
    requires k <= |g.rows|
    ensures OnlySingles(g, InitialStates(g, k), k)
  {
    if k > 0 {
      InitialStatesAre(g, k - 1);
      SingleBit(k - 1, |g.rows|);
      var states := InitialStates(g, k);
      forall mask: nat | mask < |states| && states[mask].valid
        ensures exists r: nat :: r < k && r < |g.rows| && mask == Pow2(r) && SingleState(g, states, r)
      {
        if mask == Pow2(k - 1) {
          assert SingleState(g, states, k - 1);
        } else {
          assert InitialStates(g, k - 1)[mask].valid;
          var r: nat :| r < k - 1 && mask == Pow2(r);
          InitialStateIs(g, k, r);
        }
      }
    }
  }

  lemma {:induction false} InitialFront(g: JoinGraph, m: CostModel)
    requires g.rows != []
    ensures var states := InitialStates(g, |g.rows|);
            |states| > 1 && Filled(g, m, states, 1) && PreviousUpTo(states, 1)
  {
    var states := InitialStates(g, |g.rows|);
    InitialStatesAre(g, |g.rows|);
    forall r: nat | r < |g.rows|
      ensures Pow2(r) < |states| && states[Pow2(r)].valid
    {
      InitialStateIs(g, |g.rows|, r);
    }
    forall mask | 0 <= mask < |states|
      ensures StateFits(g, m, states, mask)
    {
      if states[mask].valid {
        var r: nat :| r < |g.rows| && mask == Pow2(r) && SingleState(g, states, r);
      }
    }
    assert !states[0].valid;
  }

  /** Extends the state of a mask by one relation, where an edge allows it, and keeps
      the better way to the larger set. */
  method TryNext(g: JoinGraph, m: CostModel, states: array<JoinState>, mask: nat, next: nat)
    requires states.Length == Pow2(|g.rows|) && mask < states.Length && next < |g.rows|
    modifies states
    ensures states[..] == Relaxed(g, m, old(states[..]), mask, next)
  {
    if states[mask].valid && !Bit(mask, next) {
      var rows := ExtendRows(g, m, Bits(mask, |g.rows|), states[mask].rows, next);
      if rows.Some? {
        var cost := states[mask].cost + m.hashJoin(g.rows[next], states[mask].rows, rows.value);
        var newMask := mask + Pow2(next);
        SetBitFits(mask, next, |g.rows|);
        if !states[newMask].valid || cost < states[newMask].cost {
          states[newMask] := JoinState(true, cost, rows.value, next, mask);
        }
      }
    }
  }

  method FillStates(g: JoinGraph, m: CostModel) returns (states: array<JoinState>)
    requires g.rows != []
    ensures fresh(states) && Filled(g, m, states[..], states.Length)
  {
    states := new JoinState[Pow2(|g.rows|)](_ => NO_STATE);
    for relation := 0 to |g.rows|
      invariant states[..] == InitialStates(g, relation)
    {
      SingleBit(relation, |g.rows|);
      states[Pow2(relation)] := JoinState(true, 0.0, g.rows[relation], relation, 0);
    }
    InitialFront(g, m);
    for mask := 1 to states.Length
      invariant Filled(g, m, states[..], mask) && PreviousUpTo(states[..], mask)
    {
      for next := 0 to |g.rows|
        invariant Front(g, m, states[..], mask, next)
      {
        ghost var before := states[..];
        TryNext(g, m, states, mask, next);
        FrontAdvances(g, m, before, mask, next);
      }
      FrontMovesOn(g, m, states[..], mask);
    }
  }

  /** An order of all relations, each tied to the ones before it, with its cost. */
  ghost predicate FoundOrder(g: JoinGraph, m: CostModel, order: seq<nat>, cost: real) {
    && IsOrder(order, |g.rows|) && order != [] && EveryPrefixTied(g, order)
    && OrderCost(g, m, order).Some? && OrderCost(g, m, order).value.cost == cost
  }

  /** The filled table with the cost of joining all relations. */
  ghost predicate FullTable(g: JoinGraph, m: CostModel, states: seq<JoinState>, cost: real) {
    && Filled(g, m, states, |states|)
    && states[|states| - 1].valid && states[|states| - 1].cost == cost
  }

  /** Selinger style: every connected left-deep order over subsets of relations, the
      best cost per subset. It succeeds exactly on a connected graph, and returns
      an order of all relations with its cost. */
  method JoinOrderDp(g: JoinGraph, m: CostModel) returns (order: seq<nat>, cost: real, found: bool, ghost states: seq<JoinState>)
    requires GraphFits(g)
    ensures found <==> 2 <= |g.rows| <= OPT_JOIN_DP_MAX_RELATIONS && ConnectedGraph(g)
    ensures found ==> FoundOrder(g, m, order, cost) && FullTable(g, m, states, cost)
  {
    order, cost, states := [], 0.0, [];
    if |g.rows| < 2 || |g.rows| > OPT_JOIN_DP_MAX_RELATIONS {
      return order, cost, false, states;
    }
    var table := FillStates(g, m);
    states := table[..];
    var full := table.Length - 1;
    if !table[full].valid {
      UnreachedMeansCutOff(g, m, states);
      return order, cost, false, states;
    }
    cost := table[full].cost;
    order := ReadOrder(g, m, table, full);
    FullPathIsFound(g, m, states);
    found := true;
  }

  lemma {:induction false} UnreachedMeansCutOff(g: JoinGraph, m: CostModel, states: seq<JoinState>)
    requires GraphFits(g) && |g.rows| >= 2 && Filled(g, m, states, |states|) && !states[|states| - 1].valid
    ensures !ConnectedGraph(g)
  {
    if ConnectedGraph(g) {
      assert Pow2(0) == 1 && states[Pow2(0)].valid;
      ConnectedReachesAll(g, m, states, 1);
    }
  }

  lemma {:induction false} FullPathIsFound(g: JoinGraph, m: CostModel, states: seq<JoinState>)
    requires GraphFits(g) && |g.rows| >= 2 && Filled(g, m, states, |states|) && states[|states| - 1].valid
    ensures ConnectedGraph(g)
    ensures FoundOrder(g, m, PathOf(g, m, states, |states| - 1), states[|states| - 1].cost)
  {
    var order := PathOf(g, m, states, |states| - 1);
    PathFits(g, m, states, |states| - 1);
    FullPathIsOrder(g, m, states);
    CostIffTied(g, m, order);
    TiedOrderMeansConnected(g, order);
  }

  /** Follows the previous masks back from the full set. */
  method ReadOrder(g: JoinGraph, m: CostModel, states: array<JoinState>, full: nat) returns (order: seq<nat>)
    requires Filled(g, m, states[..], states.Length) && full < states.Length && states[full].valid
    ensures order == PathOf(g, m, states[..], full)
  {
    order := [];
    var mask: nat := full;
    while true
      invariant mask < states.Length && states[mask].valid
      invariant PathOf(g, m, states[..], full) == PathOf(g, m, states[..], mask) + order
      decreases mask
    {
      assert StateFits(g, m, states[..], mask);
      order := [states[mask].last] + order;
      if states[mask].previous == 0 {
        return;
      }
      mask := states[mask].previous;
    }
  }

  /** When estimates depend on the set of relations only, no order is cheaper. */
  lemma {:induction false} DpIsMinimal(g: JoinGraph, m: CostModel, states: seq<JoinState>, cost: real, rowsOf: set<nat> -> real, other: seq<nat>)
    requires FullTable(g, m, states, cost) && |g.rows| > 0
    requires RowsDependOnSetOnly(g, m, rowsOf) && IsOrder(other, |g.rows|) && OrderCost(g, m, other).Some?
    ensures cost <= OrderCost(g, m, other).value.cost
  {
    FullStateIsMinimal(g, m, states, rowsOf, other);
  }

  predicate HasEdge(g: JoinGraph, r: nat) {
    exists e <- g.edges :: e.a.rel == r || e.b.rel == r
  }

  ghost predicate IsStart(g: JoinGraph, start: nat, bound: nat) {
    && start < bound && start < |g.rows| && HasEdge(g, start)
    && forall r: nat :: r < bound && r < |g.rows| && HasEdge(g, r) ==>
         g.rows[start] <= g.rows[r] && (r < start ==> g.rows[start] < g.rows[r])
  }

  lemma {:induction false} SmallerStart(g: JoinGraph, start: Option<nat>, r: nat)
    requires r < |g.rows| && HasEdge(g, r)
    requires start.None? ==> forall s: nat :: s < r ==> !HasEdge(g, s)
    requires start.Some? ==> IsStart(g, start.value, r) && g.rows[r] < g.rows[start.value]
    ensures IsStart(g, r, r + 1)
  {
  }

  /** The smallest relation that has an edge, the first one of them. */
  method GreedyStart(g: JoinGraph) returns (start: Option<nat>)
    ensures start.None? ==> forall r: nat :: r < |g.rows| ==> !HasEdge(g, r)
    ensures start.Some? ==> IsStart(g, start.value, |g.rows|)
  {
    start := None;
    for relation := 0 to |g.rows|
      invariant start.None? ==> forall r: nat :: r < relation ==> !HasEdge(g, r)
      invariant start.Some? ==> IsStart(g, start.value, relation)
    {
      if HasEdge(g, relation) && (start.None? || g.rows[relation] < g.rows[start.value]) {
        SmallerStart(g, start, relation);
        start := Some(relation);
      }
      assert start.Some? && HasEdge(g, relation) ==> g.rows[start.value] <= g.rows[relation];
    }
  }

  ghost predicate NoneTied(g: JoinGraph, subset: set<nat>, bound: nat) {
    forall r: nat :: r < bound && r !in subset ==> !Tied(g, subset, r)
  }

  /** The extension to r, if there is one, keeps at least the given rows. */
  ghost predicate NotSmaller(g: JoinGraph, m: CostModel, subset: set<nat>, rows: real, least: real, r: nat) {
    r < |g.rows| && r !in subset && JoinExtendRows(g, m, subset, rows, r).Some? ==>
      least <= JoinExtendRows(g, m, subset, rows, r).value
  }

  /** The extension to r, if there is one, keeps more than the given rows. */
  ghost predicate IsLarger(g: JoinGraph, m: CostModel, subset: set<nat>, rows: real, least: real, r: nat) {
    r < |g.rows| && r !in subset && JoinExtendRows(g, m, subset, rows, r).Some? ==>
      least < JoinExtendRows(g, m, subset, rows, r).value
  }

  ghost predicate IsNext(g: JoinGraph, m: CostModel, subset: set<nat>, rows: real, best: nat, bestRows: real, bound: nat) {
    && best < bound && best < |g.rows| && best !in subset
    && JoinExtendRows(g, m, subset, rows, best) == Some(bestRows)
    && (forall r: nat :: r < bound ==> NotSmaller(g, m, subset, rows, bestRows, r))
    && (forall r: nat :: r < best ==> IsLarger(g, m, subset, rows, bestRows, r))
  }

  /** The relation outside the subset that keeps the result smallest, the first one
      of them. */
  method GreedyNext(g: JoinGraph, m: CostModel, subset: set<nat>, rows: real) returns (best: Option<nat>, bestRows: real)
    ensures best.None? ==> NoneTied(g, subset, |g.rows|)
    ensures best.Some? ==> IsNext(g, m, subset, rows, best.value, bestRows, |g.rows|)
  {
    best, bestRows := None, 0.0;
    for next := 0 to |g.rows|
      invariant best.None? ==> NoneTied(g, subset, next)
      invariant best.Some? ==> IsNext(g, m, subset, rows, best.value, bestRows, next)
    {
      if next !in subset {
        var extended := ExtendRows(g, m, subset, rows, next);
        ExtendIffTied(g, m, subset, rows, next);
        if extended.Some? && (best.None? || extended.value < bestRows) {
          if best.None? {
            NoneTiedNotSmaller(g, m, subset, rows, extended.value, next);
          } else {
            StillNotSmaller(g, m, subset, rows, bestRows, extended.value, next);
          }
          best, bestRows := Some(next), extended.value;
        }
      }
      assert best.Some? ==> NotSmaller(g, m, subset, rows, bestRows, next);
    }
  }

  lemma {:induction false} StillNotSmaller(g: JoinGraph, m: CostModel, subset: set<nat>, rows: real, least: real, less: real, bound: nat)
    requires less < least && forall r: nat :: r < bound ==> NotSmaller(g, m, subset, rows, least, r)
    ensures forall r: nat :: r < bound ==> NotSmaller(g, m, subset, rows, less, r) && IsLarger(g, m, subset, rows, less, r)
  {
    forall r: nat | r < bound
      ensures NotSmaller(g, m, subset, rows, less, r) && IsLarger(g, m, subset, rows, less, r)
    {
      assert NotSmaller(g, m, subset, rows, least, r);
    }
  }

  lemma {:induction false} NoneTiedNotSmaller(g: JoinGraph, m: CostModel, subset: set<nat>, rows: real, least: real, bound: nat)
    requires NoneTied(g, subset, bound)
    ensures forall r: nat :: r < bound ==> NotSmaller(g, m, subset, rows, least, r) && IsLarger(g, m, subset, rows, least, r)
  {
    forall r: nat | r < bound
      ensures NotSmaller(g, m, subset, rows, least, r) && IsLarger(g, m, subset, rows, least, r)
    {
      if r < |g.rows| && r !in subset {
        ExtendIffTied(g, m, subset, rows, r);
      }
    }
  }

  ghost predicate IsGreedyStep(g: JoinGraph, m: CostModel, order: seq<nat>, k: nat)
    requires 0 < k < |order| && Below(order, |g.rows|)
  {
    var before := OrderCost(g, m, order[..k]);
    before.Some? && exists rows: real :: IsNext(g, m, Members(order[..k]), before.value.rows, order[k], rows, |g.rows|)
  }

  ghost predicate GreedySteps(g: JoinGraph, m: CostModel, order: seq<nat>)
    requires Below(order, |g.rows|)
  {
    forall k: nat :: 0 < k < |order| ==> IsGreedyStep(g, m, order, k)
  }

  /** The order that starts from the smallest relation with an edge and goes on with
      the tied relation that keeps the result smallest, the first one of several. */
  ghost predicate IsGreedyOrder(g: JoinGraph, m: CostModel, order: seq<nat>) {
    IsOrder(order, |g.rows|) && order != [] && IsStart(g, order[0], |g.rows|) && GreedySteps(g, m, order)
  }

  lemma {:induction false} GreedyAgree(g: JoinGraph, m: CostModel, a: seq<nat>, b: seq<nat>, k: nat)
    requires IsGreedyOrder(g, m, a) && IsGreedyOrder(g, m, b) && k <= |a|
    ensures a[..k] == b[..k]
  {
    if k == 1 {
      assert a[0] == b[0];
      assert a[..1] == [a[0]] && b[..1] == [b[0]];
    } else if k > 1 {
      GreedyAgree(g, m, a, b, k - 1);
      assert IsGreedyStep(g, m, a, k - 1) && IsGreedyStep(g, m, b, k - 1);
      assert a[..k] == a[..k - 1] + [a[k - 1]] && b[..k] == b[..k - 1] + [b[k - 1]];
      NextIsOne(g, m, Members(a[..k - 1]), OrderCost(g, m, a[..k - 1]).value.rows, a[k - 1], b[k - 1]);
    }
  }

  lemma {:induction false} NextIsOne(g: JoinGraph, m: CostModel, subset: set<nat>, rows: real, a: nat, b: nat)
    requires exists x: real :: IsNext(g, m, subset, rows, a, x, |g.rows|)
    requires exists x: real :: IsNext(g, m, subset, rows, b, x, |g.rows|)
    ensures a == b
  {
    var x: real :| IsNext(g, m, subset, rows, a, x, |g.rows|);
    var y: real :| IsNext(g, m, subset, rows, b, y, |g.rows|);
    assert NotSmaller(g, m, subset, rows, x, b) && NotSmaller(g, m, subset, rows, y, a);
    assert a < b ==> IsLarger(g, m, subset, rows, y, a);
    assert b < a ==> IsLarger(g, m, subset, rows, x, b);
  }

  /** There is at most one greedy order. */
  lemma {:induction false} GreedyIsOne(g: JoinGraph, m: CostModel, a: seq<nat>, b: seq<nat>)
    requires IsGreedyOrder(g, m, a) && IsGreedyOrder(g, m, b)
    ensures a == b
  {
    GreedyAgree(g, m, a, b, |a|);
    assert a[..|a|] == a && b[..|b|] == b;
  }

  lemma {:induction false} GreedyStepAdded(g: JoinGraph, m: CostModel, order: seq<nat>, next: nat, rows: real)
    requires order != [] && Below(order, |g.rows|) && GreedySteps(g, m, order) && OrderCost(g, m, order).Some?
    requires IsNext(g, m, Members(order), OrderCost(g, m, order).value.rows, next, rows, |g.rows|)
    ensures Below(order + [next], |g.rows|) && GreedySteps(g, m, order + [next])
  {
    var more := order + [next];
    forall k: nat | 0 < k < |more|
      ensures IsGreedyStep(g, m, more, k)
    {
      if k < |order| {
        assert IsGreedyStep(g, m, order, k) && more[..k] == order[..k] && more[k] == order[k];
        var r: real :| IsNext(g, m, Members(order[..k]), OrderCost(g, m, order[..k]).value.rows, order[k], r, |g.rows|);
        assert IsNext(g, m, Members(more[..k]), OrderCost(g, m, more[..k]).value.rows, more[k], r, |g.rows|);
      } else {
        assert more[..k] == order && more[k] == next;
        assert IsNext(g, m, Members(more[..k]), OrderCost(g, m, more[..k]).value.rows, more[k], rows, |g.rows|);
      }
    }
  }

  /** Starts from the smallest relation and always adds the tied relation that keeps
      the result smallest. It succeeds exactly on a connected graph. */
  method JoinOrderGreedy(g: JoinGraph, m: CostModel) returns (order: seq<nat>, cost: real, found: bool)
    requires GraphFits(g)
    ensures found <==> |g.rows| >= 2 && ConnectedGraph(g)
    ensures found ==> FoundOrder(g, m, order, cost) && IsGreedyOrder(g, m, order)
  {
    order, cost, found := [], 0.0, false;
    if |g.rows| < 2 {
      return;
    }
    var start := GreedyStart(g);
    if start.None? {
      if ConnectedGraph(g) {
        NoEdgeMeansCutOff(g);
      }
      return;
    }
    order := [start.value];
    var rows := g.rows[start.value];
    while |order| < |g.rows|
      invariant 1 <= |order| <= |g.rows| && Distinct(order) && Below(order, |g.rows|)
      invariant OrderCost(g, m, order) == Some(Reached(rows, cost))
      invariant IsStart(g, order[0], |g.rows|) && GreedySteps(g, m, order)
    {
      var best, bestRows := GreedyNext(g, m, Members(order), rows);
      if best.None? {
        CutOffMembers(g, order);
        return;
      }
      MembersOfLast(order, best.value);
      CostOfLast(g, m, order, best.value);
      GreedyStepAdded(g, m, order, best.value, bestRows);
      cost := cost + m.hashJoin(g.rows[best.value], rows, bestRows);
      rows := bestRows;
      order := order + [best.value];
    }
    CostIffTied(g, m, order);
    TiedOrderMeansConnected(g, order);
    found := true;
  }

  lemma {:induction false} CutOffMembers(g: JoinGraph, order: seq<nat>)
    requires 1 <= |order| < |g.rows| && Distinct(order) && Below(order, |g.rows|)
    requires NoneTied(g, Members(order), |g.rows|)
    ensures !ConnectedGraph(g)
  {
    DistinctSize(order);
    var part := Members(order);
    assert order[0] in part;
    assert forall r <- part :: r < |g.rows|;
    assert part != {} && |part| < |g.rows|;
  }

  lemma {:induction false} NoEdgeMeansCutOff(g: JoinGraph)
    requires |g.rows| >= 2 && forall r: nat :: r < |g.rows| ==> !HasEdge(g, r)
    ensures !ConnectedGraph(g)
  {
    var part: set<nat> := {0};
    assert part != {} && |part| < |g.rows| && forall r <- part :: r < |g.rows|;
    forall next: nat | next < |g.rows| && next !in part
      ensures !Tied(g, part, next)
    {
      assert !HasEdge(g, next);
    }
  }

  function Identity(n: nat): (order: seq<nat>)
    ensures |order| == n && forall i :: 0 <= i < n ==> order[i] == i
  {
    seq(n, i => i)
  }

  /** The candidate costs less than nine tenths of the written order, or that one is
      not possible. */
  predicate IsClearlyBetter(g: JoinGraph, m: CostModel, candidate: seq<nat>)
    requires candidate != [] && g.rows != [] && Below(candidate, |g.rows|)
  {
    var written := OrderCost(g, m, Identity(|g.rows|));
    written.None? || (OrderCost(g, m, candidate).Some? && OrderCost(g, m, candidate).value.cost < written.value.cost * 0.9)
  }

  /** The candidate replaces the written order if and only if it is clearly better. */
  ghost predicate Replaces(g: JoinGraph, m: CostModel, candidate: seq<nat>, order: seq<nat>)
    requires candidate != [] && g.rows != [] && Below(candidate, |g.rows|)
  {
    order == if IsClearlyBetter(g, m, candidate) then candidate else Identity(|g.rows|)
  }

  /** No order is cheaper than the chosen one, or than nine tenths of it when it is
      the written one. */
  ghost predicate IsBestOrder(g: JoinGraph, m: CostModel, order: seq<nat>, changed: bool)
    requires g.rows != [] && IsOrder(order, |g.rows|)
  {
    forall other :: IsOrder(other, |g.rows|) && OrderCost(g, m, other).Some? ==>
      var cost := OrderCost(g, m, other).value.cost;
      && OrderCost(g, m, order).Some?
      && (if changed then OrderCost(g, m, order).value.cost <= cost
          else OrderCost(g, m, order).value.cost <= cost || cost >= OrderCost(g, m, order).value.cost * 0.9)
  }

  /** What a search of all orders decides, for every model in which the estimate of a
      set does not depend on the order. */
  ghost predicate IsBestChoice(g: JoinGraph, m: CostModel, order: seq<nat>, changed: bool)
    requires g.rows != [] && IsOrder(order, |g.rows|)
  {
    (exists rowsOf :: RowsDependOnSetOnly(g, m, rowsOf)) ==> IsBestOrder(g, m, order, changed)
  }

  /** What the greedy search decides. */
  ghost predicate IsGreedyChoice(g: JoinGraph, m: CostModel, order: seq<nat>)
    requires g.rows != [] && IsOrder(order, |g.rows|)
  {
    if ConnectedGraph(g) then exists candidate :: IsGreedyOrder(g, m, candidate) && Replaces(g, m, candidate, order)
    else order == Identity(|g.rows|)
  }

  /** The order the search chooses, and whether it is another one than the written. */
  ghost predicate IsChoice(g: JoinGraph, m: CostModel, order: seq<nat>, changed: bool)
    requires g.rows != []
  {
    && IsOrder(order, |g.rows|) && (changed <==> order != Identity(|g.rows|))
    && (changed ==> EveryPrefixTied(g, order) && IsClearlyBetter(g, m, order))
    && (ConnectedGraph(g) && OrderCost(g, m, Identity(|g.rows|)).None? ==> changed)
    && (if |g.rows| <= OPT_JOIN_DP_MAX_RELATIONS then IsBestChoice(g, m, order, changed) else IsGreedyChoice(g, m, order))
  }

  lemma {:induction false} OneIsConnected(g: JoinGraph)
    ensures |g.rows| == 1 ==> ConnectedGraph(g)
  {
    assert forall part: set<nat> :: part != {} ==> |part| >= 1;
  }

  lemma {:induction false} NoOrderIsTied(g: JoinGraph, m: CostModel)
    requires GraphFits(g) && !ConnectedGraph(g) && g.rows != []
    ensures |g.rows| > 1
    ensures forall other :: IsOrder(other, |g.rows|) ==> OrderCost(g, m, other).None?
  {
    OneIsConnected(g);
    forall other | IsOrder(other, |g.rows|)
      ensures OrderCost(g, m, other).None?
    {
      if OrderCost(g, m, other).Some? {
        CostIffTied(g, m, other);
        TiedOrderMeansConnected(g, other);
      }
    }
  }

  lemma {:induction false} OnlyOrder(order: seq<nat>)
    requires IsOrder(order, 1)
    ensures order == Identity(1)
  {
  }

  /** Without a found order, the written one is as good as any other. */
  lemma {:induction false} UnfoundIsBest(g: JoinGraph, m: CostModel)
    requires GraphFits(g) && g.rows != [] && (|g.rows| < 2 || !ConnectedGraph(g))
    ensures IsOrder(Identity(|g.rows|), |g.rows|) && IsBestOrder(g, m, Identity(|g.rows|), false)
  {
    if |g.rows| < 2 {
      forall other | IsOrder(other, |g.rows|)
        ensures other == Identity(|g.rows|)
      {
        OnlyOrder(other);
      }
    } else {
      NoOrderIsTied(g, m);
    }
  }

  /** With the full table, its order or the written one is the best choice. */
  lemma {:induction false} FoundIsBest(g: JoinGraph, m: CostModel, states: seq<JoinState>, candidate: seq<nat>, cost: real)
    requires g.rows != [] && FoundOrder(g, m, candidate, cost) && FullTable(g, m, states, cost)
    ensures var order := if IsClearlyBetter(g, m, candidate) then candidate else Identity(|g.rows|);
            IsOrder(order, |g.rows|) && IsBestChoice(g, m, order, order != Identity(|g.rows|))
  {
    var order := if IsClearlyBetter(g, m, candidate) then candidate else Identity(|g.rows|);
    if rowsOf :| RowsDependOnSetOnly(g, m, rowsOf) {
      forall other | IsOrder(other, |g.rows|) && OrderCost(g, m, other).Some?
        ensures cost <= OrderCost(g, m, other).value.cost
      {
        DpIsMinimal(g, m, states, cost, rowsOf, other);
      }
    }
  }

  /** A found order replaces the written one only when that one is not possible or
      the found one costs less than nine tenths of it. */
  method ChooseJoinOrder(g: JoinGraph, m: CostModel) returns (order: seq<nat>, changed: bool)
    requires GraphFits(g) && g.rows != []
    ensures IsChoice(g, m, order, changed)
    ensures changed ==> EveryPrefixTied(g, order) && OrderCost(g, m, order).Some?
    ensures !changed ==> order == Identity(|g.rows|)
    ensures var written := OrderCost(g, m, Identity(|g.rows|));
            changed && written.Some? ==> OrderCost(g, m, order).value.cost < written.value.cost * 0.9
  {
    order, changed := Identity(|g.rows|), false;
    var written := CostOfOrder(g, m, order);
    var candidate, cost, found;
    ghost var states := [];
    if |g.rows| <= OPT_JOIN_DP_MAX_RELATIONS {
      candidate, cost, found, states := JoinOrderDp(g, m);
    } else {
      candidate, cost, found := JoinOrderGreedy(g, m);
    }
    if !found {
      UnfoundIsBest(g, m);
      return;
    }
    if |g.rows| <= OPT_JOIN_DP_MAX_RELATIONS {
      FoundIsBest(g, m, states, candidate, cost);
    }
    if written.Some? && cost >= written.value.cost * 0.9 {
      return;
    }
    changed := candidate != order;
    order := candidate;
  }
}
