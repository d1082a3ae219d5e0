/** The plan that joins the relations of the inner prefix in another order: every
    ON condition goes to the step of its last relation, and a relation that no
    written equality ties to the ones before it gets a derived one. */
module GroupOrder {
  import opened Predicates
  import opened Plans
  import opened Conjuncts
  import opened ColumnClasses
  import opened JoinGraphs
  import Reordering
  import JoinSearch

  /** The relations before the first left join commute with each other. */
  function GroupSize(steps: seq<Step>, k: nat): (g: nat)
    requires 1 <= k <= |steps|
    ensures k <= g <= |steps|
    ensures forall i :: k <= i < g ==> !steps[i].nullSupplying
    ensures g < |steps| ==> steps[g].nullSupplying
    decreases |steps| - k
  {
    if k == |steps| || steps[k].nullSupplying then k else GroupSize(steps, k + 1)
  }

  /** Every ON condition of the group can be tied to two relations or more. */
  predicate AllowsReorder(cs: seq<Conjunct>, g: nat) {
    forall i :: 0 <= i < |cs| && cs[i].destination.OnClause? && cs[i].target < g ==> !cs[i].unresolved && |cs[i].mask| >= 2
  }

  /** The last of the first n positions whose relation is in the mask, 0 if there is none. */
  function LastPosition(mask: set<nat>, order: seq<nat>, n: nat): nat
    requires n <= |order|
  {
    if n == 0 then 0 else if order[n - 1] in mask then n - 1 else LastPosition(mask, order, n - 1)
  }

  function StepPosition(c: Conjunct, order: seq<nat>, g: nat): nat
    requires g <= |order|
  {
    if c.target >= g then c.target else LastPosition(c.mask, order, g)
  }

  function NodesAtPosition(cs: seq<Conjunct>, order: seq<nat>, g: nat, position: nat): seq<Node>
    requires g <= |order|
  {
    if cs == [] then []
    else
      NodesAtPosition(cs[..|cs| - 1], order, g, position)
      + if cs[|cs| - 1].destination.OnClause? && StepPosition(cs[|cs| - 1], order, g) == position then [cs[|cs| - 1].node] else []
  }

  /** Some edge between the relation at this position and an earlier one. */
  function EdgeToEarlier(edges: seq<JoinSearch.Edge>, order: seq<nat>, position: nat, earlier: nat, originalOnly: bool): (found: Option<JoinSearch.Edge>)
    requires earlier <= position < |order|
    ensures found.Some? ==> found.value in edges && exists i :: 0 <= i < position && Between(found.value, order[position], order[i])
    decreases position - earlier
  {
    if earlier == position then None
    else
      var edge := EdgeBetween(edges, order[position], order[earlier], originalOnly);
      if edge.Some? then edge else EdgeToEarlier(edges, order, position, earlier + 1, originalOnly)
  }

  function JoinEquality(edges: seq<JoinSearch.Edge>, order: seq<nat>, position: nat): seq<Node>
    requires position < |order|
  {
    if EdgeToEarlier(edges, order, position, 0, true).Some? then []
    else
      var edge := EdgeToEarlier(edges, order, position, 0, false);
      if edge.None? then [] else [EdgeNode(edge.value)]
  }

  /** Some edge ties the relation at a position to an earlier one. */
  predicate IsTied(edges: seq<JoinSearch.Edge>, order: seq<nat>, position: nat, writtenOnly: bool)
    requires position < |order|
  {
    exists e <- edges :: !(writtenOnly && e.isDerived) && exists i :: 0 <= i < position && Between(e, order[position], order[i])
  }

  lemma {:induction false} EdgeToEarlierIff(edges: seq<JoinSearch.Edge>, order: seq<nat>, position: nat, earlier: nat, originalOnly: bool)
    requires earlier <= position < |order|
    ensures var found := EdgeToEarlier(edges, order, position, earlier, originalOnly);
            && (found.Some? ==> !(originalOnly && found.value.isDerived))
            && (found.None? ==> forall e <- edges :: forall i :: earlier <= i < position && Between(e, order[position], order[i]) ==> originalOnly && e.isDerived)
    decreases position - earlier
  {
    if earlier < position {
      EdgeToEarlierIff(edges, order, position, earlier + 1, originalOnly);
    }
  }

  /** Edge i is the first one to the earliest relation, from a position on, that any
      edge ties to the relation at this position. */
  ghost predicate IsEarliestEdge(edges: seq<JoinSearch.Edge>, order: seq<nat>, position: nat, from: nat, k: int, i: int)
    requires position < |order|
  {
    && from <= k < position && IsFirstEdge(edges, order[position], order[k], i)
    && forall e <- edges :: forall j :: from <= j < k ==> !Between(e, order[position], order[j])
  }

  lemma {:induction false} EarliestEdge(edges: seq<JoinSearch.Edge>, order: seq<nat>, position: nat, from: nat) returns (k: int, i: int)
    requires from <= position < |order| && EdgeToEarlier(edges, order, position, from, false).Some?
    ensures IsEarliestEdge(edges, order, position, from, k, i) && edges[i] == EdgeToEarlier(edges, order, position, from, false).value
    decreases position - from
  {
    if EdgeBetween(edges, order[position], order[from], false).Some? {
      k := from;
      i := EdgeBetweenIs(edges, order[position], order[from]);
    } else {
      k, i := EarliestEdge(edges, order, position, from + 1);
    }
  }

  /** A relation gets an equality that follows from the written ones if and only if no
      written one ties it to the relations before it and a derived one does. */
  lemma {:induction false} JoinEqualityIff(edges: seq<JoinSearch.Edge>, order: seq<nat>, position: nat)
    requires position < |order|
    ensures var on := JoinEquality(edges, order, position);
            if !IsTied(edges, order, position, true) && IsTied(edges, order, position, false)
            then exists k, i :: IsEarliestEdge(edges, order, position, 0, k, i)
                   && on == [Binary(Eq, Column(edges[i].a.rel, edges[i].a.col), Column(edges[i].b.rel, edges[i].b.col))]
            else on == []
  {
    EdgeToEarlierIff(edges, order, position, 0, true);
    EdgeToEarlierIff(edges, order, position, 0, false);
    var written, any := EdgeToEarlier(edges, order, position, 0, true), EdgeToEarlier(edges, order, position, 0, false);
    assert written.Some? ==> IsTied(edges, order, position, true);
    assert any.Some? ==> IsTied(edges, order, position, false);
    if any.Some? {
      var k, i := EarliestEdge(edges, order, position, 0);
    }
  }

  /** The stage at a position: the first g relations come in the given order. */
  function OrderedStage(steps: seq<Step>, cs: seq<Conjunct>, edges: seq<JoinSearch.Edge>, order: seq<nat>, g: nat, position: nat): Stage
    requires position < |steps| && g <= |order| == |steps|
  {
    var rel := order[position];
    var filters := NodesFor(cs, Filter, rel);
    var on := NodesAtPosition(cs, order, g, position);
    if position == 0 then Stage(rel, Inner, filters, [])
    else if position < g then Stage(rel, Inner, filters, on + JoinEquality(edges, order, position))
    else Stage(rel, FinalJoinType(steps[position], on != []), filters, on)
  }

  function OrderedStages(steps: seq<Step>, cs: seq<Conjunct>, edges: seq<JoinSearch.Edge>, order: seq<nat>, g: nat): (stages: seq<Stage>)
    requires g <= |order| == |steps|
    ensures |stages| == |steps|
  {
    seq(|steps|, position requires 0 <= position < |steps| => OrderedStage(steps, cs, edges, order, g, position))
  }

  function Ordered(steps: seq<Step>, cs: seq<Conjunct>, edges: seq<JoinSearch.Edge>, order: seq<nat>, g: nat): Pipeline
    requires g <= |order| == |steps|
  {
    Pipeline(OrderedStages(steps, cs, edges, order, g), NodesFor(cs, Residual, 0))
  }

  /** A permutation of the first g relations, the rest in place. */
  ghost predicate IsGroupOrder(order: seq<nat>, g: nat, n: nat) {
    && g <= n == |order|
    && JoinSearch.IsOrder(order[..g], g)
    && forall k :: g <= k < n ==> order[k] == k
  }

  // ---- Where the conditions go ----

  ghost predicate AtPosition(cs: seq<Conjunct>, order: seq<nat>, g: nat, position: nat, n: Node)
    requires g <= |order|
  {
    exists c <- cs :: c.node == n && c.destination.OnClause? && StepPosition(c, order, g) == position
  }

  lemma {:induction false} NodesAtPositionMembers(cs: seq<Conjunct>, order: seq<nat>, g: nat, position: nat, n: Node)
    requires g <= |order|
    ensures n in NodesAtPosition(cs, order, g, position) <==> AtPosition(cs, order, g, position, n)
  {
    if cs != [] {
      var init, last := cs[..|cs| - 1], cs[|cs| - 1];
      NodesAtPositionMembers(init, order, g, position, n);
      assert cs == init + [last];
      assert forall c :: c in cs <==> c in init || c == last;
    }
  }

  lemma {:induction false} LastPositionIs(mask: set<nat>, order: seq<nat>, n: nat, i: nat)
    requires i < n <= |order| && order[i] in mask
    ensures var p := LastPosition(mask, order, n);
            i <= p < n && order[p] in mask && forall j :: p < j < n ==> order[j] !in mask
  {
    if order[n - 1] !in mask {
      LastPositionIs(mask, order, n - 1, i);
    }
  }

  lemma {:induction false} NodesForSplit(a: seq<Conjunct>, b: seq<Conjunct>, destination: Destination, target: nat)
    ensures NodesFor(a + b, destination, target) == NodesFor(a, destination, target) + NodesFor(b, destination, target)
  {
    if a == [] {
      assert a + b == b;
    } else {
      NodesForSplit(a[1..], b, destination, target);
      NodesForFirst(a, destination, target);
      NodesForFirst(a + b, destination, target);
      assert (a + b)[1..] == a[1..] + b;
      Associate(HereNodes(a[0], destination, target), NodesFor(a[1..], destination, target), NodesFor(b, destination, target));
    }
  }

  /** What one conjunct contributes to a place. */
  function HereNodes(c: Conjunct, destination: Destination, target: nat): seq<Node> {
    if c.destination == destination && (destination.Residual? || c.target == target) then [c.node] else []
  }

  lemma {:induction false} NodesForFirst(cs: seq<Conjunct>, destination: Destination, target: nat)
    requires cs != []
    ensures NodesFor(cs, destination, target) == HereNodes(cs[0], destination, target) + NodesFor(cs[1..], destination, target)
  {
  }

  lemma {:induction false} Associate(a: seq<Node>, b: seq<Node>, c: seq<Node>)
    ensures (a + b) + c == a + (b + c)
  {
  }

  /** Behind the group nothing moves. */
  lemma {:induction false} BehindTheGroup(cs: seq<Conjunct>, order: seq<nat>, g: nat, position: nat)
    requires g <= |order| && g <= position
    ensures NodesAtPosition(cs, order, g, position) == NodesFor(cs, OnClause, position)
  {
    if cs != [] {
      var init, last := cs[..|cs| - 1], cs[|cs| - 1];
      BehindTheGroup(init, order, g, position);
      NodesForSplit(init, [last], OnClause, position);
      assert cs == init + [last];
      LastPositionBelow(last.mask, order, g);
      assert NodesFor([last], OnClause, position) ==
             if last.destination.OnClause? && last.target == position then [last.node] else [];
    }
  }

  lemma {:induction false} LastPositionBelow(mask: set<nat>, order: seq<nat>, n: nat)
    requires n <= |order|
    ensures n > 0 ==> LastPosition(mask, order, n) < n
  {
    if n > 1 && order[n - 1] !in mask {
      LastPositionBelow(mask, order, n - 1);
    }
  }

  /** The written order gives the pipeline of the rewritten query. */
  lemma {:induction false} NotReordered(steps: seq<Step>, cs: seq<Conjunct>, edges: seq<JoinSearch.Edge>, order: seq<nat>)
    requires IsGroupOrder(order, 0, |steps|) && steps != []
    requires Rewritten(steps, cs).stages[0].on == [] && !steps[0].nullSupplying && steps[0].kind.Inner?
    ensures Ordered(steps, cs, edges, order, 0) == Rewritten(steps, cs)
  {
    forall k | 0 <= k < |steps|
      ensures OrderedStage(steps, cs, edges, order, 0, k) == RewrittenStage(steps, cs, k)
    {
      BehindTheGroup(cs, order, 0, k);
      assert order[k] == k;
      assert Rewritten(steps, cs).stages[0] == RewrittenStage(steps, cs, 0);
    }
  }

  // ---- The reordered pipeline runs the group in the new order ----

  /** What the plan builder knows about the conjunct list it places. */
  ghost predicate Placeable(w: World, types: Schema, steps: seq<Step>, cs: seq<Conjunct>, g: nat) {
    && Typed(w, types) && |steps| == |w.tables| && 1 <= g <= |steps|
    && steps[0].kind.Inner?
    && (forall k :: 0 <= k < g ==> !steps[k].nullSupplying)
    && AllowsReorder(cs, g)
    && Rewritten(steps, cs).stages[0].on == []
    && (forall c <- cs :: c.destination.Filter? && c.target < g ==> !Unresolved(c.node) && Refs(c.node) <= {c.target})
    && (forall c <- cs :: c.destination.OnClause? && c.target < g ==> Refs(c.node) == c.mask && (c.unresolved <==> Unresolved(c.node)))
    && (forall c <- cs :: c.destination.OnClause? && c.target < g ==> forall r <- c.mask :: r <= c.target)
  }

  lemma {:induction false} CanReorder(cs: seq<Conjunct>, g: nat, c: Conjunct)
    requires AllowsReorder(cs, g) && c in cs && c.destination.OnClause? && c.target < g
    ensures !c.unresolved && |c.mask| >= 2
  {
    var i :| 0 <= i < |cs| && cs[i] == c;
  }

  lemma {:induction false} OnIsInGroup(steps: seq<Step>, cs: seq<Conjunct>, g: nat, c: Conjunct)
    requires g <= |steps| && c in cs && c.destination.OnClause? && c.target < g
    ensures Reordering.InGroup(Rewritten(steps, cs), g, c.node)
  {
    NodesForMembers(cs, OnClause, c.target);
    assert Rewritten(steps, cs).stages[c.target] == RewrittenStage(steps, cs, c.target);
  }

  lemma {:induction false} FilterIsInGroup(steps: seq<Step>, cs: seq<Conjunct>, g: nat, c: Conjunct)
    requires g <= |steps| && c in cs && c.destination.Filter? && c.target < g
    ensures Reordering.InGroup(Rewritten(steps, cs), g, c.node)
  {
    NodesForMembers(cs, Filter, c.target);
    assert Rewritten(steps, cs).stages[c.target] == RewrittenStage(steps, cs, c.target);
  }

  lemma {:induction false} InGroupIsImplied(w: World, p: Pipeline, g: nat, n: Node)
    requires g <= |p.stages| && Reordering.InGroup(p, g, n)
    ensures Reordering.Implied(w, p, g, n)
  {
  }

  /** The position of a relation of the group. */
  lemma {:induction false} PositionOf(order: seq<nat>, g: nat, n: nat, r: nat) returns (i: nat)
    requires IsGroupOrder(order, g, n) && r < g
    ensures i < g && order[i] == r
  {
    JoinSearch.OrderCoversAll(order[..g], g, r);
    i :| 0 <= i < g && order[..g][i] == r;
  }

  lemma {:induction false} OneAtMost(mask: set<nat>, r: nat)
    ensures (forall x <- mask :: x == r) ==> |mask| <= 1
  {
    if forall x <- mask :: x == r {
      assert mask == {} || mask == {r};
    }
  }

  /** A condition of the group sits where its last relation comes in. */
  lemma {:induction false} OnIsReady(w: World, types: Schema, steps: seq<Step>, cs: seq<Conjunct>, order: seq<nat>, g: nat, c: Conjunct)
    requires Placeable(w, types, steps, cs, g) && IsGroupOrder(order, g, |steps|)
    requires c in cs && c.destination.OnClause? && c.target < g
    ensures var p := StepPosition(c, order, g);
            0 < p < g && !Unresolved(c.node) && forall r <- Refs(c.node) :: r in order[..g][..p + 1]
  {
    hide AllowsReorder, Rewritten;
    CanReorder(cs, g, c);
    MaskBeforeLast(c.mask, order, g, |steps|);
  }

  lemma {:induction false} MaskBeforeLast(mask: set<nat>, order: seq<nat>, g: nat, n: nat)
    requires IsGroupOrder(order, g, n) && |mask| >= 2 && forall r <- mask :: r < g
    ensures var p := LastPosition(mask, order, g);
            0 < p < g && forall r <- mask :: r in order[..g][..p + 1]
  {
    assert mask != {};
    var r0 :| r0 in mask;
    var i0 := PositionOf(order, g, n, r0);
    LastPositionIs(mask, order, g, i0);
    var p := LastPosition(mask, order, g);
    forall r | r in mask
      ensures r in order[..g][..p + 1]
    {
      var i := PositionOf(order, g, n, r);
      assert i <= p && order[..g][..p + 1][i] == r;
    }
    assert order[..g][..1] == [order[0]];
    OneAtMost(mask, order[0]);
  }

  lemma {:induction false} DerivedIsReady(w: World, types: Schema, steps: seq<Step>, cs: seq<Conjunct>, edges: seq<JoinSearch.Edge>, all: seq<JoinSearch.Edge>, order: seq<nat>, g: nat, i: nat, n: Node)
    requires Typed(w, types) && 0 < i < g <= |steps| == |order|
    requires WrittenEdges(types, g, cs, edges) && ImpliedFrom(edges, all)
    requires n in JoinEquality(all, order, i)
    ensures !Unresolved(n) && (forall r <- Refs(n) :: r in order[..g][..i + 1])
    ensures Reordering.Implied(w, Rewritten(steps, cs), g, n)
  {
    var e := DerivedEdge(edges, all, order, g, i, n);
    EdgeReads(e);
    EdgeImpliedByGroup(w, types, steps, cs, edges, e, g);
  }

  lemma {:induction false} EdgeReads(e: JoinSearch.Edge)
    ensures !Unresolved(EdgeNode(e)) && Refs(EdgeNode(e)) == {e.a.rel, e.b.rel}
  {
    assert Refs(ColumnNode(e.a)) == {e.a.rel} && Refs(ColumnNode(e.b)) == {e.b.rel};
  }

  lemma {:induction false} DerivedEdge(edges: seq<JoinSearch.Edge>, all: seq<JoinSearch.Edge>, order: seq<nat>, g: nat, i: nat, n: Node) returns (e: JoinSearch.Edge)
    requires 0 < i < g <= |order| && ImpliedFrom(edges, all) && n in JoinEquality(all, order, i)
    ensures n == EdgeNode(e) && (e in edges || IsImpliedEdge(edges, e))
    ensures e.a.rel in order[..g][..i + 1] && e.b.rel in order[..g][..i + 1]
  {
    e := EdgeToEarlier(all, order, i, 0, false).value;
    var j :| 0 <= j < i && Between(e, order[i], order[j]);
    assert order[..g][..i + 1][i] == order[i] && order[..g][..i + 1][j] == order[j];
    var k :| 0 <= k < |all| && all[k] == e;
    if k < |edges| {
      assert edges[k] == e;
    }
  }

  lemma {:induction false} EdgeImpliedByGroup(w: World, types: Schema, steps: seq<Step>, cs: seq<Conjunct>, edges: seq<JoinSearch.Edge>, e: JoinSearch.Edge, g: nat)
    requires Typed(w, types) && g <= |steps| && WrittenEdges(types, g, cs, edges) && (e in edges || IsImpliedEdge(edges, e))
    ensures Reordering.Implied(w, Rewritten(steps, cs), g, EdgeNode(e))
  {
    forall row | Stored(w, row) && Reordering.GroupHolds(w, Rewritten(steps, cs), g, row)
      ensures Holds(w, EdgeNode(e), row)
    {
      forall c | c in cs && c.destination.OnClause? && c.target < g
        ensures Holds(w, c.node, row)
      {
        OnIsInGroup(steps, cs, g, c);
      }
      EdgeIsImplied(w, types, g, cs, edges, e, row);
    }
  }

  /** A condition placed in the group is ready there and implied by the group. */
  lemma {:induction false} PlacedInGroup(w: World, types: Schema, steps: seq<Step>, cs: seq<Conjunct>, edges: seq<JoinSearch.Edge>, all: seq<JoinSearch.Edge>, order: seq<nat>, g: nat, i: nat, n: Node)
    requires Placeable(w, types, steps, cs, g) && IsGroupOrder(order, g, |steps|) && i < g
    requires WrittenEdges(types, g, cs, edges) && ImpliedFrom(edges, all)
    requires var s := Ordered(steps, cs, all, order, g).stages[i]; n in s.filters || n in s.on
    ensures Reordering.ReadyAt(Ordered(steps, cs, all, order, g), order[..g], i, n)
    ensures Reordering.Implied(w, Rewritten(steps, cs), g, n)
  {
    var s := Ordered(steps, cs, all, order, g).stages[i];
    assert s == OrderedStage(steps, cs, all, order, g, i);
    if n in s.filters {
      NodesForMembers(cs, Filter, order[i]);
      var c :| c in cs && c.node == n && c.destination == Filter && c.target == order[i];
      assert order[..g][i] == order[i];
      FilterIsInGroup(steps, cs, g, c);
      InGroupIsImplied(w, Rewritten(steps, cs), g, n);
      assert order[..g][..i + 1][i] == order[i];
    } else if n in NodesAtPosition(cs, order, g, i) {
      NodesAtPositionMembers(cs, order, g, i, n);
      var c :| c in cs && c.node == n && c.destination.OnClause? && StepPosition(c, order, g) == i;
      OnIsReady(w, types, steps, cs, order, g, c);
      OnIsInGroup(steps, cs, g, c);
      InGroupIsImplied(w, Rewritten(steps, cs), g, n);
    } else {
      DerivedIsReady(w, types, steps, cs, edges, all, order, g, i, n);
    }
  }

  /** Every condition of the group is still tested in the group. */
  lemma {:induction false} StillInGroup(w: World, types: Schema, steps: seq<Step>, cs: seq<Conjunct>, all: seq<JoinSearch.Edge>, order: seq<nat>, g: nat, n: Node)
    requires Placeable(w, types, steps, cs, g) && IsGroupOrder(order, g, |steps|)
    requires Reordering.InGroup(Rewritten(steps, cs), g, n)
    ensures Reordering.InGroup(Ordered(steps, cs, all, order, g), g, n)
  {
    hide Placeable, AllowsReorder, NodesFor, NodesAtPosition, StepPosition;
    var p, s := Rewritten(steps, cs), Ordered(steps, cs, all, order, g);
    var i: nat :| i < g && (n in p.stages[i].filters || n in p.stages[i].on);
    assert p.stages[i] == RewrittenStage(steps, cs, i);
    if n in p.stages[i].filters {
      var k := PositionOf(order, g, |steps|, i);
      assert s.stages[k] == OrderedStage(steps, cs, all, order, g, k);
    } else {
      NodesForMembers(cs, OnClause, i);
      var c :| c in cs && c.node == n && c.destination == OnClause && c.target == i;
      OnIsReady(w, types, steps, cs, order, g, c);
      var k := StepPosition(c, order, g);
      NodesAtPositionMembers(cs, order, g, k, n);
      assert s.stages[k] == OrderedStage(steps, cs, all, order, g, k);
    }
  }

  lemma {:induction false} OrderedStageFits(w: World, steps: seq<Step>, cs: seq<Conjunct>, all: seq<JoinSearch.Edge>, order: seq<nat>, g: nat, k: nat)
    requires |steps| == |w.tables| && 1 <= g && IsGroupOrder(order, g, |steps|) && k < |steps|
    ensures StageFits(w, Ordered(steps, cs, all, order, g).stages[k])
    ensures k >= g ==> Ordered(steps, cs, all, order, g).stages[k] == Rewritten(steps, cs).stages[k]
  {
    assert Ordered(steps, cs, all, order, g).stages[k] == OrderedStage(steps, cs, all, order, g, k);
    if k < g {
      assert order[..g][k] == order[k];
    } else {
      BehindTheGroup(cs, order, g, k);
      assert Rewritten(steps, cs).stages[k] == RewrittenStage(steps, cs, k);
    }
  }

  lemma {:induction false} OrderedFits(w: World, types: Schema, steps: seq<Step>, cs: seq<Conjunct>, all: seq<JoinSearch.Edge>, order: seq<nat>, g: nat)
    requires Placeable(w, types, steps, cs, g) && IsGroupOrder(order, g, |steps|) && Fits(w, Rewritten(steps, cs))
    ensures var p, s := Rewritten(steps, cs), Ordered(steps, cs, all, order, g);
            Fits(w, s) && StartsWithScan(s) && |s.stages| == |p.stages| == |steps| && s.residual == p.residual
            && forall k :: g <= k < |steps| ==> s.stages[k] == p.stages[k]
  {
    var p, s := Rewritten(steps, cs), Ordered(steps, cs, all, order, g);
    forall k | 0 <= k < |steps|
      ensures StageFits(w, s.stages[k]) && (k >= g ==> s.stages[k] == p.stages[k])
    {
      OrderedStageFits(w, steps, cs, all, order, g, k);
    }
    assert s.stages[0] == OrderedStage(steps, cs, all, order, g, 0);
  }

  lemma {:induction false} OrderedStageIsInner(steps: seq<Step>, cs: seq<Conjunct>, all: seq<JoinSearch.Edge>, order: seq<nat>, g: nat, i: nat)
    requires i < g <= |order| == |steps|
    ensures var s := Ordered(steps, cs, all, order, g).stages[i]; s.rel == order[..g][i] && !s.kind.Left?
  {
    assert Ordered(steps, cs, all, order, g).stages[i] == OrderedStage(steps, cs, all, order, g, i);
  }

  lemma {:induction false} OrderedRunsGroup(w: World, types: Schema, steps: seq<Step>, cs: seq<Conjunct>, edges: seq<JoinSearch.Edge>, all: seq<JoinSearch.Edge>, order: seq<nat>, g: nat)
    requires Placeable(w, types, steps, cs, g) && IsGroupOrder(order, g, |steps|)
    requires WrittenEdges(types, g, cs, edges) && ImpliedFrom(edges, all)
    requires Fits(w, Rewritten(steps, cs))
    ensures Reordering.RunsGroupIn(w, Rewritten(steps, cs), Ordered(steps, cs, all, order, g), g, order[..g])
    ensures StartsWithScan(Ordered(steps, cs, all, order, g))
  {
    hide WrittenEdges, ImpliedFrom, Fits, AllowsReorder, Reordering.ReadyAt, Reordering.Implied, Reordering.InGroup;
    GroupIsDistinct(w, order, g, |steps|);
    hide IsGroupOrder, Reordering.Relations, Reordering.Distinct;
    var p, s := Rewritten(steps, cs), Ordered(steps, cs, all, order, g);
    OrderedFits(w, types, steps, cs, all, order, g);
    OrderedStagesAreInner(steps, cs, all, order, g);
    AllPlacedInGroup(w, types, steps, cs, edges, all, order, g);
    forall c | Reordering.InGroup(p, g, c)
      ensures Reordering.InGroup(s, g, c)
    {
      StillInGroup(w, types, steps, cs, all, order, g, c);
    }
  }

  lemma {:induction false} OrderedStagesAreInner(steps: seq<Step>, cs: seq<Conjunct>, all: seq<JoinSearch.Edge>, order: seq<nat>, g: nat)
    requires g <= |order| == |steps|
    ensures var s := Ordered(steps, cs, all, order, g);
            forall i :: 0 <= i < g ==> s.stages[i].rel == order[..g][i] && !s.stages[i].kind.Left?
  {
    forall i | 0 <= i < g
      ensures var s := Ordered(steps, cs, all, order, g).stages[i]; s.rel == order[..g][i] && !s.kind.Left?
    {
      OrderedStageIsInner(steps, cs, all, order, g, i);
    }
  }

  lemma {:induction false} AllPlacedInGroup(w: World, types: Schema, steps: seq<Step>, cs: seq<Conjunct>, edges: seq<JoinSearch.Edge>, all: seq<JoinSearch.Edge>, order: seq<nat>, g: nat)
    requires Placeable(w, types, steps, cs, g) && IsGroupOrder(order, g, |steps|)
    requires WrittenEdges(types, g, cs, edges) && ImpliedFrom(edges, all)
    ensures var s := Ordered(steps, cs, all, order, g);
            forall i, c :: 0 <= i < g && (c in s.stages[i].filters || c in s.stages[i].on) ==>
              Reordering.ReadyAt(s, order[..g], i, c) && Reordering.Implied(w, Rewritten(steps, cs), g, c)
  {
    hide WrittenEdges, ImpliedFrom, AllowsReorder, Reordering.ReadyAt, Reordering.Implied;
    var s := Ordered(steps, cs, all, order, g);
    hide IsGroupOrder;
    forall i, c | 0 <= i < g && (c in s.stages[i].filters || c in s.stages[i].on)
      ensures Reordering.ReadyAt(s, order[..g], i, c) && Reordering.Implied(w, Rewritten(steps, cs), g, c)
    {
      PlacedInGroup(w, types, steps, cs, edges, all, order, g, i, c);
    }
  }

  lemma {:induction false} GroupIsDistinct(w: World, order: seq<nat>, g: nat, n: nat)
    requires IsGroupOrder(order, g, n) && n <= |w.tables|
    ensures |order[..g]| == g && Reordering.Relations(w, order[..g]) && Reordering.Distinct(order[..g])
  {
  }

  lemma {:induction false} WrittenIsReady(w: World, types: Schema, steps: seq<Step>, cs: seq<Conjunct>, g: nat, i: nat, n: Node)
    requires Placeable(w, types, steps, cs, g) && i < g
    requires var s := Rewritten(steps, cs).stages[i]; n in s.filters || n in s.on
    ensures Reordering.ReadyAt(Rewritten(steps, cs), JoinSearch.Identity(g), i, n)
    ensures Reordering.InGroup(Rewritten(steps, cs), g, n)
  {
    var s := Rewritten(steps, cs).stages[i];
    assert s == RewrittenStage(steps, cs, i);
    var upTo := JoinSearch.Identity(g)[..i + 1];
    assert upTo[i] == i;
    if n in s.on {
      NodesForMembers(cs, OnClause, i);
      var c :| c in cs && c.node == n && c.destination == OnClause && c.target == i;
      CanReorder(cs, g, c);
      forall r | r in Refs(n)
        ensures r in upTo
      {
        assert r <= i && upTo[r] == r;
      }
    }
    if n in s.filters {
      NodesForMembers(cs, Filter, i);
      var c :| c in cs && c.node == n && c.destination == Filter && c.target == i;
    }
  }

  lemma {:induction false} WrittenRunsGroup(w: World, types: Schema, steps: seq<Step>, cs: seq<Conjunct>, g: nat)
    requires Placeable(w, types, steps, cs, g) && Fits(w, Rewritten(steps, cs))
    ensures Reordering.RunsGroupIn(w, Rewritten(steps, cs), Rewritten(steps, cs), g, JoinSearch.Identity(g))
  {
    var p := Rewritten(steps, cs);
    forall i | 0 <= i < g
      ensures p.stages[i].rel == i && !p.stages[i].kind.Left?
    {
      assert p.stages[i] == RewrittenStage(steps, cs, i);
    }
    forall i, c | 0 <= i < g && (c in p.stages[i].filters || c in p.stages[i].on)
      ensures Reordering.ReadyAt(p, JoinSearch.Identity(g), i, c) && Reordering.Implied(w, p, g, c)
    {
      WrittenIsReady(w, types, steps, cs, g, i, c);
      InGroupIsImplied(w, p, g, c);
    }
  }

  lemma {:induction false} OrdersHaveSameMembers(a: seq<nat>, b: seq<nat>, n: nat)
    requires JoinSearch.IsOrder(a, n) && JoinSearch.IsOrder(b, n)
    ensures multiset(a) == multiset(b)
  {
    OrderBag(a, n);
    OrderBag(b, n);
  }

  lemma {:induction false} DistinctBag(order: seq<nat>)
    requires JoinSearch.Distinct(order)
    ensures forall r :: multiset(order)[r] == if r in order then 1 else 0
  {
    if order != [] {
      var init, last := order[..|order| - 1], order[|order| - 1];
      DistinctBag(init);
      assert order == init + [last];
    }
  }

  lemma {:induction false} OrderBag(order: seq<nat>, n: nat)
    requires JoinSearch.IsOrder(order, n)
    ensures forall r: nat :: multiset(order)[r] == if r < n then 1 else 0
  {
    DistinctBag(order);
    forall r: nat
      ensures r in order <==> r < n
    {
      if r < n {
        JoinSearch.OrderCoversAll(order, n, r);
      }
    }
  }

  /** Joining the group in any order of its relations, with the conditions placed
      accordingly, returns the same rows equally often. */
  lemma {:induction false} OrderKeepsRows(w: World, types: Schema, steps: seq<Step>, cs: seq<Conjunct>, edges: seq<JoinSearch.Edge>, all: seq<JoinSearch.Edge>, order: seq<nat>, g: nat)
    requires Placeable(w, types, steps, cs, g) && IsGroupOrder(order, g, |steps|)
    requires WrittenEdges(types, g, cs, edges) && ImpliedFrom(edges, all)
    requires Fits(w, Rewritten(steps, cs))
    ensures var s := Ordered(steps, cs, all, order, g);
            Fits(w, s) && StartsWithScan(s) && multiset(RunAll(w, s)) == multiset(RunAll(w, Rewritten(steps, cs)))
  {
    OrderedRunsGroup(w, types, steps, cs, edges, all, order, g);
    WrittenRunsGroup(w, types, steps, cs, g);
    OrdersHaveSameMembers(JoinSearch.Identity(g), order[..g], g);
    Reordering.ReorderingKeepsRows(w, Rewritten(steps, cs), Ordered(steps, cs, all, order, g), g, JoinSearch.Identity(g), order[..g]);
  }
}
