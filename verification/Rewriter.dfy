/** The rewriter: from a FROM tree and a WHERE condition to a plan that returns
    the same rows. */
module Rewriter {
  import opened Predicates
  import opened Plans
  import opened Conjuncts
  import opened Rewriting
  import opened ColumnClasses
  import opened Propagation
  import opened Contradiction
  import opened SharedNames
  import opened RewritePasses
  import opened RewriteSound
  import opened JoinGraphs
  import opened GroupOrder
  import opened PushDown
  import JoinSearch
  import Conservation
  import Placement

  // ---- Building the plan ----

  method CollectNodes(cs: seq<Conjunct>, destination: Destination, target: nat) returns (nodes: seq<Node>)
    ensures nodes == NodesFor(cs, destination, target)
  {
    nodes := [];
    for index := 0 to |cs|
      invariant nodes == NodesFor(cs[..index], destination, target)
    {
      assert cs[..index + 1] == cs[..index] + [cs[index]];
      NodesForSplit(cs[..index], [cs[index]], destination, target);
      NodesForOne(cs[index], destination, target);
      if cs[index].destination == destination && (destination.Residual? || cs[index].target == target) {
        nodes := nodes + [cs[index].node];
      }
    }
    assert cs[..|cs|] == cs;
  }

  lemma {:induction false} NodesForOne(c: Conjunct, destination: Destination, target: nat)
    ensures NodesFor([c], destination, target) ==
            if c.destination == destination && (destination.Residual? || c.target == target) then [c.node] else []
  {
    assert NodesFor([c][1..], destination, target) == [];
  }

  /** positionOf inverts the order on the group. */
  ghost predicate Positions(positionOf: seq<nat>, order: seq<nat>, g: nat) {
    && g <= |order| == |positionOf|
    && (forall i :: 0 <= i < g ==> order[i] < g && positionOf[order[i]] == i)
    && (forall r :: 0 <= r < g ==> positionOf[r] < g && order[positionOf[r]] == r)
  }

  /** The step of the conjunct's last relation. */
  method FindStepPosition(c: Conjunct, positionOf: seq<nat>, g: nat, ghost order: seq<nat>) returns (position: nat)
    requires Positions(positionOf, order, g)
    ensures position == StepPosition(c, order, g)
  {
    if g == 0 || c.target >= g {
      return c.target;
    }
    position := 0;
    for relation := 0 to g
      invariant position < g && (position == 0 || order[position] in c.mask)
      invariant forall r: nat :: r < relation && r in c.mask ==> positionOf[r] <= position
    {
      if relation in c.mask && positionOf[relation] > position {
        position := positionOf[relation];
      }
    }
    LastPositionIsMaximum(c.mask, order, g, position);
  }

  lemma {:induction false} LastPositionIsMaximum(mask: set<nat>, order: seq<nat>, n: nat, p: nat)
    requires n <= |order| && (n > 0 ==> p < n) && (p == 0 || (p < n && order[p] in mask))
    requires forall i :: 0 <= i < n && order[i] in mask ==> i <= p
    ensures LastPosition(mask, order, n) == p
  {
    if n > 0 && order[n - 1] !in mask {
      LastPositionIsMaximum(mask, order, n - 1, p);
    }
  }

  method CollectOnNodes(cs: seq<Conjunct>, positionOf: seq<nat>, g: nat, position: nat, ghost order: seq<nat>) returns (nodes: seq<Node>)
    requires Positions(positionOf, order, g)
    ensures nodes == NodesAtPosition(cs, order, g, position)
  {
    nodes := [];
    for index := 0 to |cs|
      invariant nodes == NodesAtPosition(cs[..index], order, g, position)
    {
      assert cs[..index + 1][..index] == cs[..index];
      if cs[index].destination.OnClause? {
        var stepPosition := FindStepPosition(cs[index], positionOf, g, order);
        if stepPosition == position {
          nodes := nodes + [cs[index].node];
        }
      }
    }
    assert cs[..|cs|] == cs;
  }

  /** The derived equality a relation joins on when no written one ties it. */
  method DeriveEquality(edges: seq<JoinSearch.Edge>, order: seq<nat>, position: nat) returns (nodes: seq<Node>)
    requires position < |order|
    ensures nodes == JoinEquality(edges, order, position)
  {
    for earlier := 0 to position
      invariant EdgeToEarlier(edges, order, position, 0, true) == EdgeToEarlier(edges, order, position, earlier, true)
    {
      var written := FindEdgeBetween(edges, order[position], order[earlier], true);
      if written.Some? {
        return [];
      }
    }
    for earlier := 0 to position
      invariant EdgeToEarlier(edges, order, position, 0, false) == EdgeToEarlier(edges, order, position, earlier, false)
    {
      var edge := FindEdgeBetween(edges, order[position], order[earlier], false);
      if edge.Some? {
        return [EdgeNode(edge.value)];
      }
    }
    nodes := [];
  }

  method BuildRelationPlan(cs: seq<Conjunct>, relation: nat) returns (plan: Plan)
    ensures forall s: Stage :: s.rel == relation && s.filters == NodesFor(cs, Filter, relation) ==> plan == RelationPlan(s)
  {
    var filters := CollectNodes(cs, Filter, relation);
    plan := if filters == [] then Scan(relation) else Select(Scan(relation), AndChain(filters));
  }

  /** The stage at a position after the first, as the plan builder assembles it. */
  method BuildStage(steps: seq<Step>, cs: seq<Conjunct>, edges: seq<JoinSearch.Edge>, order: seq<nat>, positionOf: seq<nat>, g: nat, position: nat)
    returns (kind: JoinType, on: seq<Node>, right: Plan)
    requires Positions(positionOf, order, g) && 1 <= position < |steps| == |order|
    ensures var s := OrderedStage(steps, cs, edges, order, g, position);
            kind == s.kind && on == s.on && right == RelationPlan(s)
  {
    on := CollectOnNodes(cs, positionOf, g, position, order);
    if position < g {
      var derived := DeriveEquality(edges, order, position);
      on := on + derived;
      kind := Inner;
    } else {
      kind := FinalJoinType(steps[position], on != []);
    }
    right := BuildRelationPlan(cs, order[position]);
  }

  method FindPositions(order: seq<nat>, ghost g: nat) returns (positionOf: seq<nat>)
    requires IsGroupOrder(order, g, |order|)
    ensures Positions(positionOf, order, g)
  {
    var table := new nat[|order|](_ => 0);
    GroupOrderBelow(order, g);
    for position := 0 to |order|
      invariant forall i :: 0 <= i < position ==> table[order[i]] == i
    {
      table[order[position]] := position;
    }
    positionOf := table[..];
    forall r | 0 <= r < g
      ensures positionOf[r] < g && order[positionOf[r]] == r
    {
      var i := PositionOf(order, g, |order|, r);
    }
  }

  lemma {:induction false} GroupOrderBelow(order: seq<nat>, g: nat)
    requires IsGroupOrder(order, g, |order|)
    ensures forall i :: 0 <= i < |order| ==> order[i] < |order|
    ensures forall i, j :: 0 <= i < j < |order| ==> order[i] != order[j]
    ensures forall i :: 0 <= i < g ==> order[i] < g
  {
    assert forall i :: 0 <= i < g ==> order[..g][i] == order[i];
    assert forall i, j :: 0 <= i < j < g ==> order[..g][i] != order[..g][j];
  }

  /** Joins the relations in the given order and puts every condition in place. */
  method BuildPlan(steps: seq<Step>, cs: seq<Conjunct>, edges: seq<JoinSearch.Edge>, order: seq<nat>, g: nat) returns (plan: Plan)
    requires steps != [] && IsGroupOrder(order, g, |steps|)
    ensures plan == PlanOf(Ordered(steps, cs, edges, order, g))
  {
    ghost var p := Ordered(steps, cs, edges, order, g);
    var positionOf := FindPositions(order, g);
    plan := BuildRelationPlan(cs, order[0]);
    BaseStage(steps, cs, edges, order, g);
    for position := 1 to |steps|
      invariant plan == JoinPlan(p.stages, position)
    {
      var kind, on, right := BuildStage(steps, cs, edges, order, positionOf, g, position);
      assert p.stages[position] == OrderedStage(steps, cs, edges, order, g, position);
      plan := Join(kind, plan, right, AndChain(on));
    }
    var residual := CollectNodes(cs, Residual, 0);
    if residual != [] {
      plan := Select(plan, AndChain(residual));
    }
  }

  lemma {:induction false} BaseStage(steps: seq<Step>, cs: seq<Conjunct>, edges: seq<JoinSearch.Edge>, order: seq<nat>, g: nat)
    requires steps != [] && g <= |order| == |steps|
    ensures var s := Ordered(steps, cs, edges, order, g).stages[0];
            s.rel == order[0] && s.filters == NodesFor(cs, Filter, order[0])
  {
    assert Ordered(steps, cs, edges, order, g).stages[0] == OrderedStage(steps, cs, edges, order, g, 0);
  }

  // ---- The join order ----

  /** Estimates and switches the rewriter only passes on. */
  datatype Settings = Settings(mayReorder: bool, estimate: (nat, seq<Node>) -> real, cost: JoinSearch.CostModel)

  /** An order to join in: the written one, or another one of the group. */
  ghost predicate Chosen(types: Schema, steps: seq<Step>, cs: seq<Conjunct>, edges: seq<JoinSearch.Edge>, order: seq<nat>, g: nat)
    requires steps != []
  {
    && IsGroupOrder(order, g, |steps|)
    && (g > 0 ==>
          && g == GroupSize(steps, 1) && AllowsReorder(cs, g)
          && exists written :: WrittenEdges(types, g, cs, written) && ImpliedFrom(written, edges))
  }

  /** What the join search is asked, and what it answers: the estimated rows of the
      relations of the group, and the equalities between them. */
  ghost predicate Searched(types: Schema, cs: seq<Conjunct>, group: nat, settings: Settings, order: seq<nat>, changed: bool, edges: seq<JoinSearch.Edge>) {
    group > 0 && exists rows ::
      && |rows| == group && (forall r: nat :: r < group ==> rows[r] == settings.estimate(r, NodesFor(cs, Filter, r)))
      && AreEdges(types, group, cs, edges)
      && JoinSearch.IsChoice(JoinSearch.JoinGraph(rows, edges), settings.cost, order, changed)
  }

  /** The written order stays when reordering is switched off or not allowed; otherwise
      the relations before the first left join come in the order the search chooses. */
  ghost predicate IsPlanned(types: Schema, steps: seq<Step>, cs: seq<Conjunct>, settings: Settings, order: seq<nat>, g: nat, edges: seq<JoinSearch.Edge>)
    requires steps != []
  {
    var group := GroupSize(steps, 1);
    if group < 2 || !settings.mayReorder || !AllowsReorder(cs, group) then g == 0 && order == JoinSearch.Identity(|steps|)
    else
      exists first, changed ::
        && Searched(types, cs, group, settings, first, changed, edges)
        && g == (if changed then group else 0) && order == first + JoinSearch.Identity(|steps|)[group..]
  }

  ghost predicate MasksKnown(cs: seq<Conjunct>) {
    forall c <- cs :: c.destination.OnClause? ==> c.mask == Refs(c.node) && forall r <- c.mask :: r <= c.target
  }

  lemma {:induction false} EdgesFit(types: Schema, g: nat, cs: seq<Conjunct>, written: seq<JoinSearch.Edge>, all: seq<JoinSearch.Edge>, rows: seq<real>)
    requires WrittenEdges(types, g, cs, written) && ImpliedFrom(written, all) && |rows| == g
    requires MasksKnown(cs)
    ensures JoinSearch.GraphFits(JoinSearch.JoinGraph(rows, all))
  {
    forall p | p in PairsOf(written)
      ensures p.0.rel < g && p.1.rel < g && p.0.rel != p.1.rel
    {
      PairFits(types, g, cs, written, p);
    }
    EdgesFitPairs(g, written, all);
  }

  lemma {:induction false} EdgesFitPairs(g: nat, written: seq<JoinSearch.Edge>, all: seq<JoinSearch.Edge>)
    requires ImpliedFrom(written, all)
    requires forall p <- PairsOf(written) :: p.0.rel < g && p.1.rel < g && p.0.rel != p.1.rel
    ensures forall e <- all :: e.a.rel < g && e.b.rel < g && e.a.rel != e.b.rel
  {
    forall e | e in all
      ensures e.a.rel < g && e.b.rel < g && e.a.rel != e.b.rel
    {
      var i :| 0 <= i < |all| && all[i] == e;
      if i < |written| {
        assert written[i] == e && (e.a, e.b) in PairsOf(written);
      } else {
        assert IsImpliedEdge(written, e);
        MentionedFits(g, PairsOf(written), e.a);
        MentionedFits(g, PairsOf(written), e.b);
      }
    }
  }

  lemma {:induction false} MentionedFits(g: nat, pairs: set<Pair>, x: ColumnRef)
    requires Mentioned(pairs, x) && forall p <- pairs :: p.0.rel < g && p.1.rel < g
    ensures x.rel < g
  {
  }

  lemma {:induction false} PairFits(types: Schema, g: nat, cs: seq<Conjunct>, written: seq<JoinSearch.Edge>, p: Pair)
    requires WrittenEdges(types, g, cs, written) && p in PairsOf(written)
    requires MasksKnown(cs)
    ensures p.0.rel < g && p.1.rel < g && p.0.rel != p.1.rel
  {
    var c := WrittenPair(types, g, cs, written, p);
    hide WrittenEdges, PairsOf;
    assert Refs(ColumnNode(p.0)) == {p.0.rel} && Refs(ColumnNode(p.1)) == {p.1.rel};
    assert p.0.rel in c.mask && p.1.rel in c.mask;
  }

  method EstimateRows(cs: seq<Conjunct>, g: nat, settings: Settings) returns (rows: seq<real>)
    ensures |rows| == g && forall r: nat :: r < g ==> rows[r] == settings.estimate(r, NodesFor(cs, Filter, r))
  {
    rows := [];
    for relation := 0 to g
      invariant |rows| == relation && forall r: nat :: r < relation ==> rows[r] == settings.estimate(r, NodesFor(cs, Filter, r))
    {
      var filters := CollectNodes(cs, Filter, relation);
      rows := rows + [settings.estimate(relation, filters)];
    }
  }

  method AllowReorder(cs: seq<Conjunct>, g: nat) returns (ok: bool)
    ensures ok <==> AllowsReorder(cs, g)
  {
    for index := 0 to |cs|
      invariant forall i :: 0 <= i < index && cs[i].destination.OnClause? && cs[i].target < g ==> !cs[i].unresolved && |cs[i].mask| >= 2
    {
      var inGroup := cs[index].destination.OnClause? && cs[index].target < g;
      if inGroup && (cs[index].unresolved || |cs[index].mask| < 2) {
        return false;
      }
    }
    ok := true;
  }

  /** The order to join in; g is 0 when the written order stays. */
  method PlanJoinOrder(types: Schema, steps: seq<Step>, cs: seq<Conjunct>, settings: Settings)
    returns (order: seq<nat>, g: nat, edges: seq<JoinSearch.Edge>)
    requires 2 <= |steps| && |cs| <= OPT_MAX_CONJUNCTS
    requires MasksKnown(cs) && DistinctNames(types)
    ensures Chosen(types, steps, cs, edges, order, g)
    ensures IsPlanned(types, steps, cs, settings, order, g, edges)
    ensures g > 0 ==> settings.mayReorder
  {
    order, g, edges := JoinSearch.Identity(|steps|), 0, [];
    var group := GroupSize(steps, 1);
    if group < 2 || !settings.mayReorder {
      return;
    }
    var allowed := AllowReorder(cs, group);
    if !allowed {
      return;
    }
    var groupOrder, changed, all := SearchOrder(types, cs, group, settings);
    edges := all;
    if changed {
      ghost var rest := order[group..];
      order := groupOrder + order[group..];
      g := group;
      assert order[..g] == groupOrder && order[g..] == rest;
    } else {
      assert groupOrder + order[group..] == order;
    }
    assert Searched(types, cs, group, settings, groupOrder, changed, edges);
  }

  method SearchOrder(types: Schema, cs: seq<Conjunct>, group: nat, settings: Settings)
    returns (order: seq<nat>, changed: bool, edges: seq<JoinSearch.Edge>)
    requires group > 0 && |cs| <= OPT_MAX_CONJUNCTS && MasksKnown(cs) && DistinctNames(types)
    ensures JoinSearch.IsOrder(order, group) && (!changed ==> order == JoinSearch.Identity(group))
    ensures Searched(types, cs, group, settings, order, changed, edges)
    ensures exists written :: WrittenEdges(types, group, cs, written) && ImpliedFrom(written, edges)
  {
    var rows := EstimateRows(cs, group, settings);
    var written := CollectEdges(types, group, cs);
    edges := AddDerivedEdges(types, written);
    EdgesFit(types, group, cs, written, edges, rows);
    assert AreEdges(types, group, cs, edges);
    order, changed := JoinSearch.ChooseJoinOrder(JoinSearch.JoinGraph(rows, edges), settings.cost);
  }

  // ---- The whole rewrite ----

  predicate ReadsInOrder(steps: seq<Step>, where: Option<Node>) {
    && (forall n <- OptConjuncts(where) :: forall r <- Refs(n) :: r < |steps|)
    && (forall k :: 0 <= k < |steps| ==> forall n <- OptConjuncts(steps[k].on) :: forall r <- Refs(n) :: r <= k)
  }

  /** A query over the tables of w: the items are numbered in textual order, a
      condition reads relations of the query, and the ON condition of a step reads
      relations up to that step. No table has two columns whose names differ in case
      only. */
  ghost predicate Wellformed(w: World, types: Schema, from: Plan, where: Option<Node>) {
    && Typed(w, types) && DistinctNames(types) && Numbered(from, 0) && Items(from) == |w.tables|
    && (FlattenFrom(from, []).Some? ==> ReadsInOrder(FlattenFrom(from, []).value, where))
  }

  lemma {:induction false} QueryFrom(w: World, types: Schema, from: Plan, where: Option<Node>)
    requires Wellformed(w, types, from, where) && FlattenFrom(from, []).Some?
    ensures Query(w, FlattenFrom(from, []).value, where)
  {
    FlattenShape(from, []);
  }

  /** The state after all passes: the conjunct list is what folding leaves of the
      query's conditions and what propagation derives, every conjunct with its place. */
  ghost predicate PassedWith(w: World, types: Schema, steps: seq<Step>, where: Option<Node>, derived: seq<Conjunct>, now: seq<Step>, final: seq<Conjunct>, alwaysEmpty: bool) {
    var cs := FoldedList(steps, where) + derived;
    && AllDerived(types, steps, where, derived) && Setup(w, steps, where, cs, alwaysEmpty)
    && (alwaysEmpty <==> SaidEmpty(types, steps, where, derived)) && IsPropagated(types, steps, where, derived)
    && now == Converted(steps, cs) && final == Final(steps, cs, alwaysEmpty)
  }

  ghost predicate Passed(w: World, types: Schema, steps: seq<Step>, where: Option<Node>, now: seq<Step>, final: seq<Conjunct>, alwaysEmpty: bool) {
    exists derived :: PassedWith(w, types, steps, where, derived, now, final, alwaysEmpty)
  }

  /** Folding, propagation and the contradiction check. */
  method Simplify(ghost w: World, types: Schema, steps: seq<Step>, ghost where: Option<Node>, conjuncts: array<Conjunct>, count: nat)
    returns (newCount: nat, alwaysEmpty: bool, ghost derived: seq<Conjunct>)
    requires conjuncts.Length == OPT_CONJUNCT_CAPACITY && count <= OPT_MAX_CONJUNCTS
    requires conjuncts[..count] == Loaded(steps, where) && DistinctNames(types)
    modifies conjuncts
    ensures newCount <= OPT_MAX_CONJUNCTS && AllDerived(types, steps, where, derived)
    ensures conjuncts[..newCount] == FoldedList(steps, where) + derived
    ensures alwaysEmpty <==> SaidEmpty(types, steps, where, derived)
    ensures IsPropagated(types, steps, where, derived)
  {
    hide Loaded, FoldedList, DistinctNames, HasFalseCondition, IsDerived, SaidEmpty, IsPropagated, AllDerived;
    ghost var loaded := conjuncts[..count];
    assert forall i :: 0 <= i < count ==> conjuncts[..][i] == loaded[i];
    alwaysEmpty := FoldConstants(steps, conjuncts, count);
    FalseConditionIff(steps, where);
    FoldedIs(steps, where);
    newCount, derived := count, [];
    if !alwaysEmpty {
      newCount, alwaysEmpty, derived := SimplifyFolded(types, steps, where, conjuncts, count);
    } else {
      assert conjuncts[..count] == FoldedList(steps, where) + derived;
      FalseIsSaid(types, steps, where);
    }
  }

  lemma {:induction false} FoldedIs(steps: seq<Step>, where: Option<Node>)
    ensures FoldedList(steps, where) == FoldedAll(Loaded(steps, where))
  {
  }

  lemma {:induction false} FalseIsSaid(types: Schema, steps: seq<Step>, where: Option<Node>)
    requires HasFalseCondition(steps, where)
    ensures AllDerived(types, steps, where, []) && SaidEmpty(types, steps, where, []) && IsPropagated(types, steps, where, [])
  {
  }

  /** Propagation and the contradiction check, when no condition folds to false. */
  method SimplifyFolded(types: Schema, steps: seq<Step>, ghost where: Option<Node>, conjuncts: array<Conjunct>, count: nat)
    returns (newCount: nat, alwaysEmpty: bool, ghost derived: seq<Conjunct>)
    requires conjuncts.Length == OPT_CONJUNCT_CAPACITY && count <= OPT_MAX_CONJUNCTS
    requires conjuncts[..count] == FoldedList(steps, where) && DistinctNames(types) && !HasFalseCondition(steps, where)
    modifies conjuncts
    ensures newCount <= OPT_MAX_CONJUNCTS && AllDerived(types, steps, where, derived)
    ensures conjuncts[..newCount] == FoldedList(steps, where) + derived
    ensures alwaysEmpty <==> SaidEmpty(types, steps, where, derived)
    ensures IsPropagated(types, steps, where, derived)
  {
    hide FoldedList, WrittenDerived, IsServed, Conflicting, Contradictory, WrittenConflict, DistinctNames, HasFalseCondition, IsDerived;
    var conflict;
    newCount, conflict := PropagateConstants(types, steps, conjuncts, count);
    derived := conjuncts[count..newCount];
    assert conjuncts[..newCount] == conjuncts[..count] + derived;
    if conflict {
      alwaysEmpty := true;
    } else {
      alwaysEmpty := DetectContradiction(types, steps, conjuncts[..newCount]);
      DistinctAreClear(types);
      ClearReports(types, steps, conjuncts[..newCount]);
    }
  }

  /** All passes: simplify, convert left joins, assign destinations, and empty the
      base relation when nothing can come out. */
  method RunPasses(ghost w: World, types: Schema, steps: seq<Step>, ghost where: Option<Node>, conjuncts: array<Conjunct>, count: nat)
    returns (now: seq<Step>, final: seq<Conjunct>, alwaysEmpty: bool)
    requires Typed(w, types) && Query(w, steps, where)
    requires conjuncts.Length == OPT_CONJUNCT_CAPACITY && count <= OPT_MAX_CONJUNCTS
    requires conjuncts[..count] == Loaded(steps, where) && DistinctNames(types)
    modifies conjuncts
    ensures Passed(w, types, steps, where, now, final, alwaysEmpty)
    ensures !alwaysEmpty ==> |final| <= OPT_MAX_CONJUNCTS
  {
    hide Query, Typed, Setup, SaidEmpty, IsPropagated, AllDerived, Loaded, FoldedList, Converted, DistinctNames;
    var newCount: nat;
    ghost var derived;
    newCount, alwaysEmpty, derived := Simplify(w, types, steps, where, conjuncts, count);
    ghost var cs := conjuncts[..newCount];
    SetupAfter(w, types, steps, where, derived, alwaysEmpty);
    var converted := new Step[|steps|](i requires 0 <= i < |steps| => steps[i]);
    assert converted[..] == steps;
    ConvertLeftJoins(converted, conjuncts[..newCount]);
    now := converted[..];
    AssignDestinations(now, conjuncts, newCount);
    final := conjuncts[..newCount];
    if alwaysEmpty {
      conjuncts[newCount] := IMPOSSIBLE;
      final := conjuncts[..newCount + 1];
    }
    assert cs == FoldedList(steps, where) + derived;
    assert PassedWith(w, types, steps, where, derived, now, final, alwaysEmpty);
  }

  lemma {:induction false} SetupAfter(w: World, types: Schema, steps: seq<Step>, where: Option<Node>, derived: seq<Conjunct>, alwaysEmpty: bool)
    requires Typed(w, types) && Query(w, steps, where) && AllDerived(types, steps, where, derived)
    requires alwaysEmpty ==> SaidEmpty(types, steps, where, derived)
    ensures Setup(w, steps, where, FoldedList(steps, where) + derived, alwaysEmpty)
  {
    WrittenFits(w, steps, where);
    ListIsSound(w, types, steps, where, derived);
    if alwaysEmpty {
      EmptyIsEmpty(w, types, steps, where, derived);
    }
  }

  /** The conjuncts the join search reads know their relations. */
  lemma {:induction false} PassedMasks(w: World, types: Schema, steps: seq<Step>, where: Option<Node>, now: seq<Step>, final: seq<Conjunct>)
    requires Passed(w, types, steps, where, now, final, false)
    ensures MasksKnown(final)
  {
    var derived :| PassedWith(w, types, steps, where, derived, now, final, false);
    var cs := FoldedList(steps, where) + derived;
    forall c | c in final && c.destination.OnClause?
      ensures c.mask == Refs(c.node) && forall r <- c.mask :: r <= c.target
    {
      MasksAreRefs(w, steps, where, cs, c);
    }
  }

  /** The plan of a chosen order returns the rows of the query, in the written
      order unless the group is reordered. */
  lemma {:induction false} ChosenKeepsRows(w: World, types: Schema, steps: seq<Step>, where: Option<Node>, now: seq<Step>, final: seq<Conjunct>, alwaysEmpty: bool, edges: seq<JoinSearch.Edge>, order: seq<nat>, g: nat)
    requires Typed(w, types) && Passed(w, types, steps, where, now, final, alwaysEmpty) && steps != [] && now != []
    requires Chosen(types, now, final, edges, order, g) && (alwaysEmpty ==> g == 0)
    ensures Fits(w, Written(steps, where))
    ensures var rows := EvalPlan(w, PlanOf(Ordered(now, final, edges, order, g)));
            && multiset(rows) == multiset(RunAll(w, Written(steps, where)))
            && (g == 0 ==> rows == RunAll(w, Written(steps, where)))
  {
    var derived :| PassedWith(w, types, steps, where, derived, now, final, alwaysEmpty);
    var cs := FoldedList(steps, where) + derived;
    RewrittenKeepsRows(w, steps, where, cs, alwaysEmpty);
    var p, s := Plan1(steps, cs, alwaysEmpty), Ordered(now, final, edges, order, g);
    if g == 0 {
      NothingOnTheFirst(w, steps, where, cs, alwaysEmpty);
      assert !now[0].nullSupplying && now[0].kind.Inner?;
      NotReordered(now, final, edges, order);
    } else {
      FinalIsPlaceable(w, types, steps, where, cs);
      var written :| WrittenEdges(types, g, final, written) && ImpliedFrom(written, edges);
      OrderKeepsRows(w, types, now, final, written, edges, order, g);
    }
    PlanRunsPipeline(w, s);
  }

  /** Every conjunct that is not dropped is in exactly one place of the plan. */
  lemma {:induction false} ChosenPlacesOnce(w: World, types: Schema, steps: seq<Step>, where: Option<Node>, now: seq<Step>, final: seq<Conjunct>, alwaysEmpty: bool, edges: seq<JoinSearch.Edge>, order: seq<nat>, g: nat)
    requires Passed(w, types, steps, where, now, final, alwaysEmpty) && now != []
    requires Chosen(types, now, final, edges, order, g) && (alwaysEmpty ==> g == 0)
    ensures Conservation.AllConditions(Ordered(now, final, edges, order, g)) ==
            Conservation.Kept(final) + Conservation.Sum(Conservation.DerivedAt(edges, order, g), |order|)
  {
    var derived :| PassedWith(w, types, steps, where, derived, now, final, alwaysEmpty);
    var cs := FoldedList(steps, where) + derived;
    if g > 0 {
      PassedMasks(w, types, steps, where, now, final);
    }
    Conservation.GroupOrderDistinct(order, g);
    Conservation.FinalHasPlaces(w, steps, where, cs, alwaysEmpty, order, g);
    Conservation.EveryConjunctLandsOnce(now, final, edges, order, g);
  }

  /** The chosen plan tests the conditions of the query, each as often as it was
      written, except for those that are always true. */
  lemma {:induction false} ChosenKeepsConditions(w: World, types: Schema, from: Plan, steps: seq<Step>, where: Option<Node>, now: seq<Step>, final: seq<Conjunct>, alwaysEmpty: bool, edges: seq<JoinSearch.Edge>, order: seq<nat>, g: nat)
    requires Typed(w, types) && Passed(w, types, steps, where, now, final, alwaysEmpty) && now != []
    requires FlattenFrom(from, []) == Some(steps) && Numbered(from, 0)
    requires Chosen(types, now, final, edges, order, g) && (alwaysEmpty ==> g == 0)
    ensures Placement.KeepsConditions(w, from, where, PlanOf(Ordered(now, final, edges, order, g)))
  {
    var derived :| PassedWith(w, types, steps, where, derived, now, final, alwaysEmpty);
    ChosenPlacesOnce(w, types, steps, where, now, final, alwaysEmpty, edges, order, g);
    WrittenRows(w, from, steps, where);
    Placement.AllAreAdded(w, types, steps, where, derived, alwaysEmpty, edges, order, g);
    Placement.ReadyConditions(w, types, from, steps, where, derived, alwaysEmpty, edges, order, g);
  }

  /** The plan as a function of the query: what propagation derives, whether the query
      is said to be empty, the order that is planned, and for these the scan, the join or
      the place behind all joins where every condition is tested. */
  ghost predicate IsRewrittenAs(types: Schema, steps: seq<Step>, where: Option<Node>, settings: Settings, plan: Plan, reordered: bool, derived: seq<Conjunct>, empty: bool, edges: seq<JoinSearch.Edge>, order: seq<nat>, g: nat) {
    var cs := FoldedList(steps, where) + derived;
    && steps != [] && g <= |order| == |steps|
    && IsPropagated(types, steps, where, derived) && (empty <==> SaidEmpty(types, steps, where, derived))
    && (if empty then g == 0 && order == JoinSearch.Identity(|steps|)
        else IsPlanned(types, Converted(steps, cs), Final(steps, cs, false), settings, order, g, edges))
    && (reordered <==> g > 0)
    && ReadPlan(plan).Some? && IsPushedDown(steps, where, derived, empty, edges, order, g, ReadPlan(plan).value)
  }

  ghost predicate IsRewritten(types: Schema, steps: seq<Step>, where: Option<Node>, settings: Settings, plan: Plan, reordered: bool) {
    exists derived, empty, edges, order, g: nat :: IsRewrittenAs(types, steps, where, settings, plan, reordered, derived, empty, edges, order, g)
  }

  lemma {:induction false} ChosenIsRewritten(w: World, types: Schema, steps: seq<Step>, where: Option<Node>, now: seq<Step>, final: seq<Conjunct>, alwaysEmpty: bool, edges: seq<JoinSearch.Edge>, order: seq<nat>, g: nat, settings: Settings)
    requires Typed(w, types) && Passed(w, types, steps, where, now, final, alwaysEmpty) && now != [] && |steps| >= 2
    requires Chosen(types, now, final, edges, order, g)
    requires if alwaysEmpty then g == 0 && order == JoinSearch.Identity(|steps|) else IsPlanned(types, now, final, settings, order, g, edges)
    ensures IsRewritten(types, steps, where, settings, PlanOf(Ordered(now, final, edges, order, g)), g > 0)
  {
    hide IsPropagated, SaidEmpty, IsPlanned, ReadPlan, IsPushedDown, Converted, Setup;
    var derived :| PassedWith(w, types, steps, where, derived, now, final, alwaysEmpty);
    PlanIsPushedDown(w, types, steps, where, derived, alwaysEmpty, edges, order, g);
    assert IsRewrittenAs(types, steps, where, settings, PlanOf(Ordered(now, final, edges, order, g)), g > 0, derived, alwaysEmpty, edges, order, g);
  }

  /** Rewrites FROM and WHERE into a plan. No plan means that the written query
      stays: FROM is not a left-deep join of two or more tables, or there are too
      many conditions to track. The plan returns the rows of the query as often as
      the query does, and in the same order unless the search changed the order; it
      tests every condition of the query that is not always true. */
  method RewriteFromWhere(ghost w: World, types: Schema, from: Plan, where: Option<Node>, settings: Settings)
    returns (plan: Option<Plan>, reordered: bool)
    requires Wellformed(w, types, from, where)
    ensures plan.Some? ==> multiset(EvalPlan(w, plan.value)) == multiset(QueryRows(w, from, where))
    ensures plan.Some? && !reordered ==> EvalPlan(w, plan.value) == QueryRows(w, from, where)
    ensures plan.Some? ==> Placement.KeepsConditions(w, from, where, plan.value)
    ensures plan.Some? ==> FlattenFrom(from, []).Some? && IsRewritten(types, FlattenFrom(from, []).value, where, settings, plan.value, reordered)
    ensures reordered ==> plan.Some? && settings.mayReorder
    ensures plan.None? <==>
            || FlattenFrom(from, []).None? || |FlattenFrom(from, []).value| < 2
            || |Loaded(FlattenFrom(from, []).value, where)| > OPT_MAX_CONJUNCTS
  {
    reordered := false;
    var flat := FlattenFrom(from, []);
    if flat.None? || |flat.value| < 2 {
      return None, false;
    }
    var steps := flat.value;
    QueryFrom(w, types, from, where);
    var conjuncts := new Conjunct[OPT_CONJUNCT_CAPACITY](_ => IMPOSSIBLE);
    var count := LoadConjuncts(steps, where, conjuncts);
    HadConditions(steps, where);
    var hadConditions := where.Some? || exists k :: 1 <= k < |steps| && steps[k].on.Some?;
    if count == 0 && hadConditions {
      return None, false;
    }
    assert conjuncts[..count] == Loaded(steps, where);
    var built;
    built, reordered := PlanAfterPasses(w, types, from, steps, where, conjuncts, count, settings);
    WrittenRows(w, from, steps, where);
    plan := Some(built);
  }

  method PlanAfterPasses(ghost w: World, types: Schema, ghost from: Plan, steps: seq<Step>, ghost where: Option<Node>, conjuncts: array<Conjunct>, count: nat, settings: Settings)
    returns (plan: Plan, reordered: bool)
    requires Typed(w, types) && Query(w, steps, where) && |steps| >= 2
    requires FlattenFrom(from, []) == Some(steps) && Numbered(from, 0)
    requires conjuncts.Length == OPT_CONJUNCT_CAPACITY && count <= OPT_MAX_CONJUNCTS
    requires conjuncts[..count] == Loaded(steps, where) && DistinctNames(types)
    modifies conjuncts
    ensures Fits(w, Written(steps, where))
    ensures multiset(EvalPlan(w, plan)) == multiset(RunAll(w, Written(steps, where)))
    ensures !reordered ==> EvalPlan(w, plan) == RunAll(w, Written(steps, where))
    ensures Placement.KeepsConditions(w, from, where, plan)
    ensures IsRewritten(types, steps, where, settings, plan, reordered)
    ensures reordered ==> settings.mayReorder
  {
    hide Typed, FlattenFrom, Numbered, DistinctNames, Loaded, Placement.KeepsConditions, IsPlanned, IsRewritten;
    var now, final, alwaysEmpty := RunPasses(w, types, steps, where, conjuncts, count);
    assert |now| == |steps|;
    var order, g, edges := JoinSearch.Identity(|now|), 0, [];
    if !alwaysEmpty {
      PassedMasks(w, types, steps, where, now, final);
      order, g, edges := PlanJoinOrder(types, now, final, settings);
    }
    reordered := g > 0;
    ChosenKeepsRows(w, types, steps, where, now, final, alwaysEmpty, edges, order, g);
    ChosenKeepsConditions(w, types, from, steps, where, now, final, alwaysEmpty, edges, order, g);
    ChosenIsRewritten(w, types, steps, where, now, final, alwaysEmpty, edges, order, g, settings);
    plan := BuildPlan(now, final, edges, order, g);
  }

  lemma {:induction false} HadConditions(steps: seq<Step>, where: Option<Node>)
    ensures Loaded(steps, where) != [] <==> where.Some? || exists k :: 1 <= k < |steps| && steps[k].on.Some?
  {
    HadOnConditions(steps, |steps|);
  }

  lemma {:induction false} HadOnConditions(steps: seq<Step>, n: nat)
    requires n <= |steps|
    ensures LoadedOn(steps, n) != [] <==> exists k :: 1 <= k < n && steps[k].on.Some?
  {
    if n > 1 {
      HadOnConditions(steps, n - 1);
      LoadedOnNext(steps, n - 1);
      hide LoadedOn;
      if steps[n - 1].on.None? && LoadedOn(steps, n) != [] {
        var k :| 1 <= k < n && k < n - 1 && steps[k].on.Some?;
      }
    }
  }

  lemma {:induction false} LoadedOnNext(steps: seq<Step>, k: nat)
    requires 1 <= k < |steps|
    ensures LoadedOn(steps, k + 1) != [] <==> LoadedOn(steps, k) != [] || steps[k].on.Some?
  {
  }
}
