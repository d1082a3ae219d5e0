/** The conditions of a rewritten plan, compared with those of the query: the same
    ones, but without what is always true and with what the optimizer has added. */
module Placement {
  import opened Predicates
  import opened Plans
  import opened Refinement
  import opened Conjuncts
  import opened Rewriting
  import opened ColumnClasses
  import opened Propagation
  import opened RewritePasses
  import opened RewriteSound
  import opened JoinGraphs
  import opened GroupOrder
  import opened Conservation
  import JoinSearch

  /** The conditions of a plan, in textual order. */
  function ConditionsOf(plan: Plan): seq<Node> {
    match plan
    case Scan(_) => []
    case Select(input, condition) => ConditionsOf(input) + OptConjuncts(condition)
    case Join(_, input, input2, on) => ConditionsOf(input) + ConditionsOf(input2) + OptConjuncts(on)
  }

  /** Without the comparisons of literals that are true. */
  function NotFoldedTrue(nodes: seq<Node>): seq<Node> {
    if nodes == [] then []
    else NotFoldedTrue(nodes[..|nodes| - 1])
         + if FoldComparison(nodes[|nodes| - 1]) == Some(true) then [] else [nodes[|nodes| - 1]]
  }

  /** What the optimizer adds: an equality of a column, true in every row of the
      query, or a false comparison when there is no such row. */
  predicate IsAddedCondition(w: World, rows: seq<Row>, n: Node) {
    && (n == IMPOSSIBLE.node ==> rows == [])
    && (n != IMPOSSIBLE.node ==> n.Binary? && n.op.Eq? && n.left.Column?)
    && forall f <- rows :: Holds(w, n, f)
  }

  /** The conditions of the query that are not always true are in the plan, each as
      often as it was written, and everything else has been added. */
  ghost predicate KeepsConditions(w: World, from: Plan, where: Option<Node>, plan: Plan) {
    exists added: Bag ::
      && multiset(ConditionsOf(plan)) == multiset(NotFoldedTrue(OptConjuncts(where) + ConditionsOf(from))) + added
      && forall n <- added :: IsAddedCondition(w, QueryRows(w, from, where), n)
  }

  // ---- The conditions of a pipeline's plan ----

  predicate IsLeaf(n: Node) {
    !(n.Binary? && n.op.And?)
  }

  predicate AllLeaves(nodes: seq<Node>) {
    forall n <- nodes :: IsLeaf(n)
  }

  predicate HasLeaves(p: Pipeline) {
    && (forall k :: 0 <= k < |p.stages| ==> AllLeaves(p.stages[k].filters) && AllLeaves(p.stages[k].on))
    && AllLeaves(p.residual)
  }

  lemma {:induction false} ChainOfLeaves(nodes: seq<Node>)
    requires AllLeaves(nodes)
    ensures OptConjuncts(AndChain(nodes)) == nodes
  {
    if |nodes| == 1 {
      assert IsLeaf(nodes[0]) && nodes == [nodes[0]];
    } else if |nodes| > 1 {
      var init, last := nodes[..|nodes| - 1], nodes[|nodes| - 1];
      ChainOfLeaves(init);
      assert IsLeaf(last) && nodes == init + [last];
      assert LeavesOf(Binary(And, AndChain(init).value, last)) == LeavesOf(AndChain(init).value) + LeavesOf(last);
    }
  }

  lemma {:induction false} RelationConditions(s: Stage)
    requires AllLeaves(s.filters)
    ensures ConditionsOf(RelationPlan(s)) == s.filters
  {
    ChainOfLeaves(s.filters);
  }

  lemma {:induction false} BagsJoined(a: seq<Node>, b: seq<Node>, c: seq<Node>, bag: Bag)
    requires multiset(a) == bag
    ensures multiset(a + b + c) == bag + (multiset(b) + multiset(c))
  {
  }

  lemma {:induction false} JoinConditions(p: Pipeline, k: nat)
    requires HasLeaves(p) && 1 <= k <= |p.stages| && p.stages[0].on == []
    ensures multiset(ConditionsOf(JoinPlan(p.stages, k))) == StageConditions(p.stages, k)
  {
    if k == 1 {
      FirstConditions(p);
    } else {
      JoinConditions(p, k - 1);
      LastBag(p, k, ConditionsOf(JoinPlan(p.stages, k - 1)), ConditionsOf(JoinPlan(p.stages, k)));
    }
  }

  lemma {:induction false} LastBag(p: Pipeline, k: nat, before: seq<Node>, after: seq<Node>)
    requires HasLeaves(p) && 1 < k <= |p.stages| && before == ConditionsOf(JoinPlan(p.stages, k - 1)) && after == ConditionsOf(JoinPlan(p.stages, k))
    requires multiset(before) == StageConditions(p.stages, k - 1)
    ensures multiset(after) == StageConditions(p.stages, k)
  {
    var s := p.stages[k - 1];
    LastConditions(p, k);
    BagsJoined(before, s.filters, s.on, StageConditions(p.stages, k - 1));
  }

  lemma {:induction false} FirstConditions(p: Pipeline)
    requires HasLeaves(p) && p.stages != [] && p.stages[0].on == []
    ensures multiset(ConditionsOf(JoinPlan(p.stages, 1))) == StageConditions(p.stages, 1)
  {
    var s := p.stages[0];
    RelationConditions(s);
    BagsJoined([], s.filters, s.on, StageConditions(p.stages, 0));
    assert [] + s.filters + s.on == ConditionsOf(RelationPlan(s));
  }

  lemma {:induction false} LastConditions(p: Pipeline, k: nat)
    requires HasLeaves(p) && 1 < k <= |p.stages|
    ensures ConditionsOf(JoinPlan(p.stages, k)) == ConditionsOf(JoinPlan(p.stages, k - 1)) + p.stages[k - 1].filters + p.stages[k - 1].on
  {
    RelationConditions(p.stages[k - 1]);
    ChainOfLeaves(p.stages[k - 1].on);
  }

  lemma {:induction false} PlanConditions(p: Pipeline)
    requires HasLeaves(p) && p.stages != [] && p.stages[0].on == []
    ensures multiset(ConditionsOf(PlanOf(p))) == AllConditions(p)
  {
    JoinConditions(p, |p.stages|);
    ChainOfLeaves(p.residual);
  }

  // ---- The conditions of the query ----

  function NodesOf(cs: seq<Conjunct>): (nodes: seq<Node>)
    ensures |nodes| == |cs|
  {
    seq(|cs|, i requires 0 <= i < |cs| => cs[i].node)
  }

  lemma {:induction false} FromConditions(plan: Plan, steps: seq<Step>)
    requires FlattenFrom(plan, []) == Some(steps) && Numbered(plan, 0)
    ensures ConditionsOf(plan) == NodesOf(LoadedOn(steps, |steps|))
  {
    FlattenShape(plan, []);
    if plan.Join? {
      var before := FlattenBefore(plan, steps);
      FromConditions(plan.input, before);
      LastOnConditions(before, steps, plan.on);
      assert ConditionsOf(plan) == ConditionsOf(plan.input) + [] + OptConjuncts(plan.on);
    } else {
      assert ConditionsOf(plan) == [] && |steps| == 1;
    }
  }

  lemma {:induction false} LastOnConditions(before: seq<Step>, steps: seq<Step>, on: Option<Node>)
    requires before != [] && |steps| == |before| + 1 && before <= steps && steps[|before|].on == on
    ensures NodesOf(LoadedOn(steps, |steps|)) == NodesOf(LoadedOn(before, |before|)) + OptConjuncts(on)
  {
    LoadedOnPrefix(before, steps, |before|);
    NodesJoined(LoadedOn(before, |before|), LoadedLeaves(OptConjuncts(on), false, |before|));
    assert NodesOf(LoadedLeaves(OptConjuncts(on), false, |before|)) == OptConjuncts(on);
  }

  lemma {:induction false} NodesJoined(a: seq<Conjunct>, b: seq<Conjunct>)
    ensures NodesOf(a + b) == NodesOf(a) + NodesOf(b)
  {
  }

  lemma {:induction false} LoadedOnPrefix(before: seq<Step>, steps: seq<Step>, k: nat)
    requires before <= steps && k <= |before|
    ensures LoadedOn(before, k) == LoadedOn(steps, k)
  {
    if k > 1 {
      LoadedOnPrefix(before, steps, k - 1);
    }
  }

  lemma {:induction false} QueryConditions(from: Plan, steps: seq<Step>, where: Option<Node>)
    requires FlattenFrom(from, []) == Some(steps) && Numbered(from, 0)
    ensures NodesOf(Loaded(steps, where)) == OptConjuncts(where) + ConditionsOf(from)
  {
    FromConditions(from, steps);
    var first := LoadedLeaves(OptConjuncts(where), true, 0);
    NodesJoined(first, LoadedOn(steps, |steps|));
    assert NodesOf(first) == OptConjuncts(where);
  }

  // ---- What is kept ----

  lemma {:induction false} KeptJoined(a: seq<Conjunct>, b: seq<Conjunct>)
    ensures Kept(a + b) == Kept(a) + Kept(b)
  {
    if b == [] {
      assert a + b == a;
    } else {
      KeptJoined(a, b[..|b| - 1]);
      KeptLast(b);
      KeptLast(a + b);
      assert (a + b)[..|a + b| - 1] == a + b[..|b| - 1];
      BagsAssociate(Kept(a), Kept(b[..|b| - 1]), If(!b[|b| - 1].destination.Dropped?, b[|b| - 1].node));
    }
  }

  lemma {:induction false} KeptLast(cs: seq<Conjunct>)
    requires cs != []
    ensures Kept(cs) == Kept(cs[..|cs| - 1]) + If(!cs[|cs| - 1].destination.Dropped?, cs[|cs| - 1].node)
  {
  }

  lemma {:induction false} BagsAssociate(a: Bag, b: Bag, c: Bag)
    ensures (a + b) + c == a + (b + c)
  {
  }

  lemma {:induction false} KeptDestined(steps: seq<Step>, cs: seq<Conjunct>)
    ensures Kept(AllDestined(steps, cs)) == Kept(cs)
  {
    if cs != [] {
      KeptDestined(steps, cs[..|cs| - 1]);
      DestinedKeeps(steps, cs[|cs| - 1]);
      assert AllDestined(steps, cs)[..|cs| - 1] == AllDestined(steps, cs[..|cs| - 1]);
    }
  }

  lemma {:induction false} KeptFolded(cs: seq<Conjunct>)
    requires forall c <- cs :: !c.destination.Dropped?
    ensures Kept(FoldedAll(cs)) == multiset(NotFoldedTrue(NodesOf(cs)))
  {
    if cs != [] {
      KeptFolded(cs[..|cs| - 1]);
      assert FoldedAll(cs)[..|cs| - 1] == FoldedAll(cs[..|cs| - 1]);
      assert NodesOf(cs)[..|cs| - 1] == NodesOf(cs[..|cs| - 1]);
      assert cs[|cs| - 1] in cs;
    }
  }

  lemma {:induction false} KeptAll(cs: seq<Conjunct>)
    requires forall c <- cs :: !c.destination.Dropped?
    ensures Kept(cs) == multiset(NodesOf(cs))
  {
    if cs != [] {
      KeptAll(cs[..|cs| - 1]);
      assert NodesOf(cs) == NodesOf(cs[..|cs| - 1]) + [cs[|cs| - 1].node];
      assert cs[|cs| - 1] in cs;
    }
  }

  /** What the passes add to the conjunct list. */
  function AddedNodes(derived: seq<Conjunct>, alwaysEmpty: bool): seq<Node> {
    NodesOf(derived) + if alwaysEmpty then [IMPOSSIBLE.node] else []
  }

  lemma {:induction false} KeptFinal(steps: seq<Step>, where: Option<Node>, derived: seq<Conjunct>, alwaysEmpty: bool)
    requires forall d <- derived :: !d.destination.Dropped?
    ensures var cs := FoldedList(steps, where) + derived;
            Kept(Final(steps, cs, alwaysEmpty)) ==
            multiset(NotFoldedTrue(NodesOf(Loaded(steps, where)))) + multiset(AddedNodes(derived, alwaysEmpty))
  {
    var cs := FoldedList(steps, where) + derived;
    var destined := AllDestined(Converted(steps, cs), cs);
    KeptDestined(Converted(steps, cs), cs);
    KeptList(steps, where, derived);
    KeptImpossible(destined, alwaysEmpty);
    AddedSplit(derived, alwaysEmpty);
    assert Final(steps, cs, alwaysEmpty) == destined + if alwaysEmpty then [IMPOSSIBLE] else [];
  }

  lemma {:induction false} KeptList(steps: seq<Step>, where: Option<Node>, derived: seq<Conjunct>)
    requires forall d <- derived :: !d.destination.Dropped?
    ensures Kept(FoldedList(steps, where) + derived) ==
            multiset(NotFoldedTrue(NodesOf(Loaded(steps, where)))) + multiset(NodesOf(derived))
  {
    KeptJoined(FoldedList(steps, where), derived);
    LoadedShape(steps, where);
    KeptFolded(Loaded(steps, where));
    KeptAll(derived);
  }

  lemma {:induction false} KeptImpossible(cs: seq<Conjunct>, alwaysEmpty: bool)
    ensures Kept(cs + if alwaysEmpty then [IMPOSSIBLE] else []) == Kept(cs) + If(alwaysEmpty, IMPOSSIBLE.node)
  {
    if alwaysEmpty {
      KeptStep(cs, IMPOSSIBLE);
    } else {
      assert cs + [] == cs;
    }
  }

  lemma {:induction false} AddedSplit(derived: seq<Conjunct>, alwaysEmpty: bool)
    ensures multiset(AddedNodes(derived, alwaysEmpty)) == multiset(NodesOf(derived)) + If(alwaysEmpty, IMPOSSIBLE.node)
  {
  }

  // ---- Every condition of the plan is a leaf ----

  lemma {:induction false} LeavesAreLeaves(root: Node)
    ensures AllLeaves(LeavesOf(root))
  {
    if root.Binary? && root.op.And? {
      LeavesAreLeaves(root.left);
      LeavesAreLeaves(root.right);
    }
  }

  predicate LeafConjuncts(cs: seq<Conjunct>) {
    forall c <- cs :: IsLeaf(c.node)
  }

  lemma {:induction false} LoadedAreLeaves(steps: seq<Step>, where: Option<Node>)
    ensures LeafConjuncts(Loaded(steps, where))
  {
    LoadedShape(steps, where);
    forall c | c in Loaded(steps, where)
      ensures IsLeaf(c.node)
    {
      LeavesAreLeaves(if c.fromWhere then where.value else steps[c.step].on.value);
    }
  }

  lemma {:induction false} FinalLeaves(steps: seq<Step>, where: Option<Node>, derived: seq<Conjunct>, alwaysEmpty: bool)
    requires LeafConjuncts(derived)
    ensures LeafConjuncts(Final(steps, FoldedList(steps, where) + derived, alwaysEmpty))
  {
    var cs := FoldedList(steps, where) + derived;
    var now := Converted(steps, cs);
    LoadedAreLeaves(steps, where);
    forall d | d in Final(steps, cs, alwaysEmpty)
      ensures IsLeaf(d.node)
    {
      FinalMember(steps, cs, alwaysEmpty, d);
      if c :| c in cs && d == Destined(now, c) {
        DestinedKeeps(now, c);
        if c in FoldedList(steps, where) {
          var i :| 0 <= i < |FoldedList(steps, where)| && FoldedList(steps, where)[i] == c;
          assert c == Folded(Loaded(steps, where)[i]) && Loaded(steps, where)[i] in Loaded(steps, where);
        }
      }
    }
  }

  lemma {:induction false} OrderedLeaves(steps: seq<Step>, cs: seq<Conjunct>, edges: seq<JoinSearch.Edge>, order: seq<nat>, g: nat)
    requires g <= |order| == |steps| && LeafConjuncts(cs)
    ensures HasLeaves(Ordered(steps, cs, edges, order, g))
  {
    var p := Ordered(steps, cs, edges, order, g);
    NodesForMembers(cs, Residual, 0);
    forall k | 0 <= k < |p.stages|
      ensures AllLeaves(p.stages[k].filters) && AllLeaves(p.stages[k].on)
    {
      assert p.stages[k] == OrderedStage(steps, cs, edges, order, g, k);
      NodesForMembers(cs, Filter, order[k]);
      forall n | n in NodesAtPosition(cs, order, g, k)
        ensures IsLeaf(n)
      {
        NodesAtPositionMembers(cs, order, g, k, n);
      }
    }
  }

  // ---- What is added is true ----

  /** An ON condition of the group is tested by its stage, which is no left join. */
  lemma {:induction false} GroupOnIsTested(w: World, steps: seq<Step>, where: Option<Node>, cs: seq<Conjunct>, g: nat, c: Conjunct)
    requires Setup(w, steps, where, cs, false) && g == GroupSize(Converted(steps, cs), 1) && AllowsReorder(Final(steps, cs, false), g)
    requires c in Final(steps, cs, false) && c.destination.OnClause? && c.target < g
    ensures ReadsUpTo(c.node, c.target) && c.target < |steps|
    ensures var s := Plan1(steps, cs, false).stages[c.target]; c.node in s.on && !s.kind.Left?
  {
    FinalIsSound(w, steps, where, cs, false, c);
    MasksAreRefs(w, steps, where, cs, c);
    CanReorder(Final(steps, cs, false), g, c);
    NodesForMembers(Final(steps, cs, false), OnClause, c.target);
    assert Plan1(steps, cs, false).stages[c.target] == RewrittenStage(Converted(steps, cs), Final(steps, cs, false), c.target);
  }

  lemma {:induction false} TestedOnHolds(w: World, p: Pipeline, k: nat, n: Node, f: Row)
    requires InOrder(w, p) && k < |p.stages| && !p.stages[k].kind.Left? && n in p.stages[k].on && ReadsUpTo(n, k)
    requires f in RunAll(w, p)
    ensures Stored(w, f) && Holds(w, n, f)
  {
    Survivor(w, p, 0, Blank(w), f);
    assert AllHold(w, p.stages[k].on, Truncate(f, k + 1));
    HoldsOnExtension(w, n, k, Truncate(f, k + 1), f);
  }

  /** The ON conditions of the group hold in every row of the query. */
  lemma {:induction false} GroupOnHolds(w: World, steps: seq<Step>, where: Option<Node>, cs: seq<Conjunct>, g: nat, c: Conjunct, f: Row)
    requires Setup(w, steps, where, cs, false) && g == GroupSize(Converted(steps, cs), 1) && AllowsReorder(Final(steps, cs, false), g)
    requires c in Final(steps, cs, false) && c.destination.OnClause? && c.target < g
    requires f in RunAll(w, Written(steps, where))
    ensures Stored(w, f) && Holds(w, c.node, f)
  {
    RewrittenKeepsRows(w, steps, where, cs, false);
    GroupOnIsTested(w, steps, where, cs, g, c);
    TestedOnHolds(w, Plan1(steps, cs, false), c.target, c.node, f);
  }

  lemma {:induction false} InSum(f: nat -> Bag, k: nat, n: Node) returns (i: nat)
    requires n in Sum(f, k)
    ensures i < k && n in f(i)
  {
    if n in f(k - 1) {
      i := k - 1;
    } else {
      i := InSum(f, k - 1, n);
    }
  }

  lemma {:induction false} DerivedEqualityIsAdded(w: World, types: Schema, steps: seq<Step>, where: Option<Node>, cs: seq<Conjunct>, edges: seq<JoinSearch.Edge>, order: seq<nat>, g: nat, n: Node)
    requires Typed(w, types) && Setup(w, steps, where, cs, false) && |order| == |steps|
    requires g == GroupSize(Converted(steps, cs), 1) && AllowsReorder(Final(steps, cs, false), g)
    requires exists written :: WrittenEdges(types, g, Final(steps, cs, false), written) && ImpliedFrom(written, edges)
    requires n in Sum(Conservation.DerivedAt(edges, order, g), |order|)
    ensures IsAddedCondition(w, RunAll(w, Written(steps, where)), n)
  {
    var final := Final(steps, cs, false);
    var written :| WrittenEdges(types, g, final, written) && ImpliedFrom(written, edges);
    var i := InSum(Conservation.DerivedAt(edges, order, g), |order|, n);
    var e := DerivedEdge(written, edges, order, g, i, n);
    forall f | f in RunAll(w, Written(steps, where))
      ensures Holds(w, n, f)
    {
      RowIsStored(w, steps, where, f);
      forall c | c in final && c.destination.OnClause? && c.target < g
        ensures Holds(w, c.node, f)
      {
        GroupOnHolds(w, steps, where, cs, g, c, f);
      }
      EdgeIsImplied(w, types, g, final, written, e, f);
    }
  }

  lemma {:induction false} RowIsStored(w: World, steps: seq<Step>, where: Option<Node>, f: Row)
    requires Query(w, steps, where) && InOrder(w, Written(steps, where)) && f in RunAll(w, Written(steps, where))
    ensures Stored(w, f)
  {
    Survivor(w, Written(steps, where), 0, Blank(w), f);
  }

  lemma {:induction false} DerivedIsEquality(types: Schema, steps: seq<Step>, cs: seq<Conjunct>, d: Conjunct)
    requires IsDerived(types, steps, cs, d)
    ensures d.node.Binary? && d.node.op.Eq? && d.node.left.Column? && !d.destination.Dropped?
  {
  }

  lemma {:induction false} PassesAdd(w: World, types: Schema, steps: seq<Step>, where: Option<Node>, derived: seq<Conjunct>, alwaysEmpty: bool, n: Node)
    requires Typed(w, types) && AllDerived(types, steps, where, derived)
    requires Setup(w, steps, where, FoldedList(steps, where) + derived, alwaysEmpty)
    requires n in AddedNodes(derived, alwaysEmpty)
    ensures IsAddedCondition(w, RunAll(w, Written(steps, where)), n)
  {
    if n in NodesOf(derived) {
      var i :| 0 <= i < |derived| && derived[i].node == n;
      assert derived[i] in derived;
      DerivedIsEquality(types, steps, FoldedList(steps, where), derived[i]);
      DerivedIsAdded(w, types, steps, where, derived[i]);
    }
  }

  /** A plan as the passes and the search leave it. */
  ghost predicate Ready(w: World, types: Schema, steps: seq<Step>, where: Option<Node>, derived: seq<Conjunct>, alwaysEmpty: bool, edges: seq<JoinSearch.Edge>, order: seq<nat>, g: nat) {
    var cs := FoldedList(steps, where) + derived;
    var now, final := Converted(steps, cs), Final(steps, cs, alwaysEmpty);
    && Typed(w, types) && AllDerived(types, steps, where, derived) && Setup(w, steps, where, cs, alwaysEmpty)
    && IsGroupOrder(order, g, |steps|)
    && (g > 0 ==>
          && !alwaysEmpty && g == GroupSize(now, 1) && AllowsReorder(final, g)
          && exists written :: WrittenEdges(types, g, final, written) && ImpliedFrom(written, edges))
  }

  function ReadyPipeline(steps: seq<Step>, where: Option<Node>, derived: seq<Conjunct>, alwaysEmpty: bool, edges: seq<JoinSearch.Edge>, order: seq<nat>, g: nat): Pipeline
    requires g <= |order| == |steps|
  {
    var cs := FoldedList(steps, where) + derived;
    Ordered(Converted(steps, cs), Final(steps, cs, alwaysEmpty), edges, order, g)
  }

  function AddedBag(derived: seq<Conjunct>, alwaysEmpty: bool, edges: seq<JoinSearch.Edge>, order: seq<nat>, g: nat): Bag {
    multiset(AddedNodes(derived, alwaysEmpty)) + Sum(Conservation.DerivedAt(edges, order, g), |order|)
  }

  lemma {:induction false} ReadyHasLeaves(w: World, types: Schema, steps: seq<Step>, where: Option<Node>, derived: seq<Conjunct>, alwaysEmpty: bool, edges: seq<JoinSearch.Edge>, order: seq<nat>, g: nat)
    requires Ready(w, types, steps, where, derived, alwaysEmpty, edges, order, g)
    ensures HasLeaves(ReadyPipeline(steps, where, derived, alwaysEmpty, edges, order, g))
    ensures forall d <- derived :: !d.destination.Dropped?
  {
    var cs := FoldedList(steps, where) + derived;
    forall d | d in derived
      ensures IsLeaf(d.node) && !d.destination.Dropped?
    {
      DerivedIsEquality(types, steps, FoldedList(steps, where), d);
    }
    FinalLeaves(steps, where, derived, alwaysEmpty);
    OrderedLeaves(Converted(steps, cs), Final(steps, cs, alwaysEmpty), edges, order, g);
  }

  lemma {:induction false} AllAreAdded(w: World, types: Schema, steps: seq<Step>, where: Option<Node>, derived: seq<Conjunct>, alwaysEmpty: bool, edges: seq<JoinSearch.Edge>, order: seq<nat>, g: nat)
    requires Ready(w, types, steps, where, derived, alwaysEmpty, edges, order, g)
    ensures forall n <- AddedBag(derived, alwaysEmpty, edges, order, g) :: IsAddedCondition(w, RunAll(w, Written(steps, where)), n)
  {
    forall n | n in AddedBag(derived, alwaysEmpty, edges, order, g)
      ensures IsAddedCondition(w, RunAll(w, Written(steps, where)), n)
    {
      if n in AddedNodes(derived, alwaysEmpty) {
        PassesAdd(w, types, steps, where, derived, alwaysEmpty, n);
      } else {
        var i := InSum(Conservation.DerivedAt(edges, order, g), |order|, n);
        DerivedEqualityIsAdded(w, types, steps, where, FoldedList(steps, where) + derived, edges, order, g, n);
      }
    }
  }

  lemma {:induction false} BagsRegrouped(all: Bag, kept: Bag, leaves: Bag, passes: Bag, edges: Bag)
    requires all == kept + edges && kept == leaves + passes
    ensures all == leaves + (passes + edges)
  {
  }

  /** The conditions of the plan are the kept leaves of the query and the added ones. */
  lemma {:induction false} ReadyConditions(w: World, types: Schema, from: Plan, steps: seq<Step>, where: Option<Node>, derived: seq<Conjunct>, alwaysEmpty: bool, edges: seq<JoinSearch.Edge>, order: seq<nat>, g: nat)
    requires Ready(w, types, steps, where, derived, alwaysEmpty, edges, order, g)
    requires FlattenFrom(from, []) == Some(steps) && Numbered(from, 0)
    requires AllConditions(ReadyPipeline(steps, where, derived, alwaysEmpty, edges, order, g)) ==
             Kept(Final(steps, FoldedList(steps, where) + derived, alwaysEmpty)) + Sum(Conservation.DerivedAt(edges, order, g), |order|)
    ensures multiset(ConditionsOf(PlanOf(ReadyPipeline(steps, where, derived, alwaysEmpty, edges, order, g)))) ==
            multiset(NotFoldedTrue(OptConjuncts(where) + ConditionsOf(from))) + AddedBag(derived, alwaysEmpty, edges, order, g)
  {
    hide FlattenFrom, Numbered, Typed, Setup, AllowsReorder, WrittenEdges, ImpliedFrom, PlanOf, ConditionsOf, AllConditions, NotFoldedTrue;
    var p := ReadyPipeline(steps, where, derived, alwaysEmpty, edges, order, g);
    ReadyHasLeaves(w, types, steps, where, derived, alwaysEmpty, edges, order, g);
    PlanConditions(p);
    KeptOfQuery(from, steps, where, derived, alwaysEmpty);
    BagsRegrouped(AllConditions(p), Kept(Final(steps, FoldedList(steps, where) + derived, alwaysEmpty)),
                  multiset(NotFoldedTrue(OptConjuncts(where) + ConditionsOf(from))), multiset(AddedNodes(derived, alwaysEmpty)),
                  Sum(Conservation.DerivedAt(edges, order, g), |order|));
  }

  lemma {:induction false} KeptOfQuery(from: Plan, steps: seq<Step>, where: Option<Node>, derived: seq<Conjunct>, alwaysEmpty: bool)
    requires FlattenFrom(from, []) == Some(steps) && Numbered(from, 0) && forall d <- derived :: !d.destination.Dropped?
    ensures Kept(Final(steps, FoldedList(steps, where) + derived, alwaysEmpty)) ==
            multiset(NotFoldedTrue(OptConjuncts(where) + ConditionsOf(from))) + multiset(AddedNodes(derived, alwaysEmpty))
  {
    QueryConditions(from, steps, where);
    KeptFinal(steps, where, derived, alwaysEmpty);
  }
}
