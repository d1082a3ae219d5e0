/** What plan a query gets, said of its written conditions: which scan, which join or
    which place behind all joins every leaf of WHERE and ON goes to. */
module PushDown {
  import opened Predicates
  import opened Plans
  import opened Conjuncts
  import opened Rewriting
  import opened ColumnClasses
  import opened RewritePasses
  import opened RewriteSound
  import opened GroupOrder
  import opened Placement
  import JoinSearch

  // ---- Reading a plan ----

  /** A table, with the conditions tested on its rows before any join. */
  function ReadItem(plan: Plan): Option<Stage> {
    match plan
    case Scan(rel) => Some(Stage(rel, Inner, [], []))
    case Select(Scan(rel), condition) => Some(Stage(rel, Inner, OptConjuncts(condition), []))
    case _ => None
  }

  /** The tables of a left-deep join tree, each with the join that adds it. */
  function ReadStages(plan: Plan): Option<seq<Stage>> {
    if plan.Join? then
      var before, item := ReadStages(plan.input), ReadItem(plan.input2);
      if before.None? || item.None? then None
      else Some(before.value + [item.value.(kind := plan.kind, on := OptConjuncts(plan.on))])
    else
      var item := ReadItem(plan);
      if item.None? then None else Some([item.value])
  }

  /** A left-deep join tree, below the conditions tested behind all joins. */
  function ReadPlan(plan: Plan): Option<Pipeline> {
    var joined := if plan.Select? && plan.input.Join? then plan.input else plan;
    var stages := ReadStages(joined);
    if stages.None? then None
    else Some(Pipeline(stages.value, if plan.Select? && plan.input.Join? then OptConjuncts(plan.condition) else []))
  }

  lemma {:induction false} ItemReadsBack(s: Stage)
    requires AllLeaves(s.filters)
    ensures ReadItem(RelationPlan(s)) == Some(Stage(s.rel, Inner, s.filters, [])) && !RelationPlan(s).Join?
  {
    ChainOfLeaves(s.filters);
  }

  lemma {:induction false} StagesReadBack(p: Pipeline, k: nat)
    requires HasLeaves(p) && 1 <= k <= |p.stages| && p.stages[0].kind.Inner? && p.stages[0].on == []
    ensures ReadStages(JoinPlan(p.stages, k)) == Some(p.stages[..k])
  {
    ItemReadsBack(p.stages[k - 1]);
    if k == 1 {
      assert p.stages[..1] == [p.stages[0]];
    } else {
      StagesReadBack(p, k - 1);
      ChainOfLeaves(p.stages[k - 1].on);
      assert p.stages[..k] == p.stages[..k - 1] + [p.stages[k - 1]];
    }
  }

  /** The plan of a pipeline of two or more tables shows it again. */
  lemma {:induction false} PlanReadsBack(p: Pipeline)
    requires HasLeaves(p) && |p.stages| >= 2 && p.stages[0].kind.Inner? && p.stages[0].on == []
    ensures ReadPlan(PlanOf(p)) == Some(p)
  {
    StagesReadBack(p, |p.stages|);
    ChainOfLeaves(p.residual);
    assert p.stages[..|p.stages|] == p.stages;
  }

  // ---- Where a leaf goes ----

  /** A step is still a left join after the conversion: no resolved WHERE leaf rejects
      rows in which its relation is all NULL. */
  ghost predicate StaysLeft(steps: seq<Step>, where: Option<Node>, k: nat) {
    && 0 < k < |steps| && steps[k].nullSupplying
    && !exists n <- OptConjuncts(where) :: !Unresolved(n) && k in Refs(n) && RejectsNull(n, k)
  }

  /** Where a leaf of WHERE goes. */
  ghost predicate WhereTo(steps: seq<Step>, where: Option<Node>, n: Node, to: Destination, r: nat) {
    match to
    case Residual => Unresolved(n) || Refs(n) == {} || exists h: nat :: IsLast(Refs(n), h) && StaysLeft(steps, where, h)
    case Filter => !Unresolved(n) && Refs(n) == {r} && !StaysLeft(steps, where, r)
    case OnClause => !Unresolved(n) && Refs(n) != {r} && IsLast(Refs(n), r) && !StaysLeft(steps, where, r)
    case Dropped => false
  }

  /** A leaf of the ON condition of step k can be tested on relation r alone. */
  ghost predicate OnFilters(steps: seq<Step>, where: Option<Node>, k: nat, n: Node, r: nat) {
    && !Unresolved(n)
    && if r == k then Refs(n) <= {r}
       else r < k < |steps| && Refs(n) == {r} && !steps[k].kind.Left? && !StaysLeft(steps, where, r)
  }

  /** Where a leaf of the ON condition of step k goes. */
  ghost predicate OnTo(steps: seq<Step>, where: Option<Node>, k: nat, n: Node, to: Destination, r: nat) {
    match to
    case Filter => OnFilters(steps, where, k, n, r)
    case OnClause => r == k && !exists other :: OnFilters(steps, where, k, n, other)
    case _ => false
  }

  /** The position of the join that tests an ON condition for relation r: of relation
      r itself, or in the reordered group that of the last relation it reads. */
  ghost predicate TestedAt(order: seq<nat>, g: nat, refs: set<nat>, r: nat, position: nat)
    requires g <= |order|
  {
    if r >= g then position == r
    else position < g && order[position] in refs && forall j :: position < j < g ==> order[j] !in refs
  }

  type Going = Node -> bool

  type StepGoing = (nat, Node) -> bool

  ghost function WhereGoing(steps: seq<Step>, where: Option<Node>, to: Destination, r: nat): Going {
    n => WhereTo(steps, where, n, to, r)
  }

  ghost function OnGoing(steps: seq<Step>, where: Option<Node>, to: Destination, r: nat): StepGoing {
    (k: nat, n: Node) => OnTo(steps, where, k, n, to, r)
  }

  /** WHERE leaves tested by the join at a position. */
  ghost function WhereTested(steps: seq<Step>, where: Option<Node>, order: seq<nat>, g: nat, position: nat): Going
    requires g <= |order|
  {
    n => exists r: nat :: WhereTo(steps, where, n, OnClause, r) && TestedAt(order, g, Refs(n), r, position)
  }

  /** ON leaves tested by the join at a position. */
  ghost function OnTested(steps: seq<Step>, where: Option<Node>, order: seq<nat>, g: nat, position: nat): StepGoing
    requires g <= |order|
  {
    (k: nat, n: Node) => OnTo(steps, where, k, n, OnClause, k) && TestedAt(order, g, Refs(n), k, position)
  }

  /** The leaves, without those folded to true, that go somewhere. */
  ghost function Picked(nodes: seq<Node>, goes: Going): seq<Node> {
    if nodes == [] then []
    else (if FoldComparison(nodes[0]) != Some(true) && goes(nodes[0]) then [nodes[0]] else []) + Picked(nodes[1..], goes)
  }

  /** The same of the ON conditions of the steps below k, step by step. */
  ghost function PickedOn(steps: seq<Step>, k: nat, goes: StepGoing): seq<Node>
    requires k <= |steps|
  {
    if k <= 1 then []
    else PickedOn(steps, k - 1, goes) + Picked(OptConjuncts(steps[k - 1].on), AtStep(goes, k - 1))
  }

  /** The derived conjuncts about a relation. */
  ghost function DerivedFor(derived: seq<Conjunct>, r: nat): seq<Node> {
    if derived == [] then []
    else (if derived[0].mask == {r} then [derived[0].node] else []) + DerivedFor(derived[1..], r)
  }

  /** The stage at a position of the plan. */
  ghost predicate IsPushedStage(steps: seq<Step>, where: Option<Node>, derived: seq<Conjunct>, empty: bool, edges: seq<JoinSearch.Edge>, order: seq<nat>, g: nat, k: nat, s: Stage)
    requires k < |steps| && g <= |order| == |steps|
  {
    && s.rel == order[k]
    && s.filters == Picked(OptConjuncts(where), WhereGoing(steps, where, Filter, order[k]))
                    + PickedOn(steps, |steps|, OnGoing(steps, where, Filter, order[k]))
                    + DerivedFor(derived, order[k]) + (if empty && order[k] == 0 then [IMPOSSIBLE.node] else [])
    && s.on == (if k == 0 then []
                else Picked(OptConjuncts(where), WhereTested(steps, where, order, g, k))
                     + PickedOn(steps, |steps|, OnTested(steps, where, order, g, k))
                     + (if k < g then JoinEquality(edges, order, k) else []))
    && s.kind == if k == 0 || k < g then Inner
                 else if StaysLeft(steps, where, k) then Left
                 else if steps[k].kind.Cross? && s.on == [] then Cross else Inner
  }

  /** The stages, and the leaves of WHERE that stay behind all joins. */
  ghost predicate IsPushedDown(steps: seq<Step>, where: Option<Node>, derived: seq<Conjunct>, empty: bool, edges: seq<JoinSearch.Edge>, order: seq<nat>, g: nat, p: Pipeline)
    requires g <= |order| == |steps|
  {
    && |p.stages| == |steps|
    && (forall k :: 0 <= k < |steps| ==> IsPushedStage(steps, where, derived, empty, edges, order, g, k, p.stages[k]))
    && p.residual == Picked(OptConjuncts(where), WhereGoing(steps, where, Residual, 0))
  }

  // ---- The conjunct list goes where its leaves go ----

  type Sitting = Conjunct -> bool

  /** The nodes of the conjuncts that sit somewhere, in list order. */
  ghost function Seated(cs: seq<Conjunct>, sits: Sitting): seq<Node> {
    if cs == [] then [] else (if sits(cs[0]) then [cs[0].node] else []) + Seated(cs[1..], sits)
  }

  ghost function SitsAt(destination: Destination, r: nat): Sitting {
    (c: Conjunct) => c.destination == destination && (destination.Residual? || c.target == r)
  }

  ghost function SitsOn(order: seq<nat>, g: nat, position: nat): Sitting
    requires g <= |order|
  {
    (c: Conjunct) => c.destination.OnClause? && StepPosition(c, order, g) == position
  }

  lemma {:induction false} NodesForSeated(cs: seq<Conjunct>, destination: Destination, r: nat)
    ensures NodesFor(cs, destination, r) == Seated(cs, SitsAt(destination, r))
  {
    if cs != [] {
      NodesForSeated(cs[1..], destination, r);
    }
  }

  lemma {:induction false} SeatedJoined(a: seq<Conjunct>, b: seq<Conjunct>, sits: Sitting)
    ensures Seated(a + b, sits) == Seated(a, sits) + Seated(b, sits)
  {
    if a == [] {
      assert a + b == b;
    } else {
      SeatedJoined(a[1..], b, sits);
      SeatedFirst(a[0], a[1..], sits);
      SeatedFirst(a[0], a[1..] + b, sits);
      assert a == [a[0]] + a[1..];
      assert a + b == [a[0]] + (a[1..] + b);
      Associates(if sits(a[0]) then [a[0].node] else [], Seated(a[1..], sits), Seated(b, sits));
    }
  }

  lemma {:induction false} Associates(a: seq<Node>, b: seq<Node>, c: seq<Node>)
    ensures a + (b + c) == (a + b) + c
  {
  }

  lemma {:induction false} SeatedFirst(c: Conjunct, rest: seq<Conjunct>, sits: Sitting)
    ensures Seated([c] + rest, sits) == (if sits(c) then [c.node] else []) + Seated(rest, sits)
  {
    assert ([c] + rest)[1..] == rest;
  }

  lemma {:induction false} PositionSeated(cs: seq<Conjunct>, order: seq<nat>, g: nat, position: nat)
    requires g <= |order|
    ensures NodesAtPosition(cs, order, g, position) == Seated(cs, SitsOn(order, g, position))
  {
    if cs != [] {
      var init, last := cs[..|cs| - 1], cs[|cs| - 1];
      PositionSeated(init, order, g, position);
      SeatedJoined(init, [last], SitsOn(order, g, position));
      assert cs == init + [last];
      assert Seated([last][1..], SitsOn(order, g, position)) == [];
    }
  }

  /** Leaves as conjuncts with their places. */
  ghost function Placed(now: seq<Step>, nodes: seq<Node>, fromWhere: bool, k: nat): seq<Conjunct> {
    AllDestined(now, FoldedAll(LoadedLeaves(nodes, fromWhere, k)))
  }

  lemma {:induction false} PlacedFirst(now: seq<Step>, nodes: seq<Node>, fromWhere: bool, k: nat)
    requires nodes != []
    ensures Placed(now, nodes, fromWhere, k) ==
            [Destined(now, Folded(LoadedOne(nodes[0], fromWhere, k)))] + Placed(now, nodes[1..], fromWhere, k)
  {
  }

  /** A leaf sits where it goes. */
  ghost predicate SitsRight(now: seq<Step>, n: Node, fromWhere: bool, k: nat, sits: Sitting, goes: Going) {
    var d := Destined(now, Folded(LoadedOne(n, fromWhere, k)));
    sits(d) <==> FoldComparison(n) != Some(true) && goes(n)
  }

  lemma {:induction false} PickedIsSeated(now: seq<Step>, nodes: seq<Node>, fromWhere: bool, k: nat, sits: Sitting, goes: Going)
    requires forall n <- nodes :: SitsRight(now, n, fromWhere, k, sits, goes)
    ensures Seated(Placed(now, nodes, fromWhere, k), sits) == Picked(nodes, goes)
  {
    if nodes != [] {
      PlacedFirst(now, nodes, fromWhere, k);
      PickedIsSeated(now, nodes[1..], fromWhere, k, sits, goes);
      var d := Destined(now, Folded(LoadedOne(nodes[0], fromWhere, k)));
      var rest := Placed(now, nodes[1..], fromWhere, k);
      assert SitsRight(now, nodes[0], fromWhere, k, sits, goes) && d.node == nodes[0];
      assert ([d] + rest)[1..] == rest;
    }
  }

  ghost function AtStep(goes: StepGoing, k: nat): Going {
    n => goes(k, n)
  }

  lemma {:induction false} PlacesJoined(now: seq<Step>, a: seq<Conjunct>, b: seq<Conjunct>)
    ensures AllDestined(now, a + b) == AllDestined(now, a) + AllDestined(now, b)
    ensures FoldedAll(a + b) == FoldedAll(a) + FoldedAll(b)
  {
  }

  lemma {:induction false} PickedOnIsSeated(now: seq<Step>, steps: seq<Step>, k: nat, sits: Sitting, goes: StepGoing)
    requires k <= |steps|
    requires forall j: nat :: j < k ==> forall n <- OptConjuncts(steps[j].on) :: SitsRight(now, n, false, j, sits, AtStep(goes, j))
    ensures Seated(AllDestined(now, FoldedAll(LoadedOn(steps, k))), sits) == PickedOn(steps, k, goes)
  {
    if k > 1 {
      var nodes: seq<Node> := OptConjuncts(steps[k - 1].on);
      var before, last := LoadedOn(steps, k - 1), LoadedLeaves(nodes, false, k - 1);
      PickedOnIsSeated(now, steps, k - 1, sits, goes);
      PickedIsSeated(now, nodes, false, k - 1, sits, AtStep(goes, k - 1));
      PlacesJoined(now, before, last);
      PlacesJoined(now, FoldedAll(before), FoldedAll(last));
      SeatedJoined(AllDestined(now, FoldedAll(before)), Placed(now, nodes, false, k - 1), sits);
    }
  }

  /** The list the passes leave, seat by seat. */
  lemma {:induction false} FinalSeated(steps: seq<Step>, where: Option<Node>, derived: seq<Conjunct>, now: seq<Step>, sits: Sitting, goes: Going, goesOn: StepGoing)
    requires forall n <- OptConjuncts(where) :: SitsRight(now, n, true, 0, sits, goes)
    requires forall j: nat :: j < |steps| ==> forall n <- OptConjuncts(steps[j].on) :: SitsRight(now, n, false, j, sits, AtStep(goesOn, j))
    ensures Seated(AllDestined(now, FoldedList(steps, where) + derived), sits) ==
            Picked(OptConjuncts(where), goes) + PickedOn(steps, |steps|, goesOn) + Seated(AllDestined(now, derived), sits)
  {
    var first, on := LoadedLeaves(OptConjuncts(where), true, 0), LoadedOn(steps, |steps|);
    PickedIsSeated(now, OptConjuncts(where), true, 0, sits, goes);
    PickedOnIsSeated(now, steps, |steps|, sits, goesOn);
    PlacesJoined(now, first, on);
    PlacesJoined(now, FoldedAll(first), FoldedAll(on));
    PlacesJoined(now, FoldedList(steps, where), derived);
    SeatedJoined(Placed(now, OptConjuncts(where), true, 0), AllDestined(now, FoldedAll(on)), sits);
    SeatedJoined(AllDestined(now, FoldedList(steps, where)), AllDestined(now, derived), sits);
  }

  // ---- The conversion ----

  lemma {:induction false} ConvertedStays(w: World, steps: seq<Step>, where: Option<Node>, derived: seq<Conjunct>, k: nat)
    requires Query(w, steps, where) && k < |steps|
    requires forall d <- derived :: !d.unresolved && forall r <- d.mask :: !NullSupplying(steps, r)
    ensures var now := Converted(steps, FoldedList(steps, where) + derived);
            (NullSupplying(now, k) <==> StaysLeft(steps, where, k)) && now[k].kind == steps[k].kind
  {
    var folded := FoldedList(steps, where);
    var cs := folded + derived;
    FoldedShape(steps, where);
    if k > 0 && steps[k].nullSupplying {
      if c :| c in cs && RejectedBy(c, k) {
        if c in folded {
          assert IsWhereConjunct(c, where);
        } else {
          assert c in derived && NullSupplying(steps, k);
        }
      }
      if n :| n in OptConjuncts(where) && !Unresolved(n) && k in Refs(n) && RejectsNull(n, k) {
        var c :| c in folded && c.node == n && IsWhereConjunct(c, where);
        assert c in cs && RejectedBy(c, k);
      }
    }
  }

  lemma {:induction false} BlockedIff(steps: seq<Step>, where: Option<Node>, now: seq<Step>, refs: set<nat>)
    requires |now| == |steps| && forall k: nat :: k < |steps| ==> (NullSupplying(now, k) <==> StaysLeft(steps, where, k))
    ensures IsBlocked(now, refs) <==> exists h: nat :: IsLast(refs, h) && StaysLeft(steps, where, h)
  {
    if h: nat :| h > 0 && IsLast(refs, h) && NullSupplying(now, h) {
      assert StaysLeft(steps, where, h);
    }
    if h: nat :| IsLast(refs, h) && StaysLeft(steps, where, h) {
      assert NullSupplying(now, h);
    }
  }

  /** The conversion as the query says it. */
  ghost predicate IsConverted(steps: seq<Step>, where: Option<Node>, now: seq<Step>) {
    && |now| == |steps| <= OPT_MAX_RELATIONS
    && forall k: nat :: k < |steps| ==> (NullSupplying(now, k) <==> StaysLeft(steps, where, k)) && now[k].kind == steps[k].kind
  }

  lemma {:induction false} LastIsOne(mask: set<nat>, a: nat, b: nat)
    requires IsLast(mask, a) && IsLast(mask, b)
    ensures a == b
  {
  }

  lemma {:induction false} WhereSits(steps: seq<Step>, where: Option<Node>, now: seq<Step>, n: Node, to: Destination, r: nat)
    requires IsConverted(steps, where, now) && !to.Dropped? && (forall s <- Refs(n) :: s < |steps|) && (to.Residual? ==> r == 0)
    ensures SitsRight(now, n, true, 0, SitsAt(to, r), WhereGoing(steps, where, to, r))
  {
    var c := Folded(LoadedOne(n, true, 0));
    var d := Destined(now, c);
    DestinedHasItsPlace(now, c);
    BlockedIff(steps, where, now, Refs(n));
    if FoldComparison(n) != Some(true) && !d.destination.Residual? {
      assert IsLast(Refs(n), d.target);
      assert NullSupplying(now, d.target) <==> StaysLeft(steps, where, d.target);
      if !to.Residual? && WhereTo(steps, where, n, to, r) {
        LastIsOne(Refs(n), d.target, r);
      }
    }
  }

  lemma {:induction false} CanFilterIff(steps: seq<Step>, where: Option<Node>, now: seq<Step>, k: nat, n: Node)
    requires IsConverted(steps, where, now) && k < |steps|
    ensures forall s: nat :: OnCanFilter(now, Folded(LoadedOne(n, false, k)), s) <==> OnFilters(steps, where, k, n, s)
  {
    forall s: nat
      ensures OnCanFilter(now, Folded(LoadedOne(n, false, k)), s) <==> OnFilters(steps, where, k, n, s)
    {
      if s < k {
        assert NullSupplying(now, s) <==> StaysLeft(steps, where, s);
        assert now[k].kind == steps[k].kind;
      }
    }
  }

  lemma {:induction false} OnSits(steps: seq<Step>, where: Option<Node>, now: seq<Step>, k: nat, n: Node, r: nat)
    requires IsConverted(steps, where, now) && k < |steps| && forall s <- Refs(n) :: s <= k
    ensures SitsRight(now, n, false, k, SitsAt(Filter, r), AtStep(OnGoing(steps, where, Filter, r), k))
  {
    var c := Folded(LoadedOne(n, false, k));
    DestinedHasItsPlace(now, c);
    CanFilterIff(steps, where, now, k, n);
    if OnFilters(steps, where, k, n, r) && FoldComparison(n) != Some(true) {
      OneFilterPlace(steps, where, k, n, r, Destined(now, c).target);
    }
  }

  lemma {:induction false} OneFilterPlace(steps: seq<Step>, where: Option<Node>, k: nat, n: Node, a: nat, b: nat)
    requires OnFilters(steps, where, k, n, a) && OnFilters(steps, where, k, n, b)
    ensures a == b
  {
    if a < k {
      assert a in Refs(n);
    }
    if b < k {
      assert b in Refs(n);
    }
  }

  // ---- The joins ----

  lemma {:induction false} TestedIff(order: seq<nat>, g: nat, n: nat, refs: set<nat>, r: nat, s: nat, position: nat)
    requires IsGroupOrder(order, g, n) && r < n && (r < g ==> s in refs && s < g)
    ensures TestedAt(order, g, refs, r, position) <==> position == if r >= g then r else LastPosition(refs, order, g)
  {
    if r < g {
      var i := PositionOf(order, g, n, s);
      LastPositionIs(refs, order, g, i);
    }
  }

  lemma {:induction false} WhereSitsOn(steps: seq<Step>, where: Option<Node>, now: seq<Step>, n: Node, order: seq<nat>, g: nat, position: nat)
    requires IsConverted(steps, where, now) && IsGroupOrder(order, g, |steps|) && forall s <- Refs(n) :: s < |steps|
    ensures SitsRight(now, n, true, 0, SitsOn(order, g, position), WhereTested(steps, where, order, g, position))
  {
    var c := Folded(LoadedOne(n, true, 0));
    var d := Destined(now, c);
    var t := d.target;
    WhereSits(steps, where, now, n, OnClause, t);
    assert SitsRight(now, n, true, 0, SitsAt(OnClause, t), WhereGoing(steps, where, OnClause, t));
    if d.destination.OnClause? && FoldComparison(n) != Some(true) {
      TestedIff(order, g, |steps|, Refs(n), t, t, position);
    }
    if r: nat :| WhereTo(steps, where, n, OnClause, r) && TestedAt(order, g, Refs(n), r, position) {
      WhereSits(steps, where, now, n, OnClause, r);
      assert SitsRight(now, n, true, 0, SitsAt(OnClause, r), WhereGoing(steps, where, OnClause, r));
    }
  }

  /** An ON leaf that stays at its step inside the group reads a relation of it. */
  ghost predicate GroupReads(steps: seq<Step>, where: Option<Node>, g: nat) {
    forall k: nat, n ::
      (k < g && k < |steps| && n in OptConjuncts(steps[k].on) && OnTo(steps, where, k, n, OnClause, k) && FoldComparison(n) != Some(true)) ==>
        Refs(n) != {}
  }

  lemma {:induction false} OnSitsOn(steps: seq<Step>, where: Option<Node>, now: seq<Step>, k: nat, n: Node, order: seq<nat>, g: nat, position: nat)
    requires IsConverted(steps, where, now) && IsGroupOrder(order, g, |steps|) && GroupReads(steps, where, g)
    requires k < |steps| && n in OptConjuncts(steps[k].on) && forall s <- Refs(n) :: s <= k
    ensures SitsRight(now, n, false, k, SitsOn(order, g, position), AtStep(OnTested(steps, where, order, g, position), k))
  {
    var c := Folded(LoadedOne(n, false, k));
    var d := Destined(now, c);
    DestinedHasItsPlace(now, c);
    if d.destination.Filter? {
      OnSits(steps, where, now, k, n, d.target);
      assert SitsRight(now, n, false, k, SitsAt(Filter, d.target), AtStep(OnGoing(steps, where, Filter, d.target), k));
    } else if FoldComparison(n) != Some(true) {
      assert d.destination.OnClause? && d.target == k;
      CanFilterIff(steps, where, now, k, n);
      assert OnTo(steps, where, k, n, OnClause, k);
      if k < g {
        var s :| s in Refs(n);
        TestedIff(order, g, |steps|, Refs(n), k, s, position);
      } else {
        TestedIff(order, g, |steps|, Refs(n), k, k, position);
      }
    }
  }

  // ---- The derived conjuncts ----

  /** A derived conjunct is a filter of the relation it reads, which keeps its rows. */
  ghost predicate AreFilters(steps: seq<Step>, derived: seq<Conjunct>) {
    forall d <- derived ::
      d.fromWhere && !d.unresolved && d.destination.Residual? && exists r: nat :: r < |steps| && d.mask == {r} && !NullSupplying(steps, r)
  }

  lemma {:induction false} DerivedSeat(steps: seq<Step>, now: seq<Step>, d: Conjunct, r: nat)
    requires |now| == |steps| <= OPT_MAX_RELATIONS && AreFilters(steps, [d])
    requires forall k: nat :: NullSupplying(now, k) ==> NullSupplying(steps, k)
    ensures Destined(now, d).destination.Filter? && (SitsAt(Filter, r)(Destined(now, d)) <==> d.mask == {r})
  {
    assert d in [d];
    var x: nat :| x < |steps| && d.mask == {x} && !NullSupplying(steps, x);
    DestinedHasItsPlace(now, d);
    BlockedByLast(now, d.mask, x);
    assert forall h: nat :: IsLast(d.mask, h) ==> h == x;
  }

  lemma {:induction false} DerivedSeated(steps: seq<Step>, now: seq<Step>, derived: seq<Conjunct>, r: nat, elsewhere: Sitting)
    requires |now| == |steps| <= OPT_MAX_RELATIONS && AreFilters(steps, derived)
    requires forall k: nat :: NullSupplying(now, k) ==> NullSupplying(steps, k)
    requires forall c: Conjunct :: elsewhere(c) ==> !c.destination.Filter?
    ensures Seated(AllDestined(now, derived), SitsAt(Filter, r)) == DerivedFor(derived, r)
    ensures Seated(AllDestined(now, derived), elsewhere) == []
  {
    if derived != [] {
      var d := derived[0];
      assert AllDestined(now, derived)[1..] == AllDestined(now, derived[1..]);
      assert AreFilters(steps, [d]) && AreFilters(steps, derived[1..]);
      DerivedSeat(steps, now, d, r);
      DerivedSeated(steps, now, derived[1..], r, elsewhere);
    }
  }

  // ---- The whole plan ----

  lemma {:induction false} DerivedAreFilters(w: World, types: Schema, steps: seq<Step>, where: Option<Node>, derived: seq<Conjunct>)
    requires Typed(w, types) && Query(w, steps, where) && AllDerived(types, steps, where, derived)
    ensures AreFilters(steps, derived)
  {
    forall d | d in derived
      ensures d.fromWhere && !d.unresolved && d.destination.Residual? && exists r: nat :: r < |steps| && d.mask == {r} && !NullSupplying(steps, r)
    {
      DerivedIsAdded(w, types, steps, where, d);
    }
  }

  lemma {:induction false} AllowedReads(steps: seq<Step>, where: Option<Node>, derived: seq<Conjunct>, now: seq<Step>, g: nat)
    requires IsConverted(steps, where, now)
    requires forall k: nat :: k < |steps| ==> forall n <- OptConjuncts(steps[k].on) :: forall s <- Refs(n) :: s <= k
    requires steps != [] && steps[0].on == None
    requires AllowsReorder(AllDestined(now, FoldedList(steps, where) + derived), g)
    ensures GroupReads(steps, where, g)
  {
    var cs := FoldedList(steps, where) + derived;
    forall k: nat, n | k < g && k < |steps| && n in OptConjuncts(steps[k].on) && OnTo(steps, where, k, n, OnClause, k) && FoldComparison(n) != Some(true)
      ensures Refs(n) != {}
    {
      var c := OnLeafIsLoaded(steps, where, k, n);
      var i :| 0 <= i < |FoldedList(steps, where)| && FoldedList(steps, where)[i] == c;
      assert cs[i] == c && AllDestined(now, cs)[i] == Destined(now, c);
      DestinedHasItsPlace(now, c);
      CanFilterIff(steps, where, now, k, n);
      assert |c.mask| >= 2;
    }
  }

  lemma {:induction false} OnLeafIsLoaded(steps: seq<Step>, where: Option<Node>, k: nat, n: Node) returns (c: Conjunct)
    requires 1 <= k < |steps| && n in OptConjuncts(steps[k].on) && FoldComparison(n) != Some(true)
    ensures c in FoldedList(steps, where) && c == LoadedOne(n, false, k)
  {
    LoadedShape(steps, where);
    var b :| b in Loaded(steps, where) && b.node == n && b.step == k && !b.fromWhere;
    FoldedMember(steps, where, b);
    c := b;
    LoadedTarget(steps, where, b);
  }

  lemma {:induction false} LoadedTarget(steps: seq<Step>, where: Option<Node>, b: Conjunct)
    requires b in Loaded(steps, where)
    ensures b.target == 0
  {
    LoadedOnTarget(steps, |steps|);
  }

  lemma {:induction false} LoadedOnTarget(steps: seq<Step>, k: nat)
    requires k <= |steps|
    ensures forall c <- LoadedOn(steps, k) :: c.target == 0
  {
    if k > 1 {
      LoadedOnTarget(steps, k - 1);
    }
  }

  /** What the passes leave, as the query says it. */
  ghost predicate IsSettled(steps: seq<Step>, where: Option<Node>, derived: seq<Conjunct>, now: seq<Step>) {
    && IsConverted(steps, where, now) && AreFilters(steps, derived) && steps != []
    && (forall k: nat :: NullSupplying(now, k) ==> NullSupplying(steps, k))
    && (forall n <- OptConjuncts(where) :: forall s <- Refs(n) :: s < |steps|)
    && (forall k: nat :: k < |steps| ==> forall n <- OptConjuncts(steps[k].on) :: forall s <- Refs(n) :: s <= k)
  }

  lemma {:induction false} Settled(w: World, types: Schema, steps: seq<Step>, where: Option<Node>, derived: seq<Conjunct>)
    requires Typed(w, types) && Query(w, steps, where) && AllDerived(types, steps, where, derived)
    ensures IsSettled(steps, where, derived, Converted(steps, FoldedList(steps, where) + derived))
  {
    var now := Converted(steps, FoldedList(steps, where) + derived);
    DerivedAreFilters(w, types, steps, where, derived);
    forall k: nat | k < |steps|
      ensures (NullSupplying(now, k) <==> StaysLeft(steps, where, k)) && now[k].kind == steps[k].kind
    {
      ConvertedStays(w, steps, where, derived, k);
    }
  }

  lemma {:induction false} ImpossibleSeated(now: seq<Step>, cs: seq<Conjunct>, empty: bool, sits: Sitting)
    ensures Seated(AllDestined(now, cs) + (if empty then [IMPOSSIBLE] else []), sits) ==
            Seated(AllDestined(now, cs), sits) + (if empty && sits(IMPOSSIBLE) then [IMPOSSIBLE.node] else [])
  {
    SeatedJoined(AllDestined(now, cs), if empty then [IMPOSSIBLE] else [], sits);
    assert Seated([IMPOSSIBLE][1..], sits) == [];
  }

  lemma {:induction false} FiltersAre(steps: seq<Step>, where: Option<Node>, derived: seq<Conjunct>, now: seq<Step>, empty: bool, r: nat)
    requires IsSettled(steps, where, derived, now)
    ensures NodesFor(AllDestined(now, FoldedList(steps, where) + derived) + (if empty then [IMPOSSIBLE] else []), Filter, r) ==
            Picked(OptConjuncts(where), WhereGoing(steps, where, Filter, r)) + PickedOn(steps, |steps|, OnGoing(steps, where, Filter, r))
            + DerivedFor(derived, r) + (if empty && r == 0 then [IMPOSSIBLE.node] else [])
  {
    var cs := FoldedList(steps, where) + derived;
    forall n | n in OptConjuncts(where)
      ensures SitsRight(now, n, true, 0, SitsAt(Filter, r), WhereGoing(steps, where, Filter, r))
    {
      WhereSits(steps, where, now, n, Filter, r);
    }
    forall j: nat, n | j < |steps| && n in OptConjuncts(steps[j].on)
      ensures SitsRight(now, n, false, j, SitsAt(Filter, r), AtStep(OnGoing(steps, where, Filter, r), j))
    {
      OnSits(steps, where, now, j, n, r);
    }
    FinalSeated(steps, where, derived, now, SitsAt(Filter, r), WhereGoing(steps, where, Filter, r), OnGoing(steps, where, Filter, r));
    DerivedSeated(steps, now, derived, r, SitsAt(Residual, 0));
    ImpossibleSeated(now, cs, empty, SitsAt(Filter, r));
    NodesForSeated(AllDestined(now, cs) + (if empty then [IMPOSSIBLE] else []), Filter, r);
  }

  lemma {:induction false} ResidualIs(steps: seq<Step>, where: Option<Node>, derived: seq<Conjunct>, now: seq<Step>, empty: bool)
    requires IsSettled(steps, where, derived, now)
    ensures NodesFor(AllDestined(now, FoldedList(steps, where) + derived) + (if empty then [IMPOSSIBLE] else []), Residual, 0) ==
            Picked(OptConjuncts(where), WhereGoing(steps, where, Residual, 0))
  {
    var cs, none := FoldedList(steps, where) + derived, OnGoing(steps, where, Residual, 0);
    forall n | n in OptConjuncts(where)
      ensures SitsRight(now, n, true, 0, SitsAt(Residual, 0), WhereGoing(steps, where, Residual, 0))
    {
      WhereSits(steps, where, now, n, Residual, 0);
    }
    forall j: nat, n | j < |steps| && n in OptConjuncts(steps[j].on)
      ensures SitsRight(now, n, false, j, SitsAt(Residual, 0), AtStep(none, j))
    {
      DestinedHasItsPlace(now, Folded(LoadedOne(n, false, j)));
    }
    FinalSeated(steps, where, derived, now, SitsAt(Residual, 0), WhereGoing(steps, where, Residual, 0), none);
    NothingPicked(steps, |steps|, none);
    DerivedSeated(steps, now, derived, 0, SitsAt(Residual, 0));
    ImpossibleSeated(now, cs, empty, SitsAt(Residual, 0));
    NodesForSeated(AllDestined(now, cs) + (if empty then [IMPOSSIBLE] else []), Residual, 0);
  }

  lemma {:induction false} NothingPickedOf(nodes: seq<Node>, goes: Going)
    requires forall n :: !goes(n)
    ensures Picked(nodes, goes) == []
  {
    if nodes != [] {
      NothingPickedOf(nodes[1..], goes);
    }
  }

  lemma {:induction false} NothingPicked(steps: seq<Step>, k: nat, goes: StepGoing)
    requires k <= |steps| && forall j: nat, n :: !goes(j, n)
    ensures PickedOn(steps, k, goes) == []
  {
    if k > 1 {
      NothingPicked(steps, k - 1, goes);
      NothingPickedOf(OptConjuncts(steps[k - 1].on), AtStep(goes, k - 1));
    }
  }

  lemma {:induction false} JoinsAre(steps: seq<Step>, where: Option<Node>, derived: seq<Conjunct>, now: seq<Step>, empty: bool, order: seq<nat>, g: nat, k: nat)
    requires IsSettled(steps, where, derived, now) && IsGroupOrder(order, g, |steps|) && GroupReads(steps, where, g)
    ensures NodesAtPosition(AllDestined(now, FoldedList(steps, where) + derived) + (if empty then [IMPOSSIBLE] else []), order, g, k) ==
            Picked(OptConjuncts(where), WhereTested(steps, where, order, g, k)) + PickedOn(steps, |steps|, OnTested(steps, where, order, g, k))
  {
    var cs, sits := FoldedList(steps, where) + derived, SitsOn(order, g, k);
    forall n | n in OptConjuncts(where)
      ensures SitsRight(now, n, true, 0, sits, WhereTested(steps, where, order, g, k))
    {
      WhereSitsOn(steps, where, now, n, order, g, k);
    }
    forall j: nat, n | j < |steps| && n in OptConjuncts(steps[j].on)
      ensures SitsRight(now, n, false, j, sits, AtStep(OnTested(steps, where, order, g, k), j))
    {
      OnSitsOn(steps, where, now, j, n, order, g, k);
    }
    FinalSeated(steps, where, derived, now, sits, WhereTested(steps, where, order, g, k), OnTested(steps, where, order, g, k));
    DerivedSeated(steps, now, derived, 0, sits);
    ImpossibleSeated(now, cs, empty, sits);
    PositionSeated(AllDestined(now, cs) + (if empty then [IMPOSSIBLE] else []), order, g, k);
  }

  lemma {:induction false} StageIsPushed(steps: seq<Step>, where: Option<Node>, derived: seq<Conjunct>, now: seq<Step>, empty: bool, edges: seq<JoinSearch.Edge>, order: seq<nat>, g: nat, k: nat)
    requires IsSettled(steps, where, derived, now) && IsGroupOrder(order, g, |steps|) && GroupReads(steps, where, g) && k < |steps|
    ensures var final := AllDestined(now, FoldedList(steps, where) + derived) + (if empty then [IMPOSSIBLE] else []);
            IsPushedStage(steps, where, derived, empty, edges, order, g, k, OrderedStage(now, final, edges, order, g, k))
  {
    hide Picked, PickedOn, DerivedFor, NodesFor, NodesAtPosition, StaysLeft, FoldedList, GroupReads, WhereTo, OnTo, TestedAt, JoinEquality;
    FiltersAre(steps, where, derived, now, empty, order[k]);
    JoinsAre(steps, where, derived, now, empty, order, g, k);
    assert NullSupplying(now, k) <==> StaysLeft(steps, where, k);
  }

  /** The plan of a query, for every join order. */
  lemma {:induction false} PlanIsPushedDown(w: World, types: Schema, steps: seq<Step>, where: Option<Node>, derived: seq<Conjunct>, empty: bool, edges: seq<JoinSearch.Edge>, order: seq<nat>, g: nat)
    requires Ready(w, types, steps, where, derived, empty, edges, order, g) && |steps| >= 2
    ensures var p := ReadyPipeline(steps, where, derived, empty, edges, order, g);
            ReadPlan(PlanOf(p)) == Some(p) && IsPushedDown(steps, where, derived, empty, edges, order, g, p)
  {
    var p := ReadyPipeline(steps, where, derived, empty, edges, order, g);
    ReadySettled(w, types, steps, where, derived, empty, edges, order, g);
    ReadyHasLeaves(w, types, steps, where, derived, empty, edges, order, g);
    hide Ready, IsSettled, GroupReads, HasLeaves, PlanOf, ReadPlan, IsPushedDown, IsGroupOrder;
    OrderedIsPushed(steps, where, derived, Converted(steps, FoldedList(steps, where) + derived), empty, edges, order, g);
    PlanReadsBack(p);
  }

  lemma {:induction false} ReadySettled(w: World, types: Schema, steps: seq<Step>, where: Option<Node>, derived: seq<Conjunct>, empty: bool, edges: seq<JoinSearch.Edge>, order: seq<nat>, g: nat)
    requires Ready(w, types, steps, where, derived, empty, edges, order, g)
    ensures IsSettled(steps, where, derived, Converted(steps, FoldedList(steps, where) + derived)) && IsGroupOrder(order, g, |steps|)
    ensures GroupReads(steps, where, g)
  {
    var now := Converted(steps, FoldedList(steps, where) + derived);
    Settled(w, types, steps, where, derived);
    if g > 0 {
      assert AllDestined(now, FoldedList(steps, where) + derived) + [] == AllDestined(now, FoldedList(steps, where) + derived);
      AllowedReads(steps, where, derived, now, g);
    }
  }

  lemma {:induction false} OrderedIsPushed(steps: seq<Step>, where: Option<Node>, derived: seq<Conjunct>, now: seq<Step>, empty: bool, edges: seq<JoinSearch.Edge>, order: seq<nat>, g: nat)
    requires IsSettled(steps, where, derived, now) && IsGroupOrder(order, g, |steps|) && GroupReads(steps, where, g)
    ensures var final := AllDestined(now, FoldedList(steps, where) + derived) + (if empty then [IMPOSSIBLE] else []);
            var p := Ordered(now, final, edges, order, g);
            && IsPushedDown(steps, where, derived, empty, edges, order, g, p)
            && p.stages != [] && |p.stages| == |steps| && p.stages[0].kind.Inner? && p.stages[0].on == []
  {
    var final := AllDestined(now, FoldedList(steps, where) + derived) + (if empty then [IMPOSSIBLE] else []);
    var p := Ordered(now, final, edges, order, g);
    hide IsPushedStage, GroupReads, OrderedStage, NodesFor, Picked;
    forall k | 0 <= k < |steps|
      ensures IsPushedStage(steps, where, derived, empty, edges, order, g, k, p.stages[k])
    {
      StageIsPushed(steps, where, derived, now, empty, edges, order, g, k);
    }
    FirstStage(now, final, edges, order, g);
    ResidualIs(steps, where, derived, now, empty);
  }

  lemma {:induction false} FirstStage(steps: seq<Step>, cs: seq<Conjunct>, edges: seq<JoinSearch.Edge>, order: seq<nat>, g: nat)
    requires steps != [] && g <= |order| == |steps|
    ensures OrderedStage(steps, cs, edges, order, g, 0).kind.Inner? && OrderedStage(steps, cs, edges, order, g, 0).on == []
  {
  }

  // ---- When the group can be reordered ----

  /** Every ON condition of the group that is not always true is resolved, and what was
      written as a left join tests none about a single earlier relation. */
  ghost predicate CanFollow(steps: seq<Step>, g: nat) {
    forall k: nat, n :: 1 <= k < g && k < |steps| && n in OptConjuncts(steps[k].on) && FoldComparison(n) != Some(true) ==>
      !Unresolved(n) && (steps[k].kind.Left? ==> forall r: nat :: r < k ==> Refs(n) != {r})
  }

  lemma {:induction false} FollowingIsTied(steps: seq<Step>, where: Option<Node>, now: seq<Step>, g: nat, k: nat, n: Node)
    requires IsConverted(steps, where, now) && g <= |steps| && (forall j: nat :: j < g ==> !NullSupplying(now, j))
    requires 1 <= k < g && (forall s <- Refs(n) :: s <= k) && FoldComparison(n) != Some(true)
    ensures var d := Destined(now, Folded(LoadedOne(n, false, k)));
            (!Unresolved(n) && (steps[k].kind.Left? ==> forall r: nat :: r < k ==> Refs(n) != {r}))
            <==> (d.destination.OnClause? ==> !d.unresolved && |d.mask| >= 2)
  {
    var c := Folded(LoadedOne(n, false, k));
    var d := Destined(now, c);
    DestinedHasItsPlace(now, c);
    if d.destination.OnClause? && !Unresolved(n) && |Refs(n)| < 2 {
      assert !OnCanFilter(now, c, k);
      var r :| r in Refs(n) && r != k;
      SingletonMask(Refs(n), r);
      assert !OnCanFilter(now, c, r);
    }
    if r: nat :| r < k && Refs(n) == {r} && steps[k].kind.Left? && d.destination.Filter? {
      assert OnCanFilter(now, c, d.target);
    }
  }

  lemma {:induction false} ListMayFollow(steps: seq<Step>, where: Option<Node>, derived: seq<Conjunct>, now: seq<Step>, g: nat, c: Conjunct)
    requires IsSettled(steps, where, derived, now) && g <= |steps| && (forall j: nat :: j < g ==> !NullSupplying(now, j))
    requires c in FoldedList(steps, where) + derived && CanFollow(steps, g)
    requires Destined(now, c).destination.OnClause? && Destined(now, c).target < g
    ensures !c.unresolved && |c.mask| >= 2
  {
    FoldedShape(steps, where);
    if c in FoldedList(steps, where) && !c.fromWhere {
      assert IsOnConjunct(c, steps);
      DestinedHasItsPlace(now, c);
      assert c.step < g && !c.destination.Dropped?;
      NotDroppedIsNotTrue(steps, where, c);
      FollowingIsTied(steps, where, now, g, c.step, c.node);
    }
  }

  lemma {:induction false} NotDroppedIsNotTrue(steps: seq<Step>, where: Option<Node>, c: Conjunct)
    requires c in FoldedList(steps, where) && !c.destination.Dropped? && !c.fromWhere
    ensures FoldComparison(c.node) != Some(true) && c == LoadedOne(c.node, false, c.step)
  {
    var loaded := Loaded(steps, where);
    var i :| 0 <= i < |loaded| && FoldedList(steps, where)[i] == c;
    assert loaded[i] in loaded;
    LoadedShape(steps, where);
    LoadedTarget(steps, where, loaded[i]);
  }

  lemma {:induction false} AllowsReorderIff(steps: seq<Step>, where: Option<Node>, derived: seq<Conjunct>, now: seq<Step>, g: nat)
    requires IsSettled(steps, where, derived, now) && g <= |steps| && (forall j: nat :: j < g ==> !NullSupplying(now, j))
    ensures AllowsReorder(AllDestined(now, FoldedList(steps, where) + derived), g) <==> CanFollow(steps, g)
  {
    var cs := FoldedList(steps, where) + derived;
    var final := AllDestined(now, cs);
    if CanFollow(steps, g) {
      forall i | 0 <= i < |final| && final[i].destination.OnClause? && final[i].target < g
        ensures !final[i].unresolved && |final[i].mask| >= 2
      {
        assert cs[i] in cs && final[i] == Destined(now, cs[i]);
        ListMayFollow(steps, where, derived, now, g, cs[i]);
        DestinedKeeps(now, cs[i]);
      }
    }
    if AllowsReorder(final, g) {
      forall k: nat, n | 1 <= k < g && k < |steps| && n in OptConjuncts(steps[k].on) && FoldComparison(n) != Some(true)
        ensures !Unresolved(n) && (steps[k].kind.Left? ==> forall r: nat :: r < k ==> Refs(n) != {r})
      {
        var c := OnLeafIsLoaded(steps, where, k, n);
        var i :| 0 <= i < |FoldedList(steps, where)| && FoldedList(steps, where)[i] == c;
        assert cs[i] == c && final[i] == Destined(now, c);
        FollowingIsTied(steps, where, now, g, k, n);
        DestinedHasItsPlace(now, c);
      }
    }
  }

  /** The group reaches up to the first step that stays a left join, and it may be
      reordered if and only if its written ON conditions can follow. */
  lemma {:induction false} ReorderIsAllowedIff(w: World, types: Schema, steps: seq<Step>, where: Option<Node>, derived: seq<Conjunct>)
    requires Typed(w, types) && Query(w, steps, where) && AllDerived(types, steps, where, derived)
    ensures var cs := FoldedList(steps, where) + derived;
            var now := Converted(steps, cs);
            var g := GroupSize(now, 1);
            && (forall k: nat :: 0 < k < g ==> !StaysLeft(steps, where, k)) && (g < |steps| ==> StaysLeft(steps, where, g))
            && (AllowsReorder(Final(steps, cs, false), g) <==> CanFollow(steps, g))
  {
    var cs := FoldedList(steps, where) + derived;
    var now := Converted(steps, cs);
    var g := GroupSize(now, 1);
    Settled(w, types, steps, where, derived);
    forall k: nat | k < g
      ensures !NullSupplying(now, k) && !StaysLeft(steps, where, k)
    {
      assert NullSupplying(now, k) <==> StaysLeft(steps, where, k);
    }
    assert g < |steps| ==> NullSupplying(now, g);
    AllowsReorderIff(steps, where, derived, now, g);
    assert Final(steps, cs, false) == AllDestined(now, cs);
  }
}
