/** Every conjunct that is not dropped lands in exactly one filter, ON clause or
    residual of the plan; the only other conditions are derived equalities. */
module Conservation {
  import opened Predicates
  import opened Plans
  import opened Conjuncts
  import opened Rewriting
  import opened GroupOrder
  import JoinSearch

  /** The conditions of the first k stages. */
  function StageConditions(stages: seq<Stage>, k: nat): Bag
    requires k <= |stages|
  {
    if k == 0 then multiset{}
    else StageConditions(stages, k - 1) + (multiset(stages[k - 1].filters) + multiset(stages[k - 1].on))
  }

  function AllConditions(p: Pipeline): Bag {
    StageConditions(p.stages, |p.stages|) + multiset(p.residual)
  }

  /** The nodes of the conjuncts that are not dropped. */
  function Kept(cs: seq<Conjunct>): Bag {
    if cs == [] then multiset{}
    else Kept(cs[..|cs| - 1]) + if cs[|cs| - 1].destination.Dropped? then multiset{} else multiset{cs[|cs| - 1].node}
  }

  type Bag = multiset<Node>

  function Sum(f: nat -> Bag, k: nat): Bag {
    if k == 0 then multiset{} else Sum(f, k - 1) + f(k - 1)
  }

  /** What the conjunct list puts at a position. */
  function PlacedAt(cs: seq<Conjunct>, order: seq<nat>, g: nat): nat -> Bag
    requires g <= |order|
  {
    (k: nat) =>
      if k < |order| then multiset(NodesFor(cs, Filter, order[k])) + multiset(NodesAtPosition(cs, order, g, k)) else multiset{}
  }

  /** The derived equality at a position. */
  function DerivedAt(edges: seq<JoinSearch.Edge>, order: seq<nat>, g: nat): nat -> Bag {
    (k: nat) => if 1 <= k < g && k < |order| then multiset(JoinEquality(edges, order, k)) else multiset{}
  }

  function PlacedBag(cs: seq<Conjunct>, order: seq<nat>, g: nat, k: nat): Bag
    requires g <= |order|
  {
    Sum(PlacedAt(cs, order, g), k)
  }

  /** The first k positions hold the conjunct. */
  predicate PlacedBy(c: Conjunct, order: seq<nat>, g: nat, k: nat)
    requires g <= |order| && k <= |order|
  {
    || (c.destination.Filter? && c.target in order[..k])
    || (c.destination.OnClause? && StepPosition(c, order, g) < k)
  }

  function If(there: bool, n: Node): Bag {
    if there then multiset{n} else multiset{}
  }

  lemma {:induction false} Regroup(a: Bag, b: Bag, a': Bag, b': Bag, x: Bag, y: Bag)
    requires a' == a + x && b' == b + y
    ensures a' + b' == (a + b) + (x + y)
  {
  }

  lemma {:induction false} FilterStep(c: Conjunct, cs: seq<Conjunct>, target: nat)
    ensures multiset(NodesFor(cs + [c], Filter, target)) ==
            multiset(NodesFor(cs, Filter, target))
            + If(c.destination.Filter? && c.target == target, c.node)
  {
    NodesForSplit(cs, [c], Filter, target);
    assert NodesFor([c][1..], Filter, target) == [];
  }

  lemma {:induction false} PositionStep(c: Conjunct, cs: seq<Conjunct>, order: seq<nat>, g: nat, k: nat)
    requires g <= |order|
    ensures multiset(NodesAtPosition(cs + [c], order, g, k)) ==
            multiset(NodesAtPosition(cs, order, g, k))
            + If(c.destination.OnClause? && StepPosition(c, order, g) == k, c.node)
  {
    assert (cs + [c])[..|cs|] == cs;
  }

  /** What one conjunct puts at a position. */
  function OneAt(c: Conjunct, order: seq<nat>, g: nat): nat -> Bag
    requires g <= |order|
  {
    (k: nat) =>
      if k < |order| then
        If(c.destination.Filter? && c.target == order[k], c.node) + If(c.destination.OnClause? && StepPosition(c, order, g) == k, c.node)
      else multiset{}
  }

  lemma {:induction false} PlacedAtIs(cs: seq<Conjunct>, order: seq<nat>, g: nat, k: nat)
    requires g <= |order| && k < |order|
    ensures PlacedAt(cs, order, g)(k) == multiset(NodesFor(cs, Filter, order[k])) + multiset(NodesAtPosition(cs, order, g, k))
  {
  }

  lemma {:induction false} OneAtIs(c: Conjunct, order: seq<nat>, g: nat, k: nat)
    requires g <= |order| && k < |order|
    ensures OneAt(c, order, g)(k) ==
            If(c.destination.Filter? && c.target == order[k], c.node) + If(c.destination.OnClause? && StepPosition(c, order, g) == k, c.node)
  {
  }

  lemma {:induction false} PlacedAtStep(c: Conjunct, cs: seq<Conjunct>, order: seq<nat>, g: nat, k: nat)
    requires g <= |order| && k < |order|
    ensures PlacedAt(cs + [c], order, g)(k) == PlacedAt(cs, order, g)(k) + OneAt(c, order, g)(k)
  {
    FilterStep(c, cs, order[k]);
    PositionStep(c, cs, order, g, k);
    PlacedAtIs(cs, order, g, k);
    PlacedAtIs(cs + [c], order, g, k);
    OneAtIs(c, order, g, k);
    Regroup(multiset(NodesFor(cs, Filter, order[k])), multiset(NodesAtPosition(cs, order, g, k)),
            multiset(NodesFor(cs + [c], Filter, order[k])), multiset(NodesAtPosition(cs + [c], order, g, k)),
            If(c.destination.Filter? && c.target == order[k], c.node),
            If(c.destination.OnClause? && StepPosition(c, order, g) == k, c.node));
  }

  lemma {:induction false} SumOfSums(f: nat -> Bag, g: nat -> Bag, h: nat -> Bag, k: nat)
    requires forall i: nat :: i < k ==> h(i) == f(i) + g(i)
    ensures Sum(h, k) == Sum(f, k) + Sum(g, k)
  {
    if k > 0 {
      SumOfSums(f, g, h, k - 1);
    }
  }

  /** A conjunct is put at one position at most. */
  lemma {:induction false} OneAtMostOnce(c: Conjunct, order: seq<nat>, g: nat, k: nat)
    requires g <= |order| && k <= |order| && JoinSearch.Distinct(order)
    ensures Sum(OneAt(c, order, g), k) == If(PlacedBy(c, order, g, k), c.node)
  {
    if k > 0 {
      var i: nat := k - 1;
      OneAtMostOnce(c, order, g, i);
      OneAtIs(c, order, g, i);
      PlacedOnceMore(c, order, g, k);
      IfEither(PlacedBy(c, order, g, i), c.destination.Filter? && c.target == order[i],
               c.destination.OnClause? && StepPosition(c, order, g) == i, c.node);
    }
  }

  lemma {:induction false} PlacedOnceMore(c: Conjunct, order: seq<nat>, g: nat, k: nat)
    requires g <= |order| && 0 < k <= |order| && JoinSearch.Distinct(order)
    ensures var filter, on := c.destination.Filter? && c.target == order[k - 1], c.destination.OnClause? && StepPosition(c, order, g) == k - 1;
            && (PlacedBy(c, order, g, k) <==> PlacedBy(c, order, g, k - 1) || filter || on)
            && !(filter && on) && !(PlacedBy(c, order, g, k - 1) && (filter || on))
  {
    assert order[..k] == order[..k - 1] + [order[k - 1]];
    assert c.target in order[..k] <==> c.target in order[..k - 1] || c.target == order[k - 1];
    assert c.target in order[..k - 1] ==> c.target != order[k - 1];
  }

  lemma {:induction false} IfEither(a: bool, b: bool, c: bool, n: Node)
    requires !(b && c) && !(a && (b || c))
    ensures If(a, n) + (If(b, n) + If(c, n)) == If(a || b || c, n)
  {
  }

  /** One more conjunct adds its node at most once. */
  lemma {:induction false} PlacedStep(c: Conjunct, cs: seq<Conjunct>, order: seq<nat>, g: nat)
    requires g <= |order| && JoinSearch.Distinct(order)
    ensures PlacedBag(cs + [c], order, g, |order|) == PlacedBag(cs, order, g, |order|) + If(PlacedBy(c, order, g, |order|), c.node)
  {
    forall k: nat | k < |order|
      ensures PlacedAt(cs + [c], order, g)(k) == PlacedAt(cs, order, g)(k) + OneAt(c, order, g)(k)
    {
      PlacedAtStep(c, cs, order, g, k);
    }
    SumOfSums(PlacedAt(cs, order, g), OneAt(c, order, g), PlacedAt(cs + [c], order, g), |order|);
    OneAtMostOnce(c, order, g, |order|);
  }

  lemma {:induction false} NothingPlaced(order: seq<nat>, g: nat, k: nat)
    requires g <= |order| && k <= |order|
    ensures PlacedBag([], order, g, k) == multiset{}
  {
    if k > 0 {
      NothingPlaced(order, g, k - 1);
    }
  }

  lemma {:induction false} ResidualStep(c: Conjunct, cs: seq<Conjunct>)
    ensures multiset(NodesFor(cs + [c], Residual, 0)) ==
            multiset(NodesFor(cs, Residual, 0)) + If(c.destination.Residual?, c.node)
  {
    NodesForSplit(cs, [c], Residual, 0);
    assert NodesFor([c][1..], Residual, 0) == [];
  }

  /** Every destination names a step of the query. */
  ghost predicate HasPlaces(cs: seq<Conjunct>, order: seq<nat>, g: nat)
    requires g <= |order|
  {
    forall i :: 0 <= i < |cs| && (cs[i].destination.Filter? || cs[i].destination.OnClause?) ==> PlacedBy(cs[i], order, g, |order|)
  }

  lemma {:induction false} PlacedAndResidual(cs: seq<Conjunct>, order: seq<nat>, g: nat)
    requires g <= |order| && JoinSearch.Distinct(order) && HasPlaces(cs, order, g)
    ensures PlacedBag(cs, order, g, |order|) + multiset(NodesFor(cs, Residual, 0)) == Kept(cs)
  {
    if cs == [] {
      NothingPlaced(order, g, |order|);
    } else {
      hide PlacedBag, NodesFor, PlacedBy, Kept, If, HasPlaces;
      var init, c := cs[..|cs| - 1], cs[|cs| - 1];
      assert cs == init + [c];
      PlacesSplit(init, c, order, g);
      PlacedAndResidual(init, order, g);
      PlacedStep(c, init, order, g);
      ResidualStep(c, init);
      Regroup(PlacedBag(init, order, g, |order|), multiset(NodesFor(init, Residual, 0)),
              PlacedBag(cs, order, g, |order|), multiset(NodesFor(cs, Residual, 0)),
              If(PlacedBy(c, order, g, |order|), c.node), If(c.destination.Residual?, c.node));
      KeptStep(init, c);
    }
  }

  /** A conjunct that is kept is placed or residual, and not both. */
  lemma {:induction false} PlacesSplit(cs: seq<Conjunct>, c: Conjunct, order: seq<nat>, g: nat)
    requires g <= |order| && HasPlaces(cs + [c], order, g)
    ensures HasPlaces(cs, order, g)
    ensures If(PlacedBy(c, order, g, |order|), c.node) + If(c.destination.Residual?, c.node) == If(!c.destination.Dropped?, c.node)
  {
    var all := cs + [c];
    assert forall i :: 0 <= i < |cs| ==> all[i] == cs[i];
    assert all[|cs|] == c;
  }

  lemma {:induction false} KeptStep(cs: seq<Conjunct>, c: Conjunct)
    ensures Kept(cs + [c]) == Kept(cs) + If(!c.destination.Dropped?, c.node)
  {
    assert (cs + [c])[..|cs|] == cs;
  }

  lemma {:induction false} StagesSum(stages: seq<Stage>, f: nat -> Bag, d: nat -> Bag, k: nat)
    requires k <= |stages|
    requires forall i: nat :: i < |stages| ==> multiset(stages[i].filters) + multiset(stages[i].on) == f(i) + d(i)
    ensures StageConditions(stages, k) == Sum(f, k) + Sum(d, k)
  {
    if k > 0 {
      var i: nat := k - 1;
      StagesSum(stages, f, d, i);
      assert multiset(stages[i].filters) + multiset(stages[i].on) == f(i) + d(i);
      Regroup(Sum(f, i), Sum(d, i), Sum(f, k), Sum(d, k), f(i), d(i));
    }
  }

  lemma {:induction false} StageHolds(steps: seq<Step>, cs: seq<Conjunct>, edges: seq<JoinSearch.Edge>, order: seq<nat>, g: nat, k: nat)
    requires g <= |order| == |steps| && k < |steps| && NodesAtPosition(cs, order, g, 0) == []
    ensures var s := OrderedStages(steps, cs, edges, order, g)[k];
            multiset(s.filters) + multiset(s.on) == PlacedAt(cs, order, g)(k) + DerivedAt(edges, order, g)(k)
  {
    assert OrderedStages(steps, cs, edges, order, g)[k] == OrderedStage(steps, cs, edges, order, g, k);
  }

  /** The ON condition of a final conjunct joins a step after the first. */
  lemma {:induction false} NoneAtTheBase(cs: seq<Conjunct>, order: seq<nat>, g: nat)
    requires g <= |order|
    requires forall i :: 0 <= i < |cs| && cs[i].destination.OnClause? ==> StepPosition(cs[i], order, g) > 0
    ensures NodesAtPosition(cs, order, g, 0) == []
  {
    if cs != [] {
      var init := cs[..|cs| - 1];
      assert forall i :: 0 <= i < |init| ==> init[i] == cs[i];
      NoneAtTheBase(init, order, g);
    }
  }

  /** Conservation, for the plan of any order of the group. */
  lemma {:induction false} EveryConjunctLandsOnce(steps: seq<Step>, cs: seq<Conjunct>, edges: seq<JoinSearch.Edge>, order: seq<nat>, g: nat)
    requires g <= |order| == |steps| && JoinSearch.Distinct(order) && HasPlaces(cs, order, g)
    requires forall i :: 0 <= i < |cs| && cs[i].destination.OnClause? ==> StepPosition(cs[i], order, g) > 0
    ensures AllConditions(Ordered(steps, cs, edges, order, g)) == Kept(cs) + Sum(DerivedAt(edges, order, g), |order|)
  {
    NoneAtTheBase(cs, order, g);
    PlacedAndResidual(cs, order, g);
    var stages := OrderedStages(steps, cs, edges, order, g);
    forall k: nat | k < |steps|
      ensures multiset(stages[k].filters) + multiset(stages[k].on) == PlacedAt(cs, order, g)(k) + DerivedAt(edges, order, g)(k)
    {
      StageHolds(steps, cs, edges, order, g, k);
    }
    StagesSum(stages, PlacedAt(cs, order, g), DerivedAt(edges, order, g), |order|);
  }

  lemma {:induction false} GroupOrderDistinct(order: seq<nat>, g: nat)
    requires IsGroupOrder(order, g, |order|)
    ensures JoinSearch.Distinct(order)
    ensures forall r: nat :: r < |order| ==> r in order
  {
    assert forall i :: 0 <= i < g ==> order[..g][i] == order[i];
    forall i, j | 0 <= i < j < |order|
      ensures order[i] != order[j]
    {
      if j < g {
        assert order[..g][i] != order[..g][j];
      } else if i < g {
        assert order[..g][i] < g;
      }
    }
    forall r: nat | r < |order|
      ensures r in order
    {
      if r < g {
        var i := PositionOf(order, g, |order|, r);
      } else {
        assert order[r] == r;
      }
    }
  }

  /** Every conjunct of a sound rewrite has a place, in the written order and in
      every order of the group that the guard allows. */
  lemma {:induction false} FinalHasPlaces(w: World, steps: seq<Step>, where: Option<Node>, cs: seq<Conjunct>, alwaysEmpty: bool, order: seq<nat>, g: nat)
    requires Setup(w, steps, where, cs, alwaysEmpty) && IsGroupOrder(order, g, |steps|)
    requires AllowsReorder(Final(steps, cs, alwaysEmpty), g)
    requires g > 0 ==> forall c <- Final(steps, cs, alwaysEmpty) :: c.destination.OnClause? ==> forall r <- c.mask :: r <= c.target
    ensures HasPlaces(Final(steps, cs, alwaysEmpty), order, g)
    ensures var final := Final(steps, cs, alwaysEmpty);
            forall i :: 0 <= i < |final| && final[i].destination.OnClause? ==> StepPosition(final[i], order, g) > 0
  {
    var final := Final(steps, cs, alwaysEmpty);
    GroupOrderDistinct(order, g);
    assert order[..|order|] == order;
    forall i | 0 <= i < |final| && (final[i].destination.Filter? || final[i].destination.OnClause?)
      ensures PlacedBy(final[i], order, g, |order|)
      ensures final[i].destination.OnClause? ==> StepPosition(final[i], order, g) > 0
    {
      assert final[i] in final;
      FinalIsSound(w, steps, where, cs, alwaysEmpty, final[i]);
      if final[i].destination.OnClause? && final[i].target < g {
        OnStep(final, order, g, |steps|, final[i]);
      }
    }
  }

  lemma {:induction false} OnStep(cs: seq<Conjunct>, order: seq<nat>, g: nat, n: nat, c: Conjunct)
    requires IsGroupOrder(order, g, n) && AllowsReorder(cs, g) && c in cs
    requires c.destination.OnClause? && c.target < g && forall r <- c.mask :: r <= c.target
    ensures 0 < StepPosition(c, order, g) < g
  {
    CanReorder(cs, g, c);
    assert c.mask != {};
    var r0 :| r0 in c.mask;
    var i0 := PositionOf(order, g, n, r0);
    LastPositionIs(c.mask, order, g, i0);
    if StepPosition(c, order, g) == 0 {
      forall r | r in c.mask
        ensures r == order[0]
      {
        var i := PositionOf(order, g, n, r);
      }
    }
    OneAtMost(c.mask, order[0]);
  }
}
