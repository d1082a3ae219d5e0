/** The rewritten FROM and WHERE returns the rows of the query as written. */
module Rewriting {
  import opened Predicates
  import opened Plans
  import opened Refinement
  import opened Conjuncts

  /** A flattened query over the tables of w. A condition of WHERE reads relations
      of the query, an ON condition of step k reads relations up to k. */
  ghost predicate Query(w: World, steps: seq<Step>, where: Option<Node>) {
    && 1 <= |steps| <= OPT_MAX_RELATIONS && |steps| == |w.tables|
    && steps[0] == BASE_STEP
    && CrossHasNoCondition(steps)
    && (forall k :: 0 <= k < |steps| ==> (steps[k].nullSupplying <==> steps[k].kind.Left?))
    && (forall n <- OptConjuncts(where) :: forall r <- Refs(n) :: r < |steps|)
    && (forall k :: 0 <= k < |steps| ==> forall n <- OptConjuncts(steps[k].on) :: forall r <- Refs(n) :: r <= k)
  }

  lemma {:induction false} WrittenFits(w: World, steps: seq<Step>, where: Option<Node>)
    requires Query(w, steps, where)
    ensures InOrder(w, Written(steps, where)) && StartsWithScan(Written(steps, where))
  {
  }

  /** A conjunct the optimizer adds: about one relation that keeps its rows, and
      true in every row of the result. */
  ghost predicate IsAdded(w: World, steps: seq<Step>, where: Option<Node>, c: Conjunct)
    requires Query(w, steps, where)
  {
    && c.fromWhere && !c.unresolved && !Unresolved(c.node) && c.mask == Refs(c.node)
    && c.destination.Residual?
    && (exists r :: c.mask == {r} && r < |steps| && !steps[r].nullSupplying)
    && Fits(w, Written(steps, where)) && Certain(w, Written(steps, where), c.node)
  }

  /** The conjuncts of the query, some of them dropped, and added ones. */
  ghost predicate IsConjunctList(w: World, steps: seq<Step>, where: Option<Node>, cs: seq<Conjunct>)
    requires Query(w, steps, where)
  {
    && (forall c <- cs :: IsWhereConjunct(c, where) || IsOnConjunct(c, steps) || IsAdded(w, steps, where, c))
    && (forall c <- cs :: c.destination.Dropped? || c.destination.Residual?)
    && (forall c <- cs :: c.destination.Dropped? ==> FoldComparison(c.node) == Some(true))
    && (forall n <- OptConjuncts(where) :: exists c <- cs :: c.node == n && IsWhereConjunct(c, where))
    && (forall s, n :: 1 <= s < |steps| && n in OptConjuncts(steps[s].on) ==>
          exists c <- cs :: c.node == n && c.step == s && IsOnConjunct(c, steps))
  }

  /** What an always empty query adds: a filter that no row of relation 0 passes. */
  const IMPOSSIBLE := Conjunct(Binary(Eq, Numeric(0.0), Numeric(1.0)), {}, false, true, 0, Filter, 0)

  function Final(steps: seq<Step>, cs: seq<Conjunct>, alwaysEmpty: bool): seq<Conjunct> {
    AllDestined(Converted(steps, cs), cs) + if alwaysEmpty then [IMPOSSIBLE] else []
  }

  // ---- Where a conjunct goes ----

  lemma {:induction false} MaskShape(mask: set<nat>, n: nat)
    requires n <= OPT_MAX_RELATIONS && (forall r <- mask :: r < n) && mask != {}
    ensures var h := Highest(mask, OPT_MAX_RELATIONS);
            h in mask && (forall r <- mask :: r <= h) && (|mask| == 1 ==> mask == {h}) && (|mask| > 1 ==> h > 0)
  {
    var r :| r in mask;
    HighestIsMember(mask, OPT_MAX_RELATIONS);
    var h := Highest(mask, OPT_MAX_RELATIONS);
    if |mask| == 1 {
      SingletonMask(mask, h);
    } else if h == 0 {
      assert mask == {0};
    }
  }

  lemma {:induction false} WhereGoes(w: World, steps: seq<Step>, where: Option<Node>, cs: seq<Conjunct>, c: Conjunct)
    requires Query(w, steps, where) && IsConjunctList(w, steps, where, cs)
    requires c in cs && c.fromWhere && !c.destination.Dropped?
    ensures var d := Destined(Converted(steps, cs), c);
            var now := Converted(steps, cs);
            d.node == c.node && !d.destination.Dropped?
            && (d.destination.Filter? ==> !c.unresolved && c.mask == {d.target} && d.target < |steps| && !now[d.target].nullSupplying)
            && (d.destination.OnClause? ==> !c.unresolved && 0 < d.target < |steps| && !now[d.target].nullSupplying
                                            && forall r <- c.mask :: r <= d.target)
            && (d.destination.Residual? ==> IsWhereConjunct(c, where))
  {
    var now := Converted(steps, cs);
    assert !now[0].nullSupplying;
    if c.mask != {} {
      MaskShape(c.mask, |steps|);
    } else {
      assert |c.mask| == 0;
    }
    if !IsWhereConjunct(c, where) {
      assert IsAdded(w, steps, where, c);
      var r :| c.mask == {r} && r < |steps| && !steps[r].nullSupplying;
      assert Highest(c.mask, OPT_MAX_RELATIONS) == r && |c.mask| == 1;
    }
  }

  lemma {:induction false} OnGoes(w: World, steps: seq<Step>, where: Option<Node>, cs: seq<Conjunct>, c: Conjunct)
    requires Query(w, steps, where) && IsConjunctList(w, steps, where, cs)
    requires c in cs && !c.fromWhere && !c.destination.Dropped?
    ensures var d := Destined(Converted(steps, cs), c);
            var now := Converted(steps, cs);
            d.node == c.node && (d.destination.Filter? || d.destination.OnClause?) && d.target <= c.step
            && (d.destination.Filter? ==> !c.unresolved && c.mask <= {d.target}
                                          && (d.target == c.step || (!steps[c.step].kind.Left? && !now[d.target].nullSupplying)))
            && (d.destination.OnClause? ==> d.target == c.step)
  {
    var now := Converted(steps, cs);
    assert IsOnConjunct(c, steps);
    assert !now[0].nullSupplying && now[c.step].kind == steps[c.step].kind;
    if c.mask != {} {
      MaskShape(c.mask, |steps|);
    } else {
      assert |c.mask| == 0;
    }
  }

  // ---- Conjuncts every result row satisfies ----

  lemma {:induction false} WhereIsCertain(w: World, steps: seq<Step>, where: Option<Node>, n: Node)
    requires Query(w, steps, where) && n in OptConjuncts(where)
    ensures Certain(w, Written(steps, where), n)
  {
    var o := Written(steps, where);
    forall f | f in RunAll(w, o)
      ensures Holds(w, n, f)
    {
      Survivor(w, o, 0, Blank(w), f);
    }
  }

  lemma {:induction false} OnIsCertain(w: World, steps: seq<Step>, where: Option<Node>, k: nat, n: Node)
    requires Query(w, steps, where) && k < |steps| && n in OptConjuncts(steps[k].on)
    requires !steps[k].kind.Left? && !Unresolved(n)
    ensures Certain(w, Written(steps, where), n)
  {
    var o := Written(steps, where);
    forall f | f in RunAll(w, o)
      ensures Holds(w, n, f)
    {
      Survivor(w, o, 0, Blank(w), f);
      assert AllHold(w, o.stages[k].on, Truncate(f, k + 1));
      HoldsOnExtension(w, n, k, Truncate(f, k + 1), f);
    }
  }

  lemma {:induction false} DroppedIsTrue(w: World, n: Node)
    requires FoldComparison(n) == Some(true)
    ensures AlwaysTrue(w, n)
  {
    forall row
      ensures Holds(w, n, row)
    {
      FoldComparisonSound(w, n, row);
    }
  }

  // ---- The rewritten pipeline refines the written one ----

  ghost predicate Setup(w: World, steps: seq<Step>, where: Option<Node>, cs: seq<Conjunct>, alwaysEmpty: bool) {
    && Query(w, steps, where) && IsConjunctList(w, steps, where, cs)
    && InOrder(w, Written(steps, where))
    && (alwaysEmpty ==> RunAll(w, Written(steps, where)) == [])
  }

  function Plan1(steps: seq<Step>, cs: seq<Conjunct>, alwaysEmpty: bool): Pipeline {
    Rewritten(Converted(steps, cs), Final(steps, cs, alwaysEmpty))
  }

  lemma {:induction false} FinalMember(steps: seq<Step>, cs: seq<Conjunct>, alwaysEmpty: bool, d: Conjunct)
    requires d in Final(steps, cs, alwaysEmpty)
    ensures (alwaysEmpty && d == IMPOSSIBLE) || exists c <- cs :: d == Destined(Converted(steps, cs), c)
  {
    var now := Converted(steps, cs);
    if d in AllDestined(now, cs) {
      var i :| 0 <= i < |cs| && d == AllDestined(now, cs)[i];
      assert cs[i] in cs && d == Destined(now, cs[i]);
    }
  }

  lemma {:induction false} DestinedIsFinal(steps: seq<Step>, cs: seq<Conjunct>, alwaysEmpty: bool, c: Conjunct)
    requires c in cs
    ensures Destined(Converted(steps, cs), c) in Final(steps, cs, alwaysEmpty)
  {
    var i :| 0 <= i < |cs| && cs[i] == c;
    assert AllDestined(Converted(steps, cs), cs)[i] == Destined(Converted(steps, cs), c);
  }

  /** A node placed at stage k comes from a conjunct with that destination. */
  lemma {:induction false} PlacedFrom(steps: seq<Step>, cs: seq<Conjunct>, alwaysEmpty: bool, k: nat, n: Node, place: Destination)
    returns (d: Conjunct)
    requires k < |steps|
    requires place.Filter? ==> n in Plan1(steps, cs, alwaysEmpty).stages[k].filters
    requires place.OnClause? ==> n in Plan1(steps, cs, alwaysEmpty).stages[k].on
    requires place.Filter? || place.OnClause?
    ensures d in Final(steps, cs, alwaysEmpty) && d.node == n && d.destination == place && d.target == k
  {
    var final := Final(steps, cs, alwaysEmpty);
    NodesForMembers(final, place, k);
    d :| d in final && d.node == n && d.destination == place && d.target == k;
  }

  lemma {:induction false} DestinedIsPlaced(steps: seq<Step>, cs: seq<Conjunct>, alwaysEmpty: bool, c: Conjunct)
    requires c in cs
    ensures var d := Destined(Converted(steps, cs), c);
            var p := Plan1(steps, cs, alwaysEmpty);
            && d.node == c.node
            && (d.destination.Residual? ==> c.node in p.residual)
            && ((d.destination.Filter? || d.destination.OnClause?) && d.target < |steps| ==> PlacedAt(p, d.target, c.node))
  {
    var final := Final(steps, cs, alwaysEmpty);
    var d := Destined(Converted(steps, cs), c);
    DestinedIsFinal(steps, cs, alwaysEmpty, c);
    NodesForMembers(final, d.destination, if d.destination.Residual? then 0 else d.target);
  }

  lemma {:induction false} KindOf(steps: seq<Step>, cs: seq<Conjunct>, alwaysEmpty: bool, k: nat)
    requires k < |steps|
    ensures Plan1(steps, cs, alwaysEmpty).stages[k].kind.Left? <==> Converted(steps, cs)[k].nullSupplying
  {
  }

  /** n may be tested at stage k. */
  ghost predicate SoundAt(w: World, steps: seq<Step>, where: Option<Node>, cs: seq<Conjunct>, k: nat, n: Node)
    requires Query(w, steps, where) && Fits(w, Written(steps, where)) && k < |steps|
  {
    || n in OptConjuncts(steps[k].on)
    || (!Converted(steps, cs)[k].nullSupplying && ReadsUpTo(n, k) && Certain(w, Written(steps, where), n))
  }

  lemma {:induction false} WhereIsSound(w: World, steps: seq<Step>, where: Option<Node>, cs: seq<Conjunct>, alwaysEmpty: bool, c: Conjunct)
    requires Setup(w, steps, where, cs, alwaysEmpty) && c in cs && c.fromWhere && !c.destination.Dropped?
    ensures var d := Destined(Converted(steps, cs), c);
            d.destination.Residual? || (d.target < |steps| && SoundAt(w, steps, where, cs, d.target, c.node))
  {
    WhereGoes(w, steps, where, cs, c);
    if IsWhereConjunct(c, where) {
      WhereIsCertain(w, steps, where, c.node);
    }
  }

  lemma {:induction false} OnIsSound(w: World, steps: seq<Step>, where: Option<Node>, cs: seq<Conjunct>, alwaysEmpty: bool, c: Conjunct)
    requires Setup(w, steps, where, cs, alwaysEmpty) && c in cs && !c.fromWhere && !c.destination.Dropped?
    ensures var d := Destined(Converted(steps, cs), c);
            d.target < |steps| && SoundAt(w, steps, where, cs, d.target, c.node)
  {
    OnGoes(w, steps, where, cs, c);
    if Destined(Converted(steps, cs), c).target != c.step {
      OnIsCertain(w, steps, where, c.step, c.node);
    }
  }

  lemma {:induction false} ImpossibleIsSound(w: World, steps: seq<Step>, where: Option<Node>, cs: seq<Conjunct>)
    requires Setup(w, steps, where, cs, true)
    ensures SoundAt(w, steps, where, cs, 0, IMPOSSIBLE.node) && Refs(IMPOSSIBLE.node) == {} && !Unresolved(IMPOSSIBLE.node)
  {
    assert !steps[0].nullSupplying;
  }

  lemma {:induction false} FinalIsSound(w: World, steps: seq<Step>, where: Option<Node>, cs: seq<Conjunct>, alwaysEmpty: bool, d: Conjunct)
    requires Setup(w, steps, where, cs, alwaysEmpty) && d in Final(steps, cs, alwaysEmpty)
    requires d.destination.Filter? || d.destination.OnClause?
    ensures d.target < |steps| && SoundAt(w, steps, where, cs, d.target, d.node)
    ensures d.destination.Filter? ==> !Unresolved(d.node) && Refs(d.node) <= {d.target}
    ensures d.destination.OnClause? ==> d.target > 0
  {
    hide SoundAt, Final;
    FinalMember(steps, cs, alwaysEmpty, d);
    if alwaysEmpty && d == IMPOSSIBLE {
      ImpossibleIsSound(w, steps, where, cs);
    } else {
      var c :| c in cs && d == Destined(Converted(steps, cs), c);
      if c.fromWhere {
        WhereIsSound(w, steps, where, cs, alwaysEmpty, c);
        WhereGoes(w, steps, where, cs, c);
      } else {
        OnIsSound(w, steps, where, cs, alwaysEmpty, c);
        OnGoes(w, steps, where, cs, c);
      }
    }
  }

  /** A placed node belongs to the step's ON clause, or is certain and readable. */
  lemma {:induction false} PlacedIsSound(w: World, steps: seq<Step>, where: Option<Node>, cs: seq<Conjunct>, alwaysEmpty: bool, k: nat, n: Node)
    requires Setup(w, steps, where, cs, alwaysEmpty) && k < |steps|
    requires PlacedAt(Plan1(steps, cs, alwaysEmpty), k, n)
    ensures SoundAt(w, steps, where, cs, k, n)
  {
    var place := if n in Plan1(steps, cs, alwaysEmpty).stages[k].filters then Filter else OnClause;
    var d := PlacedFrom(steps, cs, alwaysEmpty, k, n, place);
    FinalIsSound(w, steps, where, cs, alwaysEmpty, d);
  }

  /** Filters read their own relation only. */
  lemma {:induction false} FiltersAreLocal(w: World, steps: seq<Step>, where: Option<Node>, cs: seq<Conjunct>, alwaysEmpty: bool, k: nat, n: Node)
    requires Setup(w, steps, where, cs, alwaysEmpty) && k < |steps|
    requires n in Plan1(steps, cs, alwaysEmpty).stages[k].filters
    ensures !Unresolved(n) && Refs(n) <= {k}
  {
    var d := PlacedFrom(steps, cs, alwaysEmpty, k, n, Filter);
    FinalIsSound(w, steps, where, cs, alwaysEmpty, d);
  }

  /** Every leaf of an ON clause is still tested, or always true. */
  lemma {:induction false} OnIsCovered(w: World, steps: seq<Step>, where: Option<Node>, cs: seq<Conjunct>, alwaysEmpty: bool, k: nat, n: Node)
    requires Setup(w, steps, where, cs, alwaysEmpty) && k < |steps|
    requires n in OptConjuncts(steps[k].on)
    ensures var p := Plan1(steps, cs, alwaysEmpty);
            AlwaysTrue(w, n) || PlacedAt(p, k, n) || (!steps[k].kind.Left? && TestedBefore(p, k, n))
  {
    var p, now := Plan1(steps, cs, alwaysEmpty), Converted(steps, cs);
    var c :| c in cs && c.node == n && c.step == k && IsOnConjunct(c, steps);
    if c.destination.Dropped? {
      DroppedIsTrue(w, n);
    } else {
      var d := Destined(now, c);
      OnGoes(w, steps, where, cs, c);
      DestinedIsPlaced(steps, cs, alwaysEmpty, c);
      if d.target != k {
        KindOf(steps, cs, alwaysEmpty, d.target);
        assert PlacedAt(p, d.target, n) && ReadsUpTo(n, d.target) && !p.stages[d.target].kind.Left?;
      }
    }
  }

  lemma {:induction false} WhereIsCovered(w: World, steps: seq<Step>, where: Option<Node>, cs: seq<Conjunct>, alwaysEmpty: bool, n: Node)
    requires Setup(w, steps, where, cs, alwaysEmpty) && n in OptConjuncts(where)
    ensures var p := Plan1(steps, cs, alwaysEmpty);
            AlwaysTrue(w, n) || n in p.residual || TestedBefore(p, |p.stages|, n)
  {
    var p, now := Plan1(steps, cs, alwaysEmpty), Converted(steps, cs);
    var c :| c in cs && c.node == n && IsWhereConjunct(c, where);
    if c.destination.Dropped? {
      DroppedIsTrue(w, n);
    } else {
      var d := Destined(now, c);
      WhereGoes(w, steps, where, cs, c);
      DestinedIsPlaced(steps, cs, alwaysEmpty, c);
      if !d.destination.Residual? {
        KindOf(steps, cs, alwaysEmpty, d.target);
        assert PlacedAt(p, d.target, n) && ReadsUpTo(n, d.target) && !p.stages[d.target].kind.Left?;
      }
    }
  }

  lemma {:induction false} ResidualIsWhere(w: World, steps: seq<Step>, where: Option<Node>, cs: seq<Conjunct>, alwaysEmpty: bool, n: Node)
    requires Setup(w, steps, where, cs, alwaysEmpty) && n in Plan1(steps, cs, alwaysEmpty).residual
    ensures n in OptConjuncts(where)
  {
    var final := Final(steps, cs, alwaysEmpty);
    NodesForMembers(final, Residual, 0);
    var d :| d in final && d.node == n && d.destination == Residual;
    FinalMember(steps, cs, alwaysEmpty, d);
    var c :| c in cs && d == Destined(Converted(steps, cs), c);
    if c.fromWhere { WhereGoes(w, steps, where, cs, c); } else { OnGoes(w, steps, where, cs, c); }
  }

  lemma {:induction false} ConvertedIsRejected(w: World, steps: seq<Step>, where: Option<Node>, cs: seq<Conjunct>, alwaysEmpty: bool, k: nat)
    requires Setup(w, steps, where, cs, alwaysEmpty) && k < |steps|
    requires steps[k].kind.Left? && !Converted(steps, cs)[k].nullSupplying
    ensures exists n <- OptConjuncts(where) :: !Unresolved(n) && RejectsNull(n, k)
  {
    var c :| c in cs && RejectedBy(c, k);
    if IsAdded(w, steps, where, c) {
      assert false;
    }
    assert c.node in OptConjuncts(where);
  }

  lemma {:induction false} RewrittenStageRefines(w: World, steps: seq<Step>, where: Option<Node>, cs: seq<Conjunct>, alwaysEmpty: bool, k: nat)
    requires Setup(w, steps, where, cs, alwaysEmpty) && k < |steps|
    requires InOrder(w, Plan1(steps, cs, alwaysEmpty))
    ensures StageRefines(w, Written(steps, where), Plan1(steps, cs, alwaysEmpty), k)
  {
    var o, p := Written(steps, where), Plan1(steps, cs, alwaysEmpty);
    KindOf(steps, cs, alwaysEmpty, k);
    forall n | n in p.stages[k].filters
      ensures !Unresolved(n) && Refs(n) <= {k}
    {
      FiltersAreLocal(w, steps, where, cs, alwaysEmpty, k, n);
    }
    forall n | PlacedAt(p, k, n)
      ensures n in o.stages[k].on || (!p.stages[k].kind.Left? && ReadsUpTo(n, k) && Certain(w, o, n))
    {
      PlacedIsSound(w, steps, where, cs, alwaysEmpty, k, n);
    }
    forall n | n in o.stages[k].on
      ensures AlwaysTrue(w, n) || PlacedAt(p, k, n) || (!steps[k].kind.Left? && TestedBefore(p, k, n))
    {
      OnIsCovered(w, steps, where, cs, alwaysEmpty, k, n);
    }
    if steps[k].kind.Left? && !p.stages[k].kind.Left? {
      ConvertedIsRejected(w, steps, where, cs, alwaysEmpty, k);
    }
  }

  lemma {:induction false} NothingOnTheFirst(w: World, steps: seq<Step>, where: Option<Node>, cs: seq<Conjunct>, alwaysEmpty: bool)
    requires Setup(w, steps, where, cs, alwaysEmpty)
    ensures Plan1(steps, cs, alwaysEmpty).stages[0].on == []
  {
    var on := Plan1(steps, cs, alwaysEmpty).stages[0].on;
    if on != [] {
      var d := PlacedFrom(steps, cs, alwaysEmpty, 0, on[0], OnClause);
      FinalIsSound(w, steps, where, cs, alwaysEmpty, d);
    }
  }

  lemma {:induction false} StagesFit(w: World, steps: seq<Step>, cs: seq<Conjunct>)
    requires |steps| == |w.tables|
    ensures InOrder(w, Rewritten(steps, cs))
  {
    var p := Rewritten(steps, cs);
    forall k | 0 <= k < |p.stages|
      ensures p.stages[k].rel == k && StageFits(w, p.stages[k])
    {
      assert p.stages[k] == RewrittenStage(steps, cs, k);
    }
  }

  lemma {:induction false} RewrittenFits(w: World, steps: seq<Step>, where: Option<Node>, cs: seq<Conjunct>, alwaysEmpty: bool)
    requires Setup(w, steps, where, cs, alwaysEmpty)
    ensures InOrder(w, Plan1(steps, cs, alwaysEmpty)) && StartsWithScan(Plan1(steps, cs, alwaysEmpty))
  {
    StagesFit(w, Converted(steps, cs), Final(steps, cs, alwaysEmpty));
    KindOf(steps, cs, alwaysEmpty, 0);
    NothingOnTheFirst(w, steps, where, cs, alwaysEmpty);
    assert !Converted(steps, cs)[0].nullSupplying;
  }

  /** The rewritten query returns the rows of the query, in the same order. */
  lemma {:induction false} RewrittenKeepsRows(w: World, steps: seq<Step>, where: Option<Node>, cs: seq<Conjunct>, alwaysEmpty: bool)
    requires Setup(w, steps, where, cs, alwaysEmpty)
    ensures var p := Plan1(steps, cs, alwaysEmpty);
            InOrder(w, p) && StartsWithScan(p) && RunAll(w, p) == RunAll(w, Written(steps, where))
  {
    var o, p := Written(steps, where), Plan1(steps, cs, alwaysEmpty);
    RewrittenFits(w, steps, where, cs, alwaysEmpty);
    forall k | 0 <= k < |steps|
      ensures StageRefines(w, o, p, k)
    {
      RewrittenStageRefines(w, steps, where, cs, alwaysEmpty, k);
    }
    forall n | n in p.residual
      ensures n in o.residual
    {
      ResidualIsWhere(w, steps, where, cs, alwaysEmpty, n);
    }
    forall n | n in o.residual
      ensures AlwaysTrue(w, n) || n in p.residual || TestedBefore(p, |p.stages|, n)
    {
      WhereIsCovered(w, steps, where, cs, alwaysEmpty, n);
    }
    assert ResidualRefines(w, o, p);
    RefinementKeepsRows(w, o, p);
  }
}
