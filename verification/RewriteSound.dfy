/** Why the conjunct list the passes leave behind may be placed: what is dropped
    is always true, what is added is true in every result row, and a query said
    to be always empty is. */
module RewriteSound {
  import opened Predicates
  import opened Plans
  import opened Refinement
  import opened Conjuncts
  import opened Rewriting
  import opened ColumnClasses
  import opened Equalities
  import opened Propagation
  import opened Contradiction
  import opened RewritePasses
  import opened GroupOrder

  function FoldedList(steps: seq<Step>, where: Option<Node>): seq<Conjunct> {
    FoldedAll(Loaded(steps, where))
  }

  lemma {:induction false} FoldedShape(steps: seq<Step>, where: Option<Node>)
    ensures forall c <- FoldedList(steps, where) ::
              && (IsWhereConjunct(c, where) || IsOnConjunct(c, steps))
              && (c.destination.Dropped? || c.destination.Residual?)
              && (c.destination.Dropped? ==> FoldComparison(c.node) == Some(true))
    ensures forall n <- OptConjuncts(where) :: exists c <- FoldedList(steps, where) :: c.node == n && IsWhereConjunct(c, where)
    ensures forall s, n :: 1 <= s < |steps| && n in OptConjuncts(steps[s].on) ==>
              exists c <- FoldedList(steps, where) :: c.node == n && c.step == s && IsOnConjunct(c, steps)
  {
    var loaded, folded := Loaded(steps, where), FoldedList(steps, where);
    LoadedShape(steps, where);
    forall c | c in folded
      ensures exists b <- loaded :: c == Folded(b)
    {
      var i :| 0 <= i < |folded| && folded[i] == c;
      assert loaded[i] in loaded && c == Folded(loaded[i]);
    }
    forall n | n in OptConjuncts(where)
      ensures exists c <- folded :: c.node == n && IsWhereConjunct(c, where)
    {
      var b :| b in loaded && b.node == n && b.fromWhere;
      FoldedMember(steps, where, b);
    }
    forall s, n | 1 <= s < |steps| && n in OptConjuncts(steps[s].on)
      ensures exists c <- folded :: c.node == n && c.step == s && IsOnConjunct(c, steps)
    {
      var b :| b in loaded && b.node == n && b.step == s && !b.fromWhere;
      FoldedMember(steps, where, b);
    }
  }

  lemma {:induction false} FoldedMember(steps: seq<Step>, where: Option<Node>, b: Conjunct)
    requires b in Loaded(steps, where)
    ensures Folded(b) in FoldedList(steps, where)
  {
    var i :| 0 <= i < |Loaded(steps, where)| && Loaded(steps, where)[i] == b;
    assert FoldedList(steps, where)[i] == Folded(b);
  }

  /** Every result row satisfies the conjuncts that are not about a left join. */
  lemma {:induction false} ResultSatisfiesFolded(w: World, steps: seq<Step>, where: Option<Node>, f: Row)
    requires Query(w, steps, where) && Fits(w, Written(steps, where)) && f in RunAll(w, Written(steps, where))
    ensures Stored(w, f) && Satisfies(w, steps, FoldedList(steps, where), f)
  {
    Survivor(w, Written(steps, where), 0, Blank(w), f);
    FoldedShape(steps, where);
    forall c | c in FoldedList(steps, where) && !c.unresolved && !OnLeftJoin(steps, c)
      ensures Holds(w, c.node, f)
    {
      if IsWhereConjunct(c, where) {
        WhereIsCertain(w, steps, where, c.node);
      } else {
        OnIsCertain(w, steps, where, c.step, c.node);
      }
    }
  }

  ghost predicate AllDerived(types: Schema, steps: seq<Step>, where: Option<Node>, derived: seq<Conjunct>) {
    forall d <- derived :: IsDerived(types, steps, FoldedList(steps, where), d)
  }

  lemma {:induction false} ResultSatisfies(w: World, types: Schema, steps: seq<Step>, where: Option<Node>, derived: seq<Conjunct>, f: Row)
    requires Typed(w, types) && Query(w, steps, where) && AllDerived(types, steps, where, derived)
    requires Fits(w, Written(steps, where)) && f in RunAll(w, Written(steps, where))
    ensures Stored(w, f) && Satisfies(w, steps, FoldedList(steps, where) + derived, f)
  {
    ResultSatisfiesFolded(w, steps, where, f);
    forall d | d in derived
      ensures Holds(w, d.node, f)
    {
      DerivedIsImplied(w, types, steps, FoldedList(steps, where), d, f);
    }
  }

  lemma {:induction false} DerivedIsAdded(w: World, types: Schema, steps: seq<Step>, where: Option<Node>, d: Conjunct)
    requires Typed(w, types) && Query(w, steps, where) && IsDerived(types, steps, FoldedList(steps, where), d)
    ensures IsAdded(w, steps, where, d)
  {
    var o := Written(steps, where);
    WrittenFits(w, steps, where);
    DerivedShape(types, steps, FoldedList(steps, where), d);
    FoldedShape(steps, where);
    forall f | f in RunAll(w, o)
      ensures Holds(w, d.node, f)
    {
      ResultSatisfiesFolded(w, steps, where, f);
      DerivedIsImplied(w, types, steps, FoldedList(steps, where), d, f);
    }
    var r :| d.mask == {r} && !NullSupplying(steps, r)
      && exists c <- FoldedList(steps, where) :: !c.unresolved && JoinKeyOf(types, steps, c).Some? && r in Refs(c.node);
    var c :| c in FoldedList(steps, where) && r in Refs(c.node);
    assert r < |steps|;
  }

  /** The list after propagation is a conjunct list of the query. */
  lemma {:induction false} ListIsSound(w: World, types: Schema, steps: seq<Step>, where: Option<Node>, derived: seq<Conjunct>)
    requires Typed(w, types) && Query(w, steps, where) && AllDerived(types, steps, where, derived)
    ensures IsConjunctList(w, steps, where, FoldedList(steps, where) + derived)
  {
    var folded := FoldedList(steps, where);
    var cs := folded + derived;
    FoldedShape(steps, where);
    forall d | d in derived
      ensures IsAdded(w, steps, where, d)
    {
      DerivedIsAdded(w, types, steps, where, d);
    }
    forall n | n in OptConjuncts(where)
      ensures exists c <- cs :: c.node == n && IsWhereConjunct(c, where)
    {
      var c :| c in folded && c.node == n && IsWhereConjunct(c, where);
      assert c in cs;
    }
    forall s, n | 1 <= s < |steps| && n in OptConjuncts(steps[s].on)
      ensures exists c <- cs :: c.node == n && c.step == s && IsOnConjunct(c, steps)
    {
      var c :| c in folded && c.node == n && c.step == s && IsOnConjunct(c, steps);
      assert c in cs;
    }
  }

  /** A comparison written out as false stands in WHERE or in the ON condition of a
      join that is not a left join. */
  ghost predicate HasFalseCondition(steps: seq<Step>, where: Option<Node>) {
    || (exists n <- OptConjuncts(where) :: FoldsTo(n, false))
    || (exists k, n :: 1 <= k < |steps| && !steps[k].nullSupplying && n in OptConjuncts(steps[k].on) && FoldsTo(n, false))
  }

  /** Folding finds an empty query if and only if such a comparison is there. */
  lemma {:induction false} FalseConditionIff(steps: seq<Step>, where: Option<Node>)
    ensures (exists i :: 0 <= i < |Loaded(steps, where)| && FoldsToEmpty(steps, Loaded(steps, where)[i])) <==> HasFalseCondition(steps, where)
  {
    var loaded := Loaded(steps, where);
    LoadedShape(steps, where);
    hide Loaded, FoldsTo, FoldComparison, LeavesOf, Refs, Unresolved;
    if i :| 0 <= i < |loaded| && FoldsToEmpty(steps, loaded[i]) {
      var c := loaded[i];
      assert c in loaded;
      FoldComparisonIff(c.node, false);
    }
    if n :| n in OptConjuncts(where) && FoldsTo(n, false) {
      var c :| c in loaded && c.node == n && c.fromWhere;
      FalseIsLoaded(steps, loaded, c);
    }
    if k, n :| 1 <= k < |steps| && !steps[k].nullSupplying && n in OptConjuncts(steps[k].on) && FoldsTo(n, false) {
      var c :| c in loaded && c.node == n && c.step == k && !c.fromWhere;
      FalseIsLoaded(steps, loaded, c);
    }
  }

  lemma {:induction false} FalseIsLoaded(steps: seq<Step>, loaded: seq<Conjunct>, c: Conjunct)
    requires c in loaded && FoldsTo(c.node, false) && !OnLeftJoin(steps, c)
    ensures exists i :: 0 <= i < |loaded| && FoldsToEmpty(steps, loaded[i])
  {
    FoldComparisonIff(c.node, false);
    var i :| 0 <= i < |loaded| && loaded[i] == c;
    assert FoldsToEmpty(steps, loaded[i]);
  }

  /** Why the optimizer may call the query always empty. */
  ghost predicate SaidEmpty(types: Schema, steps: seq<Step>, where: Option<Node>, derived: seq<Conjunct>) {
    || HasFalseCondition(steps, where)
    || Conflicting(types, steps, FoldedList(steps, where))
    || Contradictory(types, steps, FoldedList(steps, where) + derived)
  }

  lemma {:induction false} ComparisonIsListed(types: Schema, steps: seq<Step>, cs: seq<Conjunct>, c: Conjunct, x: ColumnRef, comparison: Comparison)
    requires c in cs && ColumnComparison(types, steps, c) == Some((x, comparison))
    ensures comparison in ComparisonsOf(types, steps, cs, x)
  {
    var init, last := cs[..|cs| - 1], cs[|cs| - 1];
    assert cs == init + [last];
    if c in init {
      ComparisonIsListed(types, steps, init, c, x, comparison);
    }
  }

  lemma {:induction false} PinReads(types: Schema, steps: seq<Step>, where: Option<Node>, c: Conjunct, x: ColumnRef, literal: Node)
    requires c in FoldedList(steps, where) && Pins(types, steps, c, x, literal)
    ensures c.mask == Refs(c.node) == {x.rel}
  {
    hide FoldedList, LeavesOf;
    FoldedShape(steps, where);
    assert c.mask == Refs(c.node);
  }

  lemma {:induction false} PinIsListed(types: Schema, steps: seq<Step>, where: Option<Node>, more: seq<Conjunct>, c: Conjunct, x: ColumnRef, literal: Node)
    requires c in FoldedList(steps, where) && Pins(types, steps, c, x, literal)
    ensures exists op :: IsEquality(op) && Comparison(op, literal) in ComparisonsOf(types, steps, FoldedList(steps, where) + more, x)
  {
    PinReads(types, steps, where, c, x, literal);
    hide FoldedList, ComparisonsOf, ColumnComparison, Refs;
    var op := c.node.op;
    ComparedIff(types, steps, c, x, op, literal);
    ComparisonIsListed(types, steps, FoldedList(steps, where) + more, c, x, Comparison(op, literal));
  }

  /** One column pinned to two literals. */
  lemma {:induction false} PinnedTwice(types: Schema, steps: seq<Step>, where: Option<Node>, more: seq<Conjunct>, c: Conjunct, d: Conjunct, x: ColumnRef, l: Node, m: Node)
    requires c in FoldedList(steps, where) && d in FoldedList(steps, where)
    requires Pins(types, steps, c, x, l) && Pins(types, steps, d, x, m) && l != m
    ensures Contradictory(types, steps, FoldedList(steps, where) + more)
  {
    PinIsListed(types, steps, where, more, c, x, l);
    PinIsListed(types, steps, where, more, d, x, m);
    var all := ComparisonsOf(types, steps, FoldedList(steps, where) + more, x);
    var o :| IsEquality(o) && Comparison(o, l) in all;
    var p :| IsEquality(p) && Comparison(p, m) in all;
    forall v | OfKind(TypeOf(types, x), v)
      ensures !AllowsAll(TypeOf(types, x), all, v)
    {
      assert Allows(TypeOf(types, x), Comparison(o, l), v) ==> !Allows(TypeOf(types, x), Comparison(p, m), v);
    }
  }

  /** Whichever conjuncts pin two connected columns to different literals, the query is
      said to be empty: by the propagation when they are the first to pin their columns,
      and by the bounds of one of the columns otherwise. */
  lemma {:induction false} PinsAreNeverMissed(types: Schema, steps: seq<Step>, where: Option<Node>, derived: seq<Conjunct>, pairs: set<Pair>, c: Conjunct, x: ColumnRef, l: Node, d: Conjunct, y: ColumnRef, m: Node)
    requires AreJoins(types, steps, FoldedList(steps, where), pairs) && Connected(pairs, x, y)
    requires c in FoldedList(steps, where) && Pins(types, steps, c, x, l)
    requires d in FoldedList(steps, where) && Pins(types, steps, d, y, m)
    requires l != m
    ensures SaidEmpty(types, steps, where, derived)
  {
    hide HasFalseCondition, FoldedList, Connected, Conflicting, Contradictory, AreJoins, FirstConstant;
    var folded := FoldedList(steps, where);
    PinnedIff(types, steps, folded, x);
    PinnedIff(types, steps, folded, y);
    var i := FirstPin(types, steps, folded, x);
    var j := FirstPin(types, steps, folded, y);
    var first, second := FirstConstant(types, steps, folded, x).value, FirstConstant(types, steps, folded, y).value;
    if first != l {
      PinnedTwice(types, steps, where, derived, c, folded[i], x, l, first);
    } else if second != m {
      PinnedTwice(types, steps, where, derived, d, folded[j], y, m, second);
    } else {
      FirstPinsConflict(types, steps, folded, pairs, x, i, l, y, j, m);
    }
  }

  lemma {:induction false} FirstPinsConflict(types: Schema, steps: seq<Step>, cs: seq<Conjunct>, pairs: set<Pair>, x: ColumnRef, i: nat, l: Node, y: ColumnRef, j: nat, m: Node)
    requires AreJoins(types, steps, cs, pairs) && Connected(pairs, x, y) && l != m
    requires PinsFirst(types, steps, cs, i, x, l) && PinsFirst(types, steps, cs, j, y, m)
    ensures Conflicting(types, steps, cs)
  {
    hide Connected, Conflicting, AreJoins;
    SamePairs(types, steps, cs, pairs);
    PairsAreComparable(types, steps, cs);
    ConnectedFits(types, pairs, x, y, m);
    assert PinnedApart(types, steps, cs, pairs, x, i, l, y, j, m);
    ConflictIff(types, steps, cs);
  }

  /** The derived conjuncts: none when a false condition has been found; otherwise one
      for every column that lacks a constant and is connected with a column that has
      one, while there is room. */
  ghost predicate IsPropagated(types: Schema, steps: seq<Step>, where: Option<Node>, derived: seq<Conjunct>) {
    var folded := FoldedList(steps, where);
    && (forall d <- derived :: WrittenDerived(types, steps, folded, d))
    && (forall i, j :: 0 <= i < j < |derived| ==> derived[i].node != derived[j].node)
    && (if HasFalseCondition(steps, where) then derived == []
        else |folded| + |derived| < OPT_MAX_CONJUNCTS ==> forall x :: IsServed(types, steps, folded, derived, x))
  }

  lemma {:induction false} FalseConjunctMeansEmpty(w: World, steps: seq<Step>, where: Option<Node>, i: nat, f: Row)
    requires i < |Loaded(steps, where)| && FoldsToEmpty(steps, Loaded(steps, where)[i])
    ensures !Satisfies(w, steps, FoldedList(steps, where), f)
  {
    var c := Loaded(steps, where)[i];
    LoadedShape(steps, where);
    assert c in Loaded(steps, where);
    FoldedMember(steps, where, c);
    FoldComparisonSound(w, c.node, f);
    assert Folded(c) == c && !Holds(w, c.node, f) && !Unresolved(c.node);
  }

  /** A query said to be always empty returns nothing. */
  lemma {:induction false} EmptyIsEmpty(w: World, types: Schema, steps: seq<Step>, where: Option<Node>, derived: seq<Conjunct>)
    requires Typed(w, types) && Query(w, steps, where) && AllDerived(types, steps, where, derived)
    requires SaidEmpty(types, steps, where, derived)
    ensures Fits(w, Written(steps, where)) && RunAll(w, Written(steps, where)) == []
  {
    WrittenFits(w, steps, where);
    FalseConditionIff(steps, where);
    var rows := RunAll(w, Written(steps, where));
    if rows != [] {
      var f := rows[0];
      ResultSatisfiesFolded(w, steps, where, f);
      ResultSatisfies(w, types, steps, where, derived, f);
      if i :| 0 <= i < |Loaded(steps, where)| && FoldsToEmpty(steps, Loaded(steps, where)[i]) {
        FalseConjunctMeansEmpty(w, steps, where, i, f);
      } else if Conflicting(types, steps, FoldedList(steps, where)) {
        ConflictMeansEmpty(w, types, steps, FoldedList(steps, where), f);
      } else {
        ContradictionMeansEmpty(w, types, steps, FoldedList(steps, where) + derived, f);
      }
    }
  }

  lemma {:induction false} MasksAreRefs(w: World, steps: seq<Step>, where: Option<Node>, cs: seq<Conjunct>, d: Conjunct)
    requires Setup(w, steps, where, cs, false) && d in Final(steps, cs, false) && d.destination.OnClause?
    ensures d.mask == Refs(d.node) && (d.unresolved <==> Unresolved(d.node))
    ensures forall r <- d.mask :: r <= d.target
  {
    FinalMember(steps, cs, false, d);
    var c :| c in cs && d == Destined(Converted(steps, cs), c);
    DestinedKeeps(Converted(steps, cs), c);
    if c.fromWhere {
      WhereGoes(w, steps, where, cs, c);
    } else {
      OnGoes(w, steps, where, cs, c);
      OnReadsUpToStep(w, steps, where, c);
    }
  }

  lemma {:induction false} DestinedKeeps(steps: seq<Step>, c: Conjunct)
    ensures var d := Destined(steps, c);
            d.node == c.node && d.mask == c.mask && d.unresolved == c.unresolved && (d.destination.Dropped? <==> c.destination.Dropped?)
  {
  }

  lemma {:induction false} OnReadsUpToStep(w: World, steps: seq<Step>, where: Option<Node>, c: Conjunct)
    requires Query(w, steps, where) && IsOnConjunct(c, steps)
    ensures forall r <- c.mask :: r <= c.step
  {
  }

  /** The final list of a query that is not always empty can be reordered, when
      the guard of the search says so. */
  lemma {:induction false} FinalIsPlaceable(w: World, types: Schema, steps: seq<Step>, where: Option<Node>, cs: seq<Conjunct>)
    requires Typed(w, types) && Setup(w, steps, where, cs, false)
    requires AllowsReorder(Final(steps, cs, false), GroupSize(Converted(steps, cs), 1))
    ensures Placeable(w, types, Converted(steps, cs), Final(steps, cs, false), GroupSize(Converted(steps, cs), 1))
  {
    var now, final := Converted(steps, cs), Final(steps, cs, false);
    var g := GroupSize(now, 1);
    NothingOnTheFirst(w, steps, where, cs, false);
    assert !now[0].nullSupplying && now[0].kind.Inner?;
    forall d | d in final && d.destination.Filter? && d.target < g
      ensures !Unresolved(d.node) && Refs(d.node) <= {d.target}
    {
      FinalIsSound(w, steps, where, cs, false, d);
    }
    forall d | d in final && d.destination.OnClause? && d.target < g
      ensures Refs(d.node) == d.mask && (d.unresolved <==> Unresolved(d.node)) && forall r <- d.mask :: r <= d.target
    {
      MasksAreRefs(w, steps, where, cs, d);
    }
  }
}
