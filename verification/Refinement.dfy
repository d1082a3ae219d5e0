/** When one pipeline may replace another without changing a single row.

    A condition is certain for a query when every row of the result makes it
    true. Testing a certain condition as soon as the relations it reads are
    joined only removes partial rows that would not have reached the result. */
module Refinement {
  import opened Predicates
  import opened Plans

  /** Stage k brings in relation k, for all relations. */
  predicate InOrder(w: World, p: Pipeline) {
    && |p.stages| == |w.tables|
    && Fits(w, p)
    && forall k :: 0 <= k < |p.stages| ==> p.stages[k].rel == k
  }

  predicate BlankFrom(row: Row, k: nat) {
    forall j :: k <= j < |row| ==> row[j].None?
  }

  function Truncate(row: Row, k: nat): (cut: Row)
    ensures |cut| == |row|
  {
    seq(|row|, j requires 0 <= j < |row| => if j < k then row[j] else None)
  }

  lemma {:induction false} FromTuple(w: World, p: Pipeline, k: nat, row: Row, i: nat, f: Row) returns (j: nat)
    requires Fits(w, p) && k < |p.stages| && |row| == |w.tables|
    requires i <= |w.tables[p.stages[k].rel]|
    requires f in RunTuples(w, p, k, row, i)
    ensures var s := p.stages[k];
            i <= j < |w.tables[s.rel]| && Passes(w, s, row, w.tables[s.rel][j])
            && f in Run(w, p, k + 1, row[s.rel := Some(w.tables[s.rel][j])])
    decreases |w.tables[p.stages[k].rel]| - i
  {
    var s := p.stages[k];
    var t := w.tables[s.rel][i];
    if Passes(w, s, row, t) && f in Run(w, p, k + 1, row[s.rel := Some(t)]) {
      j := i;
    } else {
      j := FromTuple(w, p, k, row, i + 1, f);
    }
  }

  lemma {:induction false} ToTuple(w: World, p: Pipeline, k: nat, row: Row, i: nat, j: nat, f: Row)
    requires Fits(w, p) && k < |p.stages| && |row| == |w.tables|
    requires i <= j < |w.tables[p.stages[k].rel]|
    requires var s := p.stages[k];
             Passes(w, s, row, w.tables[s.rel][j]) && f in Run(w, p, k + 1, row[s.rel := Some(w.tables[s.rel][j])])
    ensures f in RunTuples(w, p, k, row, i)
    decreases j - i
  {
    if i < j {
      ToTuple(w, p, k, row, i + 1, j, f);
    }
  }

  /** A result row extends the partial row it comes from, satisfies WHERE, and
      satisfied the ON clause of every later step that is not a left join. */
  lemma {:induction false} Survivor(w: World, p: Pipeline, k: nat, row: Row, f: Row)
    requires InOrder(w, p) && k <= |p.stages| && |row| == |w.tables| && BlankFrom(row, k)
    requires Stored(w, row) && f in Run(w, p, k, row)
    ensures Stored(w, f)
    ensures |f| == |row| && (forall j :: 0 <= j < k ==> f[j] == row[j])
    ensures AllHold(w, p.residual, f)
    ensures forall s :: k <= s < |p.stages| && !p.stages[s].kind.Left? ==> AllHold(w, p.stages[s].on, Truncate(f, s + 1))
    decreases |p.stages| - k
  {
    if k < |p.stages| {
      var s := p.stages[k];
      if s.kind.Left? && !HasMatch(w, s, row) {
        Survivor(w, p, k + 1, row, f);
      } else {
        var j := FromTuple(w, p, k, row, 0, f);
        var next := row[k := Some(w.tables[k][j])];
        Survivor(w, p, k + 1, next, f);
        assert Truncate(f, k + 1) == next;
      }
    }
  }

  /** Every row of the query's result makes the condition true. */
  ghost predicate Certain(w: World, o: Pipeline, c: Node)
    requires Fits(w, o)
  {
    forall f :: f in RunAll(w, o) ==> Holds(w, c, f)
  }

  ghost predicate AlwaysTrue(w: World, c: Node) {
    forall row :: Holds(w, c, row)
  }

  predicate ReadsUpTo(c: Node, k: int) {
    !Unresolved(c) && forall r <- Refs(c) :: r <= k
  }

  predicate PlacedAt(p: Pipeline, k: nat, c: Node)
    requires k < |p.stages|
  {
    c in p.stages[k].filters || c in p.stages[k].on
  }

  predicate TestedBefore(p: Pipeline, k: nat, c: Node)
    requires k <= |p.stages|
  {
    exists j: nat :: j < k && !p.stages[j].kind.Left? && PlacedAt(p, j, c) && ReadsUpTo(c, j)
  }

  /** Stage k of p may replace stage k of o. */
  ghost predicate StageRefines(w: World, o: Pipeline, p: Pipeline, k: nat)
    requires InOrder(w, o) && InOrder(w, p) && k < |w.tables|
  {
    var so, sp := o.stages[k], p.stages[k];
    && so.filters == []
    && (forall c <- sp.filters :: !Unresolved(c) && Refs(c) <= {k})
    && if sp.kind.Left? then
         && so.kind.Left?
         && (forall c :: PlacedAt(p, k, c) ==> c in so.on)
         && (forall c <- so.on :: AlwaysTrue(w, c) || PlacedAt(p, k, c))
       else
         && (forall c :: PlacedAt(p, k, c) ==> c in so.on || (ReadsUpTo(c, k) && Certain(w, o, c)))
         && (forall c <- so.on :: AlwaysTrue(w, c) || PlacedAt(p, k, c) || TestedBefore(p, k, c))
         && (so.kind.Left? ==> exists c <- o.residual :: !Unresolved(c) && RejectsNull(c, k))
  }

  ghost predicate ResidualRefines(w: World, o: Pipeline, p: Pipeline) {
    && (forall c <- p.residual :: c in o.residual)
    && (forall c <- o.residual :: AlwaysTrue(w, c) || c in p.residual || TestedBefore(p, |p.stages|, c))
  }

  ghost predicate Refines(w: World, o: Pipeline, p: Pipeline) {
    && InOrder(w, o) && InOrder(w, p)
    && (forall k :: 0 <= k < |w.tables| ==> StageRefines(w, o, p, k))
    && ResidualRefines(w, o, p)
  }

  /** The row made true what p tested on the way to it. */
  ghost predicate Consistent(w: World, p: Pipeline, k: nat, row: Row)
    requires k <= |p.stages|
  {
    forall c :: TestedBefore(p, k, c) ==> Holds(w, c, row)
  }

  lemma {:induction false} HoldsOnExtension(w: World, c: Node, k: nat, a: Row, b: Row)
    requires ReadsUpTo(c, k) && |a| == |b| && (forall j :: 0 <= j <= k && j < |a| ==> a[j] == b[j])
    ensures Holds(w, c, a) <==> Holds(w, c, b)
  {
    EvalReadsOnlyRefs(w, c, a, b);
  }

  lemma {:induction false} FilterHolds(w: World, c: Node, k: nat, row: Row, t: Tuple)
    requires !Unresolved(c) && Refs(c) <= {k} && k < |w.tables| && |row| == |w.tables|
    ensures Holds(w, c, Single(w, k, t)) <==> Holds(w, c, row[k := Some(t)])
  {
    EvalReadsOnlyRefs(w, c, Single(w, k, t), row[k := Some(t)]);
  }

  lemma {:induction false} PassesMeansPlacedHold(w: World, o: Pipeline, p: Pipeline, k: nat, row: Row, t: Tuple)
    requires Refines(w, o, p) && k < |w.tables| && |row| == |w.tables|
    ensures Passes(w, p.stages[k], row, t) <==> forall c :: PlacedAt(p, k, c) ==> Holds(w, c, row[k := Some(t)])
  {
    var s := p.stages[k];
    assert StageRefines(w, o, p, k);
    forall c | c in s.filters
      ensures Holds(w, c, Single(w, k, t)) <==> Holds(w, c, row[k := Some(t)])
    {
      FilterHolds(w, c, k, row, t);
    }
    assert forall c :: c in s.filters || c in s.on ==> PlacedAt(p, k, c);
  }

  lemma {:induction false} ConsistentStep(w: World, o: Pipeline, p: Pipeline, k: nat, row: Row, next: Row)
    requires Refines(w, o, p) && k < |w.tables| && |row| == |w.tables| == |next|
    requires Consistent(w, p, k, row) && (forall j :: 0 <= j < k ==> next[j] == row[j])
    requires p.stages[k].kind.Left? || forall c :: PlacedAt(p, k, c) ==> Holds(w, c, next)
    ensures Consistent(w, p, k + 1, next)
  {
    forall c | TestedBefore(p, k + 1, c)
      ensures Holds(w, c, next)
    {
      var j: nat :| j < k + 1 && !p.stages[j].kind.Left? && PlacedAt(p, j, c) && ReadsUpTo(c, j);
      if j < k {
        assert TestedBefore(p, k, c);
        HoldsOnExtension(w, c, j, row, next);
      }
    }
  }

  /** What one tuple contributes at stage k. */
  function Piece(w: World, p: Pipeline, k: nat, row: Row, t: Tuple): seq<Row>
    requires Fits(w, p) && k < |p.stages| && |row| == |w.tables|
  {
    var s := p.stages[k];
    if Passes(w, s, row, t) then Run(w, p, k + 1, row[s.rel := Some(t)]) else []
  }

  lemma {:induction false} SamePieces(w: World, o: Pipeline, p: Pipeline, k: nat, row: Row, i: nat)
    requires InOrder(w, o) && InOrder(w, p) && k < |w.tables| && |row| == |w.tables| && i <= |w.tables[k]|
    requires forall t <- w.tables[k] :: Piece(w, o, k, row, t) == Piece(w, p, k, row, t)
    ensures RunTuples(w, o, k, row, i) == RunTuples(w, p, k, row, i)
    decreases |w.tables[k]| - i
  {
    if i < |w.tables[k]| {
      SamePieces(w, o, p, k, row, i + 1);
      assert Piece(w, o, k, row, w.tables[k][i]) == Piece(w, p, k, row, w.tables[k][i]);
    }
  }

  lemma {:induction false} NoPieces(w: World, o: Pipeline, k: nat, row: Row, i: nat)
    requires InOrder(w, o) && k < |w.tables| && |row| == |w.tables| && i <= |w.tables[k]|
    requires !HasMatch(w, o.stages[k], row)
    ensures RunTuples(w, o, k, row, i) == []
    decreases |w.tables[k]| - i
  {
    if i < |w.tables[k]| {
      NoPieces(w, o, k, row, i + 1);
    }
  }

  ghost predicate Reachable(w: World, o: Pipeline, k: nat, row: Row)
    requires Fits(w, o)
  {
    && k <= |o.stages| && Stored(w, row) && BlankFrom(row, k)
    && forall f :: f in Run(w, o, k, row) ==> f in RunAll(w, o)
  }

  lemma {:induction false} ReachableStep(w: World, o: Pipeline, k: nat, row: Row, t: Tuple)
    requires InOrder(w, o) && k < |w.tables| && Reachable(w, o, k, row)
    requires t in w.tables[k] && Passes(w, o.stages[k], row, t)
    ensures Reachable(w, o, k + 1, row[k := Some(t)])
  {
    var j :| 0 <= j < |w.tables[k]| && w.tables[k][j] == t;
    forall f | f in Run(w, o, k + 1, row[k := Some(t)])
      ensures f in RunAll(w, o)
    {
      ToTuple(w, o, k, row, 0, j, f);
      assert f in Run(w, o, k, row);
    }
  }

  /** Where p fills up with NULLs no more, the rows filled up did not survive. */
  lemma {:induction false} ConvertedLeftJoin(w: World, o: Pipeline, p: Pipeline, k: nat, row: Row)
    requires Refines(w, o, p) && k < |w.tables| && Reachable(w, o, k, row)
    requires !p.stages[k].kind.Left?
    ensures Run(w, o, k, row) == RunTuples(w, o, k, row, 0)
  {
    assert StageRefines(w, o, p, k);
    hide StageRefines, RejectsNull, Reachable;
    if o.stages[k].kind.Left? && !HasMatch(w, o.stages[k], row) {
      NoPieces(w, o, k, row, 0);
      var c :| c in o.residual && !Unresolved(c) && RejectsNull(c, k);
      if Run(w, o, k + 1, row) != [] {
        var f := Run(w, o, k + 1, row)[0];
        Survivor(w, o, k + 1, row, f);
        RejectsNullSound(w, c, k, f);
        assert false;
      }
    }
  }

  /** A tuple that fails in p, at a stage that is not a left join, leads nowhere in o. */
  lemma {:induction false} FailedTupleIsDead(w: World, o: Pipeline, p: Pipeline, k: nat, row: Row, t: Tuple)
    requires Refines(w, o, p) && k < |w.tables| && Reachable(w, o, k, row)
    requires !p.stages[k].kind.Left? && t in w.tables[k]
    requires !Passes(w, p.stages[k], row, t)
    ensures Piece(w, o, k, row, t) == []
  {
    var next := row[k := Some(t)];
    assert StageRefines(w, o, p, k);
    PassesMeansPlacedHold(w, o, p, k, row, t);
    var c :| PlacedAt(p, k, c) && !Holds(w, c, next);
    if Passes(w, o.stages[k], row, t) {
      assert c !in o.stages[k].on;
      ReachableStep(w, o, k, row, t);
      if Run(w, o, k + 1, next) != [] {
        var f := Run(w, o, k + 1, next)[0];
        Survivor(w, o, k + 1, next, f);
        HoldsOnExtension(w, c, k, f, next);
        assert false;
      }
    }
  }

  lemma {:induction false} PassesInBoth(w: World, o: Pipeline, p: Pipeline, k: nat, row: Row, t: Tuple)
    requires Refines(w, o, p) && k < |w.tables| && |row| == |w.tables|
    requires Consistent(w, p, k, row)
    ensures Passes(w, p.stages[k], row, t) ==> Passes(w, o.stages[k], row, t)
    ensures p.stages[k].kind.Left? && Passes(w, o.stages[k], row, t) ==> Passes(w, p.stages[k], row, t)
  {
    var next := row[k := Some(t)];
    assert StageRefines(w, o, p, k);
    PassesMeansPlacedHold(w, o, p, k, row, t);
    if Passes(w, p.stages[k], row, t) {
      forall c | c in o.stages[k].on
        ensures Holds(w, c, next)
      {
        if TestedBefore(p, k, c) {
          var j: nat :| j < k && !p.stages[j].kind.Left? && PlacedAt(p, j, c) && ReadsUpTo(c, j);
          HoldsOnExtension(w, c, j, row, next);
        }
      }
    }
  }

  lemma {:induction false} RefinesTuple(w: World, o: Pipeline, p: Pipeline, k: nat, row: Row, t: Tuple)
    requires Refines(w, o, p) && k < |w.tables| && Reachable(w, o, k, row) && Consistent(w, p, k, row)
    requires t in w.tables[k]
    ensures Piece(w, o, k, row, t) == Piece(w, p, k, row, t)
    decreases |w.tables| - k, 0
  {
    PassesInBoth(w, o, p, k, row, t);
    if Passes(w, p.stages[k], row, t) {
      var next := row[k := Some(t)];
      ReachableStep(w, o, k, row, t);
      PassesMeansPlacedHold(w, o, p, k, row, t);
      ConsistentStep(w, o, p, k, row, next);
      RefinesFrom(w, o, p, k + 1, next);
    } else if !p.stages[k].kind.Left? {
      FailedTupleIsDead(w, o, p, k, row, t);
    }
  }

  lemma {:induction false} RefinesFrom(w: World, o: Pipeline, p: Pipeline, k: nat, row: Row)
    requires Refines(w, o, p) && k <= |w.tables| && Reachable(w, o, k, row) && Consistent(w, p, k, row)
    ensures Run(w, o, k, row) == Run(w, p, k, row)
    decreases |w.tables| - k, 1
  {
    if k == |w.tables| {
      assert AllHold(w, o.residual, row) <==> AllHold(w, p.residual, row);
    } else {
      forall t | t in w.tables[k]
        ensures Piece(w, o, k, row, t) == Piece(w, p, k, row, t)
      {
        RefinesTuple(w, o, p, k, row, t);
      }
      SamePieces(w, o, p, k, row, 0);
      if p.stages[k].kind.Left? {
        SameMatches(w, o, p, k, row);
        if !HasMatch(w, o.stages[k], row) {
          ConsistentStep(w, o, p, k, row, row);
          RefinesFrom(w, o, p, k + 1, row);
        }
      } else {
        ConvertedLeftJoin(w, o, p, k, row);
      }
    }
  }

  lemma {:induction false} SameMatches(w: World, o: Pipeline, p: Pipeline, k: nat, row: Row)
    requires Refines(w, o, p) && k < |w.tables| && |row| == |w.tables| && Consistent(w, p, k, row)
    requires p.stages[k].kind.Left?
    ensures o.stages[k].kind.Left?
    ensures HasMatch(w, o.stages[k], row) <==> HasMatch(w, p.stages[k], row)
  {
    assert StageRefines(w, o, p, k);
    forall t | t in w.tables[k]
      ensures Passes(w, o.stages[k], row, t) <==> Passes(w, p.stages[k], row, t)
    {
      PassesInBoth(w, o, p, k, row, t);
    }
  }

  /** A refinement returns the same rows in the same order. */
  lemma {:induction false} RefinementKeepsRows(w: World, o: Pipeline, p: Pipeline)
    requires Refines(w, o, p)
    ensures RunAll(w, p) == RunAll(w, o)
  {
    RefinesFrom(w, o, p, 0, Blank(w));
  }
}
