/** Columns whose names differ in case only share an entry of the bounds table. The
    contradiction check reports only real contradictions exactly when no two columns
    of one kind share one. */
module SharedNames {
  import opened Predicates
  import opened Plans
  import opened Conjuncts
  import opened ColumnClasses
  import opened Equalities
  import opened Propagation
  import opened Contradiction

  /** The check looks at text columns and at number columns; each kind has its own
      part of an entry. */
  predicate Compares(t: ColumnType, text: bool) {
    if text then t.String8? else IsComparableNumber(t)
  }

  predicate SameKind(t: ColumnType, u: ColumnType) {
    (t.String8? && u.String8?) || (IsComparableNumber(t) && IsComparableNumber(u))
  }

  /** No table has two text columns or two number columns whose names differ in case only. */
  ghost predicate ClearNames(types: Schema) {
    forall r, i, j :: 0 <= r < |types| && 0 <= i < j < |types[r]| && SameKind(types[r][i].columnType, types[r][j].columnType) ==>
      !SameUpToCase(types[r][i].name, types[r][j].name)
  }

  lemma {:induction false} DistinctAreClear(types: Schema)
    requires DistinctNames(types)
    ensures ClearNames(types)
  {
  }

  lemma {:induction false} ClearTellsApart(types: Schema, a: ColumnRef, b: ColumnRef, text: bool)
    requires ClearNames(types) && SameKey(types, a, b)
    requires Compares(TypeOf(types, a), text) && Compares(TypeOf(types, b), text)
    ensures a == b
  {
    SameKeyIsEquivalence(types, a, b, b);
  }

  // ---- Clear names: a key is a column ----

  lemma {:induction false} KeyIsColumn(types: Schema, steps: seq<Step>, cs: seq<Conjunct>, x: ColumnRef, y: ColumnRef, text: bool)
    requires ClearNames(types) && SameKey(types, x, y) && Compares(TypeOf(types, y), text)
    ensures KeyComparisons(types, steps, cs, x, text) == ComparisonsOf(types, steps, cs, y)
  {
    if cs != [] {
      KeyIsColumn(types, steps, cs[..|cs| - 1], x, y, text);
      var found := ColumnComparison(types, steps, cs[|cs| - 1]);
      if found.Some? {
        var z := found.value.0;
        SameKeyIsEquivalence(types, x, y, z);
        SameKeyIsEquivalence(types, x, z, y);
        if SameKey(types, z, x) && TypeOf(types, z).String8? == text {
          ClearTellsApart(types, z, y, text);
        }
      }
    }
  }

  lemma {:induction false} KeyWithoutColumn(types: Schema, steps: seq<Step>, cs: seq<Conjunct>, x: ColumnRef, text: bool)
    requires forall y :: SameKey(types, x, y) ==> !Compares(TypeOf(types, y), text)
    ensures KeyComparisons(types, steps, cs, x, text) == []
  {
    if cs != [] {
      KeyWithoutColumn(types, steps, cs[..|cs| - 1], x, text);
      var found := ColumnComparison(types, steps, cs[|cs| - 1]);
      if found.Some? {
        SameKeyIsEquivalence(types, found.value.0, x, x);
      }
    }
  }

  lemma {:induction false} SameSatisfiable(t: ColumnType, u: ColumnType, some: seq<Comparison>, all: seq<Comparison>)
    requires t.String8? == u.String8? && Satisfiable(u, all) && forall c <- some :: c in all
    ensures Satisfiable(t, some)
  {
    var v :| OfKind(u, v) && AllowsAll(u, all, v);
    assert OfKind(t, v) && AllowsAll(t, some, v) by {
      forall c | c in some
        ensures Allows(t, c, v)
      {
        assert Allows(u, c, v);
      }
    }
  }

  lemma {:induction false} OwnInKey(types: Schema, steps: seq<Step>, cs: seq<Conjunct>, x: ColumnRef)
    ensures forall c <- ComparisonsOf(types, steps, cs, x) :: c in KeyComparisons(types, steps, cs, x, TypeOf(types, x).String8?)
  {
    if cs != [] {
      OwnInKey(types, steps, cs[..|cs| - 1], x);
    }
  }

  /** An unsatisfiable column is always reported. */
  lemma {:induction false} ContradictoryIsReported(types: Schema, steps: seq<Step>, cs: seq<Conjunct>)
    requires Contradictory(types, steps, cs)
    ensures KeyContradictory(types, steps, cs)
  {
    var x :| !Satisfiable(TypeOf(types, x), ComparisonsOf(types, steps, cs, x));
    var text := TypeOf(types, x).String8?;
    OwnInKey(types, steps, cs, x);
    if Satisfiable(KindType(text), KeyComparisons(types, steps, cs, x, text)) {
      SameSatisfiable(TypeOf(types, x), KindType(text), ComparisonsOf(types, steps, cs, x), KeyComparisons(types, steps, cs, x, text));
    }
  }

  /** With clear names the check is about single columns. */
  lemma {:induction false} ClearReports(types: Schema, steps: seq<Step>, cs: seq<Conjunct>)
    requires ClearNames(types)
    ensures KeyContradictory(types, steps, cs) <==> Contradictory(types, steps, cs)
  {
    if KeyContradictory(types, steps, cs) {
      var x, text :| !Satisfiable(KindType(text), KeyComparisons(types, steps, cs, x, text));
      if y :| SameKey(types, x, y) && Compares(TypeOf(types, y), text) {
        KeyIsColumn(types, steps, cs, x, y, text);
        if Satisfiable(TypeOf(types, y), ComparisonsOf(types, steps, cs, y)) {
          SameSatisfiable(KindType(text), TypeOf(types, y), ComparisonsOf(types, steps, cs, y), ComparisonsOf(types, steps, cs, y));
        }
      } else {
        KeyWithoutColumn(types, steps, cs, x, text);
        assert OfKind(KindType(text), if text then Str("") else Num(0.0));
      }
    }
    if Contradictory(types, steps, cs) {
      ContradictoryIsReported(types, steps, cs);
    }
  }

  // ---- Shared names: a report about a list that a row satisfies ----

  /** Two columns with one key, pinned to different constants of one kind, are called
      impossible. */
  lemma {:induction false} SharedEntry(types: Schema, steps: seq<Step>, a: ColumnRef, b: ColumnRef, x: Node, y: Node)
    requires SameKey(types, a, b) && KeepsItsRows(steps, a.rel)
    requires LiteralFits(types, a, x) && LiteralFits(types, b, y) && LiteralsConflict(x, y)
    ensures KeyContradictory(types, steps, [DerivedConjunct(a, x), DerivedConjunct(b, y)])
  {
    var first, second := DerivedConjunct(a, x), DerivedConjunct(b, y);
    var cs, text := [first, second], x.Literal?;
    assert |first.mask| == 1 && |second.mask| == 1;
    assert ColumnComparison(types, steps, first) == Some((a, Comparison(Eq, x)));
    assert ColumnComparison(types, steps, second) == Some((b, Comparison(Eq, y)));
    SameKeyIsEquivalence(types, a, b, b);
    var found := KeyComparisons(types, steps, cs, a, text);
    KeyComparisonsStep(types, steps, cs, 0, a, text);
    KeyComparisonsStep(types, steps, cs, 1, a, text);
    assert cs[..0] == [] && cs[..2] == cs;
    assert found == [Comparison(Eq, x), Comparison(Eq, y)];
    forall v | OfKind(KindType(text), v)
      ensures !AllowsAll(KindType(text), found, v)
    {
      assert Comparison(Eq, x) in found && Comparison(Eq, y) in found;
    }
  }

  /** A table with one tuple that has the two constants and otherwise NULLs. */
  function PairTuple(n: nat, i: nat, j: nat, x: Value, y: Value): Tuple {
    seq(n, k => if k == i then x else if k == j then y else Null)
  }

  function PairWorld(n: nat, r: nat, t: Tuple): World {
    World(seq(n, k => if k == r then [t] else []), (op, a, b) => false, (f, a) => Null, (f, a, b) => Null,
          (f, args) => Null, (name, row) => Null, (kind, row) => Null, (kind, row, v) => Unknown)
  }

  lemma {:induction false} PairTyped(types: Schema, a: ColumnRef, b: ColumnRef, x: Node, y: Node)
    requires IsColumn(types, a) && IsColumn(types, b) && a.rel == b.rel
    requires LiteralFits(types, a, x) && LiteralFits(types, b, y)
    ensures Typed(PairWorld(|types|, a.rel, PairTuple(|types[a.rel]|, a.col, b.col, LiteralValue(x), LiteralValue(y))), types)
  {
    var t := PairTuple(|types[a.rel]|, a.col, b.col, LiteralValue(x), LiteralValue(y));
    var w := PairWorld(|types|, a.rel, t);
    forall row: Row, c: ColumnRef | Stored(w, row)
      ensures HasType(TypeOf(types, c), ValueAt(row, c.rel, c.col))
    {
      if !ValueAt(row, c.rel, c.col).Null? {
        assert row[c.rel].value in w.tables[c.rel];
        assert row[c.rel].value == t && c.rel == a.rel;
      }
    }
  }

  lemma {:induction false} PairSatisfies(types: Schema, steps: seq<Step>, a: ColumnRef, b: ColumnRef, x: Node, y: Node) returns (w: World, row: Row)
    requires IsColumn(types, a) && IsColumn(types, b) && a.rel == b.rel && a.col != b.col
    requires LiteralFits(types, a, x) && LiteralFits(types, b, y)
    ensures Typed(w, types) && Stored(w, row)
    ensures Satisfies(w, steps, [DerivedConjunct(a, x), DerivedConjunct(b, y)], row)
  {
    var t := PairTuple(|types[a.rel]|, a.col, b.col, LiteralValue(x), LiteralValue(y));
    w := PairWorld(|types|, a.rel, t);
    row := seq(|types|, k => if k == a.rel then Some(t) else None);
    PairTyped(types, a, b, x, y);
    assert Stored(w, row);
    assert ValueAt(row, a.rel, a.col) == LiteralValue(x) && ValueAt(row, b.rel, b.col) == LiteralValue(y);
    PinMeans(w, types, a, x, Eq, row);
    PinMeans(w, types, b, y, Eq, row);
  }

  /** Two columns of one kind that share an entry: a list that the check reports
      and that a stored row satisfies. */
  lemma {:induction false} SharedMisleads(types: Schema, steps: seq<Step>, a: ColumnRef, b: ColumnRef)
    returns (w: World, cs: seq<Conjunct>, row: Row)
    requires IsColumn(types, a) && IsColumn(types, b) && a != b && SameKey(types, a, b) && KeepsItsRows(steps, a.rel)
    requires SameKind(TypeOf(types, a), TypeOf(types, b))
    ensures |cs| <= OPT_MAX_CONJUNCTS && Typed(w, types) && Stored(w, row)
    ensures KeyContradictory(types, steps, cs) && Satisfies(w, steps, cs, row)
  {
    var x, y := Numeric(1.0), Numeric(2.0);
    if TypeOf(types, a).String8? {
      x, y := Literal("a"), Literal("b");
    }
    cs := [DerivedConjunct(a, x), DerivedConjunct(b, y)];
    SharedEntry(types, steps, a, b, x, y);
    w, row := PairSatisfies(types, steps, a, b, x, y);
  }

  /** The check reports only lists that no row satisfies if and only if no table has
      two text columns or two number columns whose names differ in case only. */
  lemma {:induction false} ReportsAreRealIff(types: Schema)
    ensures ClearNames(types) <==>
            forall w: World, steps, cs, row ::
              |cs| <= OPT_MAX_CONJUNCTS && Typed(w, types) && Stored(w, row) && KeyContradictory(types, steps, cs) ==> !Satisfies(w, steps, cs, row)
  {
    if ClearNames(types) {
      forall w: World, steps, cs, row | Typed(w, types) && Stored(w, row) && KeyContradictory(types, steps, cs)
        ensures !Satisfies(w, steps, cs, row)
      {
        ClearReports(types, steps, cs);
        ContradictionMeansEmpty(w, types, steps, cs, row);
      }
    } else {
      var r, i, j :| 0 <= r < |types| && 0 <= i < j < |types[r]| && SameKind(types[r][i].columnType, types[r][j].columnType)
        && SameUpToCase(types[r][i].name, types[r][j].name);
      var w, cs, row := SharedMisleads(types, [], ColumnRef(r, i), ColumnRef(r, j));
    }
  }

  /** The row (1, 2) of a table with columns id and ID satisfies id = 1 AND ID = 2,
      but both are one column to the optimizer. */
  lemma {:induction false} SharedNameCounterexample(w: World) returns (types: Schema, a: ColumnRef, b: ColumnRef, row: Row)
    ensures types == [[ColumnDef("id", U32), ColumnDef("ID", U32)]] && !DistinctNames(types)
    ensures a != b && SameKey(types, a, b) && TypeOf(types, a).U32? && TypeOf(types, b).U32?
    ensures row == [Some([Num(1.0), Num(2.0)])]
    ensures Holds(w, Binary(And, Binary(Eq, ColumnNode(a), Numeric(1.0)), Binary(Eq, ColumnNode(b), Numeric(2.0))), row)
  {
    types, a, b := [[ColumnDef("id", U32), ColumnDef("ID", U32)]], ColumnRef(0, 0), ColumnRef(0, 1);
    row := [Some([Num(1.0), Num(2.0)])];
    assert SameUpToCase(types[0][0].name, types[0][1].name);
    var left, right := Binary(Eq, ColumnNode(a), Numeric(1.0)), Binary(Eq, ColumnNode(b), Numeric(2.0));
    assert Eval(w, left.left, row) == Num(1.0) && Eval(w, left.right, row) == Num(1.0);
    assert Eval(w, right.left, row) == Num(2.0) && Eval(w, right.right, row) == Num(2.0);
    assert Eval(w, left, row) == Num(1.0) && Eval(w, right, row) == Num(1.0);
  }
}
