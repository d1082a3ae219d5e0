/** Contradiction detection: the comparisons WHERE makes with one column are folded
    into bounds, and the bounds are impossible exactly when no value satisfies all
    of the comparisons. */
module Contradiction {
  import opened Predicates
  import opened Plans
  import opened Conjuncts
  import opened ColumnClasses
  import opened Equalities
  import opened Propagation

  /** A bound, which a strict comparison excludes itself. */
  datatype Limit = Limit(value: real, strict: bool)

  /** What is known about one column. */
  datatype ColumnBounds = ColumnBounds(
    column: ColumnRef,
    lower: Option<Limit>,
    upper: Option<Limit>,
    equal: Option<real>,
    equalString: Option<string>)

  function NoBounds(column: ColumnRef): ColumnBounds {
    ColumnBounds(column, None, None, None, None)
  }

  predicate Above(lower: Option<Limit>, x: real) {
    lower.Some? ==> x > lower.value.value || (x == lower.value.value && !lower.value.strict)
  }

  predicate Below(upper: Option<Limit>, x: real) {
    upper.Some? ==> x < upper.value.value || (x == upper.value.value && !upper.value.strict)
  }

  predicate BoundsAreContradictory(b: ColumnBounds) {
    || (b.lower.Some? && b.upper.Some?
        && (b.lower.value.value > b.upper.value.value
            || (b.lower.value.value == b.upper.value.value && (b.lower.value.strict || b.upper.value.strict))))
    || (b.equal.Some? && b.lower.Some?
        && (b.equal.value < b.lower.value.value || (b.equal.value == b.lower.value.value && b.lower.value.strict)))
    || (b.equal.Some? && b.upper.Some?
        && (b.equal.value > b.upper.value.value || (b.equal.value == b.upper.value.value && b.upper.value.strict)))
  }

  /** The bounds a numeric comparison leaves, before the check for a contradiction. */
  function Tightened(b: ColumnBounds, op: BinaryOp, v: real): ColumnBounds {
    if IsEquality(op) then b.(equal := Some(v))
    else if op.Gt? && (b.lower.None? || v >= b.lower.value.value) then b.(lower := Some(Limit(v, true)))
    else if op.Ge? && (b.lower.None? || v > b.lower.value.value) then b.(lower := Some(Limit(v, false)))
    else if op.Lt? && (b.upper.None? || v <= b.upper.value.value) then b.(upper := Some(Limit(v, true)))
    else if op.Le? && (b.upper.None? || v < b.upper.value.value) then b.(upper := Some(Limit(v, false)))
    else b
  }

  /** The bounds after one comparison, and whether it makes them impossible. */
  function BoundsApply(b: ColumnBounds, op: BinaryOp, literal: Node, t: ColumnType): (ColumnBounds, bool) {
    if t.String8? then
      if !literal.Literal? || !IsEquality(op) then (b, false)
      else if b.equalString.Some? && b.equalString.value != literal.text then (b, true)
      else (b.(equalString := Some(literal.text)), false)
    else if !literal.Numeric? then (b, false)
    else if IsEquality(op) && b.equal.Some? && b.equal.value != literal.value then (b, true)
    else
      var tightened := Tightened(b, op, literal.value);
      (tightened, BoundsAreContradictory(tightened))
  }

  // ---- What bounds allow ----

  /** One comparison of a column with a literal. */
  datatype Comparison = Comparison(op: BinaryOp, literal: Node)

  predicate Restricts(op: BinaryOp) {
    IsEquality(op) || op.Lt? || op.Le? || op.Gt? || op.Ge?
  }

  /** A value satisfies a comparison; one that bounds cannot express excludes nothing. */
  predicate Allows(t: ColumnType, c: Comparison, v: Value) {
    if t.String8? then
      c.literal.Literal? && IsEquality(c.op) ==> v == Str(c.literal.text)
    else
      c.literal.Numeric? && Restricts(c.op) ==> v.Num? && NumbersCompare(c.op, v.number, c.literal.value)
  }

  predicate AllowsAll(t: ColumnType, cs: seq<Comparison>, v: Value) {
    forall c <- cs :: Allows(t, c, v)
  }

  /** A string for a string column, a number for another one. */
  predicate OfKind(t: ColumnType, v: Value) {
    if t.String8? then v.Str? else v.Num?
  }

  ghost predicate Satisfiable(t: ColumnType, cs: seq<Comparison>) {
    exists v :: OfKind(t, v) && AllowsAll(t, cs, v)
  }

  predicate WithinBounds(t: ColumnType, b: ColumnBounds, v: Value) {
    if t.String8? then b.equalString.Some? ==> v == Str(b.equalString.value)
    else
      && v.Num?
      && Above(b.lower, v.number) && Below(b.upper, v.number)
      && (b.equal.Some? ==> v.number == b.equal.value)
  }

  /** The bounds after a list of comparisons, None from the first impossible one on. */
  function FoldBounds(t: ColumnType, column: ColumnRef, cs: seq<Comparison>): Option<ColumnBounds> {
    if cs == [] then Some(NoBounds(column))
    else
      var before := FoldBounds(t, column, cs[..|cs| - 1]);
      if before.None? then None
      else
        var last := cs[|cs| - 1];
        var (after, impossible) := BoundsApply(before.value, last.op, last.literal, t);
        if impossible then None else Some(after)
  }

  lemma {:induction false} ContradictoryMeansEmpty(t: ColumnType, b: ColumnBounds)
    requires !t.String8?
    ensures BoundsAreContradictory(b) ==> forall v :: OfKind(t, v) ==> !WithinBounds(t, b, v)
    ensures !BoundsAreContradictory(b) ==> exists v :: OfKind(t, v) && WithinBounds(t, b, v)
  {
    if !BoundsAreContradictory(b) {
      var x :=
        if b.equal.Some? then b.equal.value
        else if b.lower.Some? && b.upper.Some? then (b.lower.value.value + b.upper.value.value) / 2.0
        else if b.lower.Some? then b.lower.value.value + 1.0
        else if b.upper.Some? then b.upper.value.value - 1.0
        else 0.0;
      assert OfKind(t, Num(x)) && WithinBounds(t, b, Num(x));
    }
  }

  lemma {:induction false} TightenedIsExact(t: ColumnType, b: ColumnBounds, op: BinaryOp, x: real, v: real)
    requires !t.String8? && !(IsEquality(op) && b.equal.Some? && b.equal.value != x)
    ensures WithinBounds(t, Tightened(b, op, x), Num(v)) <==>
            WithinBounds(t, b, Num(v)) && Allows(t, Comparison(op, Numeric(x)), Num(v))
  {
    match op
    case Gt => assert Above(Tightened(b, op, x).lower, v) <==> Above(b.lower, v) && v > x;
    case Ge => assert Above(Tightened(b, op, x).lower, v) <==> Above(b.lower, v) && v >= x;
    case Lt => assert Below(Tightened(b, op, x).upper, v) <==> Below(b.upper, v) && v < x;
    case Le => assert Below(Tightened(b, op, x).upper, v) <==> Below(b.upper, v) && v <= x;
    case _ =>
  }

  /** One step allows exactly the values that were allowed and pass the comparison. */
  lemma {:induction false} ApplyIsExact(t: ColumnType, b: ColumnBounds, c: Comparison, v: Value)
    requires OfKind(t, v)
    ensures var (after, impossible) := BoundsApply(b, c.op, c.literal, t);
            (!impossible ==> (WithinBounds(t, after, v) <==> WithinBounds(t, b, v) && Allows(t, c, v)))
            && (impossible ==> !(WithinBounds(t, b, v) && Allows(t, c, v)))
  {
    if !t.String8? && c.literal.Numeric? && !(IsEquality(c.op) && b.equal.Some? && b.equal.value != c.literal.value) {
      TightenedIsExact(t, b, c.op, c.literal.value, v.number);
      ContradictoryMeansEmpty(t, Tightened(b, c.op, c.literal.value));
    }
  }

  lemma {:induction false} AllowsAllSplit(t: ColumnType, cs: seq<Comparison>, v: Value)
    requires cs != []
    ensures AllowsAll(t, cs, v) <==> AllowsAll(t, cs[..|cs| - 1], v) && Allows(t, cs[|cs| - 1], v)
  {
    assert cs == cs[..|cs| - 1] + [cs[|cs| - 1]];
    assert forall c :: c in cs <==> c in cs[..|cs| - 1] || c == cs[|cs| - 1];
  }

  /** The bounds allow exactly the values that pass every comparison. */
  lemma {:induction false} BoundsAreExact(t: ColumnType, column: ColumnRef, cs: seq<Comparison>, v: Value)
    requires OfKind(t, v)
    ensures var b := FoldBounds(t, column, cs);
            if b.None? then !AllowsAll(t, cs, v) else (WithinBounds(t, b.value, v) <==> AllowsAll(t, cs, v))
  {
    if cs != [] {
      BoundsAreExact(t, column, cs[..|cs| - 1], v);
      AllowsAllSplit(t, cs, v);
      var before := FoldBounds(t, column, cs[..|cs| - 1]);
      if before.Some? {
        ApplyIsExact(t, before.value, cs[|cs| - 1], v);
      }
    }
  }

  lemma {:induction false} BoundsStayPossible(t: ColumnType, column: ColumnRef, cs: seq<Comparison>)
    ensures FoldBounds(t, column, cs).Some? && !t.String8? ==> !BoundsAreContradictory(FoldBounds(t, column, cs).value)
  {
    if cs != [] {
      BoundsStayPossible(t, column, cs[..|cs| - 1]);
    }
  }

  /** Impossible is reported if and only if no value satisfies all comparisons, in
      any order of arrival; comparisons other than =, <, <=, >, >= never matter. */
  lemma {:induction false} ImpossibleIffUnsatisfiable(t: ColumnType, column: ColumnRef, cs: seq<Comparison>)
    ensures FoldBounds(t, column, cs).None? <==> !Satisfiable(t, cs)
  {
    var b := FoldBounds(t, column, cs);
    if b.None? {
      forall v | OfKind(t, v)
        ensures !AllowsAll(t, cs, v)
      {
        BoundsAreExact(t, column, cs, v);
      }
    } else {
      BoundsStayPossible(t, column, cs);
      var v;
      if t.String8? {
        v := Str(if b.value.equalString.Some? then b.value.equalString.value else "");
      } else {
        ContradictoryMeansEmpty(t, b.value);
        v :| OfKind(t, v) && WithinBounds(t, b.value, v);
      }
      BoundsAreExact(t, column, cs, v);
      assert OfKind(t, v) && AllowsAll(t, cs, v);
    }
  }

  // ---- The comparisons of a query ----

  function FlipComparison(op: BinaryOp): BinaryOp {
    match op
    case Lt => Gt
    case Gt => Lt
    case Le => Ge
    case Ge => Le
    case _ => op
  }

  /** The column of a WHERE conjunct that compares one column with a literal. */
  function ColumnComparison(types: Schema, steps: seq<Step>, c: Conjunct): Option<(ColumnRef, Comparison)> {
    if !c.fromWhere || c.unresolved || c.destination.Dropped? || |c.mask| != 1 || !c.node.Binary? then None
    else
      var (column, literal, op) :=
        if c.node.left.Column? then (c.node.left, c.node.right, c.node.op)
        else (c.node.right, c.node.left, FlipComparison(c.node.op));
      if !column.Column? || !KeepsItsRows(steps, column.rel) then None
      else
        var x := ColumnRef(column.rel, column.col);
        if LiteralFits(types, x, literal) then Some((x, Comparison(op, literal))) else None
  }

  /** a < b says the same as b > a; an equality reads the same from both sides. */
  predicate Mirrors(op: BinaryOp, other: BinaryOp) {
    match op
    case Lt => other == Gt
    case Gt => other == Lt
    case Le => other == Ge
    case Ge => other == Le
    case _ => other == op
  }

  /** A resolved WHERE conjunct about one relation that compares a column with a literal
      of its kind, the column on either side, where the relation keeps its rows. */
  ghost predicate IsCompared(types: Schema, steps: seq<Step>, c: Conjunct, x: ColumnRef, op: BinaryOp, literal: Node) {
    && c.fromWhere && !c.unresolved && c.destination != Dropped && |c.mask| == 1
    && (c.node == Binary(op, Column(x.rel, x.col), literal)
        || exists other :: Mirrors(other, op) && c.node == Binary(other, literal, Column(x.rel, x.col)))
    && (if TypeOf(types, x).String8? then literal.Literal? else TypeOf(types, x) in NUMBER_TYPES && literal.Numeric?)
    && IsPreserved(steps, x.rel)
  }

  /** A conjunct restricts a column if and only if it is written so. */
  lemma {:induction false} ComparedIff(types: Schema, steps: seq<Step>, c: Conjunct, x: ColumnRef, op: BinaryOp, literal: Node)
    ensures ColumnComparison(types, steps, c) == Some((x, Comparison(op, literal))) <==> IsCompared(types, steps, c, x, op, literal)
  {
    if c.node.Binary? {
      assert Mirrors(c.node.op, FlipComparison(c.node.op));
    }
  }

  /** All comparisons with one column, in list order. */
  function ComparisonsOf(types: Schema, steps: seq<Step>, cs: seq<Conjunct>, x: ColumnRef): seq<Comparison> {
    if cs == [] then []
    else
      var last := ColumnComparison(types, steps, cs[|cs| - 1]);
      ComparisonsOf(types, steps, cs[..|cs| - 1], x) + if last.Some? && last.value.0 == x then [last.value.1] else []
  }

  ghost predicate Contradictory(types: Schema, steps: seq<Step>, cs: seq<Conjunct>) {
    exists x :: !Satisfiable(TypeOf(types, x), ComparisonsOf(types, steps, cs, x))
  }

  /** A true comparison allows the column's value. */
  lemma {:induction false} ComparisonAllows(w: World, types: Schema, steps: seq<Step>, c: Conjunct, row: Row)
    requires Typed(w, types) && Stored(w, row) && ColumnComparison(types, steps, c).Some?
    requires Holds(w, c.node, row)
    ensures var (x, comparison) := ColumnComparison(types, steps, c).value;
            Restricts(comparison.op) ==>
              OfKind(TypeOf(types, x), ValueAt(row, x.rel, x.col)) && Allows(TypeOf(types, x), comparison, ValueAt(row, x.rel, x.col))
  {
    var (x, comparison) := ColumnComparison(types, steps, c).value;
    var v := ValueAt(row, x.rel, x.col);
    assert HasType(TypeOf(types, x), v);
    if Restricts(comparison.op) {
      var op := c.node.op;
      var l, r := Eval(w, c.node.left, row), Eval(w, c.node.right, row);
      assert Eval(w, c.node, row) == ValueOf(Compare(w, op, l, r));
      assert Compare(w, op, l, r) == True;
      if c.node.left.Column? {
        assert l == v && r == LiteralValue(comparison.literal);
      } else {
        assert r == v && l == LiteralValue(comparison.literal);
      }
    }
  }

  lemma {:induction false} ComparisonsAllow(w: World, types: Schema, steps: seq<Step>, cs: seq<Conjunct>, x: ColumnRef, row: Row)
    requires Typed(w, types) && Stored(w, row) && Satisfies(w, steps, cs, row)
    ensures AllowsAll(TypeOf(types, x), ComparisonsOf(types, steps, cs, x), ValueAt(row, x.rel, x.col))
    ensures (exists c <- ComparisonsOf(types, steps, cs, x) :: Restricts(c.op)) ==> OfKind(TypeOf(types, x), ValueAt(row, x.rel, x.col))
  {
    if cs != [] {
      var init, last := cs[..|cs| - 1], cs[|cs| - 1];
      assert cs == init + [last];
      assert forall c :: c in init ==> c in cs;
      ComparisonsAllow(w, types, steps, init, x, row);
      var found := ColumnComparison(types, steps, last);
      if found.Some? && found.value.0 == x {
        assert last in cs;
        ComparisonAllows(w, types, steps, last, row);
        var before := ComparisonsOf(types, steps, init, x);
        assert forall c :: c in before + [found.value.1] <==> c in before || c == found.value.1;
      }
    }
  }

  /** A reported contradiction means that no row satisfies the conjuncts. */
  lemma {:induction false} ContradictionMeansEmpty(w: World, types: Schema, steps: seq<Step>, cs: seq<Conjunct>, row: Row)
    requires Typed(w, types) && Stored(w, row) && Contradictory(types, steps, cs)
    ensures !Satisfies(w, steps, cs, row)
  {
    if Satisfies(w, steps, cs, row) {
      var x :| !Satisfiable(TypeOf(types, x), ComparisonsOf(types, steps, cs, x));
      var t, list := TypeOf(types, x), ComparisonsOf(types, steps, cs, x);
      ComparisonsAllow(w, types, steps, cs, x, row);
      if !exists c <- list :: Restricts(c.op) {
        var v := if t.String8? then Str("") else Num(0.0);
        assert OfKind(t, v) && AllowsAll(t, list, v);
      }
    }
  }

  // ---- Columns of one key ----

  /** A key has one part for strings and one for numbers. */
  function KindType(text: bool): ColumnType {
    if text then String8 else U32
  }

  function KeyComparison(types: Schema, steps: seq<Step>, c: Conjunct, x: ColumnRef, text: bool): seq<Comparison> {
    var found := ColumnComparison(types, steps, c);
    if found.Some? && SameKey(types, found.value.0, x) && TypeOf(types, found.value.0).String8? == text then [found.value.1] else []
  }

  /** The comparisons of one kind with all columns that have the key of x, in list order. */
  function KeyComparisons(types: Schema, steps: seq<Step>, cs: seq<Conjunct>, x: ColumnRef, text: bool): seq<Comparison> {
    if cs == [] then []
    else KeyComparisons(types, steps, cs[..|cs| - 1], x, text) + KeyComparison(types, steps, cs[|cs| - 1], x, text)
  }

  /** For some key, the string or the number comparisons of all its columns exclude
      every value. */
  ghost predicate KeyContradictory(types: Schema, steps: seq<Step>, cs: seq<Conjunct>) {
    exists x, text :: !Satisfiable(KindType(text), KeyComparisons(types, steps, cs, x, text))
  }

  lemma {:induction false} SameKeyComparisons(types: Schema, steps: seq<Step>, cs: seq<Conjunct>, x: ColumnRef, y: ColumnRef, text: bool)
    requires SameKey(types, x, y)
    ensures KeyComparisons(types, steps, cs, x, text) == KeyComparisons(types, steps, cs, y, text)
  {
    if cs != [] {
      SameKeyComparisons(types, steps, cs[..|cs| - 1], x, y, text);
      var found := ColumnComparison(types, steps, cs[|cs| - 1]);
      if found.Some? {
        SameKeyIsEquivalence(types, found.value.0, x, y);
      }
    }
  }

  lemma {:induction false} KeyComparisonsAre(types: Schema, steps: seq<Step>, cs: seq<Conjunct>, x: ColumnRef, text: bool, comparison: Comparison)
    ensures comparison in KeyComparisons(types, steps, cs, x, text) <==>
            exists c <- cs, y :: SameKey(types, y, x) && TypeOf(types, y).String8? == text
              && IsCompared(types, steps, c, y, comparison.op, comparison.literal)
  {
    if cs != [] {
      var init, last := cs[..|cs| - 1], cs[|cs| - 1];
      KeyComparisonsAre(types, steps, init, x, text, comparison);
      assert cs == init + [last];
      if comparison in KeyComparison(types, steps, last, x, text) {
        var y := ColumnComparison(types, steps, last).value.0;
        ComparedIff(types, steps, last, y, comparison.op, comparison.literal);
        assert last in cs;
      }
      if y :| SameKey(types, y, x) && TypeOf(types, y).String8? == text && IsCompared(types, steps, last, y, comparison.op, comparison.literal) {
        ComparedIff(types, steps, last, y, comparison.op, comparison.literal);
      }
      assert forall c :: c in cs <==> c in init || c == last;
    }
  }

  /** A value of the kind passes what the conjuncts say of all columns with a key. */
  ghost predicate PassesKey(types: Schema, steps: seq<Step>, cs: seq<Conjunct>, x: ColumnRef, text: bool, v: Value) {
    && (if text then v.Str? else v.Num?)
    && forall c <- cs, y, op, literal ::
         SameKey(types, y, x) && TypeOf(types, y).String8? == text && IsCompared(types, steps, c, y, op, literal) ==>
           Allows(KindType(text), Comparison(op, literal), v)
  }

  ghost predicate NoValuePasses(types: Schema, steps: seq<Step>, cs: seq<Conjunct>, x: ColumnRef, text: bool) {
    forall v :: !PassesKey(types, steps, cs, x, text, v)
  }

  /** A list is contradictory if and only if for some key and one of the two kinds no
      value passes every written comparison. */
  lemma {:induction false} KeyContradictoryIff(types: Schema, steps: seq<Step>, cs: seq<Conjunct>)
    ensures KeyContradictory(types, steps, cs) <==> exists x, text :: NoValuePasses(types, steps, cs, x, text)
  {
    forall x, text
      ensures Satisfiable(KindType(text), KeyComparisons(types, steps, cs, x, text)) <==> !NoValuePasses(types, steps, cs, x, text)
    {
      forall v
        ensures PassesKey(types, steps, cs, x, text, v) <==>
                OfKind(KindType(text), v) && AllowsAll(KindType(text), KeyComparisons(types, steps, cs, x, text), v)
      {
        PassesKeyIff(types, steps, cs, x, text, v);
      }
    }
  }

  lemma {:induction false} PassesKeyIff(types: Schema, steps: seq<Step>, cs: seq<Conjunct>, x: ColumnRef, text: bool, v: Value)
    ensures PassesKey(types, steps, cs, x, text, v) <==>
            OfKind(KindType(text), v) && AllowsAll(KindType(text), KeyComparisons(types, steps, cs, x, text), v)
  {
    if PassesKey(types, steps, cs, x, text, v) {
      forall comparison | comparison in KeyComparisons(types, steps, cs, x, text)
        ensures Allows(KindType(text), comparison, v)
      {
        KeyComparisonsAre(types, steps, cs, x, text, comparison);
        var c, y :| c in cs && SameKey(types, y, x) && TypeOf(types, y).String8? == text
          && IsCompared(types, steps, c, y, comparison.op, comparison.literal);
      }
    }
    if OfKind(KindType(text), v) && AllowsAll(KindType(text), KeyComparisons(types, steps, cs, x, text), v) {
      forall c, y, op, literal | c in cs && SameKey(types, y, x) && TypeOf(types, y).String8? == text && IsCompared(types, steps, c, y, op, literal)
        ensures Allows(KindType(text), Comparison(op, literal), v)
      {
        KeyComparisonsAre(types, steps, cs, x, text, Comparison(op, literal));
      }
    }
  }

  // ---- The detection loop ----

  predicate HasEntry(types: Schema, bounds: seq<ColumnBounds>, x: ColumnRef) {
    exists i :: 0 <= i < |bounds| && SameKey(types, bounds[i].column, x)
  }

  function KeyBounds(types: Schema, steps: seq<Step>, cs: seq<Conjunct>, x: ColumnRef, text: bool): Option<ColumnBounds> {
    FoldBounds(KindType(text), x, KeyComparisons(types, steps, cs, x, text))
  }

  /** An entry holds the folds of both kinds side by side. */
  predicate EntryOf(types: Schema, steps: seq<Step>, cs: seq<Conjunct>, b: ColumnBounds) {
    var textual, numeric := KeyBounds(types, steps, cs, b.column, true), KeyBounds(types, steps, cs, b.column, false);
    textual.Some? && numeric.Some? && b == numeric.value.(equalString := textual.value.equalString)
  }

  /** The table of bounds holds one entry per key seen so far. */
  ghost predicate BoundsOf(types: Schema, steps: seq<Step>, cs: seq<Conjunct>, bounds: seq<ColumnBounds>) {
    && (forall i, j :: 0 <= i < j < |bounds| ==> !SameKey(types, bounds[i].column, bounds[j].column))
    && (forall i :: 0 <= i < |bounds| ==> EntryOf(types, steps, cs, bounds[i]))
    && NothingElse(types, steps, cs, bounds)
  }

  ghost predicate NothingElse(types: Schema, steps: seq<Step>, cs: seq<Conjunct>, bounds: seq<ColumnBounds>) {
    forall x, text :: SeenOrNone(types, steps, cs, bounds, x, text)
  }

  predicate SeenOrNone(types: Schema, steps: seq<Step>, cs: seq<Conjunct>, bounds: seq<ColumnBounds>, x: ColumnRef, text: bool) {
    !HasEntry(types, bounds, x) ==> KeyComparisons(types, steps, cs, x, text) == []
  }

  /** The entry of a column, made when it has none; None when the table is full. */
  method FindBounds(types: Schema, bounds: array<ColumnBounds>, count: nat, column: ColumnRef) returns (entry: Option<nat>, newCount: nat)
    requires count <= bounds.Length == OPT_MAX_CONJUNCTS
    modifies bounds
    ensures count <= newCount <= bounds.Length && bounds[..count] == old(bounds[..count])
    ensures entry.Some? ==> entry.value < newCount && SameKey(types, bounds[entry.value].column, column)
    ensures entry.Some? ==> forall i :: 0 <= i < entry.value ==> !SameKey(types, bounds[i].column, column)
    ensures newCount > count ==> newCount == count + 1 && entry == Some(count) && bounds[count] == NoBounds(column)
    ensures entry.None? ==> count == OPT_MAX_CONJUNCTS && forall i :: 0 <= i < count ==> !SameKey(types, bounds[i].column, column)
  {
    newCount := count;
    for index := 0 to count
      invariant forall i :: 0 <= i < index ==> !SameKey(types, bounds[i].column, column)
    {
      if SameKey(types, bounds[index].column, column) {
        return Some(index), count;
      }
    }
    if count >= OPT_MAX_CONJUNCTS {
      return None, count;
    }
    bounds[count] := NoBounds(column);
    return Some(count), count + 1;
  }

  lemma {:induction false} KeyComparisonsStep(types: Schema, steps: seq<Step>, cs: seq<Conjunct>, i: nat, x: ColumnRef, text: bool)
    requires i < |cs|
    ensures KeyComparisons(types, steps, cs[..i + 1], x, text) ==
            KeyComparisons(types, steps, cs[..i], x, text) + KeyComparison(types, steps, cs[i], x, text)
  {
    assert cs[..i + 1][..i] == cs[..i];
  }

  lemma {:induction false} FoldStep(t: ColumnType, x: ColumnRef, cs: seq<Comparison>, c: Comparison)
    requires FoldBounds(t, x, cs).Some?
    ensures FoldBounds(t, x, cs + [c]) ==
            var (after, impossible) := BoundsApply(FoldBounds(t, x, cs).value, c.op, c.literal, t);
            if impossible then None else Some(after)
  {
    assert (cs + [c])[..|cs|] == cs;
  }

  lemma {:induction false} ImpossibleStays(t: ColumnType, a: seq<Comparison>, b: seq<Comparison>)
    requires !Satisfiable(t, a)
    ensures !Satisfiable(t, a + b)
  {
    forall v | OfKind(t, v)
      ensures !AllowsAll(t, a + b, v)
    {
      var c :| c in a && !Allows(t, c, v);
      assert c in a + b;
    }
  }

  lemma {:induction false} KeyComparisonsPrefix(types: Schema, steps: seq<Step>, cs: seq<Conjunct>, i: nat, x: ColumnRef, text: bool)
    requires i <= |cs|
    ensures KeyComparisons(types, steps, cs[..i], x, text) <= KeyComparisons(types, steps, cs, x, text)
  {
    if i == |cs| {
      assert cs[..i] == cs;
    } else {
      KeyComparisonsPrefix(types, steps, cs[..|cs| - 1], i, x, text);
      assert cs[..|cs| - 1][..i] == cs[..i];
    }
  }

  lemma {:induction false} ImpossibleMeansContradictory(types: Schema, steps: seq<Step>, cs: seq<Conjunct>, i: nat, x: ColumnRef, text: bool)
    requires i <= |cs|
    requires KeyBounds(types, steps, cs[..i], x, text).None?
    ensures KeyContradictory(types, steps, cs)
  {
    var some, all := KeyComparisons(types, steps, cs[..i], x, text), KeyComparisons(types, steps, cs, x, text);
    ImpossibleIffUnsatisfiable(KindType(text), x, some);
    KeyComparisonsPrefix(types, steps, cs, i, x, text);
    ImpossibleStays(KindType(text), some, all[|some|..]);
    assert all == some + all[|some|..];
  }

  lemma {:induction false} BoundsMeanSatisfiable(types: Schema, steps: seq<Step>, cs: seq<Conjunct>, bounds: seq<ColumnBounds>)
    requires BoundsOf(types, steps, cs, bounds)
    ensures !KeyContradictory(types, steps, cs)
  {
    forall x, text
      ensures Satisfiable(KindType(text), KeyComparisons(types, steps, cs, x, text))
    {
      if HasEntry(types, bounds, x) {
        var i :| 0 <= i < |bounds| && SameKey(types, bounds[i].column, x);
        var y := bounds[i].column;
        assert EntryOf(types, steps, cs, bounds[i]);
        SameKeyComparisons(types, steps, cs, y, x, text);
        ImpossibleIffUnsatisfiable(KindType(text), y, KeyComparisons(types, steps, cs, y, text));
      } else {
        assert SeenOrNone(types, steps, cs, bounds, x, text);
        ImpossibleIffUnsatisfiable(KindType(text), x, []);
      }
    }
  }

  /** A comparison reads and changes the part of its kind only. */
  lemma {:induction false} ApplyTakesKind(b: ColumnBounds, part: ColumnBounds, op: BinaryOp, literal: Node, t: ColumnType)
    requires b.column == part.column
    requires if t.String8? then b.equalString == part.equalString else b == part.(equalString := b.equalString)
    ensures var (after, impossible) := BoundsApply(b, op, literal, t);
            var (partAfter, partImpossible) := BoundsApply(part, op, literal, KindType(t.String8?));
            && impossible == partImpossible && after.column == b.column
            && after == if t.String8? then b.(equalString := partAfter.equalString) else partAfter.(equalString := b.equalString)
  {
  }

  lemma {:induction false} FoldKeepsColumn(t: ColumnType, x: ColumnRef, cs: seq<Comparison>)
    ensures FoldBounds(t, x, cs).Some? ==> FoldBounds(t, x, cs).value.column == x
  {
    if cs != [] {
      FoldKeepsColumn(t, x, cs[..|cs| - 1]);
    }
  }

  /** An entry after one more comparison with a column of its key. */
  lemma {:induction false} EntryStep(types: Schema, steps: seq<Step>, cs: seq<Conjunct>, i: nat, b: ColumnBounds)
    requires i < |cs| && ColumnComparison(types, steps, cs[i]).Some? && EntryOf(types, steps, cs[..i], b)
    requires SameKey(types, ColumnComparison(types, steps, cs[i]).value.0, b.column)
    ensures var (x, c) := ColumnComparison(types, steps, cs[i]).value;
            var (after, impossible) := BoundsApply(b, c.op, c.literal, TypeOf(types, x));
            && (impossible ==> KeyBounds(types, steps, cs[..i + 1], b.column, TypeOf(types, x).String8?).None?)
            && (!impossible ==> after.column == b.column && EntryOf(types, steps, cs[..i + 1], after))
  {
    hide BoundsApply, FoldBounds, ColumnComparison, SameKey;
    var (x, c) := ColumnComparison(types, steps, cs[i]).value;
    var text := TypeOf(types, x).String8?;
    var own, other := KeyComparisons(types, steps, cs[..i], b.column, text), KeyComparisons(types, steps, cs[..i], b.column, !text);
    KeyComparisonsStep(types, steps, cs, i, b.column, text);
    KeyComparisonsStep(types, steps, cs, i, b.column, !text);
    assert other + [] == other;
    FoldKeepsColumn(KindType(text), b.column, own);
    FoldStep(KindType(text), b.column, own, c);
    ApplyTakesKind(b, FoldBounds(KindType(text), b.column, own).value, c.op, c.literal, TypeOf(types, x));
  }

  /** A comparison with a column of another key leaves an entry as it is. */
  lemma {:induction false} EntryStays(types: Schema, steps: seq<Step>, cs: seq<Conjunct>, i: nat, b: ColumnBounds)
    requires i < |cs| && EntryOf(types, steps, cs[..i], b)
    requires var found := ColumnComparison(types, steps, cs[i]); found.Some? ==> !SameKey(types, found.value.0, b.column)
    ensures EntryOf(types, steps, cs[..i + 1], b)
  {
    forall text
      ensures KeyComparisons(types, steps, cs[..i + 1], b.column, text) == KeyComparisons(types, steps, cs[..i], b.column, text)
    {
      KeyComparisonsStep(types, steps, cs, i, b.column, text);
    }
  }

  lemma {:induction false} NewEntry(types: Schema, steps: seq<Step>, cs: seq<Conjunct>, bounds: seq<ColumnBounds>, x: ColumnRef)
    requires BoundsOf(types, steps, cs, bounds) && !HasEntry(types, bounds, x)
    ensures BoundsOf(types, steps, cs, bounds + [NoBounds(x)])
  {
    var now := bounds + [NoBounds(x)];
    assert SeenOrNone(types, steps, cs, bounds, x, true) && SeenOrNone(types, steps, cs, bounds, x, false);
    assert EntryOf(types, steps, cs, NoBounds(x));
    forall y, text
      ensures SeenOrNone(types, steps, cs, now, y, text)
    {
      assert SeenOrNone(types, steps, cs, bounds, y, text);
      assert forall k :: 0 <= k < |bounds| ==> now[k] == bounds[k];
    }
  }

  /** The table of bounds after one more conjunct. */
  lemma {:induction false} BoundsStep(types: Schema, steps: seq<Step>, cs: seq<Conjunct>, i: nat, bounds: seq<ColumnBounds>, entry: nat)
    requires i < |cs| && BoundsOf(types, steps, cs[..i], bounds) && ColumnComparison(types, steps, cs[i]).Some? && entry < |bounds|
    requires SameKey(types, bounds[entry].column, ColumnComparison(types, steps, cs[i]).value.0)
    ensures var (x, c) := ColumnComparison(types, steps, cs[i]).value;
            var (after, impossible) := BoundsApply(bounds[entry], c.op, c.literal, TypeOf(types, x));
            && (impossible ==> KeyContradictory(types, steps, cs))
            && (!impossible ==> BoundsOf(types, steps, cs[..i + 1], bounds[entry := after]))
  {
    hide EntryOf, BoundsApply, KeyContradictory, NothingElse, ColumnComparison, SameKey;
    var (x, c) := ColumnComparison(types, steps, cs[i]).value;
    var b := bounds[entry];
    SameKeyIsEquivalence(types, b.column, x, b.column);
    EntryStep(types, steps, cs, i, b);
    var (after, impossible) := BoundsApply(b, c.op, c.literal, TypeOf(types, x));
    if impossible {
      ImpossibleMeansContradictory(types, steps, cs, i + 1, b.column, TypeOf(types, x).String8?);
    } else {
      var now := bounds[entry := after];
      OthersStay(types, steps, cs, i, bounds, entry);
      NoEntryStep(types, steps, cs, i, bounds, now, entry);
      assert forall k :: 0 <= k < |now| ==> now[k].column == bounds[k].column;
    }
  }

  lemma {:induction false} OthersStay(types: Schema, steps: seq<Step>, cs: seq<Conjunct>, i: nat, bounds: seq<ColumnBounds>, entry: nat)
    requires i < |cs| && BoundsOf(types, steps, cs[..i], bounds) && ColumnComparison(types, steps, cs[i]).Some? && entry < |bounds|
    requires SameKey(types, bounds[entry].column, ColumnComparison(types, steps, cs[i]).value.0)
    ensures forall k :: 0 <= k < |bounds| && k != entry ==> EntryOf(types, steps, cs[..i + 1], bounds[k])
  {
    var x := ColumnComparison(types, steps, cs[i]).value.0;
    forall k | 0 <= k < |bounds| && k != entry
      ensures EntryOf(types, steps, cs[..i + 1], bounds[k])
    {
      SameKeyIsEquivalence(types, bounds[entry].column, x, bounds[k].column);
      SameKeyIsEquivalence(types, bounds[k].column, bounds[entry].column, x);
      EntryStays(types, steps, cs, i, bounds[k]);
    }
  }

  lemma {:induction false} NoEntryStep(types: Schema, steps: seq<Step>, cs: seq<Conjunct>, i: nat, bounds: seq<ColumnBounds>, now: seq<ColumnBounds>, entry: nat)
    requires i < |cs| && NothingElse(types, steps, cs[..i], bounds) && ColumnComparison(types, steps, cs[i]).Some? && entry < |bounds| == |now|
    requires SameKey(types, bounds[entry].column, ColumnComparison(types, steps, cs[i]).value.0)
    requires forall k :: 0 <= k < |bounds| ==> now[k].column == bounds[k].column
    ensures NothingElse(types, steps, cs[..i + 1], now)
  {
    var x := ColumnComparison(types, steps, cs[i]).value.0;
    var more := cs[..i + 1];
    forall y, text
      ensures SeenOrNone(types, steps, more, now, y, text)
    {
      if !HasEntry(types, now, y) {
        assert SeenOrNone(types, steps, cs[..i], bounds, y, text);
        assert forall k :: 0 <= k < |bounds| ==> !SameKey(types, bounds[k].column, y) by {
          assert forall k :: 0 <= k < |bounds| ==> !SameKey(types, now[k].column, y);
        }
        SameKeyIsEquivalence(types, bounds[entry].column, x, y);
        KeyComparisonsStep(types, steps, cs, i, y, text);
      }
    }
  }

  lemma {:induction false} BoundsSkip(types: Schema, steps: seq<Step>, cs: seq<Conjunct>, i: nat, bounds: seq<ColumnBounds>)
    requires i < |cs| && BoundsOf(types, steps, cs[..i], bounds) && ColumnComparison(types, steps, cs[i]).None?
    ensures BoundsOf(types, steps, cs[..i + 1], bounds)
  {
    forall k | 0 <= k < |bounds|
      ensures EntryOf(types, steps, cs[..i + 1], bounds[k])
    {
      EntryStays(types, steps, cs, i, bounds[k]);
    }
    var more := cs[..i + 1];
    forall x, text
      ensures SeenOrNone(types, steps, more, bounds, x, text)
    {
      assert SeenOrNone(types, steps, cs[..i], bounds, x, text);
      KeyComparisonsStep(types, steps, cs, i, x, text);
    }
  }

  lemma {:induction false} NoBoundsYet(types: Schema, steps: seq<Step>)
    ensures BoundsOf(types, steps, [], [])
  {
    assert forall x, text :: SeenOrNone(types, steps, [], [], x, text);
  }

  method ApplyComparison(types: Schema, steps: seq<Step>, cs: seq<Conjunct>, index: nat, bounds: array<ColumnBounds>, count: nat)
    returns (newCount: nat, impossible: bool)
    requires bounds.Length == OPT_MAX_CONJUNCTS && index < |cs| && count < bounds.Length
    requires BoundsOf(types, steps, cs[..index], bounds[..count]) && ColumnComparison(types, steps, cs[index]).Some?
    modifies bounds
    ensures count <= newCount <= count + 1
    ensures impossible ==> KeyContradictory(types, steps, cs)
    ensures !impossible ==> BoundsOf(types, steps, cs[..index + 1], bounds[..newCount])
  {
    hide BoundsOf, ColumnComparison, BoundsApply, SameKey, KeyContradictory;
    var (x, c) := ColumnComparison(types, steps, cs[index]).value;
    ghost var was := bounds[..count];
    var entry;
    entry, newCount := FindBounds(types, bounds, count, x);
    ghost var found := bounds[..newCount];
    if newCount > count {
      assert !HasEntry(types, was, x);
      assert found == was + [NoBounds(x)];
      NewEntry(types, steps, cs[..index], was, x);
    }
    BoundsStep(types, steps, cs, index, found, entry.value);
    var applied := BoundsApply(bounds[entry.value], c.op, c.literal, TypeOf(types, x));
    impossible := applied.1;
    if !impossible {
      bounds[entry.value] := applied.0;
      assert bounds[..newCount] == found[entry.value := applied.0];
    }
  }

  /** Reports exactly the lists in which the comparisons of some key exclude every value. */
  method DetectContradiction(types: Schema, steps: seq<Step>, cs: seq<Conjunct>) returns (found: bool)
    requires |cs| <= OPT_MAX_CONJUNCTS
    ensures found <==> KeyContradictory(types, steps, cs)
    ensures found <==> exists x, text :: NoValuePasses(types, steps, cs, x, text)
  {
    KeyContradictoryIff(types, steps, cs);
    hide BoundsOf, ColumnComparison, KeyContradictory;
    var bounds := new ColumnBounds[OPT_MAX_CONJUNCTS](_ => NoBounds(ColumnRef(0, 0)));
    var count := 0;
    NoBoundsYet(types, steps);
    for index := 0 to |cs|
      invariant count <= index && BoundsOf(types, steps, cs[..index], bounds[..count])
    {
      if ColumnComparison(types, steps, cs[index]).Some? {
        var impossible;
        count, impossible := ApplyComparison(types, steps, cs, index, bounds, count);
        if impossible {
          return true;
        }
      } else {
        BoundsSkip(types, steps, cs, index, bounds[..count]);
      }
    }
    assert cs[..|cs|] == cs;
    BoundsMeanSatisfiable(types, steps, cs, bounds[..count]);
    return false;
  }
}
