/** Constant propagation across equality joins: a = b and a = 5 give b = 5. */
module Propagation {
  import opened Predicates
  import opened Plans
  import opened Conjuncts
  import opened ColumnClasses
  import opened Equalities

  function DerivedConjunct(x: ColumnRef, literal: Node): Conjunct {
    Conjunct(Binary(Eq, ColumnNode(x), literal), {x.rel}, false, true, 0, Residual, 0)
  }

  predicate Mentioned(pairs: set<Pair>, x: ColumnRef) {
    exists p <- pairs :: x == p.0 || x == p.1
  }

  /** d pins a column without a constant to the constant of a column it is connected with. */
  ghost predicate IsDerived(types: Schema, steps: seq<Step>, cs: seq<Conjunct>, d: Conjunct) {
    var pairs := JoinPairs(types, steps, cs);
    exists x, y :: Mentioned(pairs, x) && Connected(pairs, x, y)
      && FirstConstant(types, steps, cs, x).None? && FirstConstant(types, steps, cs, y).Some?
      && d == DerivedConjunct(x, FirstConstant(types, steps, cs, y).value)
  }

  ghost predicate Conflicting(types: Schema, steps: seq<Step>, cs: seq<Conjunct>) {
    var pairs := JoinPairs(types, steps, cs);
    exists x, y :: Mentioned(pairs, x) && Mentioned(pairs, y) && Connected(pairs, x, y)
      && FirstConstant(types, steps, cs, x).Some? && FirstConstant(types, steps, cs, y).Some?
      && LiteralsConflict(FirstConstant(types, steps, cs, x).value, FirstConstant(types, steps, cs, y).value)
  }

  /** Two columns that the written join equalities connect are pinned to different
      literals, each by the first conjunct that pins it. */
  ghost predicate WrittenConflict(types: Schema, steps: seq<Step>, cs: seq<Conjunct>) {
    exists pairs, x, i: nat, l, y, j: nat, m ::
      AreJoins(types, steps, cs, pairs) && PinnedApart(types, steps, cs, pairs, x, i, l, y, j, m)
  }

  lemma {:induction false} ConnectedIsMentioned(pairs: set<Pair>, x: ColumnRef, y: ColumnRef)
    requires Connected(pairs, x, y) && x != y
    ensures Mentioned(pairs, x) && Mentioned(pairs, y)
  {
    if !Mentioned(pairs, x) {
      assert Closed(pairs, {x});
    }
    if !Mentioned(pairs, y) {
      assert Closed(pairs, {y});
    }
  }

  /** The conflict of the key table is the conflict of the written conjuncts. */
  lemma {:induction false} ConflictIff(types: Schema, steps: seq<Step>, cs: seq<Conjunct>)
    ensures Conflicting(types, steps, cs) <==> WrittenConflict(types, steps, cs)
  {
    var own := JoinPairs(types, steps, cs);
    JoinPairsAre(types, steps, cs);
    if Conflicting(types, steps, cs) {
      var x, y :| Mentioned(own, x) && Mentioned(own, y) && Connected(own, x, y)
        && FirstConstant(types, steps, cs, x).Some? && FirstConstant(types, steps, cs, y).Some?
        && LiteralsConflict(FirstConstant(types, steps, cs, x).value, FirstConstant(types, steps, cs, y).value);
      var i := FirstPin(types, steps, cs, x);
      var j := FirstPin(types, steps, cs, y);
      assert PinnedApart(types, steps, cs, own, x, i, FirstConstant(types, steps, cs, x).value, y, j, FirstConstant(types, steps, cs, y).value);
    }
    if WrittenConflict(types, steps, cs) {
      var pairs, x, i: nat, l, y, j: nat, m :| AreJoins(types, steps, cs, pairs) && PinnedApart(types, steps, cs, pairs, x, i, l, y, j, m);
      SamePairs(types, steps, cs, pairs);
      FirstConstantIff(types, steps, cs, x, l);
      FirstConstantIff(types, steps, cs, y, m);
      ConnectedIsMentioned(pairs, x, y);
    }
  }

  /** d says of a column that no conjunct pins what the first conjunct that pins a
      connected column says of that one. */
  ghost predicate WrittenDerived(types: Schema, steps: seq<Step>, cs: seq<Conjunct>, d: Conjunct) {
    exists pairs, x: ColumnRef, y, j: nat, l ::
      && AreJoins(types, steps, cs, pairs) && Connected(pairs, x, y) && PinsFirst(types, steps, cs, j, y, l)
      && !IsPinned(types, steps, cs, x)
      && d == Conjunct(Binary(Eq, Column(x.rel, x.col), l), {x.rel}, false, true, 0, Residual, 0)
  }

  lemma {:induction false} DerivedIff(types: Schema, steps: seq<Step>, cs: seq<Conjunct>, d: Conjunct)
    ensures IsDerived(types, steps, cs, d) <==> WrittenDerived(types, steps, cs, d)
  {
    var own := JoinPairs(types, steps, cs);
    JoinPairsAre(types, steps, cs);
    if IsDerived(types, steps, cs, d) {
      var x, y :| Mentioned(own, x) && Connected(own, x, y)
        && FirstConstant(types, steps, cs, x).None? && FirstConstant(types, steps, cs, y).Some?
        && d == DerivedConjunct(x, FirstConstant(types, steps, cs, y).value);
      var j := FirstPin(types, steps, cs, y);
      PinnedIff(types, steps, cs, x);
      assert PinsFirst(types, steps, cs, j, y, FirstConstant(types, steps, cs, y).value);
    }
    if WrittenDerived(types, steps, cs, d) {
      var pairs, x: ColumnRef, y, j: nat, l :|
        && AreJoins(types, steps, cs, pairs) && Connected(pairs, x, y) && PinsFirst(types, steps, cs, j, y, l)
        && !IsPinned(types, steps, cs, x)
        && d == Conjunct(Binary(Eq, Column(x.rel, x.col), l), {x.rel}, false, true, 0, Residual, 0);
      SamePairs(types, steps, cs, pairs);
      FirstConstantIff(types, steps, cs, y, l);
      PinnedIff(types, steps, cs, x);
      PinnedIff(types, steps, cs, y);
      ConnectedIsMentioned(pairs, x, y);
    }
  }

  /** A column is pinned by a conjunct or by a derived one as soon as a column that it
      is connected with is pinned. */
  ghost predicate IsServed(types: Schema, steps: seq<Step>, cs: seq<Conjunct>, derived: seq<Conjunct>, x: ColumnRef) {
    (exists pairs, y :: AreJoins(types, steps, cs, pairs) && Connected(pairs, x, y) && IsPinned(types, steps, cs, y)) ==>
      || IsPinned(types, steps, cs, x)
      || exists d <- derived :: d.node.Binary? && d.node.left == Column(x.rel, x.col)
  }

  lemma {:induction false} PropagatedIsServed(types: Schema, steps: seq<Step>, cs: seq<Conjunct>, derived: seq<Conjunct>, x: ColumnRef)
    requires Mentioned(JoinPairs(types, steps, cs), x) ==> Propagated(types, steps, cs, derived, x)
    ensures IsServed(types, steps, cs, derived, x)
  {
    if pairs, y :| AreJoins(types, steps, cs, pairs) && Connected(pairs, x, y) && IsPinned(types, steps, cs, y) {
      SamePairs(types, steps, cs, pairs);
      PinnedIff(types, steps, cs, x);
      PinnedIff(types, steps, cs, y);
      if x != y {
        ConnectedIsMentioned(pairs, x, y);
      }
    }
  }

  /** The column has a constant of its own, or needs none, or got a derived one. */
  ghost predicate Propagated(types: Schema, steps: seq<Step>, cs: seq<Conjunct>, derived: seq<Conjunct>, x: ColumnRef) {
    var pairs := JoinPairs(types, steps, cs);
    (exists y :: Mentioned(pairs, y) && Connected(pairs, x, y) && FirstConstant(types, steps, cs, y).Some?) ==>
      || FirstConstant(types, steps, cs, x).Some?
      || exists d <- derived :: d.node.Binary? && d.node.left == ColumnNode(x)
  }

  // ---- What the constants mean ----

  /** The row satisfies every conjunct that holds for the whole result. */
  ghost predicate Satisfies(w: World, steps: seq<Step>, cs: seq<Conjunct>, row: Row) {
    forall c <- cs :: !c.unresolved && !OnLeftJoin(steps, c) ==> Holds(w, c.node, row)
  }

  function LiteralValue(literal: Node): Value {
    if literal.Numeric? then Num(literal.value) else if literal.Literal? then Str(literal.text) else Null
  }

  /** An equality with a fitting literal is true exactly when the column has that value. */
  lemma {:induction false} PinMeans(w: World, types: Schema, x: ColumnRef, literal: Node, op: BinaryOp, row: Row)
    requires Typed(w, types) && Stored(w, row) && LiteralFits(types, x, literal) && IsEquality(op)
    ensures Holds(w, Binary(op, ColumnNode(x), literal), row) <==> ValueAt(row, x.rel, x.col) == LiteralValue(literal)
    ensures Holds(w, Binary(op, literal, ColumnNode(x)), row) <==> ValueAt(row, x.rel, x.col) == LiteralValue(literal)
  {
    var v := ValueAt(row, x.rel, x.col);
    assert HasType(TypeOf(types, x), v);
    assert Eval(w, literal, row) == LiteralValue(literal) && Eval(w, ColumnNode(x), row) == v;
    assert Eval(w, Binary(op, ColumnNode(x), literal), row) == ValueOf(Compare(w, op, v, LiteralValue(literal)));
    assert Eval(w, Binary(op, literal, ColumnNode(x)), row) == ValueOf(Compare(w, op, LiteralValue(literal), v));
  }

  lemma {:induction false} PinnedValue(w: World, types: Schema, steps: seq<Step>, cs: seq<Conjunct>, x: ColumnRef, row: Row)
    requires Typed(w, types) && Stored(w, row) && Satisfies(w, steps, cs, row)
    requires FirstConstant(types, steps, cs, x).Some?
    ensures ValueAt(row, x.rel, x.col) == LiteralValue(FirstConstant(types, steps, cs, x).value)
    ensures LiteralFits(types, x, FirstConstant(types, steps, cs, x).value)
  {
    var literal := FirstConstant(types, steps, cs, x).value;
    FirstConstantComesFrom(types, steps, cs, x);
    var c :| c in cs && ConstantOf(types, steps, c) == Some((x, literal));
    assert Holds(w, c.node, row);
    PinMeans(w, types, x, literal, c.node.op, row);
    if c.node.left.Column? {
      assert c.node == Binary(c.node.op, ColumnNode(x), literal);
    } else {
      assert c.node == Binary(c.node.op, literal, ColumnNode(x));
    }
  }

  lemma {:induction false} PairsMatch(w: World, types: Schema, steps: seq<Step>, cs: seq<Conjunct>, row: Row)
    requires Typed(w, types) && Stored(w, row) && Satisfies(w, steps, cs, row)
    ensures forall p <- JoinPairs(types, steps, cs) :: Match(row, p.0, p.1)
  {
    forall p | p in JoinPairs(types, steps, cs)
      ensures Match(row, p.0, p.1)
    {
      var c :| c in cs && JoinKeyOf(types, steps, c) == Some(p);
      assert c.node == Binary(c.node.op, ColumnNode(p.0), ColumnNode(p.1));
      EqualityMatches(w, types, c.node.op, p.0, p.1, row);
    }
  }

  predicate AllComparable(types: Schema, pairs: set<Pair>) {
    forall p <- pairs :: Comparable(types, p.0, p.1)
  }

  lemma {:induction false} ConnectedFits(types: Schema, pairs: set<Pair>, x: ColumnRef, y: ColumnRef, literal: Node)
    requires AllComparable(types, pairs) && Connected(pairs, x, y) && LiteralFits(types, y, literal)
    ensures LiteralFits(types, x, literal)
  {
    var mentioned := (set p <- pairs :: p.0) + (set p <- pairs :: p.1) + {x, y};
    var fitting := set c <- mentioned | LiteralFits(types, c, literal);
    forall p | p in pairs
      ensures p.0 in fitting <==> p.1 in fitting
    {
      assert p.0 in mentioned && p.1 in mentioned && Comparable(types, p.0, p.1);
    }
    assert Closed(pairs, fitting);
  }

  /** Each derived conjunct is implied by the existing ones. */
  lemma {:induction false} DerivedIsImplied(w: World, types: Schema, steps: seq<Step>, cs: seq<Conjunct>, d: Conjunct, row: Row)
    requires Typed(w, types) && Stored(w, row) && Satisfies(w, steps, cs, row)
    requires IsDerived(types, steps, cs, d)
    ensures Holds(w, d.node, row)
  {
    var pairs := JoinPairs(types, steps, cs);
    var x, y :| Mentioned(pairs, x) && Connected(pairs, x, y)
      && FirstConstant(types, steps, cs, x).None? && FirstConstant(types, steps, cs, y).Some?
      && d == DerivedConjunct(x, FirstConstant(types, steps, cs, y).value);
    var literal := FirstConstant(types, steps, cs, y).value;
    PairsMatch(w, types, steps, cs, row);
    PinnedValue(w, types, steps, cs, y, row);
    ConnectedMatch(pairs, y, x, row);
    ConnectedFits(types, pairs, x, y, literal);
    PinMeans(w, types, x, literal, Eq, row);
  }

  /** A reported conflict means that no row satisfies the conjuncts. */
  lemma {:induction false} ConflictMeansEmpty(w: World, types: Schema, steps: seq<Step>, cs: seq<Conjunct>, row: Row)
    requires Typed(w, types) && Stored(w, row) && Conflicting(types, steps, cs)
    ensures !Satisfies(w, steps, cs, row)
  {
    if Satisfies(w, steps, cs, row) {
      var pairs := JoinPairs(types, steps, cs);
      var x, y :| Mentioned(pairs, x) && Mentioned(pairs, y) && Connected(pairs, x, y)
        && FirstConstant(types, steps, cs, x).Some? && FirstConstant(types, steps, cs, y).Some?
        && LiteralsConflict(FirstConstant(types, steps, cs, x).value, FirstConstant(types, steps, cs, y).value);
      PairsMatch(w, types, steps, cs, row);
      PinnedValue(w, types, steps, cs, x, row);
      PinnedValue(w, types, steps, cs, y, row);
      ConnectedMatch(pairs, x, y, row);
    }
  }

  /** A derived conjunct reads one relation, which keeps its rows. */
  lemma {:induction false} DerivedShape(types: Schema, steps: seq<Step>, cs: seq<Conjunct>, d: Conjunct)
    requires IsDerived(types, steps, cs, d) && steps != [] && !steps[0].nullSupplying
    ensures d.fromWhere && !d.unresolved && !Unresolved(d.node) && d.mask == Refs(d.node) && d.destination.Residual?
    ensures exists r :: d.mask == {r} && !NullSupplying(steps, r)
              && exists c <- cs :: !c.unresolved && JoinKeyOf(types, steps, c).Some? && r in Refs(c.node)
  {
    var pairs := JoinPairs(types, steps, cs);
    var x, y :| Mentioned(pairs, x) && Connected(pairs, x, y)
      && FirstConstant(types, steps, cs, x).None? && FirstConstant(types, steps, cs, y).Some?
      && d == DerivedConjunct(x, FirstConstant(types, steps, cs, y).value);
    ConstantIsLiteral(types, steps, cs, y);
    PinShape(x, FirstConstant(types, steps, cs, y).value);
    var p :| p in pairs && (x == p.0 || x == p.1);
    var c :| c in cs && JoinKeyOf(types, steps, c) == Some(p);
    KeyShape(types, steps, c);
  }

  lemma {:induction false} ConstantIsLiteral(types: Schema, steps: seq<Step>, cs: seq<Conjunct>, y: ColumnRef)
    requires FirstConstant(types, steps, cs, y).Some?
    ensures var literal := FirstConstant(types, steps, cs, y).value;
            literal.Numeric? || literal.Literal?
  {
    FirstConstantComesFrom(types, steps, cs, y);
  }

  lemma {:induction false} PinShape(x: ColumnRef, literal: Node)
    requires literal.Numeric? || literal.Literal?
    ensures var d := DerivedConjunct(x, literal);
            !Unresolved(d.node) && Refs(d.node) == {x.rel}
  {
    assert Refs(literal) == {} && !Unresolved(literal) && Refs(ColumnNode(x)) == {x.rel};
  }

  lemma {:induction false} KeyShape(types: Schema, steps: seq<Step>, c: Conjunct)
    requires JoinKeyOf(types, steps, c).Some? && steps != [] && !steps[0].nullSupplying
    ensures var p := JoinKeyOf(types, steps, c).value;
            && Refs(c.node) == {p.0.rel, p.1.rel} && !c.unresolved
            && !NullSupplying(steps, p.0.rel) && !NullSupplying(steps, p.1.rel)
  {
  }

  // ---- The propagation ----

  /** The key columns are those of the pairs. */
  ghost predicate MentionedOnly(pairs: set<Pair>, columns: seq<ColumnRef>) {
    forall c <- columns :: Mentioned(pairs, c)
  }

  lemma {:induction false} JoinPairsStep(types: Schema, steps: seq<Step>, cs: seq<Conjunct>, i: nat)
    requires i < |cs|
    ensures JoinPairs(types, steps, cs[..i + 1]) ==
            JoinPairs(types, steps, cs[..i]) + (var p := JoinKeyOf(types, steps, cs[i]); if p.Some? then {p.value} else {})
  {
    assert cs[..i + 1] == cs[..i] + [cs[i]];
  }

  lemma {:induction false} MentionedStep(pairs: set<Pair>, p: Pair, before: seq<ColumnRef>, after: seq<ColumnRef>)
    requires MentionedOnly(pairs, before)
    requires forall c <- after :: c in {p.0, p.1} || c in before
    ensures MentionedOnly(pairs + {p}, after)
  {
    forall c | c in after
      ensures Mentioned(pairs + {p}, c)
    {
      if c in before {
        var q :| q in pairs && (c == q.0 || c == q.1);
        assert q in pairs + {p};
      } else {
        assert p in pairs + {p};
      }
    }
  }

  /** The equality of one conjunct, if it has one, joins the classes. */
  method JoinConjunct(types: Schema, steps: seq<Step>, c: Conjunct, keys: ColumnKeys, ghost pairs: set<Pair>) returns (ghost more: set<Pair>)
    requires keys.Valid() && |keys.columns| + 2 <= OPT_MAX_COLUMN_KEYS && DistinctNames(keys.types)
    requires Classes(pairs, keys.columns, keys.roots) && MentionedOnly(pairs, keys.columns)
    modifies keys, keys.keys
    ensures keys.Valid() && |keys.columns| <= old(|keys.columns|) + 2
    ensures old(keys.constants) <= keys.constants
    ensures forall i :: old(|keys.constants|) <= i < |keys.constants| ==> keys.constants[i].None?
    ensures more == pairs + (var p := JoinKeyOf(types, steps, c); if p.Some? then {p.value} else {})
    ensures Classes(more, keys.columns, keys.roots) && MentionedOnly(more, keys.columns)
  {
    more := pairs;
    var key := JoinKeyOf(types, steps, c);
    if key.Some? {
      ghost var before := keys.columns;
      var ok := keys.Join(key.value.0, key.value.1, pairs);
      MentionedStep(pairs, key.value, before, keys.columns);
      more := pairs + {key.value};
    }
  }

  predicate NoConstants(constants: seq<Option<Node>>) {
    forall i :: 0 <= i < |constants| ==> constants[i].None?
  }

  method CollectClasses(types: Schema, steps: seq<Step>, cs: seq<Conjunct>) returns (keys: ColumnKeys)
    requires |cs| <= OPT_MAX_CONJUNCTS && DistinctNames(types)
    ensures fresh(keys) && fresh(keys.keys) && keys.types == types && keys.Valid() && NoConstants(keys.constants)
    ensures Classes(JoinPairs(types, steps, cs), keys.columns, keys.roots)
    ensures MentionedOnly(JoinPairs(types, steps, cs), keys.columns)
  {
    keys := new ColumnKeys(types);
    ghost var pairs: set<Pair> := {};
    for index := 0 to |cs|
      invariant keys.Valid() && |keys.columns| <= 2 * index && NoConstants(keys.constants)
      invariant pairs == JoinPairs(types, steps, cs[..index])
      invariant Classes(pairs, keys.columns, keys.roots) && MentionedOnly(pairs, keys.columns)
    {
      JoinPairsStep(types, steps, cs, index);
      pairs := JoinConjunct(types, steps, cs[index], keys, pairs);
    }
    assert cs[..|cs|] == cs;
  }

  method PinConstants(types: Schema, steps: seq<Step>, cs: seq<Conjunct>, keys: ColumnKeys)
    requires keys.Valid() && NoConstants(keys.constants) && DistinctNames(keys.types)
    modifies keys`constants, keys.keys
    ensures keys.Valid()
    ensures forall i :: 0 <= i < |keys.columns| ==> keys.constants[i] == FirstConstant(types, steps, cs, keys.columns[i])
  {
    KeysAreColumnsIff(keys.types);
    for index := 0 to |cs|
      invariant keys.Valid()
      invariant forall i :: 0 <= i < |keys.columns| ==> keys.constants[i] == FirstConstant(types, steps, cs[..index], keys.columns[i])
    {
      assert cs[..index + 1][..index] == cs[..index];
      var pin := ConstantOf(types, steps, cs[index]);
      if pin.Some? {
        keys.Pin(pin.value.0, pin.value.1);
      }
    }
    assert cs[..|cs|] == cs;
  }

  /** cc holds, per root, the constant of some key among the first k of its class. */
  predicate ClassConstants(roots: seq<nat>, constants: seq<Option<Node>>, cc: seq<Option<Node>>, k: nat) {
    && |constants| == |roots| <= |cc| && k <= |roots|
    && (forall i :: 0 <= i < |roots| ==> roots[i] < |roots|)
    && (forall r :: 0 <= r < |roots| && cc[r].Some? ==> exists i :: 0 <= i < k && roots[i] == r && constants[i] == cc[r])
    && (forall i :: 0 <= i < k && constants[i].Some? ==> cc[roots[i]].Some?)
  }

  /** What the first two loops leave: classes of the join equalities, and the
      first constant of every key. */
  ghost predicate KeysOf(types: Schema, steps: seq<Step>, cs: seq<Conjunct>, columns: seq<ColumnRef>, roots: seq<nat>, constants: seq<Option<Node>>) {
    var pairs := JoinPairs(types, steps, cs);
    && Classes(pairs, columns, roots) && MentionedOnly(pairs, columns) && |constants| == |columns|
    && forall i :: 0 <= i < |columns| ==> constants[i] == FirstConstant(types, steps, cs, columns[i])
  }

  predicate ConflictAt(roots: seq<nat>, constants: seq<Option<Node>>, cc: seq<Option<Node>>, i: nat)
    requires i < |roots| == |constants| && roots[i] < |cc|
  {
    constants[i].Some? && cc[roots[i]].Some? && LiteralsConflict(constants[i].value, cc[roots[i]].value)
  }

  lemma {:induction false} PairsAreComparable(types: Schema, steps: seq<Step>, cs: seq<Conjunct>)
    ensures AllComparable(types, JoinPairs(types, steps, cs))
  {
  }

  lemma {:induction false} ConstantFits(types: Schema, steps: seq<Step>, cs: seq<Conjunct>, x: ColumnRef)
    requires FirstConstant(types, steps, cs, x).Some?
    ensures LiteralFits(types, x, FirstConstant(types, steps, cs, x).value)
  {
    FirstConstantComesFrom(types, steps, cs, x);
  }

  /** The constant of a class fits every column of the class. */
  lemma {:induction false} ClassConstantFits(types: Schema, steps: seq<Step>, cs: seq<Conjunct>, columns: seq<ColumnRef>, roots: seq<nat>, constants: seq<Option<Node>>, cc: seq<Option<Node>>, i: nat)
    returns (j: nat)
    requires KeysOf(types, steps, cs, columns, roots, constants) && ClassConstants(roots, constants, cc, |roots|)
    requires i < |columns| && cc[roots[i]].Some?
    ensures j < |columns| && roots[j] == roots[i] && constants[j] == cc[roots[i]]
    ensures Connected(JoinPairs(types, steps, cs), columns[i], columns[j])
    ensures LiteralFits(types, columns[i], cc[roots[i]].value)
  {
    var pairs := JoinPairs(types, steps, cs);
    j :| 0 <= j < |roots| && roots[j] == roots[i] && constants[j] == cc[roots[i]];
    SameRootIffConnected(pairs, columns, roots, i, j);
    ConstantFits(types, steps, cs, columns[j]);
    PairsAreComparable(types, steps, cs);
    ConnectedFits(types, pairs, columns[i], columns[j], cc[roots[i]].value);
  }

  lemma {:induction false} MentionedHasKey(types: Schema, steps: seq<Step>, cs: seq<Conjunct>, columns: seq<ColumnRef>, roots: seq<nat>, constants: seq<Option<Node>>, x: ColumnRef)
    returns (i: nat)
    requires KeysOf(types, steps, cs, columns, roots, constants) && Mentioned(JoinPairs(types, steps, cs), x)
    ensures i < |columns| && columns[i] == x
  {
    var pairs := JoinPairs(types, steps, cs);
    var p :| p in pairs && (x == p.0 || x == p.1);
    assert HasSameRoot(columns, roots, p.0, p.1);
    i :| 0 <= i < |columns| && columns[i] == x;
  }

  lemma {:induction false} ConflictsFound(types: Schema, steps: seq<Step>, cs: seq<Conjunct>, columns: seq<ColumnRef>, roots: seq<nat>, constants: seq<Option<Node>>, cc: seq<Option<Node>>)
    requires KeysOf(types, steps, cs, columns, roots, constants) && ClassConstants(roots, constants, cc, |roots|)
    ensures (exists i :: 0 <= i < |roots| && ConflictAt(roots, constants, cc, i)) <==> Conflicting(types, steps, cs)
  {
    if i :| 0 <= i < |roots| && ConflictAt(roots, constants, cc, i) {
      ConflictIsReal(types, steps, cs, columns, roots, constants, cc, i);
    }
    if Conflicting(types, steps, cs) {
      ConflictIsFound(types, steps, cs, columns, roots, constants, cc);
    }
  }

  lemma {:induction false} ConflictIsReal(types: Schema, steps: seq<Step>, cs: seq<Conjunct>, columns: seq<ColumnRef>, roots: seq<nat>, constants: seq<Option<Node>>, cc: seq<Option<Node>>, i: nat)
    requires KeysOf(types, steps, cs, columns, roots, constants) && ClassConstants(roots, constants, cc, |roots|)
    requires i < |roots| && ConflictAt(roots, constants, cc, i)
    ensures Conflicting(types, steps, cs)
  {
    var pairs := JoinPairs(types, steps, cs);
    var j := ClassConstantFits(types, steps, cs, columns, roots, constants, cc, i);
    assert Mentioned(pairs, columns[i]) && Mentioned(pairs, columns[j]);
  }

  lemma {:induction false} ConflictIsFound(types: Schema, steps: seq<Step>, cs: seq<Conjunct>, columns: seq<ColumnRef>, roots: seq<nat>, constants: seq<Option<Node>>, cc: seq<Option<Node>>)
    requires KeysOf(types, steps, cs, columns, roots, constants) && ClassConstants(roots, constants, cc, |roots|)
    requires Conflicting(types, steps, cs)
    ensures exists i :: 0 <= i < |roots| && ConflictAt(roots, constants, cc, i)
  {
    var pairs := JoinPairs(types, steps, cs);
    var x, y :| Mentioned(pairs, x) && Mentioned(pairs, y) && Connected(pairs, x, y)
      && FirstConstant(types, steps, cs, x).Some? && FirstConstant(types, steps, cs, y).Some?
      && LiteralsConflict(FirstConstant(types, steps, cs, x).value, FirstConstant(types, steps, cs, y).value);
    var i := MentionedHasKey(types, steps, cs, columns, roots, constants, x);
    var j := MentionedHasKey(types, steps, cs, columns, roots, constants, y);
    SameRootIffConnected(pairs, columns, roots, i, j);
    ConflictInClass(types, steps, cs, columns, roots, constants, cc, i, j);
  }

  /** Of two conflicting constants of a class, one conflicts with the constant the
      class keeps. */
  lemma {:induction false} ConflictInClass(types: Schema, steps: seq<Step>, cs: seq<Conjunct>, columns: seq<ColumnRef>, roots: seq<nat>, constants: seq<Option<Node>>, cc: seq<Option<Node>>, i: nat, j: nat)
    requires KeysOf(types, steps, cs, columns, roots, constants) && ClassConstants(roots, constants, cc, |roots|)
    requires i < |roots| && j < |roots| && roots[i] == roots[j] && constants[i].Some? && constants[j].Some?
    requires LiteralsConflict(constants[i].value, constants[j].value)
    ensures ConflictAt(roots, constants, cc, i) || ConflictAt(roots, constants, cc, j)
  {
    var m := ClassConstantFits(types, steps, cs, columns, roots, constants, cc, i);
    ConstantFits(types, steps, cs, columns[i]);
  }

  lemma {:induction false} DerivedAt(types: Schema, steps: seq<Step>, cs: seq<Conjunct>, columns: seq<ColumnRef>, roots: seq<nat>, constants: seq<Option<Node>>, cc: seq<Option<Node>>, i: nat)
    requires KeysOf(types, steps, cs, columns, roots, constants) && ClassConstants(roots, constants, cc, |roots|)
    requires i < |columns| && constants[i].None? && cc[roots[i]].Some?
    ensures LiteralFits(types, columns[i], cc[roots[i]].value)
    ensures IsDerived(types, steps, cs, DerivedConjunct(columns[i], cc[roots[i]].value))
  {
    var j := ClassConstantFits(types, steps, cs, columns, roots, constants, cc, i);
    var pairs := JoinPairs(types, steps, cs);
    assert Mentioned(pairs, columns[i]) && Connected(pairs, columns[i], columns[j]);
    assert FirstConstant(types, steps, cs, columns[i]).None? && FirstConstant(types, steps, cs, columns[j]) == cc[roots[i]];
  }

  /** Key i needs no constant or has got one. */
  predicate ServedAt(columns: seq<ColumnRef>, roots: seq<nat>, constants: seq<Option<Node>>, cc: seq<Option<Node>>, derived: seq<Conjunct>, i: nat)
    requires i < |columns| == |roots| == |constants| && roots[i] < |cc|
  {
    || constants[i].Some? || cc[roots[i]].None?
    || exists d <- derived :: d.node.Binary? && d.node.left == ColumnNode(columns[i])
  }

  lemma {:induction false} ServedMeansPropagated(types: Schema, steps: seq<Step>, cs: seq<Conjunct>, columns: seq<ColumnRef>, roots: seq<nat>, constants: seq<Option<Node>>, cc: seq<Option<Node>>, derived: seq<Conjunct>, x: ColumnRef)
    requires KeysOf(types, steps, cs, columns, roots, constants) && ClassConstants(roots, constants, cc, |roots|)
    requires forall i :: 0 <= i < |columns| ==> ServedAt(columns, roots, constants, cc, derived, i)
    requires Mentioned(JoinPairs(types, steps, cs), x)
    ensures Propagated(types, steps, cs, derived, x)
  {
    var pairs := JoinPairs(types, steps, cs);
    var i := MentionedHasKey(types, steps, cs, columns, roots, constants, x);
    assert ServedAt(columns, roots, constants, cc, derived, i);
    if y :| Mentioned(pairs, y) && Connected(pairs, x, y) && FirstConstant(types, steps, cs, y).Some? {
      var j := MentionedHasKey(types, steps, cs, columns, roots, constants, y);
      SameRootIffConnected(pairs, columns, roots, i, j);
      assert cc[roots[j]].Some?;
    }
  }

  /** The key table of a conjunct list. */
  method BuildKeys(types: Schema, steps: seq<Step>, cs: seq<Conjunct>) returns (keys: ColumnKeys)
    requires |cs| <= OPT_MAX_CONJUNCTS && DistinctNames(types)
    ensures fresh(keys) && fresh(keys.keys) && keys.Valid()
    ensures KeysOf(types, steps, cs, keys.columns, keys.roots, keys.constants)
  {
    keys := CollectClasses(types, steps, cs);
    PinConstants(types, steps, cs, keys);
  }

  /** For each root, the constant of the first key of its class that has one. */
  method CollectClassConstants(keys: ColumnKeys) returns (classConstants: array<Option<Node>>)
    requires keys.Valid()
    ensures fresh(classConstants) && classConstants.Length == OPT_MAX_COLUMN_KEYS
    ensures ClassConstants(keys.roots, keys.constants, classConstants[..], keys.count)
  {
    classConstants := new Option<Node>[OPT_MAX_COLUMN_KEYS](_ => None);
    for key := 0 to keys.count
      invariant ClassConstants(keys.roots, keys.constants, classConstants[..], key)
      modifies classConstants
    {
      var root := keys.KeyRoot(key);
      ghost var before := classConstants[..];
      if keys.keys[key].constant.Some? && classConstants[root].None? {
        classConstants[root] := keys.keys[key].constant;
      }
      ClassConstantsStep(keys.roots, keys.constants, before, key, classConstants[..]);
    }
  }

  lemma {:induction false} ClassConstantsStep(roots: seq<nat>, constants: seq<Option<Node>>, cc: seq<Option<Node>>, k: nat, after: seq<Option<Node>>)
    requires ClassConstants(roots, constants, cc, k) && k < |roots|
    requires after == if constants[k].Some? && cc[roots[k]].None? then cc[roots[k] := constants[k]] else cc
    ensures ClassConstants(roots, constants, after, k + 1)
  {
  }

  method AnyConflict(keys: ColumnKeys, classConstants: array<Option<Node>>) returns (conflict: bool)
    requires keys.Valid() && ClassConstants(keys.roots, keys.constants, classConstants[..], keys.count)
    ensures conflict <==> exists i :: 0 <= i < keys.count && ConflictAt(keys.roots, keys.constants, classConstants[..], i)
  {
    ghost var roots, constants, cc := keys.roots, keys.constants, classConstants[..];
    conflict := false;
    for key := 0 to keys.count
      invariant conflict <==> exists i :: 0 <= i < key && ConflictAt(roots, constants, cc, i)
    {
      var root := keys.KeyRoot(key);
      assert ConflictAt(roots, constants, cc, key) <==>
        (constants[key].Some? && cc[root].Some? && LiteralsConflict(constants[key].value, cc[root].value));
      if keys.keys[key].constant.Some? && classConstants[root].Some? {
        if LiteralsConflict(keys.keys[key].constant.value, classConstants[root].value) {
          conflict := true;
        }
      }
    }
    assert keys.roots == roots && keys.constants == constants && classConstants[..] == cc;
  }

  method FindConflict(types: Schema, steps: seq<Step>, ghost cs: seq<Conjunct>, keys: ColumnKeys, classConstants: array<Option<Node>>) returns (conflict: bool)
    requires keys.Valid() && ClassConstants(keys.roots, keys.constants, classConstants[..], keys.count)
    requires KeysOf(types, steps, cs, keys.columns, keys.roots, keys.constants)
    ensures conflict <==> Conflicting(types, steps, cs)
  {
    conflict := AnyConflict(keys, classConstants);
    ConflictsFound(types, steps, cs, keys.columns, keys.roots, keys.constants, classConstants[..]);
  }

  lemma {:induction false} ServedMore(columns: seq<ColumnRef>, roots: seq<nat>, constants: seq<Option<Node>>, cc: seq<Option<Node>>, derived: seq<Conjunct>, more: seq<Conjunct>, i: nat)
    requires i < |columns| == |roots| == |constants| && roots[i] < |cc|
    requires ServedAt(columns, roots, constants, cc, derived, i)
    ensures ServedAt(columns, roots, constants, cc, derived + more, i)
  {
    if constants[i].None? && cc[roots[i]].Some? {
      var d :| d in derived && d.node.Binary? && d.node.left == ColumnNode(columns[i]);
      assert d in derived + more;
    }
  }

  /** Every key is served, unless the conjunct list is full. */
  ghost predicate AllServed(columns: seq<ColumnRef>, roots: seq<nat>, constants: seq<Option<Node>>, cc: seq<Option<Node>>, derived: seq<Conjunct>, k: nat) {
    && k <= |columns| == |roots| == |constants|
    && (forall i :: 0 <= i < |roots| ==> roots[i] < |cc|)
    && forall i :: 0 <= i < k ==> ServedAt(columns, roots, constants, cc, derived, i)
  }

  lemma {:induction false} ServedNext(columns: seq<ColumnRef>, roots: seq<nat>, constants: seq<Option<Node>>, cc: seq<Option<Node>>, derived: seq<Conjunct>, key: nat, found: Option<Conjunct>)
    requires AllServed(columns, roots, constants, cc, derived, key) && key < |columns|
    requires constants[key].Some? || cc[roots[key]].None?
          || (found.Some? && found.value.node.Binary? && found.value.node.left == ColumnNode(columns[key]))
    ensures AllServed(columns, roots, constants, cc, derived + if found.Some? then [found.value] else [], key + 1)
  {
    var more := if found.Some? then [found.value] else [];
    forall i | 0 <= i < key + 1
      ensures ServedAt(columns, roots, constants, cc, derived + more, i)
    {
      if i < key {
        ServedMore(columns, roots, constants, cc, derived, more, i);
      } else if found.Some? {
        assert found.value in derived + more;
      }
    }
  }

  /** The derived conjuncts are about different keys among the first k. */
  ghost predicate OnePerKey(columns: seq<ColumnRef>, derived: seq<Conjunct>, k: nat) {
    && k <= |columns|
    && (forall d <- derived :: d.node.Binary? && exists i :: 0 <= i < k && d.node.left == ColumnNode(columns[i]))
    && (forall i, j :: 0 <= i < j < |derived| ==> derived[i].node.left != derived[j].node.left)
  }

  lemma {:induction false} OnePerKeyNext(columns: seq<ColumnRef>, derived: seq<Conjunct>, key: nat, found: Option<Conjunct>)
    requires OnePerKey(columns, derived, key) && DistinctColumns(columns) && key < |columns|
    requires found.Some? ==> found.value.node.Binary? && found.value.node.left == ColumnNode(columns[key])
    ensures OnePerKey(columns, derived + if found.Some? then [found.value] else [], key + 1)
  {
    if found.Some? {
      var more := derived + [found.value];
      forall i, j | 0 <= i < j < |more|
        ensures more[i].node.left != more[j].node.left
      {
        assert derived[i] in derived;
        var k :| 0 <= k < key && derived[i].node.left == ColumnNode(columns[k]);
        assert columns[k] != columns[key];
      }
    } else {
      assert derived + [] == derived;
    }
  }

  lemma {:induction false} AllServedMeansPropagated(types: Schema, steps: seq<Step>, cs: seq<Conjunct>, columns: seq<ColumnRef>, roots: seq<nat>, constants: seq<Option<Node>>, cc: seq<Option<Node>>, derived: seq<Conjunct>)
    requires KeysOf(types, steps, cs, columns, roots, constants) && ClassConstants(roots, constants, cc, |roots|)
    requires AllServed(columns, roots, constants, cc, derived, |columns|)
    ensures forall x :: Mentioned(JoinPairs(types, steps, cs), x) ==> Propagated(types, steps, cs, derived, x)
  {
    forall x | Mentioned(JoinPairs(types, steps, cs), x)
      ensures Propagated(types, steps, cs, derived, x)
    {
      ServedMeansPropagated(types, steps, cs, columns, roots, constants, cc, derived, x);
    }
  }

  /** One key: its derived conjunct, if it needs one, is appended. */
  method DeriveFor(types: Schema, keys: ColumnKeys, classConstants: array<Option<Node>>, key: nat, ghost steps: seq<Step>, ghost cs: seq<Conjunct>, ghost derived: seq<Conjunct>)
    returns (found: Option<Conjunct>)
    requires keys.Valid() && key < keys.count
    requires KeysOf(types, steps, cs, keys.columns, keys.roots, keys.constants)
    requires ClassConstants(keys.roots, keys.constants, classConstants[..], keys.count)
    requires AllServed(keys.columns, keys.roots, keys.constants, classConstants[..], derived, key)
    ensures found.Some? ==> IsDerived(types, steps, cs, found.value)
    ensures found.Some? ==> found.value.node.Binary? && found.value.node.left == ColumnNode(keys.columns[key])
    ensures AllServed(keys.columns, keys.roots, keys.constants, classConstants[..],
                      derived + if found.Some? then [found.value] else [], key + 1)
  {
    ghost var columns, roots, constants, cc := keys.columns, keys.roots, keys.constants, classConstants[..];
    var root := keys.KeyRoot(key);
    found := None;
    if keys.keys[key].constant.None? && classConstants[root].Some? {
      DerivedAt(types, steps, cs, columns, roots, constants, cc, key);
      if LiteralFits(types, keys.keys[key].column, classConstants[root].value) {
        found := Some(DerivedConjunct(keys.keys[key].column, classConstants[root].value));
      }
    }
    ServedNext(columns, roots, constants, cc, derived, key, found);
  }

  method Store(conjuncts: array<Conjunct>, ghost count: nat, at: nat, found: Option<Conjunct>) returns (newCount: nat)
    requires count <= at < conjuncts.Length
    modifies conjuncts
    ensures newCount == (if found.Some? then at + 1 else at) && conjuncts[..count] == old(conjuncts[..count])
    ensures conjuncts[count..newCount] == old(conjuncts[count..at]) + if found.Some? then [found.value] else []
  {
    newCount := at;
    if found.Some? {
      conjuncts[at] := found.value;
      newCount := at + 1;
    }
  }

  method AppendDerived(types: Schema, keys: ColumnKeys, classConstants: array<Option<Node>>, conjuncts: array<Conjunct>, count: nat, ghost steps: seq<Step>)
    returns (newCount: nat)
    requires conjuncts.Length == OPT_CONJUNCT_CAPACITY && count <= OPT_MAX_CONJUNCTS
    requires keys.Valid() && KeysOf(types, steps, conjuncts[..count], keys.columns, keys.roots, keys.constants)
    requires ClassConstants(keys.roots, keys.constants, classConstants[..], keys.count)
    requires keys.keys as object != conjuncts && classConstants as object != conjuncts
    modifies conjuncts
    ensures count <= newCount <= OPT_MAX_CONJUNCTS && conjuncts[..count] == old(conjuncts[..count])
    ensures forall d <- conjuncts[count..newCount] :: IsDerived(types, steps, old(conjuncts[..count]), d)
    ensures OnePerKey(keys.columns, conjuncts[count..newCount], keys.count)
    ensures newCount < OPT_MAX_CONJUNCTS ==>
              AllServed(keys.columns, keys.roots, keys.constants, classConstants[..], conjuncts[count..newCount], keys.count)
  {
    ghost var cs := conjuncts[..count];
    newCount := count;
    var key := 0;
    assert AllServed(keys.columns, keys.roots, keys.constants, classConstants[..], conjuncts[count..newCount], key);
    hide KeysOf, ClassConstants, IsDerived, AllServed;
    while key < keys.count && newCount < OPT_MAX_CONJUNCTS
      invariant key <= keys.count && count <= newCount <= OPT_MAX_CONJUNCTS
      invariant conjuncts[..count] == cs
      invariant forall d <- conjuncts[count..newCount] :: IsDerived(types, steps, cs, d)
      invariant AllServed(keys.columns, keys.roots, keys.constants, classConstants[..], conjuncts[count..newCount], key)
      invariant OnePerKey(keys.columns, conjuncts[count..newCount], key)
    {
      var found := DeriveFor(types, keys, classConstants, key, steps, cs, conjuncts[count..newCount]);
      OnePerKeyNext(keys.columns, conjuncts[count..newCount], key, found);
      newCount := Store(conjuncts, count, newCount, found);
      key := key + 1;
    }
  }

  /** What the propagation leaves, said of the written conjuncts. */
  lemma {:induction false} WrittenResult(types: Schema, steps: seq<Step>, cs: seq<Conjunct>, columns: seq<ColumnRef>, derived: seq<Conjunct>, conflict: bool, all: bool)
    requires conflict <==> Conflicting(types, steps, cs)
    requires (forall d <- derived :: IsDerived(types, steps, cs, d)) && OnePerKey(columns, derived, |columns|)
    requires all ==> forall x :: Mentioned(JoinPairs(types, steps, cs), x) ==> Propagated(types, steps, cs, derived, x)
    ensures conflict <==> WrittenConflict(types, steps, cs)
    ensures forall d <- derived :: WrittenDerived(types, steps, cs, d)
    ensures all ==> forall x :: IsServed(types, steps, cs, derived, x)
    ensures forall i, j :: 0 <= i < j < |derived| ==> derived[i].node != derived[j].node
  {
    ConflictIff(types, steps, cs);
    forall d | d in derived
      ensures WrittenDerived(types, steps, cs, d)
    {
      DerivedIff(types, steps, cs, d);
    }
    if all {
      forall x
        ensures IsServed(types, steps, cs, derived, x)
      {
        PropagatedIsServed(types, steps, cs, derived, x);
      }
    }
  }

  /** Appends the derived conjuncts and reports whether two columns of one class
      are pinned to different constants. */
  method PropagateConstants(types: Schema, steps: seq<Step>, conjuncts: array<Conjunct>, count: nat)
    returns (newCount: nat, conflict: bool)
    requires conjuncts.Length == OPT_CONJUNCT_CAPACITY && count <= OPT_MAX_CONJUNCTS && DistinctNames(types)
    modifies conjuncts
    ensures count <= newCount <= OPT_MAX_CONJUNCTS
    ensures conjuncts[..count] == old(conjuncts[..count])
    ensures conflict <==> Conflicting(types, steps, old(conjuncts[..count]))
    ensures conflict <==> WrittenConflict(types, steps, old(conjuncts[..count]))
    ensures forall d <- conjuncts[count..newCount] :: IsDerived(types, steps, old(conjuncts[..count]), d)
    ensures forall d <- conjuncts[count..newCount] :: WrittenDerived(types, steps, old(conjuncts[..count]), d)
    ensures forall i, j :: count <= i < j < newCount ==> conjuncts[i].node != conjuncts[j].node
    ensures newCount < OPT_MAX_CONJUNCTS ==>
              forall x :: IsServed(types, steps, old(conjuncts[..count]), conjuncts[count..newCount], x)
  {
    hide KeysOf, IsDerived, AllServed, OnePerKey, Conflicting, WrittenConflict, WrittenDerived, IsServed, Propagated, JoinPairs;
    ghost var cs := conjuncts[..count];
    var keys := BuildKeys(types, steps, conjuncts[..count]);
    ghost var columns, roots, constants := keys.columns, keys.roots, keys.constants;
    var classConstants := CollectClassConstants(keys);
    ghost var cc := classConstants[..];
    conflict := FindConflict(types, steps, cs, keys, classConstants);
    newCount := AppendDerived(types, keys, classConstants, conjuncts, count, steps);
    ghost var derived := conjuncts[count..newCount];
    if newCount < OPT_MAX_CONJUNCTS {
      AllServedMeansPropagated(types, steps, cs, columns, roots, constants, cc, derived);
    }
    WrittenResult(types, steps, cs, columns, derived, conflict, newCount < OPT_MAX_CONJUNCTS);
    assert forall i, j :: count <= i < j < newCount ==> conjuncts[i] == derived[i - count] && conjuncts[j] == derived[j - count];
  }
}
