/** Which conjuncts join two columns and which pin a column to a literal: what the
    rewriter reads off a conjunct, and the written forms it stands for. */
module Equalities {
  import opened Predicates
  import opened Conjuncts
  import opened ColumnClasses

  predicate KeepsItsRows(steps: seq<Step>, rel: nat) {
    !(rel > 0 && NullSupplying(steps, rel))
  }

  /** The two columns of a conjunct that equates columns of two relations and
      holds in every result row. */
  function JoinKeyOf(types: Schema, steps: seq<Step>, c: Conjunct): Option<Pair> {
    if c.unresolved || c.destination.Dropped? || OnLeftJoin(steps, c) then None
    else if !(c.node.Binary? && IsEquality(c.node.op) && c.node.left.Column? && c.node.right.Column?) then None
    else
      var a, b := ColumnRef(c.node.left.rel, c.node.left.col), ColumnRef(c.node.right.rel, c.node.right.col);
      if a.rel == b.rel || !KeepsItsRows(steps, a.rel) || !KeepsItsRows(steps, b.rel) || !Comparable(types, a, b) then None
      else Some((a, b))
  }

  predicate LiteralFits(types: Schema, column: ColumnRef, literal: Node) {
    || (TypeOf(types, column).String8? && literal.Literal?)
    || (IsComparableNumber(TypeOf(types, column)) && literal.Numeric?)
  }

  /** The column and the literal of a WHERE conjunct that pins one to the other. */
  function ConstantOf(types: Schema, steps: seq<Step>, c: Conjunct): Option<(ColumnRef, Node)> {
    if !c.fromWhere || c.unresolved || c.destination.Dropped? then None
    else if !(c.node.Binary? && IsEquality(c.node.op)) then None
    else
      var (column, literal) := if c.node.left.Column? then (c.node.left, c.node.right) else (c.node.right, c.node.left);
      if !column.Column? || !KeepsItsRows(steps, column.rel) then None
      else
        var x := ColumnRef(column.rel, column.col);
        if LiteralFits(types, x, literal) then Some((x, literal)) else None
  }

  /** The first constant a column is pinned to. */
  function FirstConstant(types: Schema, steps: seq<Step>, cs: seq<Conjunct>, x: ColumnRef): Option<Node> {
    if cs == [] then None
    else
      var earlier := FirstConstant(types, steps, cs[..|cs| - 1], x);
      var last := ConstantOf(types, steps, cs[|cs| - 1]);
      if earlier.None? && last.Some? && last.value.0 == x then Some(last.value.1) else earlier
  }

  ghost function JoinPairs(types: Schema, steps: seq<Step>, cs: seq<Conjunct>): set<Pair> {
    set c <- cs | JoinKeyOf(types, steps, c).Some? :: JoinKeyOf(types, steps, c).value
  }

  predicate LiteralsConflict(a: Node, b: Node) {
    || (a.Numeric? && b.Numeric? && a.value != b.value)
    || (a.Literal? && b.Literal? && a.text != b.text)
  }

  // ---- The written forms ----

  /** The condition is written as an equality of the two operands, in this order. */
  predicate IsEquation(n: Node, left: Node, right: Node) {
    n == Binary(Eq, left, right) || n == Binary(EqEq, left, right)
  }

  /** Rows of the relation never come filled up with NULLs. */
  predicate IsPreserved(steps: seq<Step>, rel: nat) {
    0 < rel < |steps| ==> !steps[rel].nullSupplying
  }

  /** A resolved WHERE conjunct that equates the column with a literal of its kind, in
      either order, where the relation keeps its rows. */
  predicate Pins(types: Schema, steps: seq<Step>, c: Conjunct, x: ColumnRef, literal: Node) {
    && c.fromWhere && !c.unresolved && c.destination != Dropped
    && (IsEquation(c.node, Column(x.rel, x.col), literal) || IsEquation(c.node, literal, Column(x.rel, x.col)))
    && (if TypeOf(types, x).String8? then literal.Literal? else TypeOf(types, x) in NUMBER_TYPES && literal.Numeric?)
    && IsPreserved(steps, x.rel)
  }

  /** A resolved equality of columns of two relations that hold values of one kind and
      keep their rows, written in WHERE or in the ON condition of no left join. */
  predicate Joins(types: Schema, steps: seq<Step>, c: Conjunct, a: ColumnRef, b: ColumnRef) {
    && !c.unresolved && c.destination != Dropped
    && (c.fromWhere || (c.step < |steps| ==> !steps[c.step].nullSupplying))
    && IsEquation(c.node, Column(a.rel, a.col), Column(b.rel, b.col)) && a.rel != b.rel
    && (if TypeOf(types, a).String8? then TypeOf(types, b).String8?
        else TypeOf(types, a) in NUMBER_TYPES && TypeOf(types, b) in NUMBER_TYPES)
    && IsPreserved(steps, a.rel) && IsPreserved(steps, b.rel)
  }

  /** A conjunct gives a column its literal if and only if it is written so. */
  lemma {:induction false} PinsIff(types: Schema, steps: seq<Step>, c: Conjunct, x: ColumnRef, literal: Node)
    ensures ConstantOf(types, steps, c) == Some((x, literal)) <==> Pins(types, steps, c, x, literal)
  {
  }

  /** A conjunct is a join key if and only if it is written so. */
  lemma {:induction false} JoinsIff(types: Schema, steps: seq<Step>, c: Conjunct, a: ColumnRef, b: ColumnRef)
    ensures JoinKeyOf(types, steps, c) == Some((a, b)) <==> Joins(types, steps, c, a, b)
  {
  }

  /** The pairs are exactly the written join equalities. */
  ghost predicate AreJoins(types: Schema, steps: seq<Step>, cs: seq<Conjunct>, pairs: set<Pair>) {
    forall a, b :: (a, b) in pairs <==> exists c <- cs :: Joins(types, steps, c, a, b)
  }

  lemma {:induction false} JoinPairsAre(types: Schema, steps: seq<Step>, cs: seq<Conjunct>)
    ensures AreJoins(types, steps, cs, JoinPairs(types, steps, cs))
  {
    forall a, b
      ensures (a, b) in JoinPairs(types, steps, cs) <==> exists c <- cs :: Joins(types, steps, c, a, b)
    {
      if (a, b) in JoinPairs(types, steps, cs) {
        var c :| c in cs && JoinKeyOf(types, steps, c) == Some((a, b));
        JoinsIff(types, steps, c, a, b);
      }
      if c :| c in cs && Joins(types, steps, c, a, b) {
        JoinsIff(types, steps, c, a, b);
      }
    }
  }

  lemma {:induction false} SamePairs(types: Schema, steps: seq<Step>, cs: seq<Conjunct>, pairs: set<Pair>)
    requires AreJoins(types, steps, cs, pairs)
    ensures pairs == JoinPairs(types, steps, cs)
  {
    JoinPairsAre(types, steps, cs);
    var all := JoinPairs(types, steps, cs);
    forall p
      ensures p in pairs <==> p in all
    {
      assert p == (p.0, p.1);
    }
  }

  /** The first conjunct of the list that pins the column. */
  ghost predicate PinsFirst(types: Schema, steps: seq<Step>, cs: seq<Conjunct>, i: nat, x: ColumnRef, literal: Node) {
    && i < |cs| && Pins(types, steps, cs[i], x, literal)
    && forall k, other :: 0 <= k < i ==> !Pins(types, steps, cs[k], x, other)
  }

  lemma {:induction false} FirstConstantComesFrom(types: Schema, steps: seq<Step>, cs: seq<Conjunct>, x: ColumnRef)
    requires FirstConstant(types, steps, cs, x).Some?
    ensures exists c <- cs :: ConstantOf(types, steps, c) == Some((x, FirstConstant(types, steps, cs, x).value))
  {
    var init, last := cs[..|cs| - 1], cs[|cs| - 1];
    if FirstConstant(types, steps, init, x).Some? {
      FirstConstantComesFrom(types, steps, init, x);
      var c :| c in init && ConstantOf(types, steps, c) == Some((x, FirstConstant(types, steps, cs, x).value));
      assert c in cs;
    } else {
      assert last in cs;
    }
  }

  lemma {:induction false} PinnedNowhere(types: Schema, steps: seq<Step>, cs: seq<Conjunct>, x: ColumnRef)
    requires FirstConstant(types, steps, cs, x).None?
    ensures forall k, literal :: 0 <= k < |cs| ==> !Pins(types, steps, cs[k], x, literal)
  {
    if cs != [] {
      var init := cs[..|cs| - 1];
      PinnedNowhere(types, steps, init, x);
      forall k, literal | 0 <= k < |cs|
        ensures !Pins(types, steps, cs[k], x, literal)
      {
        if k < |init| {
          assert cs[k] == init[k];
        } else {
          PinsIff(types, steps, cs[k], x, literal);
        }
      }
    }
  }

  ghost predicate IsPinned(types: Schema, steps: seq<Step>, cs: seq<Conjunct>, x: ColumnRef) {
    exists c <- cs, literal :: Pins(types, steps, c, x, literal)
  }

  lemma {:induction false} PinnedIff(types: Schema, steps: seq<Step>, cs: seq<Conjunct>, x: ColumnRef)
    ensures FirstConstant(types, steps, cs, x).Some? <==> IsPinned(types, steps, cs, x)
  {
    if FirstConstant(types, steps, cs, x).None? {
      PinnedNowhere(types, steps, cs, x);
    } else {
      var i := FirstPin(types, steps, cs, x);
      assert cs[i] in cs;
    }
  }

  lemma {:induction false} FirstPin(types: Schema, steps: seq<Step>, cs: seq<Conjunct>, x: ColumnRef) returns (i: nat)
    requires FirstConstant(types, steps, cs, x).Some?
    ensures PinsFirst(types, steps, cs, i, x, FirstConstant(types, steps, cs, x).value)
  {
    var init := cs[..|cs| - 1];
    if FirstConstant(types, steps, init, x).Some? {
      i := FirstPin(types, steps, init, x);
      assert forall k :: 0 <= k <= i ==> cs[k] == init[k];
    } else {
      i := |init|;
      PinnedNowhere(types, steps, init, x);
      assert forall k :: 0 <= k < i ==> cs[k] == init[k];
      PinsIff(types, steps, cs[i], x, FirstConstant(types, steps, cs, x).value);
    }
  }

  /** The constant of a column is the literal of the first conjunct that pins it. */
  lemma {:induction false} FirstConstantIff(types: Schema, steps: seq<Step>, cs: seq<Conjunct>, x: ColumnRef, literal: Node)
    ensures FirstConstant(types, steps, cs, x) == Some(literal) <==> exists i: nat :: PinsFirst(types, steps, cs, i, x, literal)
  {
    if FirstConstant(types, steps, cs, x).None? {
      PinnedNowhere(types, steps, cs, x);
    } else {
      var first := FirstPin(types, steps, cs, x);
      if i: nat :| PinsFirst(types, steps, cs, i, x, literal) {
        assert i == first;
        PinsIff(types, steps, cs[i], x, literal);
        PinsIff(types, steps, cs[i], x, FirstConstant(types, steps, cs, x).value);
      }
    }
  }

  /** Two columns that the written join equalities connect are pinned to different
      literals by the first conjuncts that pin them. */
  ghost predicate PinnedApart(types: Schema, steps: seq<Step>, cs: seq<Conjunct>, pairs: set<Pair>, x: ColumnRef, i: nat, l: Node, y: ColumnRef, j: nat, m: Node) {
    && Connected(pairs, x, y) && PinsFirst(types, steps, cs, i, x, l) && PinsFirst(types, steps, cs, j, y, m)
    && (if l.Numeric? then m.Numeric? && l.value != m.value else l.Literal? && m.Literal? && l.text != m.text)
  }
}
