/** Classes of columns joined by equality, kept as parent links in an array. Two
    columns end up in one class exactly when the given equalities connect them. */
module ColumnClasses {
  import opened Predicates
  import opened Plans

  datatype ColumnRef = ColumnRef(rel: nat, col: nat)

  datatype ColumnType =
    | U32 | U64 | F32 | F64 | String8 | Bool | I32 | I64 | Date | Timestamp | Decimal | Enum | Invalid

  datatype ColumnDef = ColumnDef(name: string, columnType: ColumnType)

  /** The columns of every FROM item. */
  type Schema = seq<seq<ColumnDef>>

  const OPT_MAX_COLUMN_KEYS := 128

  predicate IsComparableNumber(t: ColumnType) {
    t.U32? || t.U64? || t.I32? || t.I64? || t.F64? || t.Bool?
  }

  /** The types whose values a predicate compares as numbers. */
  const NUMBER_TYPES: set<ColumnType> := {Bool, I32, I64, U32, U64, F64}

  predicate IsColumn(types: Schema, c: ColumnRef) {
    c.rel < |types| && c.col < |types[c.rel]|
  }

  function TypeOf(types: Schema, c: ColumnRef): ColumnType {
    if IsColumn(types, c) then types[c.rel][c.col].columnType else Invalid
  }

  // ---- Names ----

  function UpperChar(c: char): char {
    if 'a' <= c <= 'z' then (c as int - 'a' as int + 'A' as int) as char else c
  }

  predicate SameUpToCase(a: string, b: string) {
    |a| == |b| && forall i :: 0 <= i < |a| ==> UpperChar(a[i]) == UpperChar(b[i])
  }

  predicate IsCapitalOf(c: char, d: char) {
    'A' <= c <= 'Z' && 'a' <= d <= 'z' && c as int - 'A' as int == d as int - 'a' as int
  }

  /** The names are equal up to the case of their letters. */
  lemma {:induction false} SameUpToCaseIff(a: string, b: string)
    ensures SameUpToCase(a, b) <==>
            |a| == |b| && forall i :: 0 <= i < |a| ==> a[i] == b[i] || IsCapitalOf(a[i], b[i]) || IsCapitalOf(b[i], a[i])
  {
    if |a| == |b| {
      forall i | 0 <= i < |a|
        ensures UpperChar(a[i]) == UpperChar(b[i]) <==> a[i] == b[i] || IsCapitalOf(a[i], b[i]) || IsCapitalOf(b[i], a[i])
      {
      }
    }
  }

  /** What the optimizer takes for one column: a name in two spellings. */
  predicate SameKey(types: Schema, a: ColumnRef, b: ColumnRef) {
    && a.rel == b.rel
    && (a.col == b.col || (IsColumn(types, a) && IsColumn(types, b) && SameUpToCase(types[a.rel][a.col].name, types[b.rel][b.col].name)))
  }

  /** No table has two columns whose names differ in case only. */
  ghost predicate DistinctNames(types: Schema) {
    forall r, i, j :: 0 <= r < |types| && 0 <= i < j < |types[r]| ==> !SameUpToCase(types[r][i].name, types[r][j].name)
  }

  /** Exactly then the optimizer tells any two columns apart. */
  lemma {:induction false} KeysAreColumnsIff(types: Schema)
    ensures DistinctNames(types) <==> forall a, b :: SameKey(types, a, b) ==> a == b
  {
    if DistinctNames(types) {
      forall a, b | SameKey(types, a, b)
        ensures a == b
      {
        SameKeyIff(types, a, b);
      }
    } else {
      var r, i, j :| 0 <= r < |types| && 0 <= i < j < |types[r]| && SameUpToCase(types[r][i].name, types[r][j].name);
      assert SameKey(types, ColumnRef(r, i), ColumnRef(r, j));
    }
  }

  lemma {:induction false} SameKeyIff(types: Schema, a: ColumnRef, b: ColumnRef)
    requires DistinctNames(types)
    ensures SameKey(types, a, b) <==> a == b
  {
    if IsColumn(types, a) && IsColumn(types, b) && a.rel == b.rel {
      SameUpToCaseSymmetric(types[a.rel][a.col].name, types[b.rel][b.col].name);
    }
  }

  lemma {:induction false} SameUpToCaseSymmetric(a: string, b: string)
    ensures SameUpToCase(a, b) <==> SameUpToCase(b, a)
  {
  }

  lemma {:induction false} SameKeyIsEquivalence(types: Schema, a: ColumnRef, b: ColumnRef, c: ColumnRef)
    ensures SameKey(types, a, a)
    ensures SameKey(types, a, b) <==> SameKey(types, b, a)
    ensures SameKey(types, a, b) ==> (SameKey(types, a, c) <==> SameKey(types, b, c))
  {
    if IsColumn(types, a) && IsColumn(types, b) && a.rel == b.rel {
      SameUpToCaseSymmetric(types[a.rel][a.col].name, types[b.rel][b.col].name);
      if IsColumn(types, c) && c.rel == a.rel && SameKey(types, a, b) {
        SameUpToCaseTransitive(types[a.rel][a.col].name, types[b.rel][b.col].name, types[c.rel][c.col].name);
      }
    }
  }

  lemma {:induction false} SameUpToCaseTransitive(a: string, b: string, c: string)
    requires SameUpToCase(a, b)
    ensures SameUpToCase(a, c) <==> SameUpToCase(b, c)
  {
    if SameUpToCase(a, c) {
      forall i | 0 <= i < |b|
        ensures UpperChar(b[i]) == UpperChar(c[i])
      {
        assert UpperChar(a[i]) == UpperChar(c[i]);
      }
    }
  }

  predicate HasType(t: ColumnType, v: Value) {
    v.Null? || ((IsComparableNumber(t) ==> v.Num?) && (t.String8? ==> v.Str?))
  }

  /** Stored values have the types of their columns. */
  ghost predicate Typed(w: World, types: Schema) {
    forall row, c: ColumnRef :: Stored(w, row) ==> HasType(TypeOf(types, c), ValueAt(row, c.rel, c.col))
  }

  /** Values of the two columns can be compared for equality as they are. */
  predicate Comparable(types: Schema, a: ColumnRef, b: ColumnRef) {
    || (IsComparableNumber(TypeOf(types, a)) && IsComparableNumber(TypeOf(types, b)))
    || (TypeOf(types, a).String8? && TypeOf(types, b).String8?)
  }

  function ColumnNode(c: ColumnRef): Node {
    Column(c.rel, c.col)
  }

  predicate Match(row: Row, a: ColumnRef, b: ColumnRef) {
    ValueAt(row, a.rel, a.col) == ValueAt(row, b.rel, b.col) && !ValueAt(row, a.rel, a.col).Null?
  }

  /** An equality of comparable columns is true exactly when their values match. */
  lemma {:induction false} EqualityMatches(w: World, types: Schema, op: BinaryOp, a: ColumnRef, b: ColumnRef, row: Row)
    requires Typed(w, types) && Stored(w, row) && Comparable(types, a, b) && IsEquality(op)
    ensures Holds(w, Binary(op, ColumnNode(a), ColumnNode(b)), row) <==> Match(row, a, b)
  {
    var node := Binary(op, ColumnNode(a), ColumnNode(b));
    var x, y := ValueAt(row, a.rel, a.col), ValueAt(row, b.rel, b.col);
    assert Eval(w, node.left, row) == x && Eval(w, node.right, row) == y;
    assert HasType(TypeOf(types, a), x) && HasType(TypeOf(types, b), y);
    assert Eval(w, node, row) == ValueOf(Compare(w, op, x, y));
  }

  // ---- Columns connected by equalities ----

  type Pair = (ColumnRef, ColumnRef)

  predicate Closed(pairs: set<Pair>, columns: set<ColumnRef>) {
    forall p <- pairs :: p.0 in columns <==> p.1 in columns
  }

  /** a and b are in the same class of the equivalence the pairs generate: no set
      closed under the pairs tells them apart. */
  ghost predicate Connected(pairs: set<Pair>, a: ColumnRef, b: ColumnRef) {
    forall columns: set<ColumnRef> :: Closed(pairs, columns) ==> (a in columns <==> b in columns)
  }

  lemma {:induction false} PairConnects(pairs: set<Pair>, p: Pair)
    requires p in pairs
    ensures Connected(pairs, p.0, p.1)
  {
  }

  /** Connected columns have equal values in every row that satisfies the pairs. */
  lemma {:induction false} ConnectedMatch(pairs: set<Pair>, a: ColumnRef, b: ColumnRef, row: Row)
    requires Connected(pairs, a, b) && (forall p <- pairs :: Match(row, p.0, p.1))
    requires !ValueAt(row, a.rel, a.col).Null?
    ensures Match(row, a, b)
  {
    var mentioned := (set p <- pairs :: p.0) + (set p <- pairs :: p.1) + {a, b};
    var same := set c <- mentioned | ValueAt(row, c.rel, c.col) == ValueAt(row, a.rel, a.col);
    forall p | p in pairs
      ensures p.0 in same <==> p.1 in same
    {
      assert p.0 in mentioned && p.1 in mentioned && Match(row, p.0, p.1);
    }
    assert Closed(pairs, same) && a in same;
  }

  // ---- The key table ----

  datatype ColumnKey = ColumnKey(column: ColumnRef, parent: nat, constant: Option<Node>)

  function Pinned(types: Schema, key: ColumnKey, column: ColumnRef, literal: Node): ColumnKey {
    if SameKey(types, key.column, column) && key.constant.None? then key.(constant := Some(literal)) else key
  }

  /** Parent links lead upwards: heights grow along them, up to a bound. */
  ghost predicate Forest(ks: seq<ColumnKey>, heights: seq<nat>, bound: nat) {
    && |heights| == |ks|
    && forall i :: 0 <= i < |ks| ==>
         && ks[i].parent < |ks| && heights[i] <= bound
         && (ks[i].parent != i ==> heights[i] < heights[ks[i].parent])
  }

  ghost function Root(ks: seq<ColumnKey>, heights: seq<nat>, bound: nat, i: nat): (root: nat)
    requires Forest(ks, heights, bound) && i < |ks|
    ensures root < |ks| && ks[root].parent == root
    decreases bound - heights[i]
  {
    if ks[i].parent == i then i else Root(ks, heights, bound, ks[i].parent)
  }

  function ColumnsIn(ks: seq<ColumnKey>): (columns: seq<ColumnRef>)
    ensures |columns| == |ks|
  {
    seq(|ks|, i requires 0 <= i < |ks| => ks[i].column)
  }

  ghost function RootsIn(ks: seq<ColumnKey>, heights: seq<nat>, bound: nat): (roots: seq<nat>)
    requires Forest(ks, heights, bound)
    ensures |roots| == |ks|
  {
    seq(|ks|, i requires 0 <= i < |ks| => Root(ks, heights, bound, i))
  }

  function ConstantsIn(ks: seq<ColumnKey>): (constants: seq<Option<Node>>)
    ensures |constants| == |ks|
  {
    seq(|ks|, i requires 0 <= i < |ks| => ks[i].constant)
  }

  predicate SameLinks(a: seq<ColumnKey>, b: seq<ColumnKey>) {
    |a| <= |b| && forall i :: 0 <= i < |a| ==> a[i].parent == b[i].parent && a[i].column == b[i].column
  }

  lemma {:induction false} RootUnaffected(ks: seq<ColumnKey>, h: seq<nat>, b: nat, ks': seq<ColumnKey>, h': seq<nat>, b': nat, i: nat)
    requires Forest(ks, h, b) && Forest(ks', h', b') && SameLinks(ks, ks') && i < |ks|
    ensures Root(ks, h, b, i) == Root(ks', h', b', i)
    decreases b - h[i]
  {
    if ks[i].parent != i {
      RootUnaffected(ks, h, b, ks', h', b', ks[i].parent);
    }
  }

  /** Hanging one root below another merges two classes and leaves the rest. */
  lemma {:induction false} RootAfterLink(ks: seq<ColumnKey>, h: seq<nat>, b: nat, ks': seq<ColumnKey>, h': seq<nat>, b': nat, left: nat, right: nat, i: nat)
    requires Forest(ks, h, b) && Forest(ks', h', b') && i < |ks| == |ks'|
    requires left < |ks| && right < |ks| && left != right
    requires ks[left].parent == left && ks[right].parent == right
    requires ks' == ks[right := ks[right].(parent := left)]
    ensures Root(ks', h', b', i) == if Root(ks, h, b, i) == right then left else Root(ks, h, b, i)
    decreases b - h[i]
  {
    if ks[i].parent != i {
      RootAfterLink(ks, h, b, ks', h', b', left, right, ks[i].parent);
    }
  }

  // ---- Classes, as the roots of a list of columns ----

  predicate HasSameRoot(columns: seq<ColumnRef>, roots: seq<nat>, a: ColumnRef, b: ColumnRef)
    requires |roots| == |columns|
  {
    exists i, j :: 0 <= i < |columns| && 0 <= j < |columns| && columns[i] == a && columns[j] == b && roots[i] == roots[j]
  }

  predicate DistinctColumns(columns: seq<ColumnRef>) {
    forall i, j :: 0 <= i < j < |columns| ==> columns[i] != columns[j]
  }

  /** The roots describe the equivalence that the pairs generate. */
  ghost predicate Classes(pairs: set<Pair>, columns: seq<ColumnRef>, roots: seq<nat>) {
    && |roots| == |columns| && DistinctColumns(columns)
    && (forall i :: 0 <= i < |roots| ==> roots[i] < |columns| && roots[roots[i]] == roots[i])
    && (forall i :: 0 <= i < |roots| ==> Connected(pairs, columns[i], columns[roots[i]]))
    && (forall p <- pairs :: HasSameRoot(columns, roots, p.0, p.1))
  }

  /** Same root means connected, and the other way round. */
  lemma {:induction false} SameRootIffConnected(pairs: set<Pair>, columns: seq<ColumnRef>, roots: seq<nat>, i: nat, j: nat)
    requires Classes(pairs, columns, roots) && i < |columns| && j < |columns|
    ensures roots[i] == roots[j] <==> Connected(pairs, columns[i], columns[j])
  {
    if Connected(pairs, columns[i], columns[j]) {
      var same := set k | 0 <= k < |columns| && roots[k] == roots[i] :: columns[k];
      forall p | p in pairs
        ensures p.0 in same <==> p.1 in same
      {
        assert HasSameRoot(columns, roots, p.0, p.1);
      }
      assert Closed(pairs, same) && columns[i] in same;
    }
  }

  lemma {:induction false} AddColumn(pairs: set<Pair>, columns: seq<ColumnRef>, roots: seq<nat>, c: ColumnRef)
    requires Classes(pairs, columns, roots) && c !in columns
    ensures Classes(pairs, columns + [c], roots + [|columns|])
  {
    var columns', roots' := columns + [c], roots + [|columns|];
    forall p | p in pairs
      ensures HasSameRoot(columns', roots', p.0, p.1)
    {
      var i, j :| 0 <= i < |columns| && 0 <= j < |columns| && columns[i] == p.0 && columns[j] == p.1 && roots[i] == roots[j];
      assert columns'[i] == p.0 && columns'[j] == p.1 && roots'[i] == roots'[j];
    }
  }

  function Merged(roots: seq<nat>, left: nat, right: nat): (merged: seq<nat>)
    ensures |merged| == |roots|
  {
    seq(|roots|, k requires 0 <= k < |roots| => if roots[k] == right then left else roots[k])
  }

  lemma {:induction false} ConnectedMore(pairs: set<Pair>, more: set<Pair>, a: ColumnRef, b: ColumnRef)
    requires Connected(pairs, a, b) && pairs <= more
    ensures Connected(more, a, b)
  {
    forall columns: set<ColumnRef> | Closed(more, columns)
      ensures a in columns <==> b in columns
    {
      assert Closed(pairs, columns);
    }
  }

  lemma {:induction false} AddPair(pairs: set<Pair>, columns: seq<ColumnRef>, roots: seq<nat>, i: nat, j: nat)
    requires Classes(pairs, columns, roots) && i < |columns| && j < |columns|
    ensures Classes(pairs + {(columns[i], columns[j])}, columns, Merged(roots, roots[i], roots[j]))
  {
    var more, merged := pairs + {(columns[i], columns[j])}, Merged(roots, roots[i], roots[j]);
    PairConnects(more, (columns[i], columns[j]));
    forall k | 0 <= k < |columns|
      ensures Connected(more, columns[k], columns[merged[k]])
    {
      ConnectedMore(pairs, more, columns[k], columns[roots[k]]);
      ConnectedMore(pairs, more, columns[i], columns[roots[i]]);
      ConnectedMore(pairs, more, columns[j], columns[roots[j]]);
    }
    forall p | p in more
      ensures HasSameRoot(columns, merged, p.0, p.1)
    {
      if p in pairs {
        var a, b :| 0 <= a < |columns| && 0 <= b < |columns| && columns[a] == p.0 && columns[b] == p.1 && roots[a] == roots[b];
        assert columns[a] == p.0 && columns[b] == p.1 && merged[a] == merged[b];
      } else {
        assert columns[i] == p.0 && columns[j] == p.1 && merged[i] == merged[j];
      }
    }
  }

  /** The key table: columns[i], roots[i] and constants[i] are the column of key
      i, the root of its class and the constant it is pinned to. */
  class ColumnKeys {
    const types: Schema
    const keys: array<ColumnKey>
    var count: nat
    ghost var heights: seq<nat>
    ghost var bound: nat
    ghost var columns: seq<ColumnRef>
    ghost var roots: seq<nat>
    ghost var constants: seq<Option<Node>>

    ghost predicate Valid()
      reads this, keys
    {
      && keys.Length == OPT_MAX_COLUMN_KEYS && count <= keys.Length
      && Forest(keys[..count], heights, bound)
      && columns == ColumnsIn(keys[..count]) && DistinctColumns(columns)
      && roots == RootsIn(keys[..count], heights, bound)
      && constants == ConstantsIn(keys[..count])
    }

    constructor (schema: Schema)
      ensures Valid() && types == schema && count == 0 && columns == [] && roots == [] && constants == [] && fresh(keys)
    {
      types := schema;
      keys := new ColumnKey[OPT_MAX_COLUMN_KEYS](_ => ColumnKey(ColumnRef(0, 0), 0, None));
      count := 0;
      heights, bound, columns, roots, constants := [], 0, [], [], [];
      new;
      assert keys[..count] == [] && Forest(keys[..count], heights, bound);
      assert ColumnsIn(keys[..count]) == [] && RootsIn(keys[..count], heights, bound) == [] && ConstantsIn(keys[..count]) == [];
    }

    ghost predicate HasKey(column: ColumnRef)
      reads this
    {
      exists c <- columns :: SameKey(types, c, column)
    }

    /** The key of a column, made when it has none; None when the table is full. */
    method KeyIndex(column: ColumnRef) returns (key: Option<nat>)
      requires Valid()
      modifies this`count, this`heights, this`columns, this`roots, this`constants, keys
      ensures Valid()
      ensures key.Some? ==> key.value < |columns| && SameKey(types, columns[key.value], column)
      ensures key.None? ==> old(|columns|) == OPT_MAX_COLUMN_KEYS && !old(HasKey(column))
      ensures columns == if old(HasKey(column)) || key.None? then old(columns) else old(columns) + [column]
      ensures roots == if columns == old(columns) then old(roots) else old(roots) + [old(|columns|)]
      ensures constants == if columns == old(columns) then old(constants) else old(constants) + [None]
    {
      ghost var before, h := keys[..count], heights;
      for index := 0 to count
        invariant forall i :: 0 <= i < index ==> !SameKey(types, columns[i], column)
      {
        if SameKey(types, keys[index].column, column) {
          assert columns[index] in columns;
          return Some(index);
        }
      }
      if count >= OPT_MAX_COLUMN_KEYS {
        return None;
      }
      keys[count] := ColumnKey(column, count, None);
      count := count + 1;
      heights := heights + [0];
      key := Some(count - 1);
      assert keys[..count] == before + [ColumnKey(column, |before|, None)];
      columns, roots, constants := columns + [column], roots + [|before|], constants + [None];
      assert Forest(keys[..count], heights, bound);
      forall i | 0 <= i < |before|
        ensures Root(keys[..count], heights, bound, i) == Root(before, h, bound, i)
      {
        RootUnaffected(before, h, bound, keys[..count], heights, bound, i);
      }
      assert roots == RootsIn(keys[..count], heights, bound);
    }

    /** Follows parent links to the top; the chase ends because heights grow. */
    method KeyRoot(index: nat) returns (root: nat)
      requires Valid() && index < count
      ensures root == roots[index]
    {
      root := index;
      while keys[root].parent != root
        invariant root < count
        invariant Root(keys[..count], heights, bound, root) == Root(keys[..count], heights, bound, index)
        decreases bound - heights[root]
      {
        root := keys[root].parent;
      }
    }

    /** Puts the class of one root below another root. */
    method Link(left: nat, right: nat)
      requires Valid() && left < count && right < count && left != right
      requires roots[left] == left && roots[right] == right
      modifies this`heights, this`bound, this`roots, keys
      ensures Valid() && roots == Merged(old(roots), left, right)
    {
      ghost var before, h, b := keys[..count], heights, bound;
      keys[right] := keys[right].(parent := left);
      heights := heights[left := if heights[left] > heights[right] then heights[left] else heights[right] + 1];
      bound := bound + 1;
      roots := Merged(roots, left, right);
      assert keys[..count] == before[right := before[right].(parent := left)];
      assert Forest(keys[..count], heights, bound);
      forall i | 0 <= i < count
        ensures Root(keys[..count], heights, bound, i) == if Root(before, h, b, i) == right then left else Root(before, h, b, i)
      {
        RootAfterLink(before, h, b, keys[..count], heights, bound, left, right, i);
      }
      assert roots == RootsIn(keys[..count], heights, bound);
    }

    method KeyFor(column: ColumnRef, ghost pairs: set<Pair>) returns (key: Option<nat>)
      requires Valid() && Classes(pairs, columns, roots) && DistinctNames(types)
      modifies this`count, this`heights, this`columns, this`roots, this`constants, keys
      ensures Valid() && Classes(pairs, columns, roots)
      ensures old(columns) <= columns && |columns| <= old(|columns|) + 1
      ensures old(constants) <= constants && forall i :: old(|constants|) <= i < |constants| ==> constants[i].None?
      ensures key.None? ==> old(|columns|) == OPT_MAX_COLUMN_KEYS
      ensures key.Some? ==> key.value < |columns| && columns[key.value] == column
      ensures forall c <- columns :: c == column || c in old(columns)
    {
      KeysAreColumnsIff(types);
      key := KeyIndex(column);
      if columns != old(columns) {
        AddColumn(pairs, old(columns), old(roots), column);
      }
    }

    method JoinKeys(left: nat, right: nat, ghost pairs: set<Pair>)
      requires Valid() && Classes(pairs, columns, roots)
      requires left < |columns| && right < |columns|
      modifies this`heights, this`bound, this`roots, keys
      ensures Valid() && Classes(pairs + {(columns[left], columns[right])}, columns, roots)
    {
      var leftRoot := KeyRoot(left);
      var rightRoot := KeyRoot(right);
      AddPair(pairs, columns, roots, left, right);
      if leftRoot != rightRoot {
        Link(leftRoot, rightRoot);
      }
      assert roots == Merged(old(roots), leftRoot, rightRoot);
    }

    /** Adds one equality to the classes, unless the table is full. */
    method Join(a: ColumnRef, b: ColumnRef, ghost pairs: set<Pair>) returns (ok: bool)
      requires Valid() && Classes(pairs, columns, roots) && DistinctNames(types)
      modifies this, keys
      ensures Valid() && Classes(if ok then pairs + {(a, b)} else pairs, columns, roots)
      ensures old(|columns|) + 2 <= OPT_MAX_COLUMN_KEYS ==> ok
      ensures old(columns) <= columns && |columns| <= old(|columns|) + 2
      ensures old(constants) <= constants && forall i :: old(|constants|) <= i < |constants| ==> constants[i].None?
      ensures forall c <- columns :: c in {a, b} || c in old(columns)
    {
      var left := KeyFor(a, pairs);
      var right := KeyFor(b, pairs);
      if left.None? || right.None? {
        return false;
      }
      ok := true;
      JoinKeys(left.value, right.value, pairs);
    }

    method PinOne(index: nat, column: ColumnRef, literal: Node)
      requires index < keys.Length
      modifies keys
      ensures keys[..] == old(keys[..])[index := Pinned(types, old(keys[index]), column, literal)]
    {
      if SameKey(types, keys[index].column, column) && keys[index].constant.None? {
        keys[index] := keys[index].(constant := Some(literal));
      }
    }

    /** Gives a column its constant, unless it has one or has no key. */
    method Pin(column: ColumnRef, literal: Node)
      requires Valid()
      modifies this`constants, keys
      ensures Valid()
      ensures |constants| == |columns| == old(|constants|)
      ensures forall i :: 0 <= i < |columns| ==>
                constants[i] == if SameKey(types, columns[i], column) && old(constants)[i].None? then Some(literal) else old(constants)[i]
    {
      hide SameKey;
      ghost var before := keys[..count];
      for index := 0 to count
        invariant forall i :: 0 <= i < index ==> keys[i] == Pinned(types, before[i], column, literal)
        invariant forall i :: index <= i < count ==> keys[i] == before[i]
      {
        PinOne(index, column, literal);
      }
      constants := ConstantsIn(keys[..count]);
      assert Forest(keys[..count], heights, bound);
      forall i | 0 <= i < count
        ensures Root(keys[..count], heights, bound, i) == Root(before, heights, bound, i)
      {
        RootUnaffected(before, heights, bound, keys[..count], heights, bound, i);
      }
      assert columns == ColumnsIn(keys[..count]) && roots == RootsIn(keys[..count], heights, bound);
    }
  }
}
