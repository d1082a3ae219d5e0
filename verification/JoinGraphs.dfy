/** The equalities that tie the relations of the reorderable group together: the
    written ones, and the ones they imply through shared columns. */
module JoinGraphs {
  import opened Predicates
  import opened Plans
  import opened Conjuncts
  import opened ColumnClasses
  import opened Equalities
  import Propagation
  import opened JoinSearch

  const OPT_JOIN_MAX_EDGES := 128

  /** The edge of a conjunct: a resolved ON equality of comparable columns of two
      relations of the group. */
  function EdgeOf(types: Schema, group: nat, c: Conjunct): Option<Edge> {
    if !c.destination.OnClause? || c.target >= group || c.unresolved || |c.mask| != 2 then None
    else if !(c.node.Binary? && IsEquality(c.node.op) && c.node.left.Column? && c.node.right.Column?) then None
    else
      var a, b := ColumnRef(c.node.left.rel, c.node.left.col), ColumnRef(c.node.right.rel, c.node.right.col);
      if a.rel == b.rel || !Comparable(types, a, b) then None else Some(Edge(a, b, false))
  }

  predicate SameEdge(e: Edge, f: Edge) {
    (e.a == f.a && e.b == f.b) || (e.a == f.b && e.b == f.a)
  }

  /** The same edge to the optimizer, which compares names. */
  predicate MatchesEdge(types: Schema, e: Edge, f: Edge) {
    || (SameKey(types, e.a, f.a) && SameKey(types, e.b, f.b))
    || (SameKey(types, e.a, f.b) && SameKey(types, e.b, f.a))
  }

  predicate HasSame(edges: seq<Edge>, e: Edge) {
    exists i :: 0 <= i < |edges| && SameEdge(edges[i], e)
  }

  function WithEdge(edges: seq<Edge>, e: Edge): seq<Edge> {
    if HasSame(edges, e) || |edges| >= OPT_JOIN_MAX_EDGES then edges else edges + [e]
  }

  /** Appends an edge that is not there yet in either direction. */
  method AddEdge(types: Schema, edges: seq<Edge>, e: Edge) returns (more: seq<Edge>)
    requires DistinctNames(types)
    ensures more == WithEdge(edges, e)
  {
    KeysAreColumnsIff(types);
    for index := 0 to |edges|
      invariant forall i :: 0 <= i < index ==> !SameEdge(edges[i], e)
    {
      if MatchesEdge(types, edges[index], e) {
        return edges;
      }
    }
    if |edges| >= OPT_JOIN_MAX_EDGES {
      return edges;
    }
    more := edges + [e];
  }

  lemma {:induction false} WithEdgeHasSame(edges: seq<Edge>, e: Edge, f: Edge)
    ensures HasSame(edges, f) ==> HasSame(WithEdge(edges, e), f)
    ensures |edges| < OPT_JOIN_MAX_EDGES ==> HasSame(WithEdge(edges, e), e)
    ensures edges <= WithEdge(edges, e)
  {
    var more := WithEdge(edges, e);
    if i :| 0 <= i < |edges| && SameEdge(edges[i], f) {
      assert SameEdge(more[i], f);
    }
    if more != edges {
      assert SameEdge(more[|edges|], e);
    }
  }

  ghost predicate IsWritten(types: Schema, group: nat, cs: seq<Conjunct>, e: Edge) {
    exists c <- cs :: EdgeOf(types, group, c) == Some(e)
  }

  /** A resolved ON conjunct of the group that equates columns of two relations that
      hold values of one kind. */
  predicate Equates(types: Schema, group: nat, c: Conjunct, a: ColumnRef, b: ColumnRef) {
    && c.destination == OnClause && c.target < group && !c.unresolved && |c.mask| == 2
    && IsEquation(c.node, Column(a.rel, a.col), Column(b.rel, b.col)) && a.rel != b.rel
    && (if TypeOf(types, a).String8? then TypeOf(types, b).String8?
        else TypeOf(types, a) in NUMBER_TYPES && TypeOf(types, b) in NUMBER_TYPES)
  }

  /** A conjunct is an edge if and only if it is written so. */
  lemma {:induction false} EdgeIff(types: Schema, group: nat, c: Conjunct, e: Edge)
    ensures EdgeOf(types, group, c) == Some(e) <==> !e.isDerived && Equates(types, group, c, e.a, e.b)
  {
  }

  predicate EachOnce(edges: seq<Edge>) {
    forall i, j :: 0 <= i < j < |edges| ==> !SameEdge(edges[i], edges[j])
  }

  lemma {:induction false} WithEdgeOnce(edges: seq<Edge>, e: Edge)
    requires EachOnce(edges)
    ensures EachOnce(WithEdge(edges, e))
  {
    var more := WithEdge(edges, e);
    forall i, j | 0 <= i < j < |more|
      ensures !SameEdge(more[i], more[j])
    {
      assert j == |edges| ==> more[j] == e && !SameEdge(edges[i], e);
    }
  }

  /** The edges are the written equalities, each once. */
  ghost predicate WrittenEdges(types: Schema, group: nat, cs: seq<Conjunct>, edges: seq<Edge>) {
    && EachOnce(edges)
    && (forall i :: 0 <= i < |edges| ==> IsWritten(types, group, cs, edges[i]))
    && (forall e :: IsWritten(types, group, cs, e) ==> HasSame(edges, e))
  }

  method CollectOne(types: Schema, group: nat, cs: seq<Conjunct>, index: nat, edges: seq<Edge>) returns (more: seq<Edge>)
    requires index < |cs| <= OPT_MAX_CONJUNCTS && WrittenEdges(types, group, cs[..index], edges) && |edges| <= index
    requires DistinctNames(types)
    ensures WrittenEdges(types, group, cs[..index + 1], more) && |more| <= index + 1
  {
    more := edges;
    var e := EdgeOf(types, group, cs[index]);
    if e.Some? {
      more := AddEdge(types, edges, e.value);
    }
    WrittenStep(types, group, cs, index, edges);
  }

  method CollectEdges(types: Schema, group: nat, cs: seq<Conjunct>) returns (edges: seq<Edge>)
    requires |cs| <= OPT_MAX_CONJUNCTS && DistinctNames(types)
    ensures WrittenEdges(types, group, cs, edges) && |edges| <= |cs|
  {
    edges := [];
    for index := 0 to |cs|
      invariant WrittenEdges(types, group, cs[..index], edges) && |edges| <= index
    {
      edges := CollectOne(types, group, cs, index, edges);
    }
    assert cs[..|cs|] == cs;
  }

  lemma {:induction false} WrittenStep(types: Schema, group: nat, cs: seq<Conjunct>, index: nat, edges: seq<Edge>)
    requires index < |cs| && WrittenEdges(types, group, cs[..index], edges) && |edges| < OPT_JOIN_MAX_EDGES
    ensures var e := EdgeOf(types, group, cs[index]);
            WrittenEdges(types, group, cs[..index + 1], if e.Some? then WithEdge(edges, e.value) else edges)
  {
    var e := EdgeOf(types, group, cs[index]);
    var more := if e.Some? then WithEdge(edges, e.value) else edges;
    if e.Some? { WithEdgeOnce(edges, e.value); }
    forall f | IsWritten(types, group, cs[..index + 1], f)
      ensures HasSame(more, f)
    {
      WrittenMore(types, group, cs, index, f);
      if e.Some? { WithEdgeHasSame(edges, e.value, f); }
    }
    forall i | 0 <= i < |more|
      ensures IsWritten(types, group, cs[..index + 1], more[i])
    {
      WrittenMore(types, group, cs, index, more[i]);
      if i < |edges| {
        assert IsWritten(types, group, cs[..index], edges[i]);
      }
    }
  }

  lemma {:induction false} WrittenMore(types: Schema, group: nat, cs: seq<Conjunct>, index: nat, f: Edge)
    requires index < |cs|
    ensures IsWritten(types, group, cs[..index + 1], f) <==>
            IsWritten(types, group, cs[..index], f) || EdgeOf(types, group, cs[index]) == Some(f)
  {
    assert cs[..index + 1] == cs[..index] + [cs[index]];
    assert forall c :: c in cs[..index + 1] <==> c in cs[..index] || c == cs[index];
  }

  // ---- Implied equalities ----

  ghost function PairsOf(edges: seq<Edge>): set<Pair> {
    set e <- edges :: (e.a, e.b)
  }

  /** The written edges connect both ends, which are of two relations. */
  ghost predicate IsImpliedEdge(edges: seq<Edge>, e: Edge) {
    && e.isDerived && e.a.rel != e.b.rel
    && Propagation.Mentioned(PairsOf(edges), e.a) && Propagation.Mentioned(PairsOf(edges), e.b)
    && Connected(PairsOf(edges), e.a, e.b)
  }

  ghost predicate ImpliedFrom(edges: seq<Edge>, all: seq<Edge>) {
    && edges <= all && (EachOnce(edges) ==> EachOnce(all))
    && forall i :: |edges| <= i < |all| ==> IsImpliedEdge(edges, all[i])
  }

  /** The written equalities and, while there is room, all that follow from them. */
  ghost predicate AreEdges(types: Schema, group: nat, cs: seq<Conjunct>, all: seq<Edge>) {
    exists written ::
      && WrittenEdges(types, group, cs, written) && ImpliedFrom(written, all)
      && (|all| < OPT_JOIN_MAX_EDGES ==> forall e :: IsImpliedEdge(written, e) ==> HasSame(all, e))
  }

  /** All pairs of keys up to (first, second) are served. */
  predicate PairServed(columns: seq<ColumnRef>, roots: seq<nat>, all: seq<Edge>, i: nat, j: nat)
    requires i < |columns| == |roots| && j < |columns|
  {
    || roots[i] != roots[j] || columns[i].rel == columns[j].rel || |all| >= OPT_JOIN_MAX_EDGES
    || HasSame(all, Edge(columns[i], columns[j], true))
  }

  lemma {:induction false} PairServedMore(columns: seq<ColumnRef>, roots: seq<nat>, all: seq<Edge>, e: Edge, i: nat, j: nat)
    requires i < |columns| == |roots| && j < |columns| && PairServed(columns, roots, all, i, j)
    ensures PairServed(columns, roots, WithEdge(all, e), i, j)
  {
    WithEdgeHasSame(all, e, Edge(columns[i], columns[j], true));
  }

  ghost predicate ServedUpTo(columns: seq<ColumnRef>, roots: seq<nat>, all: seq<Edge>, first: nat, second: nat) {
    |columns| == |roots| &&
    forall i: nat, j: nat :: i < j < |columns| && (i < first || (i == first && j < second)) ==> PairServed(columns, roots, all, i, j)
  }

  method JoinEdge(keys: ColumnKeys, edges: seq<Edge>, index: nat)
    requires index < |edges| && keys.Valid() && |keys.columns| + 2 <= OPT_MAX_COLUMN_KEYS && DistinctNames(keys.types)
    requires Classes(PairsOf(edges[..index]), keys.columns, keys.roots)
    requires Propagation.MentionedOnly(PairsOf(edges[..index]), keys.columns)
    modifies keys, keys.keys
    ensures keys.Valid() && |keys.columns| <= old(|keys.columns|) + 2
    ensures Classes(PairsOf(edges[..index + 1]), keys.columns, keys.roots)
    ensures Propagation.MentionedOnly(PairsOf(edges[..index + 1]), keys.columns)
  {
    ghost var columns := keys.columns;
    var ok := keys.Join(edges[index].a, edges[index].b, PairsOf(edges[..index]));
    PairsStep(edges, index);
    MentionedStep(edges, index, columns, keys.columns);
  }

  /** The key table of the written edges. */
  method EdgeKeys(types: Schema, edges: seq<Edge>) returns (keys: ColumnKeys)
    requires |edges| <= OPT_MAX_CONJUNCTS && DistinctNames(types)
    ensures keys.types == types && fresh(keys) && fresh(keys.keys) && keys.Valid() && Classes(PairsOf(edges), keys.columns, keys.roots)
    ensures Propagation.MentionedOnly(PairsOf(edges), keys.columns)
  {
    keys := new ColumnKeys(types);
    for index := 0 to |edges|
      invariant keys.Valid() && |keys.columns| <= 2 * index
      invariant Classes(PairsOf(edges[..index]), keys.columns, keys.roots)
      invariant Propagation.MentionedOnly(PairsOf(edges[..index]), keys.columns)
    {
      JoinEdge(keys, edges, index);
    }
    assert edges[..|edges|] == edges;
  }

  lemma {:induction false} PairsStep(edges: seq<Edge>, index: nat)
    requires index < |edges|
    ensures PairsOf(edges[..index + 1]) == PairsOf(edges[..index]) + {(edges[index].a, edges[index].b)}
  {
    assert edges[..index + 1] == edges[..index] + [edges[index]];
  }

  lemma {:induction false} MentionedStep(edges: seq<Edge>, index: nat, was: seq<ColumnRef>, now: seq<ColumnRef>)
    requires index < |edges| && Propagation.MentionedOnly(PairsOf(edges[..index]), was)
    requires forall c <- now :: c in {edges[index].a, edges[index].b} || c in was
    ensures Propagation.MentionedOnly(PairsOf(edges[..index + 1]), now)
  {
    PairsStep(edges, index);
    forall c | c in now
      ensures Propagation.Mentioned(PairsOf(edges[..index + 1]), c)
    {
      if c in was {
        var p :| p in PairsOf(edges[..index]) && (c == p.0 || c == p.1);
        assert p in PairsOf(edges[..index + 1]);
      } else {
        assert (edges[index].a, edges[index].b) in PairsOf(edges[..index + 1]);
      }
    }
  }

  /** a = b and b = c imply a = c: one edge for every two connected columns of
      different relations, as long as there is room. */
  method AddDerivedEdges(types: Schema, edges: seq<Edge>) returns (all: seq<Edge>)
    requires |edges| <= OPT_MAX_CONJUNCTS && DistinctNames(types)
    ensures ImpliedFrom(edges, all)
    ensures |all| < OPT_JOIN_MAX_EDGES ==>
              forall e :: IsImpliedEdge(edges, e) ==> HasSame(all, e)
  {
    var keys := EdgeKeys(types, edges);
    all := DeriveAll(keys, edges);
    if |all| < OPT_JOIN_MAX_EDGES {
      forall e | IsImpliedEdge(edges, e)
        ensures HasSame(all, e)
      {
        AllImpliedServed(edges, keys.columns, keys.roots, all, e);
      }
    }
  }

  method DeriveAll(keys: ColumnKeys, edges: seq<Edge>) returns (all: seq<Edge>)
    requires keys.Valid() && Classes(PairsOf(edges), keys.columns, keys.roots) && DistinctNames(keys.types)
    requires Propagation.MentionedOnly(PairsOf(edges), keys.columns)
    ensures ImpliedFrom(edges, all) && ServedUpTo(keys.columns, keys.roots, all, keys.count, 0)
  {
    ghost var columns, roots := keys.columns, keys.roots;
    all := edges;
    for first := 0 to keys.count
      invariant ImpliedFrom(edges, all) && ServedUpTo(columns, roots, all, first, 0)
    {
      for second := first + 1 to keys.count
        invariant ImpliedFrom(edges, all) && ServedUpTo(columns, roots, all, first, second)
      {
        all := DeriveEdge(keys, edges, all, first, second);
      }
    }
  }

  method DeriveEdge(keys: ColumnKeys, ghost edges: seq<Edge>, all: seq<Edge>, first: nat, second: nat) returns (more: seq<Edge>)
    requires keys.Valid() && Classes(PairsOf(edges), keys.columns, keys.roots) && first < second < keys.count
    requires DistinctNames(keys.types)
    requires Propagation.MentionedOnly(PairsOf(edges), keys.columns)
    requires ImpliedFrom(edges, all) && ServedUpTo(keys.columns, keys.roots, all, first, second)
    ensures ImpliedFrom(edges, more) && ServedUpTo(keys.columns, keys.roots, more, first, second + 1)
  {
    ghost var columns, roots := keys.columns, keys.roots;
    var rootOfFirst := keys.KeyRoot(first);
    var rootOfSecond := keys.KeyRoot(second);
    var a, b := keys.keys[first].column, keys.keys[second].column;
    assert a == columns[first] && b == columns[second];
    more := all;
    if rootOfFirst == rootOfSecond && a.rel != b.rel {
      more := AddEdge(keys.types, all, Edge(a, b, true));
      NewEdgeIsImplied(edges, columns, roots, all, first, second);
    }
    ServedNextPair(columns, roots, all, more, first, second);
  }

  lemma {:induction false} NewEdgeIsImplied(edges: seq<Edge>, columns: seq<ColumnRef>, roots: seq<nat>, all: seq<Edge>, first: nat, second: nat)
    requires Classes(PairsOf(edges), columns, roots) && Propagation.MentionedOnly(PairsOf(edges), columns)
    requires first < second < |columns| && roots[first] == roots[second] && columns[first].rel != columns[second].rel
    requires ImpliedFrom(edges, all)
    ensures ImpliedFrom(edges, WithEdge(all, Edge(columns[first], columns[second], true)))
  {
    SameRootIffConnected(PairsOf(edges), columns, roots, first, second);
  }

  lemma {:induction false} ServedNextPair(columns: seq<ColumnRef>, roots: seq<nat>, all: seq<Edge>, more: seq<Edge>, first: nat, second: nat)
    requires first < second < |columns| == |roots| && ServedUpTo(columns, roots, all, first, second)
    requires var e := Edge(columns[first], columns[second], true);
             more == if roots[first] == roots[second] && columns[first].rel != columns[second].rel then WithEdge(all, e) else all
    ensures ServedUpTo(columns, roots, more, first, second + 1)
  {
    var e := Edge(columns[first], columns[second], true);
    WithEdgeHasSame(all, e, e);
    forall i: nat, j: nat | i < j < |columns| && (i < first || (i == first && j < second + 1))
      ensures PairServed(columns, roots, more, i, j)
    {
      if i < first || j < second {
        PairServedMore(columns, roots, all, e, i, j);
      }
    }
  }

  lemma {:induction false} AllImpliedServed(edges: seq<Edge>, columns: seq<ColumnRef>, roots: seq<nat>, all: seq<Edge>, e: Edge)
    requires Classes(PairsOf(edges), columns, roots) && ServedUpTo(columns, roots, all, |columns|, 0)
    requires IsImpliedEdge(edges, e) && |all| < OPT_JOIN_MAX_EDGES
    ensures HasSame(all, e)
  {
    var pairs := PairsOf(edges);
    var i := MentionedKey(pairs, columns, roots, e.a);
    var j := MentionedKey(pairs, columns, roots, e.b);
    SameRootIffConnected(pairs, columns, roots, i, j);
    var lo, hi := if i < j then i else j, if i < j then j else i;
    assert PairServed(columns, roots, all, lo, hi);
    var k :| 0 <= k < |all| && SameEdge(all[k], Edge(columns[lo], columns[hi], true));
    assert SameEdge(all[k], e);
  }

  lemma {:induction false} MentionedKey(pairs: set<Pair>, columns: seq<ColumnRef>, roots: seq<nat>, x: ColumnRef) returns (i: nat)
    requires Classes(pairs, columns, roots) && Propagation.Mentioned(pairs, x)
    ensures i < |columns| && columns[i] == x
  {
    var p :| p in pairs && (x == p.0 || x == p.1);
    assert HasSameRoot(columns, roots, p.0, p.1);
    i :| 0 <= i < |columns| && columns[i] == x;
  }

  // ---- What an edge means ----

  function EdgeNode(e: Edge): Node {
    Binary(Eq, ColumnNode(e.a), ColumnNode(e.b))
  }

  ghost predicate AllWritten(types: Schema, group: nat, cs: seq<Conjunct>, edges: seq<Edge>) {
    forall i :: 0 <= i < |edges| ==> IsWritten(types, group, cs, edges[i])
  }

  lemma {:induction false} WrittenPair(types: Schema, group: nat, cs: seq<Conjunct>, edges: seq<Edge>, p: Pair) returns (c: Conjunct)
    requires AllWritten(types, group, cs, edges) && p in PairsOf(edges)
    ensures c in cs && c.destination.OnClause? && c.target < group && !c.unresolved && p.0.rel != p.1.rel && c.node.Binary? && IsEquality(c.node.op)
    ensures c.node == Binary(c.node.op, ColumnNode(p.0), ColumnNode(p.1)) && Comparable(types, p.0, p.1)
  {
    var e :| e in edges && p == (e.a, e.b);
    var i :| 0 <= i < |edges| && edges[i] == e;
    assert IsWritten(types, group, cs, edges[i]);
    c :| c in cs && EdgeOf(types, group, c) == Some(e);
  }

  lemma {:induction false} ConnectedComparable(types: Schema, pairs: set<Pair>, a: ColumnRef, b: ColumnRef)
    requires (forall p <- pairs :: Comparable(types, p.0, p.1)) && Connected(pairs, a, b) && Propagation.Mentioned(pairs, a)
    ensures Comparable(types, a, b)
  {
    var mentioned := (set p <- pairs :: p.0) + (set p <- pairs :: p.1) + {a, b};
    var alike := set c <- mentioned | Comparable(types, a, c);
    forall p | p in pairs
      ensures p.0 in alike <==> p.1 in alike
    {
      assert p.0 in mentioned && p.1 in mentioned;
    }
    var p :| p in pairs && (a == p.0 || a == p.1);
    assert Closed(pairs, alike) && a in alike;
  }

  /** Every edge, derived or not, holds where the written ON equalities hold. */
  lemma {:induction false} EdgeIsImplied(w: World, types: Schema, group: nat, cs: seq<Conjunct>, edges: seq<Edge>, e: Edge, row: Row)
    requires Typed(w, types) && Stored(w, row) && AllWritten(types, group, cs, edges)
    requires e in edges || IsImpliedEdge(edges, e)
    requires forall c <- cs :: c.destination.OnClause? && c.target < group ==> Holds(w, c.node, row)
    ensures Holds(w, EdgeNode(e), row)
  {
    var pairs := PairsOf(edges);
    forall p | p in pairs
      ensures Match(row, p.0, p.1) && Comparable(types, p.0, p.1)
    {
      var c := WrittenPair(types, group, cs, edges, p);
      EqualityMatches(w, types, c.node.op, p.0, p.1, row);
    }
    if e in edges {
      assert (e.a, e.b) in pairs;
    } else {
      var p :| p in pairs && (e.a == p.0 || e.a == p.1);
      ConnectedMatch(pairs, e.a, e.b, row);
      ConnectedComparable(types, pairs, e.a, e.b);
    }
    EqualityMatches(w, types, Eq, e.a, e.b, row);
  }

  predicate Between(e: Edge, r: nat, s: nat) {
    (e.a.rel == r && e.b.rel == s) || (e.a.rel == s && e.b.rel == r)
  }

  /** The first edge between two relations. */
  function EdgeBetween(edges: seq<Edge>, r: nat, s: nat, originalOnly: bool): (found: Option<Edge>)
    ensures found.Some? ==> found.value in edges && Between(found.value, r, s) && (originalOnly ==> !found.value.isDerived)
    ensures found.None? ==> forall e <- edges :: Between(e, r, s) ==> originalOnly && e.isDerived
  {
    if edges == [] then None
    else if Between(edges[0], r, s) && !(originalOnly && edges[0].isDerived) then Some(edges[0])
    else EdgeBetween(edges[1..], r, s, originalOnly)
  }

  /** The first edge of the list that stands between two relations. */
  ghost predicate IsFirstEdge(edges: seq<Edge>, r: nat, s: nat, i: int) {
    0 <= i < |edges| && Between(edges[i], r, s) && forall j :: 0 <= j < i ==> !Between(edges[j], r, s)
  }

  lemma {:induction false} EdgeBetweenIs(edges: seq<Edge>, r: nat, s: nat) returns (i: int)
    requires EdgeBetween(edges, r, s, false).Some?
    ensures IsFirstEdge(edges, r, s, i) && EdgeBetween(edges, r, s, false).value == edges[i]
  {
    if Between(edges[0], r, s) {
      i := 0;
    } else {
      i := EdgeBetweenIs(edges[1..], r, s);
      i := i + 1;
      assert forall j :: 0 < j < i ==> edges[j] == edges[1..][j - 1];
    }
  }

  method FindEdgeBetween(edges: seq<Edge>, r: nat, s: nat, originalOnly: bool) returns (found: Option<Edge>)
    ensures found == EdgeBetween(edges, r, s, originalOnly)
  {
    for index := 0 to |edges|
      invariant EdgeBetween(edges, r, s, originalOnly) == EdgeBetween(edges[index..], r, s, originalOnly)
    {
      if Between(edges[index], r, s) && !(originalOnly && edges[index].isDerived) {
        return Some(edges[index]);
      }
    }
    found := None;
  }
}
