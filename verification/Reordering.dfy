/** Inner joins commute: bringing in the relations of an inner prefix in another
    order, every condition tested once its relations are there, returns the same
    rows the same number of times. */
module Reordering {
  import opened Predicates
  import opened Plans

  // ---- Finite sums of multisets ----

  function Sum(lo: nat, hi: nat, f: nat -> multiset<Row>): multiset<Row>
    decreases hi - lo
  {
    if lo >= hi then multiset{} else f(lo) + Sum(lo + 1, hi, f)
  }

  lemma {:induction false} SumCongruence(lo: nat, hi: nat, f: nat -> multiset<Row>, g: nat -> multiset<Row>)
    requires forall i: nat :: lo <= i < hi ==> f(i) == g(i)
    ensures Sum(lo, hi, f) == Sum(lo, hi, g)
    decreases hi - lo
  {
    if lo < hi {
      SumCongruence(lo + 1, hi, f, g);
    }
  }

  lemma {:induction false} SumOfNothing(lo: nat, hi: nat, f: nat -> multiset<Row>)
    requires forall i: nat :: lo <= i < hi ==> f(i) == multiset{}
    ensures Sum(lo, hi, f) == multiset{}
    decreases hi - lo
  {
    if lo < hi {
      SumOfNothing(lo + 1, hi, f);
    }
  }

  lemma {:induction false} SumOfSums(lo: nat, hi: nat, f: nat -> multiset<Row>, g: nat -> multiset<Row>, h: nat -> multiset<Row>)
    requires forall i: nat :: lo <= i < hi ==> h(i) == f(i) + g(i)
    ensures Sum(lo, hi, h) == Sum(lo, hi, f) + Sum(lo, hi, g)
    decreases hi - lo
  {
    if lo < hi {
      SumOfSums(lo + 1, hi, f, g, h);
    }
  }

  function AtRow(f: (nat, nat) -> multiset<Row>, i: nat): nat -> multiset<Row> {
    (j: nat) => f(i, j)
  }

  function AtColumn(f: (nat, nat) -> multiset<Row>, j: nat): nat -> multiset<Row> {
    (i: nat) => f(i, j)
  }

  function RowSums(m: nat, f: (nat, nat) -> multiset<Row>): nat -> multiset<Row> {
    (i: nat) => Sum(0, m, AtRow(f, i))
  }

  function ColSums(lo: nat, hi: nat, f: (nat, nat) -> multiset<Row>): nat -> multiset<Row> {
    (j: nat) => Sum(lo, hi, AtColumn(f, j))
  }

  lemma {:induction false} SumsExchange(lo: nat, hi: nat, m: nat, f: (nat, nat) -> multiset<Row>)
    ensures Sum(lo, hi, RowSums(m, f)) == Sum(0, m, ColSums(lo, hi, f))
    decreases hi - lo
  {
    if lo < hi {
      SumsExchange(lo + 1, hi, m, f);
      SumOfSums(0, m, AtRow(f, lo), ColSums(lo + 1, hi, f), ColSums(lo, hi, f));
    } else {
      SumOfNothing(0, m, ColSums(lo, hi, f));
    }
  }

  lemma {:induction false} SumsTranspose(n: nat, m: nat, f: (nat, nat) -> multiset<Row>, f': (nat, nat) -> multiset<Row>)
    requires forall i: nat, j: nat :: i < n && j < m ==> f(i, j) == f'(j, i)
    ensures Sum(0, n, RowSums(m, f)) == Sum(0, m, RowSums(n, f'))
  {
    SumsExchange(0, n, m, f);
    forall j: nat | j < m
      ensures ColSums(0, n, f)(j) == RowSums(n, f')(j)
    {
      SumCongruence(0, n, AtColumn(f, j), AtRow(f', j));
    }
    SumCongruence(0, m, ColSums(0, n, f), RowSums(n, f'));
  }

  // ---- The cross product of some relations, filtered and continued ----

  /** Some condition of the first g stages. */
  predicate InGroup(p: Pipeline, g: nat, c: Node)
    requires g <= |p.stages|
  {
    exists i: nat :: i < g && (c in p.stages[i].filters || c in p.stages[i].on)
  }

  ghost predicate GroupHolds(w: World, p: Pipeline, g: nat, row: Row)
    requires g <= |p.stages|
  {
    forall c :: InGroup(p, g, c) ==> Holds(w, c, row)
  }

  /** What a row with all relations of the group contributes to the result. */
  ghost function Tail(w: World, p: Pipeline, g: nat, row: Row): multiset<Row>
    requires Fits(w, p) && g <= |p.stages| && |row| == |w.tables|
  {
    if GroupHolds(w, p, g, row) then multiset(Run(w, p, g, row)) else multiset{}
  }

  ghost predicate Relations(w: World, order: seq<nat>) {
    forall i :: 0 <= i < |order| ==> order[i] < |w.tables|
  }

  ghost function Cross(w: World, p: Pipeline, g: nat, order: seq<nat>, row: Row): multiset<Row>
    requires Fits(w, p) && g <= |p.stages| && |row| == |w.tables| && Relations(w, order)
    decreases |order|, 1
  {
    if order == [] then Tail(w, p, g, row)
    else Sum(0, |w.tables[order[0]]|, CrossTerm(w, p, g, order[0], order[1..], row))
  }

  ghost function CrossTerm(w: World, p: Pipeline, g: nat, first: nat, rest: seq<nat>, row: Row): nat -> multiset<Row>
    requires Fits(w, p) && g <= |p.stages| && |row| == |w.tables|
    requires first < |w.tables| && Relations(w, rest)
    decreases |rest|, 2
  {
    (i: nat) =>
      if i < |w.tables[first]| then Cross(w, p, g, rest, row[first := Some(w.tables[first][i])]) else multiset{}
  }

  lemma {:induction false} CrossCons(w: World, p: Pipeline, g: nat, first: nat, rest: seq<nat>, row: Row)
    requires Fits(w, p) && g <= |p.stages| && |row| == |w.tables|
    requires first < |w.tables| && Relations(w, rest)
    ensures Relations(w, [first] + rest)
    ensures Cross(w, p, g, [first] + rest, row) == Sum(0, |w.tables[first]|, CrossTerm(w, p, g, first, rest, row))
  {
    assert ([first] + rest)[1..] == rest;
  }

  lemma {:induction false} CrossCongruence(w: World, p: Pipeline, g: nat, first: nat, a: seq<nat>, b: seq<nat>, row: Row)
    requires Fits(w, p) && g <= |p.stages| && |row| == |w.tables|
    requires first < |w.tables| && Relations(w, a) && Relations(w, b)
    requires forall t :: Cross(w, p, g, a, row[first := Some(t)]) == Cross(w, p, g, b, row[first := Some(t)])
    ensures Relations(w, [first] + a) && Relations(w, [first] + b)
    ensures Cross(w, p, g, [first] + a, row) == Cross(w, p, g, [first] + b, row)
  {
    CrossCons(w, p, g, first, a, row);
    CrossCons(w, p, g, first, b, row);
    SumCongruence(0, |w.tables[first]|, CrossTerm(w, p, g, first, a, row), CrossTerm(w, p, g, first, b, row));
  }

  /** The cross product over two relations a and b, then the rest. */
  ghost function PairTerm(w: World, p: Pipeline, g: nat, a: nat, b: nat, rest: seq<nat>, row: Row): (nat, nat) -> multiset<Row>
    requires Fits(w, p) && g <= |p.stages| && |row| == |w.tables|
    requires a < |w.tables| && b < |w.tables| && Relations(w, rest)
  {
    (i: nat, j: nat) =>
      if i < |w.tables[a]| && j < |w.tables[b]|
      then Cross(w, p, g, rest, row[a := Some(w.tables[a][i])][b := Some(w.tables[b][j])])
      else multiset{}
  }

  lemma {:induction false} CrossTwice(w: World, p: Pipeline, g: nat, a: nat, b: nat, rest: seq<nat>, row: Row)
    requires Fits(w, p) && g <= |p.stages| && |row| == |w.tables|
    requires a < |w.tables| && b < |w.tables| && Relations(w, rest)
    ensures Relations(w, [b] + rest) && Relations(w, [a] + ([b] + rest))
    ensures Cross(w, p, g, [a] + ([b] + rest), row) ==
            Sum(0, |w.tables[a]|, RowSums(|w.tables[b]|, PairTerm(w, p, g, a, b, rest, row)))
  {
    var f := PairTerm(w, p, g, a, b, rest, row);
    var outer := CrossTerm(w, p, g, a, [b] + rest, row);
    CrossCons(w, p, g, a, [b] + rest, row);
    forall i: nat | i < |w.tables[a]|
      ensures outer(i) == RowSums(|w.tables[b]|, f)(i)
    {
      var next := row[a := Some(w.tables[a][i])];
      CrossCons(w, p, g, b, rest, next);
      SumCongruence(0, |w.tables[b]|, CrossTerm(w, p, g, b, rest, next), AtRow(f, i));
    }
    SumCongruence(0, |w.tables[a]|, outer, RowSums(|w.tables[b]|, f));
  }

  lemma {:induction false} PairTermSwap(w: World, p: Pipeline, g: nat, a: nat, b: nat, rest: seq<nat>, row: Row, i: nat, j: nat)
    requires Fits(w, p) && g <= |p.stages| && |row| == |w.tables|
    requires a < |w.tables| && b < |w.tables| && a != b && Relations(w, rest)
    requires i < |w.tables[a]| && j < |w.tables[b]|
    ensures PairTerm(w, p, g, a, b, rest, row)(i, j) == PairTerm(w, p, g, b, a, rest, row)(j, i)
  {
    var x, y := Some(w.tables[a][i]), Some(w.tables[b][j]);
    assert row[a := x][b := y] == row[b := y][a := x];
  }

  lemma {:induction false} CrossSwap(w: World, p: Pipeline, g: nat, a: nat, b: nat, rest: seq<nat>, row: Row)
    requires Fits(w, p) && g <= |p.stages| && |row| == |w.tables|
    requires a < |w.tables| && b < |w.tables| && a != b && Relations(w, rest)
    ensures Relations(w, [a] + ([b] + rest)) && Relations(w, [b] + ([a] + rest))
    ensures Cross(w, p, g, [a] + ([b] + rest), row) == Cross(w, p, g, [b] + ([a] + rest), row)
  {
    var f, f' := PairTerm(w, p, g, a, b, rest, row), PairTerm(w, p, g, b, a, rest, row);
    assert Sum(0, |w.tables[a]|, RowSums(|w.tables[b]|, f)) == Sum(0, |w.tables[b]|, RowSums(|w.tables[a]|, f')) by {
      forall i: nat, j: nat | i < |w.tables[a]| && j < |w.tables[b]|
        ensures f(i, j) == f'(j, i)
      {
        PairTermSwap(w, p, g, a, b, rest, row, i, j);
      }
      SumsTranspose(|w.tables[a]|, |w.tables[b]|, f, f');
    }
    CrossTwice(w, p, g, a, b, rest, row);
    CrossTwice(w, p, g, b, a, rest, row);
  }

  predicate Distinct(order: seq<nat>) {
    forall i, j :: 0 <= i < j < |order| ==> order[i] != order[j]
  }

  function Without(order: seq<nat>, i: nat): seq<nat>
    requires i < |order|
  {
    order[..i] + order[i + 1..]
  }

  lemma {:induction false} WithoutLater(w: World, order: seq<nat>, i: nat)
    requires 0 < i < |order| && Relations(w, order) && Distinct(order)
    ensures order == [order[0]] + order[1..] && Without(order, i) == [order[0]] + Without(order[1..], i - 1)
    ensures Relations(w, order[1..]) && Distinct(order[1..]) && Relations(w, Without(order[1..], i - 1))
    ensures order[0] != order[i]
  {
  }

  lemma {:induction false} CrossPull(w: World, p: Pipeline, g: nat, order: seq<nat>, i: nat, row: Row)
    requires Fits(w, p) && g <= |p.stages| && |row| == |w.tables|
    requires Relations(w, order) && Distinct(order) && i < |order|
    ensures Relations(w, [order[i]] + Without(order, i))
    ensures Cross(w, p, g, order, row) == Cross(w, p, g, [order[i]] + Without(order, i), row)
    decreases i
  {
    if i == 0 {
      assert [order[0]] + Without(order, 0) == order;
    } else {
      WithoutLater(w, order, i);
      var first, rest, others := order[0], order[1..], Without(order[1..], i - 1);
      forall t
        ensures Cross(w, p, g, rest, row[first := Some(t)]) == Cross(w, p, g, [order[i]] + others, row[first := Some(t)])
      {
        CrossPull(w, p, g, rest, i - 1, row[first := Some(t)]);
      }
      CrossCongruence(w, p, g, first, rest, [order[i]] + others, row);
      CrossSwap(w, p, g, first, order[i], others, row);
    }
  }

  lemma {:induction false} WithoutRemovesOne(order: seq<nat>, i: nat)
    requires i < |order|
    ensures multiset(order) == multiset(Without(order, i)) + multiset{order[i]}
    ensures Distinct(order) ==> Distinct(Without(order, i))
  {
    assert order == order[..i] + [order[i]] + order[i + 1..];
  }

  lemma {:induction false} Locate(a: seq<nat>, b: seq<nat>) returns (i: nat)
    requires a != [] && Distinct(a) && Distinct(b) && multiset(a) == multiset(b)
    ensures i < |b| && b[i] == a[0] && Distinct(a[1..]) && Distinct(Without(b, i))
    ensures multiset(a[1..]) == multiset(Without(b, i))
  {
    assert a[0] in multiset(a);
    i :| 0 <= i < |b| && b[i] == a[0];
    WithoutRemovesOne(b, i);
    WithoutRemovesOne(a, 0);
    assert Without(a, 0) == a[1..];
    assert multiset(a[1..]) == multiset(a) - multiset{a[0]} == multiset(b) - multiset{a[0]} == multiset(Without(b, i));
  }

  /** The cross product does not depend on the order of its relations. */
  lemma {:induction false} CrossPermutes(w: World, p: Pipeline, g: nat, a: seq<nat>, b: seq<nat>, row: Row)
    requires Fits(w, p) && g <= |p.stages| && |row| == |w.tables|
    requires Relations(w, a) && Relations(w, b) && Distinct(a) && Distinct(b)
    requires multiset(a) == multiset(b)
    ensures Cross(w, p, g, a, row) == Cross(w, p, g, b, row)
    decreases |a|
  {
    assert |multiset(a)| == |a| && |multiset(b)| == |b|;
    if a != [] {
      var i := Locate(a, b);
      var first, later, rest := a[0], a[1..], Without(b, i);
      forall t
        ensures Cross(w, p, g, later, row[first := Some(t)]) == Cross(w, p, g, rest, row[first := Some(t)])
      {
        CrossPermutes(w, p, g, later, rest, row[first := Some(t)]);
      }
      CrossPull(w, p, g, b, i, row);
      CrossCongruence(w, p, g, first, later, rest, row);
      assert a == [first] + later;
    }
  }

  // ---- A pipeline that brings in the group in a given order ----

  /** The group's conditions make c true. */
  ghost predicate Implied(w: World, p: Pipeline, g: nat, c: Node)
    requires g <= |p.stages|
  {
    forall row :: Stored(w, row) && GroupHolds(w, p, g, row) ==> Holds(w, c, row)
  }

  predicate ReadyAt(s: Pipeline, order: seq<nat>, i: nat, c: Node)
    requires i < |order| && i < |s.stages|
  {
    && !Unresolved(c)
    && (forall r <- Refs(c) :: r in order[..i + 1])
    && (c in s.stages[i].filters ==> Refs(c) <= {order[i]})
  }

  /** s runs like p, except that it brings in the first g relations in the given
      order, as inner joins. */
  ghost predicate RunsGroupIn(w: World, p: Pipeline, s: Pipeline, g: nat, order: seq<nat>) {
    && Fits(w, p) && Fits(w, s)
    && |s.stages| == |p.stages| && |order| == g <= |p.stages|
    && Relations(w, order) && Distinct(order)
    && s.residual == p.residual
    && (forall k :: g <= k < |p.stages| ==> s.stages[k] == p.stages[k])
    && (forall i :: 0 <= i < g ==> s.stages[i].rel == order[i] && !s.stages[i].kind.Left?)
    && (forall i, c :: 0 <= i < g && (c in s.stages[i].filters || c in s.stages[i].on) ==>
          ReadyAt(s, order, i, c) && Implied(w, p, g, c))
    && (forall c :: InGroup(p, g, c) ==> InGroup(s, g, c))
  }

  lemma {:induction false} SameTail(w: World, p: Pipeline, s: Pipeline, k: nat, row: Row)
    requires Fits(w, p) && Fits(w, s) && |s.stages| == |p.stages| && k <= |p.stages| && |row| == |w.tables|
    requires s.residual == p.residual && forall j :: k <= j < |p.stages| ==> s.stages[j] == p.stages[j]
    ensures Run(w, s, k, row) == Run(w, p, k, row)
    decreases |p.stages| - k, 1, 0
  {
    if k < |p.stages| {
      if p.stages[k].kind.Left? && !HasMatch(w, p.stages[k], row) {
        SameTail(w, p, s, k + 1, row);
      } else {
        SameTailTuples(w, p, s, k, row, 0);
      }
    }
  }

  lemma {:induction false} SameTailTuples(w: World, p: Pipeline, s: Pipeline, k: nat, row: Row, i: nat)
    requires Fits(w, p) && Fits(w, s) && |s.stages| == |p.stages| && k < |p.stages| && |row| == |w.tables|
    requires s.residual == p.residual && forall j :: k <= j < |p.stages| ==> s.stages[j] == p.stages[j]
    requires i <= |w.tables[p.stages[k].rel]|
    ensures RunTuples(w, s, k, row, i) == RunTuples(w, p, k, row, i)
    decreases |p.stages| - k, 0, |w.tables[p.stages[k].rel]| - i
  {
    var st := p.stages[k];
    if i < |w.tables[st.rel]| {
      SameTail(w, p, s, k + 1, row[st.rel := Some(w.tables[st.rel][i])]);
      SameTailTuples(w, p, s, k, row, i + 1);
    }
  }

  /** A partial row that fails an implied condition contributes nothing. */
  lemma {:induction false} CrossDead(w: World, p: Pipeline, g: nat, order: seq<nat>, row: Row, c: Node)
    requires Fits(w, p) && g <= |p.stages| && Relations(w, order) && Stored(w, row)
    requires !Unresolved(c) && (forall r <- Refs(c) :: r !in order) && Implied(w, p, g, c)
    requires !Holds(w, c, row)
    ensures Cross(w, p, g, order, row) == multiset{}
    decreases |order|
  {
    if order != [] {
      var first, ts := order[0], w.tables[order[0]];
      forall i: nat | i < |ts|
        ensures Cross(w, p, g, order[1..], row[first := Some(ts[i])]) == multiset{}
      {
        var next := row[first := Some(ts[i])];
        EvalReadsOnlyRefs(w, c, row, next);
        CrossDead(w, p, g, order[1..], next, c);
      }
      SumOfNothing(0, |ts|, CrossTerm(w, p, g, first, order[1..], row));
    }
  }

  ghost predicate GroupHoldsBefore(w: World, s: Pipeline, i: nat, row: Row)
    requires i <= |s.stages|
  {
    forall j, c :: 0 <= j < i && (c in s.stages[j].filters || c in s.stages[j].on) ==> Holds(w, c, row)
  }

  /** What tuple k contributes at stage i. */
  function PieceBag(w: World, s: Pipeline, i: nat, row: Row, k: nat): multiset<Row>
    requires Fits(w, s) && i < |s.stages| && |row| == |w.tables| && k < |w.tables[s.stages[i].rel]|
  {
    var st := s.stages[i];
    var t := w.tables[st.rel][k];
    if Passes(w, st, row, t) then multiset(Run(w, s, i + 1, row[st.rel := Some(t)])) else multiset{}
  }

  lemma {:induction false} PassesMeansHold(w: World, p: Pipeline, s: Pipeline, g: nat, order: seq<nat>, i: nat, row: Row, t: Tuple)
    requires RunsGroupIn(w, p, s, g, order) && i < g && |row| == |w.tables|
    ensures var st := s.stages[i];
            Passes(w, st, row, t) <==> forall c :: c in st.filters || c in st.on ==> Holds(w, c, row[order[i] := Some(t)])
  {
    var st, next := s.stages[i], row[order[i] := Some(t)];
    forall c | c in st.filters
      ensures Holds(w, c, Single(w, st.rel, t)) <==> Holds(w, c, next)
    {
      assert ReadyAt(s, order, i, c);
      EvalReadsOnlyRefs(w, c, Single(w, st.rel, t), next);
    }
  }

  lemma {:induction false} HoldsBeforeStep(w: World, p: Pipeline, s: Pipeline, g: nat, order: seq<nat>, i: nat, row: Row, next: Row)
    requires RunsGroupIn(w, p, s, g, order) && i < g && |row| == |w.tables| == |next|
    requires GroupHoldsBefore(w, s, i, row)
    requires forall r :: 0 <= r < |row| && r != order[i] ==> next[r] == row[r]
    requires forall c :: c in s.stages[i].filters || c in s.stages[i].on ==> Holds(w, c, next)
    ensures GroupHoldsBefore(w, s, i + 1, next)
  {
    forall j, c | 0 <= j < i + 1 && (c in s.stages[j].filters || c in s.stages[j].on)
      ensures Holds(w, c, next)
    {
      if j < i {
        assert ReadyAt(s, order, j, c);
        assert order[i] !in order[..j + 1];
        assert AgreeOn(Refs(c), row, next);
        EvalReadsOnlyRefs(w, c, row, next);
        assert Holds(w, c, row);
      }
    }
  }

  lemma {:induction false} FailedTupleContributesNothing(w: World, p: Pipeline, s: Pipeline, g: nat, order: seq<nat>, i: nat, next: Row, c: Node)
    requires RunsGroupIn(w, p, s, g, order) && i < g && Stored(w, next)
    requires (c in s.stages[i].filters || c in s.stages[i].on) && !Holds(w, c, next)
    ensures Cross(w, p, g, order[i + 1..], next) == multiset{}
  {
    assert ReadyAt(s, order, i, c);
    forall r | r in Refs(c)
      ensures r !in order[i + 1..]
    {
      assert r in order[..i + 1];
    }
    CrossDead(w, p, g, order[i + 1..], next, c);
  }

  lemma {:induction false} TupleIsCross(w: World, p: Pipeline, s: Pipeline, g: nat, order: seq<nat>, i: nat, row: Row, k: nat)
    requires RunsGroupIn(w, p, s, g, order) && i < g && Stored(w, row) && k < |w.tables[order[i]]|
    requires GroupHoldsBefore(w, s, i, row)
    ensures PieceBag(w, s, i, row, k) == Cross(w, p, g, order[i + 1..], row[order[i] := Some(w.tables[order[i]][k])])
    decreases g - i, 0
  {
    var t := w.tables[order[i]][k];
    var next := row[order[i] := Some(t)];
    var st := s.stages[i];
    PassesMeansHold(w, p, s, g, order, i, row, t);
    if Passes(w, st, row, t) {
      HoldsBeforeStep(w, p, s, g, order, i, row, next);
      RunIsCross(w, p, s, g, order, i + 1, next);
    } else {
      var c :| (c in st.filters || c in st.on) && !Holds(w, c, next);
      FailedTupleContributesNothing(w, p, s, g, order, i, next, c);
    }
  }

  lemma {:induction false} TuplesStep(w: World, s: Pipeline, i: nat, row: Row, lo: nat)
    requires Fits(w, s) && i < |s.stages| && |row| == |w.tables|
    requires lo < |w.tables[s.stages[i].rel]|
    ensures multiset(RunTuples(w, s, i, row, lo)) == PieceBag(w, s, i, row, lo) + multiset(RunTuples(w, s, i, row, lo + 1))
  {
    var st := s.stages[i];
    var t := w.tables[st.rel][lo];
    var piece := if Passes(w, st, row, t) then Run(w, s, i + 1, row[st.rel := Some(t)]) else [];
    assert RunTuples(w, s, i, row, lo) == piece + RunTuples(w, s, i, row, lo + 1);
    assert multiset(piece) == PieceBag(w, s, i, row, lo);
  }

  lemma {:induction false} TuplesAreSum(w: World, s: Pipeline, i: nat, row: Row, lo: nat, f: nat -> multiset<Row>)
    requires Fits(w, s) && i < |s.stages| && |row| == |w.tables|
    requires lo <= |w.tables[s.stages[i].rel]|
    requires forall k: nat :: k < |w.tables[s.stages[i].rel]| ==> f(k) == PieceBag(w, s, i, row, k)
    ensures multiset(RunTuples(w, s, i, row, lo)) == Sum(lo, |w.tables[s.stages[i].rel]|, f)
    decreases |w.tables[s.stages[i].rel]| - lo
  {
    var n := |w.tables[s.stages[i].rel]|;
    if lo < n {
      TuplesAreSum(w, s, i, row, lo + 1, f);
      TuplesStep(w, s, i, row, lo);
      assert f(lo) == PieceBag(w, s, i, row, lo);
      assert Sum(lo, n, f) == f(lo) + Sum(lo + 1, n, f);
    }
  }

  /** Running a group equals filtering its cross product at the end. */
  lemma {:induction false} RunIsCross(w: World, p: Pipeline, s: Pipeline, g: nat, order: seq<nat>, i: nat, row: Row)
    requires RunsGroupIn(w, p, s, g, order) && i <= g && Stored(w, row)
    requires GroupHoldsBefore(w, s, i, row)
    ensures multiset(Run(w, s, i, row)) == Cross(w, p, g, order[i..], row)
    decreases g - i, 1
  {
    if i == g {
      SameTail(w, p, s, g, row);
      assert GroupHolds(w, p, g, row);
    } else {
      var ts, rest := w.tables[order[i]], order[i..];
      assert rest[1..] == order[i + 1..];
      var f := CrossTerm(w, p, g, order[i], order[i + 1..], row);
      forall k: nat | k < |ts|
        ensures f(k) == PieceBag(w, s, i, row, k)
      {
        TupleIsCross(w, p, s, g, order, i, row, k);
      }
      TuplesAreSum(w, s, i, row, 0, f);
    }
  }

  /** Two orders of the same inner group return the same rows equally often. */
  lemma {:induction false} ReorderingKeepsRows(w: World, p: Pipeline, s: Pipeline, g: nat, written: seq<nat>, order: seq<nat>)
    requires RunsGroupIn(w, p, p, g, written) && RunsGroupIn(w, p, s, g, order)
    requires multiset(written) == multiset(order)
    ensures multiset(RunAll(w, s)) == multiset(RunAll(w, p))
  {
    RunIsCross(w, p, p, g, written, 0, Blank(w));
    RunIsCross(w, p, s, g, order, 0, Blank(w));
    assert written[0..] == written && order[0..] == order;
    CrossPermutes(w, p, g, written, order, Blank(w));
  }
}
