/** Plan trees and what they return, and join pipelines: the list of steps of a
    left-deep join tree, run one partial row at a time. A plan built from a
    pipeline returns the rows of the pipeline, in the same order. */
module Plans {
  import opened Predicates

  datatype JoinType = Inner | Left | Cross

  datatype Plan =
    | Scan(rel: nat)
    | Select(input: Plan, condition: Option<Node>)
    | Join(kind: JoinType, input: Plan, input2: Plan, on: Option<Node>)

  function Blank(w: World): (row: Row)
    ensures |row| == |w.tables|
  {
    seq(|w.tables|, _ => None)
  }

  function Single(w: World, rel: nat, t: Tuple): Row
    requires rel < |w.tables|
  {
    Blank(w)[rel := Some(t)]
  }

  /** Every joined slot holds a stored tuple. */
  predicate Stored(w: World, row: Row) {
    && |row| == |w.tables|
    && forall j :: 0 <= j < |row| ==> row[j].None? || row[j].value in w.tables[j]
  }

  function ScanFrom(w: World, rel: nat, i: nat): seq<Row>
    requires rel < |w.tables| && i <= |w.tables[rel]|
    decreases |w.tables[rel]| - i
  {
    if i == |w.tables[rel]| then [] else [Single(w, rel, w.tables[rel][i])] + ScanFrom(w, rel, i + 1)
  }

  function FilterRows(w: World, condition: Option<Node>, rows: seq<Row>): seq<Row> {
    if rows == [] then []
    else (if OptHolds(w, condition, rows[0]) then [rows[0]] else []) + FilterRows(w, condition, rows[1..])
  }

  /** The slots of both sides of a join. */
  function Merge(left: Row, right: Row): Row {
    seq(|left|, i requires 0 <= i < |left| =>
      if i < |right| && right[i].Some? then right[i] else left[i])
  }

  /** The rows a left row joins to. A cross join reads no condition. */
  function Matches(w: World, kind: JoinType, on: Option<Node>, left: Row, rights: seq<Row>): seq<Row> {
    if rights == [] then []
    else
      var row := Merge(left, rights[0]);
      (if kind.Cross? || OptHolds(w, on, row) then [row] else []) + Matches(w, kind, on, left, rights[1..])
  }

  /** A left join keeps a row without a match, its right side filled up with NULLs. */
  function JoinRows(w: World, kind: JoinType, on: Option<Node>, lefts: seq<Row>, rights: seq<Row>): seq<Row> {
    if lefts == [] then []
    else
      var found := Matches(w, kind, on, lefts[0], rights);
      (if kind.Left? && found == [] then [lefts[0]] else found) + JoinRows(w, kind, on, lefts[1..], rights)
  }

  function EvalPlan(w: World, plan: Plan): seq<Row> {
    match plan
    case Scan(rel) => if rel < |w.tables| then ScanFrom(w, rel, 0) else []
    case Select(input, condition) => FilterRows(w, condition, EvalPlan(w, input))
    case Join(kind, input, input2, on) => JoinRows(w, kind, on, EvalPlan(w, input), EvalPlan(w, input2))
  }

  // ---- Pipelines ----

  /** One relation brought in: its own filter conditions, and the conditions of
      the join that adds it. */
  datatype Stage = Stage(rel: nat, kind: JoinType, filters: seq<Node>, on: seq<Node>)

  datatype Pipeline = Pipeline(stages: seq<Stage>, residual: seq<Node>)

  predicate StageFits(w: World, s: Stage) {
    s.rel < |w.tables| && (s.kind.Cross? ==> s.on == [])
  }

  predicate Fits(w: World, p: Pipeline) {
    forall k :: 0 <= k < |p.stages| ==> StageFits(w, p.stages[k])
  }

  predicate RowsFit(w: World, rows: seq<Row>) {
    forall i :: 0 <= i < |rows| ==> |rows[i]| == |w.tables|
  }

  predicate Passes(w: World, s: Stage, row: Row, t: Tuple)
    requires StageFits(w, s) && |row| == |w.tables|
  {
    AllHold(w, s.filters, Single(w, s.rel, t)) && AllHold(w, s.on, row[s.rel := Some(t)])
  }

  predicate HasMatch(w: World, s: Stage, row: Row)
    requires StageFits(w, s) && |row| == |w.tables|
  {
    exists t <- w.tables[s.rel] :: Passes(w, s, row, t)
  }

  /** All complete rows that a partial row, after k stages, turns into. */
  function Run(w: World, p: Pipeline, k: nat, row: Row): seq<Row>
    requires Fits(w, p) && k <= |p.stages| && |row| == |w.tables|
    decreases |p.stages| - k, 1, 0
  {
    if k == |p.stages| then (if AllHold(w, p.residual, row) then [row] else [])
    else if p.stages[k].kind.Left? && !HasMatch(w, p.stages[k], row) then Run(w, p, k + 1, row)
    else RunTuples(w, p, k, row, 0)
  }

  function RunTuples(w: World, p: Pipeline, k: nat, row: Row, i: nat): seq<Row>
    requires Fits(w, p) && k < |p.stages| && |row| == |w.tables|
    requires i <= |w.tables[p.stages[k].rel]|
    decreases |p.stages| - k, 0, |w.tables[p.stages[k].rel]| - i
  {
    var s := p.stages[k];
    if i == |w.tables[s.rel]| then []
    else
      var t := w.tables[s.rel][i];
      (if Passes(w, s, row, t) then Run(w, p, k + 1, row[s.rel := Some(t)]) else [])
      + RunTuples(w, p, k, row, i + 1)
  }

  function RunAll(w: World, p: Pipeline): seq<Row>
    requires Fits(w, p)
  {
    Run(w, p, 0, Blank(w))
  }

  // ---- The plan of a pipeline ----

  function RelationPlan(s: Stage): Plan {
    if s.filters == [] then Scan(s.rel) else Select(Scan(s.rel), AndChain(s.filters))
  }

  /** The left-deep join of the first k stages. */
  function JoinPlan(stages: seq<Stage>, k: nat): Plan
    requires 1 <= k <= |stages|
  {
    if k == 1 then RelationPlan(stages[0])
    else Join(stages[k - 1].kind, JoinPlan(stages, k - 1), RelationPlan(stages[k - 1]), AndChain(stages[k - 1].on))
  }

  function PlanOf(p: Pipeline): Plan
    requires p.stages != []
  {
    var joined := JoinPlan(p.stages, |p.stages|);
    if p.residual == [] then joined else Select(joined, AndChain(p.residual))
  }

  // ---- Running row by row is running join by join ----

  function RunRows(w: World, p: Pipeline, k: nat, rows: seq<Row>): seq<Row>
    requires Fits(w, p) && k <= |p.stages| && RowsFit(w, rows)
  {
    if rows == [] then [] else Run(w, p, k, rows[0]) + RunRows(w, p, k, rows[1..])
  }

  lemma {:induction false} RunRowsConcat(w: World, p: Pipeline, k: nat, a: seq<Row>, b: seq<Row>)
    requires Fits(w, p) && k <= |p.stages|
    requires RowsFit(w, a) && RowsFit(w, b)
    ensures RowsFit(w, a + b)
    ensures RunRows(w, p, k, a + b) == RunRows(w, p, k, a) + RunRows(w, p, k, b)
  {
    if a == [] {
      assert a + b == b;
    } else {
      RunRowsConcat(w, p, k, a[1..], b);
      assert (a + b)[1..] == a[1..] + b;
    }
  }

  lemma {:induction false} FilterIsLastStage(w: World, p: Pipeline, rows: seq<Row>)
    requires Fits(w, p) && RowsFit(w, rows)
    ensures FilterRows(w, AndChain(p.residual), rows) == RunRows(w, p, |p.stages|, rows)
  {
    if rows != [] {
      AndChainHolds(w, p.residual, rows[0]);
      FilterIsLastStage(w, p, rows[1..]);
    }
  }

  lemma {:induction false} MergeSingle(w: World, row: Row, rel: nat, t: Tuple)
    requires |row| == |w.tables| && rel < |row|
    ensures Merge(row, Single(w, rel, t)) == row[rel := Some(t)]
  {
  }

  /** The rows of a relation from tuple i on, its filters applied. */
  function RelationRows(w: World, s: Stage, i: nat): (rows: seq<Row>)
    requires s.rel < |w.tables| && i <= |w.tables[s.rel]|
  {
    FilterRows(w, AndChain(s.filters), ScanFrom(w, s.rel, i))
  }

  lemma {:induction false} RelationPlanRows(w: World, s: Stage)
    requires s.rel < |w.tables|
    ensures EvalPlan(w, RelationPlan(s)) == RelationRows(w, s, 0)
  {
    if s.filters == [] {
      FilterNothing(w, ScanFrom(w, s.rel, 0));
    }
  }

  lemma {:induction false} FilterNothing(w: World, rows: seq<Row>)
    ensures FilterRows(w, None, rows) == rows
  {
    if rows != [] {
      FilterNothing(w, rows[1..]);
    }
  }

  lemma {:induction false} RelationRowsStep(w: World, s: Stage, i: nat)
    requires s.rel < |w.tables| && i < |w.tables[s.rel]|
    ensures RelationRows(w, s, i) ==
            (if AllHold(w, s.filters, Single(w, s.rel, w.tables[s.rel][i])) then [Single(w, s.rel, w.tables[s.rel][i])] else [])
            + RelationRows(w, s, i + 1)
  {
    var row := Single(w, s.rel, w.tables[s.rel][i]);
    AndChainHolds(w, s.filters, row);
    assert ([row] + ScanFrom(w, s.rel, i + 1))[1..] == ScanFrom(w, s.rel, i + 1);
  }

  /** What a left row joins to, from tuple i of the stage's relation on. */
  function StageMatches(w: World, s: Stage, row: Row, i: nat): seq<Row>
    requires s.rel < |w.tables| && i <= |w.tables[s.rel]|
  {
    Matches(w, s.kind, AndChain(s.on), row, RelationRows(w, s, i))
  }

  lemma {:induction false} StageMatchesStep(w: World, s: Stage, row: Row, i: nat)
    requires StageFits(w, s) && |row| == |w.tables| && i < |w.tables[s.rel]|
    ensures StageMatches(w, s, row, i) ==
            (if Passes(w, s, row, w.tables[s.rel][i]) then [row[s.rel := Some(w.tables[s.rel][i])]] else [])
            + StageMatches(w, s, row, i + 1)
  {
    var t := w.tables[s.rel][i];
    var head, rest := Single(w, s.rel, t), RelationRows(w, s, i + 1);
    RelationRowsStep(w, s, i);
    MergeSingle(w, row, s.rel, t);
    AndChainHolds(w, s.on, row[s.rel := Some(t)]);
    if AllHold(w, s.filters, head) {
      assert ([head] + rest)[1..] == rest;
    } else {
      assert [] + rest == rest;
    }
  }

  lemma {:induction false} NoMatch(w: World, s: Stage, row: Row, i: nat)
    requires StageFits(w, s) && |row| == |w.tables| && i <= |w.tables[s.rel]|
    ensures StageMatches(w, s, row, i) == [] <==>
            forall j :: i <= j < |w.tables[s.rel]| ==> !Passes(w, s, row, w.tables[s.rel][j])
    decreases |w.tables[s.rel]| - i
  {
    if i < |w.tables[s.rel]| {
      NoMatch(w, s, row, i + 1);
      StageMatchesStep(w, s, row, i);
    }
  }

  /** The matches of one left row, continued through the later stages. */
  lemma {:induction false} MatchesRun(w: World, p: Pipeline, k: nat, row: Row, i: nat)
    requires Fits(w, p) && k < |p.stages| && |row| == |w.tables|
    requires i <= |w.tables[p.stages[k].rel]|
    ensures RowsFit(w, StageMatches(w, p.stages[k], row, i))
    ensures RunRows(w, p, k + 1, StageMatches(w, p.stages[k], row, i)) == RunTuples(w, p, k, row, i)
    decreases |w.tables[p.stages[k].rel]| - i
  {
    var s := p.stages[k];
    if i < |w.tables[s.rel]| {
      var t := w.tables[s.rel][i];
      MatchesRun(w, p, k, row, i + 1);
      StageMatchesStep(w, s, row, i);
      var first := if Passes(w, s, row, t) then [row[s.rel := Some(t)]] else [];
      RunRowsConcat(w, p, k + 1, first, StageMatches(w, s, row, i + 1));
      RunRowsSingle(w, p, k + 1, row[s.rel := Some(t)]);
    }
  }

  lemma {:induction false} RunRowsSingle(w: World, p: Pipeline, k: nat, row: Row)
    requires Fits(w, p) && k <= |p.stages| && |row| == |w.tables|
    ensures RunRows(w, p, k, [row]) == Run(w, p, k, row)
  {
    assert [row][1..] == [];
  }

  /** What one left row turns into. */
  function JoinedRow(w: World, s: Stage, row: Row): seq<Row>
    requires s.rel < |w.tables|
  {
    var found := StageMatches(w, s, row, 0);
    if s.kind.Left? && found == [] then [row] else found
  }

  /** One left row joined, continued through the later stages. */
  lemma {:induction false} JoinRowRun(w: World, p: Pipeline, k: nat, row: Row)
    requires Fits(w, p) && k < |p.stages| && |row| == |w.tables|
    ensures var joined := JoinedRow(w, p.stages[k], row);
            RowsFit(w, joined) && RunRows(w, p, k + 1, joined) == Run(w, p, k, row)
  {
    var s := p.stages[k];
    MatchesRun(w, p, k, row, 0);
    NoMatch(w, s, row, 0);
    assert StageMatches(w, s, row, 0) == [] <==> !HasMatch(w, s, row);
    RunRowsSingle(w, p, k + 1, row);
  }

  /** One join, continued through the later stages. */
  lemma {:induction false} JoinRun(w: World, p: Pipeline, k: nat, rows: seq<Row>)
    requires Fits(w, p) && k < |p.stages| && RowsFit(w, rows)
    ensures var s := p.stages[k];
            var joined := JoinRows(w, s.kind, AndChain(s.on), rows, RelationRows(w, s, 0));
            RowsFit(w, joined) && RunRows(w, p, k + 1, joined) == RunRows(w, p, k, rows)
  {
    if rows != [] {
      var s := p.stages[k];
      var later := JoinRows(w, s.kind, AndChain(s.on), rows[1..], RelationRows(w, s, 0));
      JoinRun(w, p, k, rows[1..]);
      JoinRowRun(w, p, k, rows[0]);
      RunRowsConcat(w, p, k + 1, JoinedRow(w, s, rows[0]), later);
      assert JoinRows(w, s.kind, AndChain(s.on), rows, RelationRows(w, s, 0)) == JoinedRow(w, s, rows[0]) + later;
    }
  }

  predicate StartsWithScan(p: Pipeline) {
    p.stages != [] && !p.stages[0].kind.Left? && p.stages[0].on == []
  }

  lemma {:induction false} FirstRelationRun(w: World, p: Pipeline, i: nat)
    requires Fits(w, p) && StartsWithScan(p) && i <= |w.tables[p.stages[0].rel]|
    ensures RowsFit(w, RelationRows(w, p.stages[0], i))
    ensures RunRows(w, p, 1, RelationRows(w, p.stages[0], i)) == RunTuples(w, p, 0, Blank(w), i)
    decreases |w.tables[p.stages[0].rel]| - i
  {
    var s := p.stages[0];
    if i < |w.tables[s.rel]| {
      FirstRelationRun(w, p, i + 1);
      RelationRowsStep(w, s, i);
      var t := w.tables[s.rel][i];
      var head := Single(w, s.rel, t);
      var first := if AllHold(w, s.filters, head) then [head] else [];
      assert Passes(w, s, Blank(w), t) <==> AllHold(w, s.filters, head);
      RunRowsConcat(w, p, 1, first, RelationRows(w, s, i + 1));
      RunRowsSingle(w, p, 1, head);
    }
  }

  /** The rows after the first k stages, join by join. */
  function JoinedRows(w: World, p: Pipeline, k: nat): seq<Row>
    requires Fits(w, p) && 1 <= k <= |p.stages|
  {
    var s := p.stages[k - 1];
    if k == 1 then RelationRows(w, s, 0)
    else JoinRows(w, s.kind, AndChain(s.on), JoinedRows(w, p, k - 1), RelationRows(w, s, 0))
  }

  lemma {:induction false} JoinPlanRows(w: World, p: Pipeline, k: nat)
    requires Fits(w, p) && 1 <= k <= |p.stages|
    ensures EvalPlan(w, JoinPlan(p.stages, k)) == JoinedRows(w, p, k)
  {
    RelationPlanRows(w, p.stages[k - 1]);
    if k > 1 {
      JoinPlanRows(w, p, k - 1);
    }
  }

  lemma {:induction false} JoinedRowsStep(w: World, p: Pipeline, k: nat, result: seq<Row>)
    requires Fits(w, p) && 1 <= k < |p.stages| && RowsFit(w, JoinedRows(w, p, k))
    requires RunRows(w, p, k, JoinedRows(w, p, k)) == result
    ensures RowsFit(w, JoinedRows(w, p, k + 1))
    ensures RunRows(w, p, k + 1, JoinedRows(w, p, k + 1)) == result
  {
    JoinRun(w, p, k, JoinedRows(w, p, k));
  }

  lemma {:induction false} JoinedRowsRun(w: World, p: Pipeline, k: nat, result: seq<Row>)
    requires Fits(w, p) && 1 <= k <= |p.stages| && RowsFit(w, JoinedRows(w, p, 1))
    requires RunRows(w, p, 1, JoinedRows(w, p, 1)) == result
    ensures RowsFit(w, JoinedRows(w, p, k))
    ensures RunRows(w, p, k, JoinedRows(w, p, k)) == result
  {
    if k > 1 {
      JoinedRowsRun(w, p, k - 1, result);
      JoinedRowsStep(w, p, k - 1, result);
    }
  }

  /** The plan built from a pipeline returns the pipeline's rows, in order. */
  lemma {:induction false} PlanRunsPipeline(w: World, p: Pipeline)
    requires Fits(w, p) && StartsWithScan(p)
    ensures EvalPlan(w, PlanOf(p)) == RunAll(w, p)
  {
    JoinPlanRows(w, p, |p.stages|);
    FirstRelationRun(w, p, 0);
    JoinedRowsRun(w, p, |p.stages|, RunAll(w, p));
    var rows := JoinedRows(w, p, |p.stages|);
    FilterIsLastStage(w, p, rows);
    FilterNothing(w, rows);
  }
}
