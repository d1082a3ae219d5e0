/** Why the parallel claim phase ends: every step of a worker that is not finished
    leaves it less to do, and a worker that runs into a full probe path stops all. */
module DictionaryProgress {
  import opened DictionaryClaim

  /** More than the steps that one row can take. */
  const ROW_STEPS: nat := MAX_PROBE + 4

  function RowsLeft(w: Worker): nat {
    if w.row < w.max then w.max - w.row else 0
  }

  function Less(a: nat, b: nat): nat {
    if a > b then a - b else 0
  }

  /** A bound on the steps a worker still takes. */
  function Work(w: Worker): nat {
    match w.phase
    case AtRow => RowsLeft(w) * ROW_STEPS + 1
    case Probing(_, probe) => Less(RowsLeft(w) * ROW_STEPS, probe)
    case GivingUp => Less(RowsLeft(w) * ROW_STEPS, MAX_PROBE + 1)
    case Finished => 0
  }

  function TotalWork(ws: seq<Worker>): nat {
    if ws == [] then 0 else TotalWork(ws[..|ws| - 1]) + Work(ws[|ws| - 1])
  }

  lemma {:induction false} TotalWith(ws: seq<Worker>, i: nat, w: Worker)
    requires i < |ws|
    ensures TotalWork(ws[i := w]) + Work(ws[i]) == TotalWork(ws) + Work(w)
  {
    var init := ws[..|ws| - 1];
    if i < |init| {
      TotalWith(init, i, w);
      assert ws[i := w][..|ws| - 1] == init[i := w];
    } else {
      assert ws[i := w][..|ws| - 1] == init;
    }
  }

  lemma {:induction false} StepWorks(c: Column, ranges: seq<Range>, s: State, i: nat)
    requires Invariant(c, ranges, s) && i < |s.workers| && !s.workers[i].phase.Finished?
    ensures var next := Stepped(c, s, i);
            next.workers == s.workers[i := next.workers[i]] && Work(next.workers[i]) < Work(s.workers[i])
  {
    var w := s.workers[i];
    assert WorkerFits(c, s, w);
    if w.row < w.max {
      var next := NextRow(w);
      assert RowsLeft(w) == RowsLeft(next) + 1;
      assert RowsLeft(w) * ROW_STEPS == RowsLeft(next) * ROW_STEPS + ROW_STEPS;
    }
  }

  lemma {:induction false} StepLowersTotal(c: Column, ranges: seq<Range>, s: State, i: nat)
    requires Invariant(c, ranges, s) && i < |s.workers| && Stepped(c, s, i) != s
    ensures TotalWork(Stepped(c, s, i).workers) < TotalWork(s.workers)
  {
    StepWorks(c, ranges, s, i);
    TotalWith(s.workers, i, Stepped(c, s, i).workers[i]);
  }

  /** Every step changes something: no step of a finished worker is counted. */
  ghost predicate IsBusy(run: seq<State>) {
    forall k :: 0 <= k < |run| - 1 ==> run[k] != run[k + 1]
  }

  lemma {:induction false} StepsAreBounded(c: Column, ranges: seq<Range>, run: seq<State>, k: nat)
    requires Encodable(c) && (forall i :: 0 <= i < |ranges| ==> ranges[i].max <= |c.strings|)
    requires IsRun(c, ranges, run) && IsBusy(run) && k < |run|
    ensures k + TotalWork(run[k].workers) <= TotalWork(run[0].workers)
  {
    if k > 0 {
      StepsAreBounded(c, ranges, run, k - 1);
      RunKeepsInvariant(c, ranges, run, k - 1);
      assert IsStep(c, run[k - 1], run[k - 1 + 1]) && run[k - 1] != run[k - 1 + 1];
      var i: nat :| i < |run[k - 1].workers| && run[k] == Stepped(c, run[k - 1], i);
      StepLowersTotal(c, ranges, run[k - 1], i);
    }
  }

  lemma {:induction false} RangesInside(items: nat, workers: nat)
    requires workers > 0
    ensures forall i :: 0 <= i < workers ==> DivideWork(items, workers)[i].max <= items
  {
  }

  /** No run goes on for ever, whatever the interleaving; and where no step changes
      anything any more, all workers are finished. */
  lemma {:induction false} EveryRunEnds(c: Column, workers: nat, run: seq<State>)
    requires Encodable(c) && workers > 0 && IsRun(c, DivideWork(|c.strings|, workers), run) && IsBusy(run)
    ensures |run| <= TotalWork(run[0].workers) + 1
    ensures var last := run[|run| - 1];
            |last.owner| == c.capacity
            && ((forall i: nat :: i < |last.workers| ==> Stepped(c, last, i) == last) <==> AllFinished(last))
  {
    var ranges := DivideWork(|c.strings|, workers);
    var last := run[|run| - 1];
    RangesInside(|c.strings|, workers);
    StepsAreBounded(c, ranges, run, |run| - 1);
    RunKeepsInvariant(c, ranges, run, |run| - 1);
    forall i: nat | i < |last.workers|
      ensures Stepped(c, last, i) == last <==> last.workers[i].phase.Finished?
    {
      if !last.workers[i].phase.Finished? {
        StepWorks(c, ranges, last, i);
      }
    }
  }

  // ---- The overflow flag ----

  /** The first row that a worker has not begun. */
  function Begun(w: Worker): nat {
    if w.phase.Probing? || w.phase.GivingUp? then w.row + 1 else w.row
  }

  lemma {:induction false} FlaggedStep(c: Column, s: State, i: nat, j: nat)
    requires Encodable(c) && i < |s.workers| && j < |s.workers| && |s.owner| == c.capacity && s.overflow
    ensures Stepped(c, s, i).overflow && Begun(Stepped(c, s, i).workers[j]) <= Begun(s.workers[j])
  {
  }

  /** Once the flag is up, it stays up and no worker begins another row. */
  lemma {:induction false} FlagStopsWorkers(c: Column, ranges: seq<Range>, run: seq<State>, k: nat, l: nat, j: nat)
    requires IsRun(c, ranges, run) && k <= l < |run| && run[k].overflow && j < |run[k].workers|
    ensures run[l].overflow && |run[l].workers| == |run[k].workers| && Begun(run[l].workers[j]) <= Begun(run[k].workers[j])
  {
    if k < l {
      FlagStopsWorkers(c, ranges, run, k, l - 1, j);
      assert IsStep(c, run[l - 1], run[l - 1 + 1]);
      var i: nat :| i < |run[l - 1].workers| && run[l] == Stepped(c, run[l - 1], i);
      FlaggedStep(c, run[l - 1], i, j);
    }
  }
}
