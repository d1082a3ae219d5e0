/** The parallel phase of dictionary encoding. Workers go through disjoint ranges
    of rows and claim slots of an open-addressing table with compare-and-swap;
    every interleaving of their steps is a run. */
module DictionaryClaim {

  const EMPTY_SLOT: nat := 0xFFFF_FFFF
  const MAX_PROBE: nat := 256

  /** The strings of the column, the hash function, and the number of slots. */
  datatype Column = Column(strings: seq<string>, hash: string -> nat, capacity: nat)

  datatype Range = Range(min: nat, max: nat)

  /** AtRow: about to look at the overflow flag and hash its row. Probing: about to
      compare and swap. GivingUp: about to raise the flag. */
  datatype Phase = AtRow | Probing(slot: nat, probe: nat) | GivingUp | Finished

  datatype Worker = Worker(min: nat, max: nat, row: nat, phase: Phase)

  datatype State = State(owner: seq<nat>, overflow: bool, workers: seq<Worker>)

  /** Row numbers stay below the empty mark. */
  predicate Encodable(c: Column) {
    c.capacity > 0 && |c.strings| <= EMPTY_SLOT
  }

  // ---- Dividing the work ----

  function Min(a: nat, b: nat): nat {
    if a < b then a else b
  }

  /** Equal shares, rounded up; the last ones may be short or empty. */
  function DivideWork(items: nat, workers: nat): (ranges: seq<Range>)
    requires workers > 0
    ensures |ranges| == workers
  {
    var share := Share(items, workers);
    seq(workers, i requires 0 <= i < workers => Range(Min(items, i * share), Min(items, i * share + share)))
  }

  predicate InRange(r: Range, row: nat) {
    r.min <= row < r.max
  }

  function Share(items: nat, workers: nat): (share: nat)
    requires workers > 0
  {
    (items + workers - 1) / workers
  }

  lemma {:induction false} ShareIsEnough(items: nat, workers: nat, row: nat) returns (i: nat)
    requires workers > 0 && row < items
    ensures i < workers && i * Share(items, workers) <= row < (i + 1) * Share(items, workers)
  {
    var share := Share(items, workers);
    assert workers * share + (items + workers - 1) % workers == items + workers - 1;
    assert share > 0;
    i := row / share;
    assert i * share + row % share == row;
    if i >= workers {
      MultiplyMonotone(workers, i, share);
    }
  }

  lemma {:induction false} ShareRange(items: nat, workers: nat, i: nat)
    requires i < workers
    ensures var share := Share(items, workers);
            DivideWork(items, workers)[i] == Range(Min(items, i * share), Min(items, (i + 1) * share))
  {
    var share := Share(items, workers);
    assert (i + 1) * share == i * share + share;
  }

  lemma {:induction false} OtherShare(share: nat, i: nat, j: nat, row: nat)
    requires i != j && i * share <= row < (i + 1) * share
    ensures !(j * share <= row < (j + 1) * share)
  {
    if j < i { MultiplyMonotone(j + 1, i, share); } else { MultiplyMonotone(i + 1, j, share); }
  }

  /** Every row is in exactly one share. */
  lemma {:induction false} DivideWorkCovers(items: nat, workers: nat, row: nat) returns (i: nat)
    requires workers > 0 && row < items
    ensures i < workers && InRange(DivideWork(items, workers)[i], row)
    ensures forall j :: 0 <= j < workers && j != i ==> !InRange(DivideWork(items, workers)[j], row)
  {
    i := ShareIsEnough(items, workers, row);
    ShareRange(items, workers, i);
    forall j: nat | j < workers && j != i
      ensures !InRange(DivideWork(items, workers)[j], row)
    {
      ShareRange(items, workers, j);
      OtherShare(Share(items, workers), i, j, row);
    }
  }

  lemma {:induction false} MultiplyMonotone(a: nat, b: nat, m: nat)
    requires a <= b
    ensures a * m <= b * m
  {
  }

  // ---- The steps of a worker ----

  function Slot(c: Column, s: string, probe: nat): (slot: nat)
    requires c.capacity > 0
    ensures slot < c.capacity
  {
    (c.hash(s) + probe) % c.capacity
  }

  function NextRow(w: Worker): Worker {
    w.(row := w.row + 1, phase := AtRow)
  }

  /** One atomic step of a worker. The compare-and-swap and the comparison with the
      owner it returns are one step, since the strings do not change. */
  function Stepped(c: Column, s: State, i: nat): (next: State)
    requires Encodable(c) && i < |s.workers| && |s.owner| == c.capacity
    ensures |next.owner| == c.capacity && |next.workers| == |s.workers|
  {
    var w := s.workers[i];
    match w.phase
    case AtRow =>
      if w.row >= w.max || w.row >= |c.strings| || s.overflow then s.(workers := s.workers[i := w.(phase := Finished)])
      else s.(workers := s.workers[i := w.(phase := Probing(Slot(c, c.strings[w.row], 0), 0))])
    case Probing(slot, probe) =>
      if probe >= MAX_PROBE || slot >= c.capacity || w.row >= |c.strings| then s.(workers := s.workers[i := w.(phase := GivingUp)])
      else
        var existing := s.owner[slot];
        if existing == EMPTY_SLOT then
          State(s.owner[slot := w.row], s.overflow, s.workers[i := NextRow(w)])
        else if existing < |c.strings| && c.strings[existing] == c.strings[w.row] then
          s.(workers := s.workers[i := NextRow(w)])
        else
          s.(workers := s.workers[i := w.(phase := Probing((slot + 1) % c.capacity, probe + 1))])
    case GivingUp => s.(overflow := true, workers := s.workers[i := w.(phase := Finished)])
    case Finished => s
  }

  function Initial(c: Column, ranges: seq<Range>): State {
    State(seq(c.capacity, _ => EMPTY_SLOT), false,
          seq(|ranges|, i requires 0 <= i < |ranges| => Worker(ranges[i].min, ranges[i].max, ranges[i].min, AtRow)))
  }

  /** A run starts with an empty table; each step is a step of some worker. */
  ghost predicate IsRun(c: Column, ranges: seq<Range>, run: seq<State>) {
    && run != [] && run[0] == Initial(c, ranges)
    && forall k :: 0 <= k < |run| - 1 ==> IsStep(c, run[k], run[k + 1])
  }

  ghost predicate IsStep(c: Column, s: State, next: State) {
    && Encodable(c) && |s.owner| == c.capacity
    && exists i: nat :: i < |s.workers| && next == Stepped(c, s, i)
  }

  predicate AllFinished(s: State) {
    forall i :: 0 <= i < |s.workers| ==> s.workers[i].phase.Finished?
  }

  // ---- The invariant ----

  predicate Owned(s: State, slot: nat) {
    slot < |s.owner| && s.owner[slot] != EMPTY_SLOT
  }

  /** Some other string owns the slot. */
  predicate Taken(c: Column, s: State, slot: nat, x: string) {
    Owned(s, slot) && s.owner[slot] < |c.strings| && c.strings[s.owner[slot]] != x
  }

  /** The first n slots of the probe path of x belong to other strings. */
  ghost predicate Blocked(c: Column, s: State, x: string, n: nat)
    requires c.capacity > 0
  {
    forall q: nat :: q < n ==> Taken(c, s, Slot(c, x, q), x)
  }

  /** x owns a slot, and every slot before it on the probe path is another string's. */
  ghost predicate OwnsAt(c: Column, s: State, x: string, probe: nat)
    requires c.capacity > 0
  {
    && probe < MAX_PROBE && Blocked(c, s, x, probe)
    && var slot := Slot(c, x, probe);
       Owned(s, slot) && s.owner[slot] < |c.strings| && c.strings[s.owner[slot]] == x
  }

  ghost predicate Findable(c: Column, s: State, x: string)
    requires c.capacity > 0
  {
    exists probe: nat :: OwnsAt(c, s, x, probe)
  }

  ghost predicate SlotIsReached(c: Column, s: State, slot: nat)
    requires c.capacity > 0
  {
    Owned(s, slot) ==>
      && s.owner[slot] < |c.strings|
      && exists probe: nat :: OwnsAt(c, s, c.strings[s.owner[slot]], probe) && Slot(c, c.strings[s.owner[slot]], probe) == slot
  }

  ghost predicate RowDone(c: Column, s: State, row: nat)
    requires c.capacity > 0
  {
    row < |c.strings| && Findable(c, s, c.strings[row])
  }

  /** Rows before the current one are findable; a finished worker has done all its
      rows unless the flag is up. */
  ghost predicate WorkerFits(c: Column, s: State, w: Worker)
    requires c.capacity > 0
  {
    && w.min <= w.row && w.max <= |c.strings|
    && (forall row: nat :: w.min <= row < w.row ==> RowDone(c, s, row))
    && match w.phase
       case AtRow => true
       case Probing(slot, probe) =>
         && w.row < w.max && probe <= MAX_PROBE
         && slot == Slot(c, c.strings[w.row], probe) && Blocked(c, s, c.strings[w.row], probe)
       case GivingUp => w.row < w.max && Blocked(c, s, c.strings[w.row], MAX_PROBE)
       case Finished => s.overflow || w.row >= w.max
  }

  /** The flag goes up only for a row whose whole probe path is other strings'. */
  ghost predicate OverflowFits(c: Column, s: State)
    requires c.capacity > 0
  {
    s.overflow ==> exists row :: 0 <= row < |c.strings| && Blocked(c, s, c.strings[row], MAX_PROBE)
  }

  ghost predicate Invariant(c: Column, ranges: seq<Range>, s: State) {
    && Encodable(c) && |s.owner| == c.capacity && |s.workers| == |ranges|
    && (forall slot: nat :: slot < c.capacity ==> SlotIsReached(c, s, slot))
    && (forall i :: 0 <= i < |s.workers| ==> s.workers[i].min == ranges[i].min && s.workers[i].max == ranges[i].max)
    && (forall i :: 0 <= i < |s.workers| ==> WorkerFits(c, s, s.workers[i]))
    && OverflowFits(c, s)
  }

  /** The table only gains owners. */
  ghost predicate Grows(s: State, next: State) {
    && |s.owner| == |next.owner|
    && (s.overflow ==> next.overflow)
    && forall k: nat :: Owned(s, k) ==> Owned(next, k) && next.owner[k] == s.owner[k]
  }

  lemma {:induction false} FindableGrows(c: Column, s: State, next: State, x: string)
    requires c.capacity > 0 && Grows(s, next)
    ensures forall n: nat :: Blocked(c, s, x, n) ==> Blocked(c, next, x, n)
    ensures forall probe: nat :: OwnsAt(c, s, x, probe) ==> OwnsAt(c, next, x, probe)
    ensures Findable(c, s, x) ==> Findable(c, next, x)
  {
    forall n: nat | Blocked(c, s, x, n)
      ensures Blocked(c, next, x, n)
    {
      forall q: nat | q < n
        ensures Taken(c, next, Slot(c, x, q), x)
      {
        assert Taken(c, s, Slot(c, x, q), x);
      }
    }
    if Findable(c, s, x) {
      var probe: nat :| OwnsAt(c, s, x, probe);
      assert OwnsAt(c, next, x, probe);
    }
  }

  lemma {:induction false} StepGrows(c: Column, s: State, i: nat)
    requires Encodable(c) && |s.owner| == c.capacity && i < |s.workers|
    ensures Grows(s, Stepped(c, s, i))
  {
  }

  lemma {:induction false} OthersFit(c: Column, s: State, next: State, w: Worker)
    requires c.capacity > 0 && Grows(s, next) && WorkerFits(c, s, w)
    ensures WorkerFits(c, next, w)
  {
    forall row: nat | w.min <= row < w.row
      ensures RowDone(c, next, row)
    {
      assert RowDone(c, s, row);
      FindableGrows(c, s, next, c.strings[row]);
    }
    if w.row < |c.strings| {
      FindableGrows(c, s, next, c.strings[w.row]);
    }
  }

  lemma {:induction false} NextSlot(c: Column, x: string, probe: nat)
    requires c.capacity > 0
    ensures (Slot(c, x, probe) + 1) % c.capacity == Slot(c, x, probe + 1)
  {
    var a, n := c.hash(x) + probe, c.capacity;
    var q := a / n;
    assert a == q * n + a % n;
    NextRest(a, n, q, a % n);
  }

  lemma {:induction false} NextRest(a: nat, n: nat, q: nat, r: nat)
    requires n > 0 && r < n && a == q * n + r
    ensures (r + 1) % n == (a + 1) % n
  {
    if r + 1 < n {
      DivModUnique(a + 1, n, q, r + 1);
      DivModUnique(r + 1, n, 0, r + 1);
    } else {
      assert (q + 1) * n == q * n + n;
      DivModUnique(a + 1, n, q + 1, 0);
      DivModUnique(n, n, 1, 0);
    }
  }

  lemma {:induction false} DivModUnique(x: nat, n: nat, q: nat, r: nat)
    requires n > 0 && r < n && x == q * n + r
    ensures x % n == r && x / n == q
  {
    var k := x / n - q;
    assert k * n == r - x % n;
    assert k > 0 ==> k * n >= n;
    assert k < 0 ==> k * n + n <= 0;
  }

  /** The worker that moves fits the new state. */
  lemma {:induction false} MoverFits(c: Column, s: State, i: nat)
    requires Encodable(c) && |s.owner| == c.capacity && i < |s.workers| && WorkerFits(c, s, s.workers[i])
    requires forall slot: nat :: slot < c.capacity ==> SlotIsReached(c, s, slot)
    ensures WorkerFits(c, Stepped(c, s, i), Stepped(c, s, i).workers[i])
  {
    var w, next := s.workers[i], Stepped(c, s, i);
    StepGrows(c, s, i);
    OthersFit(c, s, next, w);
    if w.phase.Probing? && w.phase.probe < MAX_PROBE {
      ProberFits(c, s, i);
    }
  }

  lemma {:induction false} ProberFits(c: Column, s: State, i: nat)
    requires Encodable(c) && |s.owner| == c.capacity && i < |s.workers| && WorkerFits(c, s, s.workers[i])
    requires forall slot: nat :: slot < c.capacity ==> SlotIsReached(c, s, slot)
    requires s.workers[i].phase.Probing? && s.workers[i].phase.probe < MAX_PROBE
    requires WorkerFits(c, Stepped(c, s, i), s.workers[i])
    ensures WorkerFits(c, Stepped(c, s, i), Stepped(c, s, i).workers[i])
  {
    var w, next := s.workers[i], Stepped(c, s, i);
    var x, slot, probe := c.strings[w.row], w.phase.slot, w.phase.probe;
    assert SlotIsReached(c, s, slot);
    if next.owner[slot] < |c.strings| && c.strings[next.owner[slot]] == x {
      assert OwnsAt(c, next, x, probe);
      assert RowDone(c, next, w.row);
      assert next.workers[i] == NextRow(w);
    } else {
      NextSlot(c, x, probe);
      assert Taken(c, next, Slot(c, x, probe), x);
    }
  }

  /** Slots stay on the probe paths of the strings that own them. */
  lemma {:induction false} SlotsStayReached(c: Column, s: State, i: nat, slot: nat)
    requires Encodable(c) && |s.owner| == c.capacity && i < |s.workers| && WorkerFits(c, s, s.workers[i])
    requires slot < c.capacity && SlotIsReached(c, s, slot)
    ensures SlotIsReached(c, Stepped(c, s, i), slot)
  {
    var w, next := s.workers[i], Stepped(c, s, i);
    StepGrows(c, s, i);
    if Owned(s, slot) {
      var x := c.strings[s.owner[slot]];
      FindableGrows(c, s, next, x);
      var probe: nat :| OwnsAt(c, s, x, probe) && Slot(c, x, probe) == slot;
      assert OwnsAt(c, next, x, probe);
    } else if Owned(next, slot) {
      var x := c.strings[w.row];
      FindableGrows(c, s, next, x);
      assert OwnsAt(c, next, x, w.phase.probe);
    }
  }

  lemma {:induction false} OverflowStaysFit(c: Column, s: State, i: nat)
    requires Encodable(c) && |s.owner| == c.capacity && i < |s.workers| && WorkerFits(c, s, s.workers[i])
    requires OverflowFits(c, s)
    ensures OverflowFits(c, Stepped(c, s, i))
  {
    var w, next := s.workers[i], Stepped(c, s, i);
    StepGrows(c, s, i);
    if s.overflow {
      var row :| 0 <= row < |c.strings| && Blocked(c, s, c.strings[row], MAX_PROBE);
      FindableGrows(c, s, next, c.strings[row]);
      assert Blocked(c, next, c.strings[row], MAX_PROBE);
    } else if next.overflow {
      FindableGrows(c, s, next, c.strings[w.row]);
      assert Blocked(c, next, c.strings[w.row], MAX_PROBE);
    }
  }

  /** Every step of every worker keeps the invariant. */
  lemma {:induction false} StepKeepsInvariant(c: Column, ranges: seq<Range>, s: State, i: nat)
    requires Invariant(c, ranges, s) && i < |s.workers|
    ensures Invariant(c, ranges, Stepped(c, s, i))
  {
    var next := Stepped(c, s, i);
    assert WorkerFits(c, s, s.workers[i]);
    StepGrows(c, s, i);
    forall slot: nat | slot < c.capacity
      ensures SlotIsReached(c, next, slot)
    {
      SlotsStayReached(c, s, i, slot);
    }
    forall j | 0 <= j < |next.workers|
      ensures WorkerFits(c, next, next.workers[j])
    {
      if j == i {
        MoverFits(c, s, i);
      } else {
        assert next.workers[j] == s.workers[j];
        OthersFit(c, s, next, s.workers[j]);
      }
    }
    OverflowStaysFit(c, s, i);
  }

  lemma {:induction false} InitialFits(c: Column, ranges: seq<Range>)
    requires Encodable(c) && forall i :: 0 <= i < |ranges| ==> ranges[i].max <= |c.strings|
    ensures Invariant(c, ranges, Initial(c, ranges))
  {
  }

  lemma {:induction false} RunKeepsInvariant(c: Column, ranges: seq<Range>, run: seq<State>, k: nat)
    requires Encodable(c) && (forall i :: 0 <= i < |ranges| ==> ranges[i].max <= |c.strings|)
    requires IsRun(c, ranges, run) && k < |run|
    ensures Invariant(c, ranges, run[k])
  {
    if k == 0 {
      InitialFits(c, ranges);
    } else {
      RunKeepsInvariant(c, ranges, run, k - 1);
      assert IsStep(c, run[k - 1], run[k - 1 + 1]);
      var i: nat :| i < |run[k - 1].workers| && run[k] == Stepped(c, run[k - 1], i);
      StepKeepsInvariant(c, ranges, run[k - 1], i);
    }
  }

  // ---- What the invariant means ----

  /** A string owns at most one slot of its probe path. */
  lemma {:induction false} OneProbe(c: Column, s: State, x: string, p: nat, q: nat)
    requires c.capacity > 0 && OwnsAt(c, s, x, p) && OwnsAt(c, s, x, q)
    ensures p == q
  {
    assert p < q ==> Taken(c, s, Slot(c, x, p), x);
    assert q < p ==> Taken(c, s, Slot(c, x, q), x);
  }

  predicate OwnDifferent(c: Column, owner: seq<nat>, a: nat, b: nat)
    requires a < |owner| && b < |owner|
  {
    owner[a] < |c.strings| && owner[b] < |c.strings| && c.strings[owner[a]] != c.strings[owner[b]]
  }

  /** No two slots own equal strings. */
  lemma {:induction false} SlotsOwnDistinctStrings(c: Column, ranges: seq<Range>, s: State, a: nat, b: nat)
    requires Invariant(c, ranges, s) && Owned(s, a) && Owned(s, b) && a != b
    ensures OwnDifferent(c, s.owner, a, b)
  {
    assert SlotIsReached(c, s, a) && SlotIsReached(c, s, b);
    if c.strings[s.owner[a]] == c.strings[s.owner[b]] {
      var x := c.strings[s.owner[a]];
      var p: nat :| OwnsAt(c, s, x, p) && Slot(c, x, p) == a;
      var q: nat :| OwnsAt(c, s, x, q) && Slot(c, x, q) == b;
      OneProbe(c, s, x, p, q);
    }
  }

  /** The table holds every string of the column where a lookup finds it, and
      nothing else. */
  ghost predicate Complete(c: Column, owner: seq<nat>) {
    var s := State(owner, false, []);
    && Encodable(c) && |owner| == c.capacity
    && (forall slot: nat :: slot < c.capacity ==> SlotIsReached(c, s, slot))
    && (forall a: nat, b: nat :: Owned(s, a) && Owned(s, b) && a != b ==> OwnDifferent(c, owner, a, b))
    && (forall row :: 0 <= row < |c.strings| ==> Findable(c, s, c.strings[row]))
  }

  lemma {:induction false} OnlyOwnersMatter(c: Column, s: State, t: State, x: string)
    requires c.capacity > 0 && s.owner == t.owner
    ensures Findable(c, s, x) <==> Findable(c, t, x)
    ensures forall slot: nat :: SlotIsReached(c, s, slot) ==> SlotIsReached(c, t, slot)
  {
    forall y: string, probe: nat
      ensures OwnsAt(c, s, y, probe) <==> OwnsAt(c, t, y, probe)
    {
      assert forall slot: nat :: Taken(c, s, slot, y) <==> Taken(c, t, slot, y);
    }
  }

  /** However the workers' steps interleave, when all have finished without
      overflow the table is complete. */
  lemma {:induction false} EveryRunCompletes(c: Column, workers: nat, run: seq<State>)
    requires Encodable(c) && workers > 0 && IsRun(c, DivideWork(|c.strings|, workers), run)
    requires AllFinished(run[|run| - 1]) && !run[|run| - 1].overflow
    ensures Complete(c, run[|run| - 1].owner)
  {
    var s := run[|run| - 1];
    var ranges := DivideWork(|c.strings|, workers);
    RunKeepsInvariant(c, ranges, run, |run| - 1);
    var t := State(s.owner, false, []);
    forall slot: nat | slot < c.capacity
      ensures SlotIsReached(c, t, slot)
    {
      OnlyOwnersMatter(c, s, t, "");
      assert SlotIsReached(c, s, slot);
    }
    forall a: nat, b: nat | Owned(t, a) && Owned(t, b) && a != b
      ensures OwnDifferent(c, s.owner, a, b)
    {
      SlotsOwnDistinctStrings(c, ranges, s, a, b);
    }
    forall row | 0 <= row < |c.strings|
      ensures Findable(c, t, c.strings[row])
    {
      var i := DivideWorkCovers(|c.strings|, workers, row);
      assert WorkerFits(c, s, s.workers[i]);
      assert RowDone(c, s, row);
      OnlyOwnersMatter(c, s, t, c.strings[row]);
    }
  }

  /** A run that overflows has met a string with a full probe path. */
  lemma {:induction false} OverflowMeansFullPath(c: Column, workers: nat, run: seq<State>)
    requires Encodable(c) && workers > 0 && IsRun(c, DivideWork(|c.strings|, workers), run)
    requires run[|run| - 1].overflow
    ensures exists row :: 0 <= row < |c.strings| && Blocked(c, run[|run| - 1], c.strings[row], MAX_PROBE)
  {
    RunKeepsInvariant(c, DivideWork(|c.strings|, workers), run, |run| - 1);
  }
}
