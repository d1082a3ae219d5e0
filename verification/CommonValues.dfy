/** The most common values of a sorted sample: at most eight keys that occur twice
    or more, the most frequent first, and the number of different keys. */
module CommonValues {

  const MCV_COUNT: nat := 8

  datatype Run = Run(key: nat, length: nat)

  datatype Entry = Entry(key: nat, fraction: real)

  predicate Sorted(keys: seq<nat>) {
    forall i, j :: 0 <= i < j < |keys| ==> keys[i] <= keys[j]
  }

  function Count(keys: seq<nat>, key: nat): nat {
    multiset(keys)[key]
  }

  function Distinct(keys: seq<nat>): set<nat> {
    set k | k in keys
  }

  /** Longer runs first, the smaller key first among equals. */
  predicate Before(a: Run, b: Run) {
    a.length > b.length || (a.length == b.length && a.key < b.key)
  }

  predicate Ordered(top: seq<Run>) {
    forall i, j :: 0 <= i < j < |top| ==> Before(top[i], top[j])
  }

  predicate AllRuns(top: seq<Run>, keys: seq<nat>) {
    forall i :: 0 <= i < |top| ==> top[i].length == Count(keys, top[i].key) >= 2
  }

  predicate Listed(top: seq<Run>, key: nat) {
    exists i :: 0 <= i < |top| && top[i].key == key
  }

  /** A key that repeats is listed, or eight better ones are. */
  ghost predicate NoneMissing(top: seq<Run>, keys: seq<nat>) {
    forall key :: Count(keys, key) >= 2 && !Listed(top, key) ==>
      |top| == MCV_COUNT && forall i :: 0 <= i < |top| ==> Before(top[i], Run(key, Count(keys, key)))
  }

  /** Exactly the eight best runs, or all of them when there are fewer. */
  ghost predicate IsTop(top: seq<Run>, keys: seq<nat>) {
    |top| <= MCV_COUNT && Ordered(top) && AllRuns(top, keys) && NoneMissing(top, keys)
  }

  // ---- One more run ----

  /** Where a run of the given length goes: behind the runs at least as long. */
  predicate IsPlace(top: seq<Run>, length: nat, at: nat) {
    && at <= |top|
    && (forall i :: 0 <= i < at ==> top[i].length >= length)
    && (forall i :: at <= i < |top| ==> top[i].length < length)
  }

  function InsertedAt(top: seq<Run>, r: Run, at: nat): (after: seq<Run>)
    requires at <= |top| <= MCV_COUNT
    ensures |after| <= MCV_COUNT
  {
    if at >= MCV_COUNT then top
    else
      var all := top[..at] + [r] + top[at..];
      if |all| > MCV_COUNT then all[..MCV_COUNT] else all
  }

  /** More keys that are all the same, larger than those before. */
  ghost predicate Extends(keys: seq<nat>, more: seq<nat>, key: nat, length: nat) {
    && length > 0 && key !in keys
    && (forall k <- keys :: k < key)
    && (forall k :: Count(more, k) == if k == key then length else Count(keys, k))
  }

  lemma {:induction false} InsertedOrdered(top: seq<Run>, r: Run, at: nat)
    requires |top| <= MCV_COUNT && Ordered(top) && IsPlace(top, r.length, at)
    requires forall i :: 0 <= i < |top| ==> top[i].key < r.key
    ensures Ordered(InsertedAt(top, r, at))
  {
    var after := InsertedAt(top, r, at);
    forall i, j | 0 <= i < j < |after|
      ensures Before(after[i], after[j])
    {
      assert after[i] == InsertedElement(top, r, at, i) && after[j] == InsertedElement(top, r, at, j);
    }
  }

  function InsertedElement(top: seq<Run>, r: Run, at: nat, i: nat): Run
    requires at <= |top| && i <= |top| && (at >= MCV_COUNT ==> i < |top|)
  {
    if at >= MCV_COUNT || i < at then top[i] else if i == at then r else top[i - 1]
  }

  lemma {:induction false} InsertedRuns(top: seq<Run>, keys: seq<nat>, more: seq<nat>, key: nat, length: nat, at: nat)
    requires IsTop(top, keys) && IsPlace(top, length, at) && Extends(keys, more, key, length) && length >= 2
    ensures AllRuns(InsertedAt(top, Run(key, length), at), more)
  {
    forall i | 0 <= i < |top|
      ensures top[i].length == Count(more, top[i].key) >= 2
    {
      assert Count(keys, top[i].key) >= 2;
      assert top[i].key in keys;
    }
  }

  lemma {:induction false} InsertedListed(top: seq<Run>, r: Run, at: nat, i: nat)
    requires at <= |top| <= MCV_COUNT && i < |top|
    ensures Listed(InsertedAt(top, r, at), top[i].key) || (i == |top| - 1 && |top| == MCV_COUNT && at <= i)
  {
    var after := InsertedAt(top, r, at);
    if at >= MCV_COUNT || i < at {
      assert after[i] == top[i];
    } else if i + 1 < |after| {
      assert after[i + 1] == top[i];
    }
  }

  lemma {:induction false} NewIsListed(top: seq<Run>, r: Run, at: nat)
    requires at <= |top| <= MCV_COUNT && at < MCV_COUNT
    ensures Listed(InsertedAt(top, r, at), r.key)
  {
    assert InsertedAt(top, r, at)[at] == r;
  }

  /** The runs that stay come before the one pushed out. */
  lemma {:induction false} PushedOutIsLast(top: seq<Run>, keys: seq<nat>, r: Run, at: nat, out: Run)
    requires at < |top| == MCV_COUNT && IsPlace(top, r.length, at) && Ordered(top)
    requires out == top[|top| - 1]
    ensures forall i :: 0 <= i < MCV_COUNT ==> Before(InsertedAt(top, r, at)[i], out)
  {
    var after := InsertedAt(top, r, at);
    forall i | 0 <= i < MCV_COUNT
      ensures Before(after[i], out)
    {
      if i < at {
        assert after[i] == top[i];
      } else if i == at {
        assert after[i] == r;
      } else {
        assert after[i] == top[i - 1];
      }
    }
  }

  lemma {:induction false} InsertedComplete(top: seq<Run>, keys: seq<nat>, more: seq<nat>, key: nat, length: nat, at: nat, other: nat)
    requires IsTop(top, keys) && IsPlace(top, length, at) && Extends(keys, more, key, length) && length >= 2
    requires var after := InsertedAt(top, Run(key, length), at);
             Count(more, other) >= 2 && !Listed(after, other)
    ensures var after := InsertedAt(top, Run(key, length), at);
            |after| == MCV_COUNT && forall i :: 0 <= i < |after| ==> Before(after[i], Run(other, Count(more, other)))
  {
    var after, r := InsertedAt(top, Run(key, length), at), Run(key, length);
    if other == key {
      if at < MCV_COUNT {
        NewIsListed(top, r, at);
      }
      TopIsSmaller(top, keys, key);
    } else if i :| 0 <= i < |top| && top[i].key == other {
      InsertedListed(top, r, at, i);
      PushedOutIsLast(top, keys, r, at, top[i]);
    } else {
      assert Count(keys, other) >= 2 && !Listed(top, other);
      var missing := Run(other, Count(keys, other));
      forall i | 0 <= i < |after|
        ensures Before(after[i], missing)
      {
        if at < MCV_COUNT && i == at {
          assert Before(top[|top| - 1], missing);
        } else {
          assert after[i] == if at >= MCV_COUNT || i < at then top[i] else top[i - 1];
        }
      }
    }
  }

  lemma {:induction false} TopIsSmaller(top: seq<Run>, keys: seq<nat>, key: nat)
    requires AllRuns(top, keys) && forall k <- keys :: k < key
    ensures forall i :: 0 <= i < |top| ==> top[i].key < key
  {
    forall i | 0 <= i < |top|
      ensures top[i].key < key
    {
      assert top[i].key in keys;
    }
  }

  lemma {:induction false} InsertedIsTop(top: seq<Run>, keys: seq<nat>, more: seq<nat>, key: nat, length: nat, at: nat)
    requires IsTop(top, keys) && IsPlace(top, length, at) && Extends(keys, more, key, length) && length >= 2
    ensures IsTop(InsertedAt(top, Run(key, length), at), more)
  {
    var after := InsertedAt(top, Run(key, length), at);
    TopIsSmaller(top, keys, key);
    InsertedOrdered(top, Run(key, length), at);
    InsertedRuns(top, keys, more, key, length, at);
    forall other | Count(more, other) >= 2 && !Listed(after, other)
      ensures |after| == MCV_COUNT && forall i :: 0 <= i < |after| ==> Before(after[i], Run(other, Count(more, other)))
    {
      InsertedComplete(top, keys, more, key, length, at, other);
    }
  }

  lemma {:induction false} SingleChangesNothing(top: seq<Run>, keys: seq<nat>, more: seq<nat>, key: nat)
    requires IsTop(top, keys) && Extends(keys, more, key, 1)
    ensures IsTop(top, more)
  {
    forall i | 0 <= i < |top|
      ensures top[i].length == Count(more, top[i].key) >= 2
    {
      assert top[i].key in keys;
    }
    forall other | Count(more, other) >= 2 && !Listed(top, other)
      ensures |top| == MCV_COUNT && forall i :: 0 <= i < |top| ==> Before(top[i], Run(other, Count(more, other)))
    {
      assert Count(keys, other) == Count(more, other);
    }
  }

  // ---- Runs of a sorted sample ----

  /** A run of equal keys between two different neighbours. */
  predicate IsRun(keys: seq<nat>, start: nat, end: nat) {
    && start < end <= |keys|
    && (forall i :: start <= i < end ==> keys[i] == keys[start])
    && (end < |keys| ==> keys[end] != keys[start])
    && (start > 0 ==> keys[start - 1] != keys[start])
  }

  lemma {:induction false} CountRepeated(s: seq<nat>, key: nat, k: nat)
    requires forall i :: 0 <= i < |s| ==> s[i] == key
    ensures Count(s, k) == if k == key then |s| else 0
  {
    if s != [] {
      CountRepeated(s[..|s| - 1], key, k);
      assert s == s[..|s| - 1] + [key];
    }
  }

  /** One key, some times, behind smaller keys. */
  lemma {:induction false} RepeatedExtends(keys: seq<nat>, run: seq<nat>, key: nat)
    requires run != [] && (forall i :: 0 <= i < |run| ==> run[i] == key) && forall k <- keys :: k < key
    ensures Extends(keys, keys + run, key, |run|)
    ensures Distinct(keys + run) == Distinct(keys) + {key}
  {
    assert key !in keys;
    forall k
      ensures Count(keys + run, k) == if k == key then |run| else Count(keys, k)
    {
      CountRepeated(run, key, k);
      CountJoined(keys, run, k);
    }
    assert run[0] == key;
  }

  lemma {:induction false} CountJoined(a: seq<nat>, b: seq<nat>, k: nat)
    ensures Count(a + b, k) == Count(a, k) + Count(b, k)
  {
  }

  lemma {:induction false} SmallerBefore(keys: seq<nat>, start: nat, end: nat)
    requires Sorted(keys) && IsRun(keys, start, end)
    ensures forall k <- keys[..start] :: k < keys[start]
  {
    forall i | 0 <= i < start
      ensures keys[i] < keys[start]
    {
      assert keys[i] <= keys[start - 1] <= keys[start];
    }
  }

  lemma {:induction false} RunExtends(keys: seq<nat>, start: nat, end: nat)
    requires Sorted(keys) && IsRun(keys, start, end)
    ensures Extends(keys[..start], keys[..end], keys[start], end - start)
    ensures Distinct(keys[..end]) == Distinct(keys[..start]) + {keys[start]} && keys[start] !in Distinct(keys[..start])
  {
    var run := keys[start..end];
    SmallerBefore(keys, start, end);
    assert forall i :: 0 <= i < |run| ==> run[i] == keys[start + i] == keys[start];
    RepeatedExtends(keys[..start], run, keys[start]);
    assert keys[..end] == keys[..start] + run;
  }

  // ---- The table ----

  /** The first entries of the table hold the runs. */
  predicate Holds(counts: seq<nat>, mcv: seq<Entry>, top: seq<Run>, n: nat)
    requires n > 0
  {
    && |top| <= |counts| == |mcv| == MCV_COUNT
    && forall i :: 0 <= i < |top| ==>
         counts[i] == top[i].length && mcv[i] == Entry(top[i].key, top[i].length as real / n as real)
  }

  /** Moves the entries from a place on up by one, as far as there is room. */
  method ShiftUp(counts: array<nat>, mcv: array<Entry>, at: nat, last: nat)
    requires at <= last < counts.Length == mcv.Length
    modifies counts, mcv
    ensures Shifted(old(counts[..]), counts[..], at, last) && Shifted(old(mcv[..]), mcv[..], at, last)
  {
    ghost var c, m := counts[..], mcv[..];
    var shift := last;
    while shift > at
      invariant at <= shift <= last
      invariant forall i :: 0 <= i <= shift ==> counts[i] == c[i] && mcv[i] == m[i]
      invariant forall i :: shift < i <= last ==> counts[i] == c[i - 1] && mcv[i] == m[i - 1]
    {
      counts[shift] := counts[shift - 1];
      mcv[shift] := mcv[shift - 1];
      shift := shift - 1;
    }
  }

  ghost predicate Shifted<T>(before: seq<T>, after: seq<T>, at: nat, last: nat) {
    && at <= last < |before| == |after|
    && (forall i :: 0 <= i < at ==> after[i] == before[i])
    && (forall i :: at < i <= last ==> after[i] == before[i - 1])
  }

  /** A table that was shifted, with the run in the gap, holds the runs with the new one. */
  lemma {:induction false} InsertedHolds(c: seq<nat>, m: seq<Entry>, c': seq<nat>, m': seq<Entry>, top: seq<Run>, r: Run, at: nat, last: nat, n: nat)
    requires n > 0 && Holds(c, m, top, n) && at <= |top| && at < MCV_COUNT
    requires last == if |top| < MCV_COUNT - 1 then |top| else MCV_COUNT - 1
    requires Shifted(c, c', at, last) && Shifted(m, m', at, last)
    ensures Holds(c'[at := r.length], m'[at := Entry(r.key, r.length as real / n as real)], InsertedAt(top, r, at), n)
  {
    var after := InsertedAt(top, r, at);
    var c2, m2 := c'[at := r.length], m'[at := Entry(r.key, r.length as real / n as real)];
    forall i | 0 <= i < |after|
      ensures c2[i] == after[i].length && m2[i] == Entry(after[i].key, after[i].length as real / n as real)
    {
      assert after[i] == if i < at then top[i] else if i == at then r else top[i - 1];
    }
  }

  /** Makes room at a place and stores the run there. */
  method InsertEntry(counts: array<nat>, mcv: array<Entry>, ghost top: seq<Run>, count: nat, at: nat, r: Run, n: nat) returns (newCount: nat)
    requires n > 0 && Holds(counts[..], mcv[..], top, n) && count == |top| && at <= count && at < MCV_COUNT
    modifies counts, mcv
    ensures Holds(counts[..], mcv[..], InsertedAt(top, r, at), n) && newCount == |InsertedAt(top, r, at)|
  {
    ghost var c, m := counts[..], mcv[..];
    var last := if count < MCV_COUNT - 1 then count else MCV_COUNT - 1;
    ShiftUp(counts, mcv, at, last);
    InsertedHolds(c, m, counts[..], mcv[..], top, r, at, last, n);
    counts[at] := r.length;
    mcv[at] := Entry(r.key, r.length as real / n as real);
    newCount := if count < MCV_COUNT then count + 1 else count;
  }

  method FindPlace(counts: array<nat>, mcv: array<Entry>, ghost top: seq<Run>, count: nat, length: nat, ghost n: nat) returns (at: nat)
    requires n > 0 && Holds(counts[..], mcv[..], top, n) && count == |top| && Ordered(top)
    ensures IsPlace(top, length, at)
  {
    at := count;
    while at > 0 && counts[at - 1] < length
      invariant at <= count
      invariant forall i :: at <= i < count ==> top[i].length < length
    {
      at := at - 1;
    }
  }

  /** The end of the run that starts at a position. */
  method RunEnd(keys: seq<nat>, start: nat) returns (end: nat)
    requires start < |keys| && (start > 0 ==> keys[start - 1] != keys[start])
    ensures IsRun(keys, start, end)
  {
    end := start + 1;
    while end < |keys| && keys[end] == keys[start]
      invariant start < end <= |keys| && forall i :: start <= i < end ==> keys[i] == keys[start]
    {
      end := end + 1;
    }
  }

  /** Returns the number of different keys and the eight best runs. */
  method BuildMcv(keys: seq<nat>) returns (counts: array<nat>, mcv: array<Entry>, count: nat, distinct: nat, ghost top: seq<Run>)
    requires Sorted(keys)
    ensures distinct == |Distinct(keys)|
    ensures IsTop(top, keys) && count == |top|
    ensures keys != [] ==> Holds(counts[..], mcv[..], top, |keys|)
  {
    counts := new nat[MCV_COUNT](_ => 0);
    mcv := new Entry[MCV_COUNT](_ => Entry(0, 0.0));
    count, distinct, top := 0, 0, [];
    var start := 0;
    assert keys[..0] == [] && Distinct([]) == {};
    while start < |keys|
      invariant start <= |keys| && (0 < start < |keys| ==> keys[start - 1] != keys[start])
      invariant distinct == |Distinct(keys[..start])| && IsTop(top, keys[..start]) && count == |top|
      invariant keys != [] ==> Holds(counts[..], mcv[..], top, |keys|)
    {
      var end := RunEnd(keys, start);
      RunExtends(keys, start, end);
      distinct := distinct + 1;
      count, top := AddRun(counts, mcv, top, count, keys, start, end);
      start := end;
    }
    assert keys[..start] == keys;
  }

  method AddRun(counts: array<nat>, mcv: array<Entry>, ghost top: seq<Run>, count: nat, keys: seq<nat>, start: nat, end: nat)
    returns (newCount: nat, ghost after: seq<Run>)
    requires Sorted(keys) && IsRun(keys, start, end) && IsTop(top, keys[..start]) && count == |top|
    requires Holds(counts[..], mcv[..], top, |keys|)
    modifies counts, mcv
    ensures IsTop(after, keys[..end]) && newCount == |after| && Holds(counts[..], mcv[..], after, |keys|)
  {
    RunExtends(keys, start, end);
    newCount, after := count, top;
    var r := Run(keys[start], end - start);
    if r.length < 2 {
      SingleChangesNothing(top, keys[..start], keys[..end], keys[start]);
      return;
    }
    var at := FindPlace(counts, mcv, top, count, r.length, |keys|);
    InsertedIsTop(top, keys[..start], keys[..end], keys[start], r.length, at);
    after := InsertedAt(top, r, at);
    if at < MCV_COUNT {
      newCount := InsertEntry(counts, mcv, top, count, at, r, |keys|);
    }
  }
}
