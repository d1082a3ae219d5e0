/** What the bytes of a statistics record mean, said without the reader: which bytes
    hold which field, and which byte sequences are no record. */
module RecordLayout {
  import opened FileBytes
  import opened StatsRecord

  const HEADER: nat := 8

  /** The fields behind the name; the flag is the low half of its word. */
  ghost predicate HasFields(b: seq<Byte>, at: nat, r: Record) {
    HasNumbers(b, at, r) && exists flag: nat :: IsWordAt(b, at + 24, flag) && r.hasRange == flag % 0x1_0000_0000
  }

  predicate HasNumbers(b: seq<Byte>, at: nat, r: Record) {
    && IsWordAt(b, at, r.rowCount)
    && IsWordAt(b, at + 8, r.nullCount)
    && IsWordAt(b, at + 16, r.distinctCount)
    && IsWordAt(b, at + 32, r.minValue)
    && IsWordAt(b, at + 40, r.maxValue)
  }

  /** The numbers stand one behind the other. */
  predicate WordsStand(b: seq<Byte>, at: nat, words: seq<nat>) {
    forall i :: 0 <= i < |words| ==> IsWordAt(b, at + 8 * i, words[i])
  }

  /** The values stand one behind the other, each followed by its share. */
  predicate EntriesStand(b: seq<Byte>, at: nat, mcv: seq<(nat, nat)>) {
    forall i :: 0 <= i < |mcv| ==> IsWordAt(b, at + 16 * i, mcv[i].0) && IsWordAt(b, at + 8 + 16 * i, mcv[i].1)
  }

  /** Up to 64 buckets with one bound more than buckets, or no buckets. */
  ghost predicate HasBounds(b: seq<Byte>, at: nat, bounds: seq<nat>) {
    exists buckets: nat :: IsWordAt(b, at, buckets) && IsBounds(b, at, buckets, bounds)
  }

  predicate IsBounds(b: seq<Byte>, at: nat, buckets: nat, bounds: seq<nat>) {
    buckets <= 64 && |bounds| == (if buckets == 0 then 0 else buckets + 1) && WordsStand(b, at + 8, bounds)
  }

  /** Up to eight common values, each with its share. */
  predicate HasMcv(b: seq<Byte>, at: nat, mcv: seq<(nat, nat)>) {
    IsWordAt(b, at, |mcv|) && |mcv| <= 8 && EntriesStand(b, at + 8, mcv)
  }

  function BoundsAt(r: Record): nat {
    HEADER + |r.name| + 48
  }

  function McvAt(r: Record): nat {
    BoundsAt(r) + 8 + 8 * |r.bounds|
  }

  function Size(r: Record): nat {
    McvAt(r) + 8 + 16 * |r.mcv|
  }

  /** The first bytes are the record. */
  ghost predicate IsRecord(b: seq<Byte>, r: Record) {
    && Size(r) <= |b|
    && IsWordAt(b, 0, |r.name|) && b[HEADER..HEADER + |r.name|] == r.name
    && HasFields(b, HEADER + |r.name|, r) && HasBounds(b, BoundsAt(r), r.bounds) && HasMcv(b, McvAt(r), r.mcv)
  }

  // ---- Words read one by one ----

  lemma {:induction false} WordsAtIs(b: seq<Byte>, n: nat, i: nat)
    requires WORD * n <= |b| && i < n
    ensures WordsAt(b, n)[i] == FromLittleEndian(b[8 * i..8 * i + 8])
  {
    if i < n - 1 {
      WordsAtIs(b, n - 1, i);
    }
  }

  lemma {:induction false} WordsAtBehind(b: seq<Byte>, at: nat, n: nat, i: nat)
    requires at + WORD * n <= |b| && i < n
    ensures IsWordAt(b, at + 8 * i, WordsAt(b[at..], n)[i])
  {
    WordsAtIs(b[at..], n, i);
    assert b[at..][8 * i..8 * i + 8] == b[at + 8 * i..at + 8 * i + 8];
    WordAtIff(b, at + 8 * i, WordsAt(b[at..], n)[i]);
  }

  lemma {:induction false} OneNumber(b: seq<Byte>, at: nat, n: nat, m: nat)
    requires IsWordAt(b, at, n) && IsWordAt(b, at, m)
    ensures n == m
  {
    WordAtIff(b, at, n);
    WordAtIff(b, at, m);
  }

  /** Words behind a position are taken if and only if they stand there. */
  lemma {:induction false} TakeWordsIff(b: seq<Byte>, at: nat, words: seq<nat>, rest: seq<Byte>)
    requires at <= |b|
    ensures TakeWords(b[at..], |words|) == Some((words, rest)) <==>
            at + 8 * |words| <= |b| && rest == b[at + 8 * |words|..] && WordsStand(b, at, words)
  {
    var n := |words|;
    if at + 8 * n <= |b| {
      var all := WordsAt(b[at..], n);
      forall i | 0 <= i < n
        ensures IsWordAt(b, at + 8 * i, all[i]) && (IsWordAt(b, at + 8 * i, words[i]) ==> words[i] == all[i])
      {
        WordsAtBehind(b, at, n, i);
        if IsWordAt(b, at + 8 * i, words[i]) {
          OneNumber(b, at + 8 * i, words[i], all[i]);
        }
      }
      assert b[at..][8 * n..] == b[at + 8 * n..];
      if forall i :: 0 <= i < n ==> IsWordAt(b, at + 8 * i, words[i]) {
        assert all == words;
      }
    }
  }

  lemma {:induction false} WordTakenAt(b: seq<Byte>, at: nat)
    requires at <= |b|
    ensures TakeWords(b[at..], 1).Some? <==> at + 8 <= |b|
    ensures TakeWords(b[at..], 1).Some? ==>
              IsWordAt(b, at, TakeWords(b[at..], 1).value.0[0]) && TakeWords(b[at..], 1).value.1 == b[at + 8..]
  {
    var taken := TakeWords(b[at..], 1);
    if taken.Some? {
      TakeWordsIff(b, at, taken.value.0, taken.value.1);
    }
  }

  // ---- The parts of a record ----

  lemma {:induction false} NameIff(b: seq<Byte>, name: seq<Byte>, rest: seq<Byte>)
    ensures TakeName(b) == Some((name, rest)) <==>
            && IsWordAt(b, 0, |name|) && HEADER + |name| <= |b| && b[HEADER..HEADER + |name|] == name
            && rest == b[HEADER + |name|..]
  {
    assert b[0..] == b;
    WordTakenAt(b, 0);
    if |b| >= 8 {
      var size := TakeWords(b, 1).value.0[0];
      if IsWordAt(b, 0, |name|) {
        OneNumber(b, 0, size, |name|);
      }
      if size <= |b| - 8 {
        assert b[8..][..size] == b[8..8 + size] && b[8..][size..] == b[8 + size..];
      }
    }
  }

  lemma {:induction false} FieldsIff(b: seq<Byte>, at: nat, fixed: seq<nat>, rest: seq<Byte>)
    requires at <= |b| && |fixed| == 7
    ensures TakeWords(b[at..], 7) == Some((fixed, rest)) <==>
            && at + 56 <= |b| && rest == b[at + 56..]
            && IsWordAt(b, at, fixed[0]) && IsWordAt(b, at + 8, fixed[1]) && IsWordAt(b, at + 16, fixed[2]) && IsWordAt(b, at + 24, fixed[3])
            && IsWordAt(b, at + 32, fixed[4]) && IsWordAt(b, at + 40, fixed[5]) && IsWordAt(b, at + 48, fixed[6])
  {
    TakeWordsIff(b, at, fixed, rest);
    hide IsWordAt;
    assert (forall i :: 0 <= i < 7 ==> IsWordAt(b, at + 8 * i, fixed[i])) <==>
           (IsWordAt(b, at + 8 * 0, fixed[0]) && IsWordAt(b, at + 8 * 1, fixed[1]) && IsWordAt(b, at + 8 * 2, fixed[2]) && IsWordAt(b, at + 8 * 3, fixed[3])
            && IsWordAt(b, at + 8 * 4, fixed[4]) && IsWordAt(b, at + 8 * 5, fixed[5]) && IsWordAt(b, at + 8 * 6, fixed[6]));
  }

  lemma {:induction false} BoundsIff(b: seq<Byte>, at: nat, buckets: nat, bounds: seq<nat>, rest: seq<Byte>)
    requires at <= |b|
    ensures TakeBounds(b[at..], buckets) == Some((bounds, rest)) <==>
            && buckets <= 64 && |bounds| == (if buckets == 0 then 0 else buckets + 1)
            && at + 8 * |bounds| <= |b| && rest == b[at + 8 * |bounds|..] && WordsStand(b, at, bounds)
  {
    TakeWordsIff(b, at, bounds, rest);
  }

  lemma {:induction false} PairedAt(words: seq<nat>, i: nat)
    requires |words| % 2 == 0 && 2 * i < |words|
    ensures Paired(words)[i] == (words[2 * i], words[2 * i + 1])
  {
    if 2 * i < |words| - 2 {
      PairedAt(words[..|words| - 2], i);
    }
  }

  lemma {:induction false} FlattenedAt(mcv: seq<(nat, nat)>, i: nat)
    requires i < |mcv|
    ensures Flattened(mcv)[2 * i] == mcv[i].0 && Flattened(mcv)[2 * i + 1] == mcv[i].1
  {
    if i < |mcv| - 1 {
      FlattenedAt(mcv[..|mcv| - 1], i);
    }
  }

  lemma {:induction false} FlattenedPaired(words: seq<nat>)
    requires |words| % 2 == 0
    ensures Flattened(Paired(words)) == words
  {
    var mcv := Paired(words);
    forall k | 0 <= k < |words|
      ensures Flattened(mcv)[k] == words[k]
    {
      PairedAt(words, k / 2);
      FlattenedAt(mcv, k / 2);
    }
  }

  /** The entries, word by word. */
  lemma {:induction false} EntriesIff(b: seq<Byte>, at: nat, mcv: seq<(nat, nat)>)
    ensures WordsStand(b, at, Flattened(mcv)) <==> EntriesStand(b, at, mcv)
  {
    hide IsWordAt;
    forall i | 0 <= i < |mcv|
      ensures Flattened(mcv)[2 * i] == mcv[i].0 && Flattened(mcv)[2 * i + 1] == mcv[i].1
    {
      FlattenedAt(mcv, i);
    }
    if WordsStand(b, at, Flattened(mcv)) {
      forall i | 0 <= i < |mcv|
        ensures IsWordAt(b, at + 16 * i, mcv[i].0) && IsWordAt(b, at + 8 + 16 * i, mcv[i].1)
      {
        assert IsWordAt(b, at + 8 * (2 * i), Flattened(mcv)[2 * i]);
        assert IsWordAt(b, at + 8 * (2 * i + 1), Flattened(mcv)[2 * i + 1]);
      }
    }
    if EntriesStand(b, at, mcv) {
      forall k | 0 <= k < 2 * |mcv|
        ensures IsWordAt(b, at + 8 * k, Flattened(mcv)[k])
      {
        var i := k / 2;
        assert IsWordAt(b, at + 16 * i, mcv[i].0) && IsWordAt(b, at + 8 + 16 * i, mcv[i].1);
        assert k == 2 * i || k == 2 * i + 1;
      }
    }
  }

  lemma {:induction false} McvIff(b: seq<Byte>, at: nat, mcv: seq<(nat, nat)>, rest: seq<Byte>)
    requires at <= |b|
    ensures TakeMcv(b[at..]) == Some((mcv, rest)) <==>
            HasMcv(b, at, mcv) && at + 8 + 16 * |mcv| <= |b| && rest == b[at + 8 + 16 * |mcv|..]
  {
    WordTakenAt(b, at);
    if at + 8 <= |b| {
      var count := TakeWords(b[at..], 1).value.0[0];
      if IsWordAt(b, at, |mcv|) {
        OneNumber(b, at, count, |mcv|);
      }
      EntriesTakenIff(b, at + 8, mcv, rest);
      hide IsWordAt, TakeWords, Paired, EntriesStand;
    }
  }

  lemma {:induction false} EntriesTakenIff(b: seq<Byte>, at: nat, mcv: seq<(nat, nat)>, rest: seq<Byte>)
    requires at <= |b|
    ensures (var entries := TakeWords(b[at..], 2 * |mcv|); entries.Some? && Paired(entries.value.0) == mcv && entries.value.1 == rest) <==>
            at + 16 * |mcv| <= |b| && rest == b[at + 16 * |mcv|..] && EntriesStand(b, at, mcv)
  {
    var words := Flattened(mcv);
    TakeWordsIff(b, at, words, rest);
    EntriesIff(b, at, mcv);
    var entries := TakeWords(b[at..], 2 * |mcv|);
    if entries.Some? {
      PairedIff(entries.value.0, mcv);
    }
    hide *;
    assert |words| == 2 * |mcv| && 8 * |words| == 16 * |mcv|;
  }

  lemma {:induction false} PairedIff(words: seq<nat>, mcv: seq<(nat, nat)>)
    requires |words| == 2 * |mcv|
    ensures Paired(words) == mcv <==> words == Flattened(mcv)
  {
    PairedFlattened(mcv);
    FlattenedPaired(words);
  }

  // ---- The whole record ----

  function Fields(r: Record, flag: nat, buckets: nat): (fixed: seq<nat>)
    ensures |fixed| == 7
  {
    [r.rowCount, r.nullCount, r.distinctCount, flag, r.minValue, r.maxValue, buckets]
  }

  /** What is read behind the name. */
  ghost predicate ReadsFields(b: seq<Byte>, r: Record, rest: seq<Byte>, flag: nat, buckets: nat) {
    && BoundsAt(r) + 8 <= |b| && r.hasRange == flag % B32_RANGE
    && TakeWords(b[HEADER + |r.name|..], 7) == Some((Fields(r, flag, buckets), b[BoundsAt(r) + 8..]))
    && TakeBounds(b[BoundsAt(r) + 8..], buckets).Some? && TakeBounds(b[BoundsAt(r) + 8..], buckets).value.0 == r.bounds
    && TakeMcv(TakeBounds(b[BoundsAt(r) + 8..], buckets).value.1) == Some((r.mcv, rest))
  }

  /** What stands behind the name. */
  ghost predicate HoldsFields(b: seq<Byte>, r: Record, rest: seq<Byte>, flag: nat, buckets: nat) {
    && Size(r) <= |b| && rest == b[Size(r)..]
    && IsWordAt(b, HEADER + |r.name| + 24, flag) && r.hasRange == flag % 0x1_0000_0000 && HasNumbers(b, HEADER + |r.name|, r)
    && IsWordAt(b, BoundsAt(r), buckets) && IsBounds(b, BoundsAt(r), buckets, r.bounds)
    && HasMcv(b, McvAt(r), r.mcv)
  }

  lemma {:induction false} ReadMeansHeld(b: seq<Byte>, r: Record, rest: seq<Byte>, flag: nat, buckets: nat)
    requires ReadsFields(b, r, rest, flag, buckets)
    ensures HoldsFields(b, r, rest, flag, buckets)
  {
    hide IsWordAt, WordsStand, HasMcv, HasNumbers, TakeWords, TakeBounds, TakeMcv, Fields;
    assert HasNumbers(b, HEADER + |r.name|, r) && IsWordAt(b, HEADER + |r.name| + 24, flag) && IsWordAt(b, BoundsAt(r), buckets) by {
      NumbersIff(b, r, flag, buckets);
    }
    var at := BoundsAt(r) + 8;
    TailIff(b, at, buckets, r.bounds, r.mcv, rest);
  }

  lemma {:induction false} HeldMeansRead(b: seq<Byte>, r: Record, rest: seq<Byte>, flag: nat, buckets: nat)
    requires HoldsFields(b, r, rest, flag, buckets)
    ensures ReadsFields(b, r, rest, flag, buckets)
  {
    hide IsWordAt, WordsStand, HasMcv, HasNumbers, TakeWords, TakeBounds, TakeMcv, Fields;
    NumbersIff(b, r, flag, buckets);
    TailIff(b, BoundsAt(r) + 8, buckets, r.bounds, r.mcv, rest);
  }

  lemma {:induction false} NumbersIff(b: seq<Byte>, r: Record, flag: nat, buckets: nat)
    requires BoundsAt(r) + 8 <= |b|
    ensures TakeWords(b[HEADER + |r.name|..], 7) == Some((Fields(r, flag, buckets), b[BoundsAt(r) + 8..])) <==>
            && HasNumbers(b, HEADER + |r.name|, r)
            && IsWordAt(b, HEADER + |r.name| + 24, flag) && IsWordAt(b, BoundsAt(r), buckets)
  {
    FieldsIff(b, HEADER + |r.name|, Fields(r, flag, buckets), b[BoundsAt(r) + 8..]);
    hide IsWordAt, TakeWords;
  }

  lemma {:induction false} TailIff(b: seq<Byte>, at: nat, buckets: nat, bounds: seq<nat>, mcv: seq<(nat, nat)>, rest: seq<Byte>)
    requires at <= |b|
    ensures var taken := TakeBounds(b[at..], buckets);
            var behind := at + 8 * |bounds|;
            (taken.Some? && taken.value.0 == bounds && TakeMcv(taken.value.1) == Some((mcv, rest))) <==>
            && buckets <= 64 && |bounds| == (if buckets == 0 then 0 else buckets + 1) && WordsStand(b, at, bounds)
            && HasMcv(b, behind, mcv) && behind + 8 + 16 * |mcv| <= |b| && rest == b[behind + 8 + 16 * |mcv|..]
  {
    var taken := TakeBounds(b[at..], buckets);
    if taken.Some? {
      BoundsIff(b, at, buckets, taken.value.0, taken.value.1);
    }
    var behind := at + 8 * |bounds|;
    if behind <= |b| {
      BoundsIff(b, at, buckets, bounds, b[behind..]);
      McvIff(b, behind, mcv, rest);
    }
    hide IsWordAt, WordsStand, HasMcv, TakeWords, TakeBounds, TakeMcv;
  }

  /** The first bytes are the record, and the rest follows them, if and only if the
      reader returns both; so it refuses a count above its limit and whatever is too
      short. */
  lemma {:induction false} DecodeIff(b: seq<Byte>, r: Record, rest: seq<Byte>)
    ensures Decode(b) == Some((r, rest)) <==> IsRecord(b, r) && rest == b[Size(r)..]
  {
    NameIff(b, r.name, if HEADER + |r.name| <= |b| then b[HEADER + |r.name|..] else []);
    if Decode(b) == Some((r, rest)) {
      DecodedIsRecord(b, r, rest);
    }
    if IsRecord(b, r) && rest == b[Size(r)..] {
      var flag: nat :| IsWordAt(b, HEADER + |r.name| + 24, flag) && r.hasRange == flag % 0x1_0000_0000;
      var buckets: nat :| IsWordAt(b, BoundsAt(r), buckets) && IsBounds(b, BoundsAt(r), buckets, r.bounds);
      HeldMeansRead(b, r, rest, flag, buckets);
      hide IsWordAt, IsBounds, HasNumbers, HasMcv, TakeWords, TakeName, TakeBounds, TakeMcv;
    }
  }

  lemma {:induction false} DecodedIsRecord(b: seq<Byte>, r: Record, rest: seq<Byte>)
    requires Decode(b) == Some((r, rest))
    ensures IsRecord(b, r) && rest == b[Size(r)..]
  {
    var name := TakeName(b);
    NameIff(b, name.value.0, name.value.1);
    var fixed := TakeWords(name.value.1, 7);
    FieldsIff(b, HEADER + |r.name|, fixed.value.0, fixed.value.1);
    var flag, buckets := fixed.value.0[3], fixed.value.0[6];
    assert fixed.value.0 == Fields(r, flag, buckets);
    assert ReadsFields(b, r, rest, flag, buckets);
    ReadMeansHeld(b, r, rest, flag, buckets);
  }

  /** So a written record has every field in its bytes. */
  lemma {:induction false} EncodedIsRecord(r: Record)
    requires Fits(r)
    ensures IsRecord(Encode(r), r) && |Encode(r)| == Size(r)
  {
    WholeDecodes(r);
    DecodeIff(Encode(r), r, []);
    assert |Encode(r)[Size(r)..]| == 0;
  }
}
