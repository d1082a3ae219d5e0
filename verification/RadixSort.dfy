/** Least-significant-digit radix sort of 64-bit keys, one byte a pass, with passes
    skipped when the byte is the same in every key. */
module RadixSort {

  type U64 = x: int | 0 <= x < 0x1_0000_0000_0000_0000

  function Pow256(k: nat): (p: nat)
    ensures p > 0
  {
    if k == 0 then 1 else 256 * Pow256(k - 1)
  }

  function Digit(x: U64, pass: nat): (d: nat)
    ensures d < 256
  {
    (x / Pow256(pass)) % 256
  }

  /** What a pass distributes by. */
  function DigitOf(pass: nat): U64 -> nat {
    (x: U64) => Digit(x, pass)
  }

  /** What keys are sorted by once n digits are done. */
  function LowerOf(n: nat): U64 -> nat {
    (x: U64) => x % Pow256(n)
  }

  // ---- One pass as a stable distribution ----

  function Filter(s: seq<U64>, digit: U64 -> nat, d: nat): (f: seq<U64>)
    ensures |f| <= |s|
  {
    if s == [] then []
    else Filter(s[..|s| - 1], digit, d) + if digit(s[|s| - 1]) == d then [s[|s| - 1]] else []
  }

  function Buckets(s: seq<U64>, digit: U64 -> nat, n: nat): seq<U64> {
    if n == 0 then [] else Buckets(s, digit, n - 1) + Filter(s, digit, n - 1)
  }

  /** How many keys have a smaller digit: where the bucket of n starts. */
  function Start(s: seq<U64>, digit: U64 -> nat, n: nat): nat {
    |Buckets(s, digit, n)|
  }

  function Pass(s: seq<U64>, pass: nat): seq<U64> {
    Buckets(s, DigitOf(pass), 256)
  }

  function Passes(s: seq<U64>, n: nat): seq<U64> {
    if n == 0 then s else Pass(Passes(s, n - 1), n - 1)
  }

  // ---- A pass permutes ----

  function FilterBelow(s: seq<U64>, digit: U64 -> nat, n: nat): seq<U64> {
    if s == [] then []
    else FilterBelow(s[..|s| - 1], digit, n) + if digit(s[|s| - 1]) < n then [s[|s| - 1]] else []
  }

  lemma {:induction false} FilterBelowStep(s: seq<U64>, digit: U64 -> nat, n: nat)
    ensures multiset(FilterBelow(s, digit, n + 1)) == multiset(FilterBelow(s, digit, n)) + multiset(Filter(s, digit, n))
  {
    if s != [] {
      FilterBelowStep(s[..|s| - 1], digit, n);
    }
  }

  lemma {:induction false} FilterBelowAll(s: seq<U64>, digit: U64 -> nat, n: nat)
    requires forall x <- s :: digit(x) < n
    ensures FilterBelow(s, digit, n) == s && FilterBelow(s, digit, 0) == []
  {
    if s != [] {
      var init, last := s[..|s| - 1], s[|s| - 1];
      assert last in s && s == init + [last];
      FilterBelowAll(init, digit, n);
    }
  }

  lemma {:induction false} BucketsStep(s: seq<U64>, digit: U64 -> nat, n: nat)
    ensures Buckets(s, digit, n + 1) == Buckets(s, digit, n) + Filter(s, digit, n)
  {
  }

  lemma {:induction false} Combine(a: seq<U64>, b: seq<U64>, c: seq<U64>, d: seq<U64>)
    requires multiset(a) == multiset(c) && multiset(d) == multiset(c) + multiset(b)
    ensures multiset(a + b) == multiset(d)
  {
  }

  lemma {:induction false} BucketsHold(s: seq<U64>, digit: U64 -> nat, n: nat)
    requires FilterBelow(s, digit, 0) == []
    ensures multiset(Buckets(s, digit, n)) == multiset(FilterBelow(s, digit, n))
  {
    if n == 0 {
      assert Buckets(s, digit, 0) == [];
    } else {
      var m := n - 1;
      BucketsHold(s, digit, m);
      FilterBelowStep(s, digit, m);
      Combine(Buckets(s, digit, m), Filter(s, digit, m), FilterBelow(s, digit, m), FilterBelow(s, digit, n));
      BucketsStep(s, digit, m);
    }
  }

  lemma {:induction false} PassPermutes(s: seq<U64>, pass: nat)
    ensures multiset(Pass(s, pass)) == multiset(s) && |Pass(s, pass)| == |s|
  {
    FilterBelowAll(s, DigitOf(pass), 256);
    BucketsHold(s, DigitOf(pass), 256);
    assert |multiset(Pass(s, pass))| == |multiset(s)|;
  }

  // ---- A pass sorts by one more digit ----

  predicate SortedOn(s: seq<U64>, rank: U64 -> nat) {
    forall i, j :: 0 <= i < j < |s| ==> rank(s[i]) <= rank(s[j])
  }

  lemma {:induction false} FilterMembers(s: seq<U64>, digit: U64 -> nat, d: nat)
    ensures forall x <- Filter(s, digit, d) :: x in s && digit(x) == d
  {
    if s != [] {
      FilterMembers(s[..|s| - 1], digit, d);
    }
  }

  lemma {:induction false} FilterSorted(s: seq<U64>, digit: U64 -> nat, d: nat, rank: U64 -> nat)
    requires SortedOn(s, rank)
    ensures SortedOn(Filter(s, digit, d), rank)
  {
    if s != [] {
      var init, last := s[..|s| - 1], s[|s| - 1];
      FilterSorted(init, digit, d, rank);
      FilterMembers(init, digit, d);
      forall x | x in Filter(init, digit, d)
        ensures rank(x) <= rank(last)
      {
        var i :| 0 <= i < |init| && init[i] == x;
        assert s[i] == x;
      }
    }
  }

  predicate DigitsBelow(s: seq<U64>, digit: U64 -> nat, n: nat) {
    forall i :: 0 <= i < |s| ==> digit(s[i]) < n
  }

  lemma {:induction false} ConcatBelow(a: seq<U64>, b: seq<U64>, digit: U64 -> nat, n: nat)
    requires DigitsBelow(a, digit, n) && forall x <- b :: digit(x) == n
    ensures DigitsBelow(a + b, digit, n + 1)
  {
  }

  lemma {:induction false} BucketsMembers(s: seq<U64>, digit: U64 -> nat, n: nat)
    ensures DigitsBelow(Buckets(s, digit, n), digit, n)
  {
    if n > 0 {
      var m := n - 1;
      BucketsMembers(s, digit, m);
      FilterMembers(s, digit, m);
      ConcatBelow(Buckets(s, digit, m), Filter(s, digit, m), digit, m);
      BucketsStep(s, digit, m);
    }
  }

  /** The digit, then the lower digits, decide. */
  ghost predicate Refines(digit: U64 -> nat, low: U64 -> nat, high: U64 -> nat) {
    forall x, y :: digit(x) < digit(y) || (digit(x) == digit(y) && low(x) <= low(y)) ==> high(x) <= high(y)
  }

  lemma {:induction false} ConcatSorted(a: seq<U64>, b: seq<U64>, digit: U64 -> nat, low: U64 -> nat, high: U64 -> nat, n: nat)
    requires SortedOn(a, high) && SortedOn(b, low) && Refines(digit, low, high)
    requires DigitsBelow(a, digit, n) && forall x <- b :: digit(x) == n
    ensures SortedOn(a + b, high)
  {
    var all := a + b;
    forall i, j | 0 <= i < j < |all|
      ensures high(all[i]) <= high(all[j])
    {
      if j >= |a| {
        assert all[j] == b[j - |a|] && b[j - |a|] in b;
        if i >= |a| {
          assert all[i] == b[i - |a|] && b[i - |a|] in b;
        }
      }
    }
  }

  /** A stable distribution sorts by the digit on top of the order it finds. */
  lemma {:induction false} BucketsSorted(s: seq<U64>, digit: U64 -> nat, low: U64 -> nat, high: U64 -> nat, n: nat)
    requires SortedOn(s, low) && Refines(digit, low, high)
    ensures SortedOn(Buckets(s, digit, n), high)
  {
    if n > 0 {
      var m := n - 1;
      BucketsSorted(s, digit, low, high, m);
      BucketsMembers(s, digit, m);
      FilterMembers(s, digit, m);
      FilterSorted(s, digit, m, low);
      ConcatSorted(Buckets(s, digit, m), Filter(s, digit, m), digit, low, high, m);
      BucketsStep(s, digit, m);
    }
  }

  lemma {:induction false} DivModUnique(x: nat, n: nat, q: nat, r: nat)
    requires n > 0 && r < n && x == q * n + r
    ensures x % n == r && x / n == q
  {
    var k := x / n - q;
    assert k * n == r - x % n;
    assert k > 0 ==> k * n >= n;
    assert k < 0 ==> k * n + n <= 0;
  }

  lemma {:induction false} SplitDigit(x: nat, p: nat)
    requires p > 0
    ensures x % (256 * p) == (x / p) % 256 * p + x % p
  {
    var q := x / p;
    var low, rest := q % 256, q / 256;
    Regroup(x, p, q, x % p, rest, low);
    AtMost(low, p, x % p);
    DivModUnique(x, 256 * p, rest, low * p + x % p);
  }

  lemma {:induction false} Regroup(x: nat, p: nat, q: nat, r: nat, rest: nat, low: nat)
    requires x == q * p + r && q == rest * 256 + low
    ensures x == rest * (256 * p) + (low * p + r)
  {
    Distribute(rest * 256, low, p);
    assert rest * 256 * p == rest * (256 * p);
  }

  lemma {:induction false} AtMost(low: nat, p: nat, r: nat)
    requires low < 256 && r < p
    ensures low * p + r < 256 * p
  {
    Distribute(low, 1, p);
    Distribute(255 - low, low + 1, p);
  }

  lemma {:induction false} Distribute(a: nat, b: nat, p: nat)
    ensures (a + b) * p == a * p + b * p
  {
  }

  lemma {:induction false} DigitsRefine(pass: nat)
    ensures Refines(DigitOf(pass), LowerOf(pass), LowerOf(pass + 1))
  {
    var p := Pow256(pass);
    forall x: U64, y: U64 | Digit(x, pass) < Digit(y, pass) || (Digit(x, pass) == Digit(y, pass) && x % p <= y % p)
      ensures LowerOf(pass + 1)(x) <= LowerOf(pass + 1)(y)
    {
      SplitDigit(x, p);
      SplitDigit(y, p);
      LeadingDigit(Digit(x, pass), Digit(y, pass), p, x % p, y % p);
    }
  }

  lemma {:induction false} LeadingDigit(a: nat, b: nat, p: nat, x: nat, y: nat)
    requires x < p && y < p && (a < b || (a == b && x <= y))
    ensures a * p + x <= b * p + y
  {
    if a < b {
      Distribute(a, 1, p);
      Distribute(a + 1, b - a - 1, p);
    }
  }

  lemma {:induction false} PassesSort(s: seq<U64>, n: nat)
    ensures SortedOn(Passes(s, n), LowerOf(n)) && multiset(Passes(s, n)) == multiset(s) && |Passes(s, n)| == |s|
  {
    if n == 0 {
      assert forall x: U64 :: LowerOf(0)(x) == 0;
    } else {
      PassesSort(s, n - 1);
      OnePassMore(Passes(s, n - 1), n - 1);
    }
  }

  lemma {:induction false} OnePassMore(s: seq<U64>, pass: nat)
    requires SortedOn(s, LowerOf(pass))
    ensures SortedOn(Pass(s, pass), LowerOf(pass + 1)) && multiset(Pass(s, pass)) == multiset(s) && |Pass(s, pass)| == |s|
  {
    PassPermutes(s, pass);
    DigitsRefine(pass);
    BucketsSorted(s, DigitOf(pass), LowerOf(pass), LowerOf(pass + 1), 256);
  }

  predicate Sorted(s: seq<U64>) {
    forall i, j :: 0 <= i < j < |s| ==> s[i] <= s[j]
  }

  /** Eight passes leave the sorted permutation. */
  lemma {:induction false} EightPassesSort(s: seq<U64>)
    ensures Sorted(Passes(s, 8)) && multiset(Passes(s, 8)) == multiset(s)
  {
    PassesSort(s, 8);
    var sorted := Passes(s, 8);
    assert Pow256(4) == 0x1_0000_0000;
    assert Pow256(8) == 0x1_0000_0000_0000_0000;
    forall i, j | 0 <= i < j < |sorted|
      ensures sorted[i] <= sorted[j]
    {
      assert LowerOf(8)(sorted[i]) == sorted[i] && LowerOf(8)(sorted[j]) == sorted[j];
    }
  }

  // ---- A pass that can be skipped ----

  lemma {:induction false} FilterAll(s: seq<U64>, digit: U64 -> nat, d: nat)
    requires |Filter(s, digit, d)| == |s|
    ensures Filter(s, digit, d) == s && forall x <- s :: digit(x) == d
  {
    if s != [] {
      FilterAll(s[..|s| - 1], digit, d);
    }
  }

  lemma {:induction false} FilterNone(s: seq<U64>, digit: U64 -> nat, d: nat)
    requires forall x <- s :: digit(x) != d
    ensures Filter(s, digit, d) == []
  {
    if s != [] {
      FilterNone(s[..|s| - 1], digit, d);
    }
  }

  lemma {:induction false} OneBucket(s: seq<U64>, digit: U64 -> nat, d: nat, n: nat)
    requires Filter(s, digit, d) == s && forall x <- s :: digit(x) == d
    ensures n <= d ==> Buckets(s, digit, n) == []
    ensures n > d ==> Buckets(s, digit, n) == s
  {
    if n > 0 {
      var m := n - 1;
      OneBucket(s, digit, d, m);
      BucketsStep(s, digit, m);
      if m != d {
        FilterNone(s, digit, m);
      }
    }
  }

  // ---- The passes on arrays ----

  predicate IsHistogram(h: seq<nat>, s: seq<U64>, digit: U64 -> nat) {
    |h| == 256 && forall d: nat :: d < 256 ==> h[d] == |Filter(s, digit, d)|
  }

  method CountDigits(source: array<U64>, pass: nat) returns (histogram: array<nat>)
    ensures fresh(histogram) && IsHistogram(histogram[..], source[..], DigitOf(pass))
  {
    histogram := new nat[256](_ => 0);
    for i := 0 to source.Length
      invariant IsHistogram(histogram[..], source[..i], DigitOf(pass))
    {
      assert source[..i + 1][..i] == source[..i];
      var d := Digit(source[i], pass);
      histogram[d] := histogram[d] + 1;
    }
    assert source[..source.Length] == source[..];
  }

  /** Bucket starts, advanced by what is already placed of every bucket. */
  predicate AreStarts(h: seq<nat>, s: seq<U64>, digit: U64 -> nat, i: nat)
    requires i <= |s|
  {
    |h| == 256 && forall d: nat :: d < 256 ==> h[d] == Start(s, digit, d) + |Filter(s[..i], digit, d)|
  }

  method PrefixSums(histogram: array<nat>, ghost s: seq<U64>, ghost digit: U64 -> nat)
    requires IsHistogram(histogram[..], s, digit)
    modifies histogram
    ensures AreStarts(histogram[..], s, digit, 0)
  {
    var running := 0;
    for k := 0 to 256
      invariant histogram.Length == 256 && running == Start(s, digit, k)
      invariant forall d: nat :: d < k ==> histogram[d] == Start(s, digit, d)
      invariant forall d: nat :: k <= d < 256 ==> histogram[d] == |Filter(s, digit, d)|
    {
      var digitCount := histogram[k];
      histogram[k] := running;
      running := running + digitCount;
    }
  }

  lemma {:induction false} StartsGrow(s: seq<U64>, digit: U64 -> nat, a: nat, b: nat)
    requires a <= b
    ensures Start(s, digit, a) <= Start(s, digit, b)
  {
    if a < b {
      StartsGrow(s, digit, a, b - 1);
    }
  }

  lemma {:induction false} FilterPrefix(s: seq<U64>, digit: U64 -> nat, d: nat, i: nat)
    requires i <= |s|
    ensures |Filter(s[..i], digit, d)| <= |Filter(s, digit, d)|
  {
    if i < |s| {
      assert s[..|s| - 1][..i] == s[..i];
      FilterPrefix(s[..|s| - 1], digit, d, i);
    } else {
      assert s[..i] == s;
    }
  }

  /** The buckets filled so far. */
  ghost predicate Placed(t: seq<U64>, s: seq<U64>, digit: U64 -> nat, i: nat)
    requires i <= |s| == |t|
  {
    forall d: nat :: d < 256 ==> BucketPlaced(t, s, digit, i, d)
  }

  ghost predicate BucketPlaced(t: seq<U64>, s: seq<U64>, digit: U64 -> nat, i: nat, d: nat)
    requires i <= |s| == |t|
  {
    var start, f := Start(s, digit, d), Filter(s[..i], digit, d);
    start + |f| <= |t| && t[start..start + |f|] == f
  }

  /** A bucket ends where the next one starts, inside n buckets. */
  lemma {:induction false} BucketRange(s: seq<U64>, digit: U64 -> nat, d: nat, i: nat, n: nat)
    requires d < n && i <= |s|
    ensures Start(s, digit, d) + |Filter(s[..i], digit, d)| <= Start(s, digit, n)
  {
    FilterPrefix(s, digit, d, i);
    StartsGrow(s, digit, d + 1, n);
  }

  lemma {:induction false} FilterStep(s: seq<U64>, digit: U64 -> nat, d: nat, i: nat)
    requires i < |s|
    ensures Filter(s[..i + 1], digit, d) == Filter(s[..i], digit, d) + if digit(s[i]) == d then [s[i]] else []
  {
    assert s[..i + 1][..i] == s[..i];
  }

  /** Writing the next key at the end of its bucket leaves the others alone. */
  lemma {:induction false} PlacedStep(t: seq<U64>, s: seq<U64>, digit: U64 -> nat, i: nat, at: nat, n: nat)
    requires i < |s| == |t| && Placed(t, s, digit, i)
    requires digit(s[i]) < n == 256 && Start(s, digit, n) == |s|
    requires at == Start(s, digit, digit(s[i])) + |Filter(s[..i], digit, digit(s[i]))|
    ensures at < |t| && Placed(t[at := s[i]], s, digit, i + 1)
  {
    var own := digit(s[i]);
    FilterStep(s, digit, own, i);
    BucketRange(s, digit, own, i + 1, n);
    var after, next := t[at := s[i]], i + 1;
    forall d: nat | d < 256
      ensures BucketPlaced(after, s, digit, next, d)
    {
      assert BucketPlaced(t, s, digit, i, d);
      if d == own {
        OwnBucket(t, s, digit, i, at);
      } else {
        OtherBucket(t, s, digit, i, at, d);
      }
    }
  }

  lemma {:induction false} OwnBucket(t: seq<U64>, s: seq<U64>, digit: U64 -> nat, i: nat, at: nat)
    requires i < |s| == |t| && at < |t| && BucketPlaced(t, s, digit, i, digit(s[i]))
    requires at == Start(s, digit, digit(s[i])) + |Filter(s[..i], digit, digit(s[i]))|
    ensures BucketPlaced(t[at := s[i]], s, digit, i + 1, digit(s[i]))
  {
    var d := digit(s[i]);
    FilterStep(s, digit, d, i);
    var start, after := Start(s, digit, d), t[at := s[i]];
    assert after[start..at + 1] == t[start..at] + [s[i]];
  }

  /** The place of the next key is outside every other bucket. */
  lemma {:induction false} OutsideOthers(s: seq<U64>, digit: U64 -> nat, i: nat, at: nat, d: nat)
    requires i < |s| && d != digit(s[i])
    requires at == Start(s, digit, digit(s[i])) + |Filter(s[..i], digit, digit(s[i]))|
    ensures at < Start(s, digit, d) || Start(s, digit, d) + |Filter(s[..i], digit, d)| <= at
  {
    if d < digit(s[i]) {
      BucketRange(s, digit, d, i, digit(s[i]));
    } else {
      FilterStep(s, digit, digit(s[i]), i);
      BucketRange(s, digit, digit(s[i]), i + 1, d);
    }
  }

  lemma {:induction false} OtherBucket(t: seq<U64>, s: seq<U64>, digit: U64 -> nat, i: nat, at: nat, d: nat)
    requires i < |s| == |t| && at < |t| && d != digit(s[i]) && BucketPlaced(t, s, digit, i, d)
    requires at == Start(s, digit, digit(s[i])) + |Filter(s[..i], digit, digit(s[i]))|
    ensures BucketPlaced(t[at := s[i]], s, digit, i + 1, d)
  {
    FilterStep(s, digit, d, i);
    OutsideOthers(s, digit, i, at, d);
    var start := Start(s, digit, d);
    var end := start + |Filter(s[..i], digit, d)|;
    assert t[at := s[i]][start..end] == t[start..end];
  }

  lemma {:induction false} PlacedIsBuckets(t: seq<U64>, s: seq<U64>, digit: U64 -> nat, n: nat)
    requires |t| == |s| && n <= 256 && Placed(t, s, digit, |s|)
    ensures Start(s, digit, n) <= |t| && t[..Start(s, digit, n)] == Buckets(s, digit, n)
  {
    if n > 0 {
      PlacedIsBuckets(t, s, digit, n - 1);
      assert BucketPlaced(t, s, digit, |s|, n - 1);
      assert s[..|s|] == s;
      var a, b := Start(s, digit, n - 1), Start(s, digit, n);
      assert t[..b] == t[..a] + t[a..b];
    }
  }

  method Scatter(source: array<U64>, target: array<U64>, histogram: array<nat>, pass: nat)
    requires source.Length == target.Length && source != target && source as object != histogram && target as object != histogram
    requires AreStarts(histogram[..], source[..], DigitOf(pass), 0)
    modifies target, histogram
    ensures target[..] == Pass(source[..], pass)
  {
    hide AreStarts, Placed, Filter, Buckets;
    ghost var s, digit := source[..], DigitOf(pass);
    PassPermutes(s, pass);
    NothingPlaced(target[..], s, digit, 256);
    for i := 0 to source.Length
      invariant source[..] == s && AreStarts(histogram[..], s, digit, i) && Placed(target[..], s, digit, i)
    {
      ghost var t, starts := target[..], histogram[..];
      var d := Digit(source[i], pass);
      NextPlace(starts, s, digit, i);
      var at := histogram[d];
      PlacedStep(t, s, digit, i, at, 256);
      StartsStep(s, digit, i, starts);
      target[at] := source[i];
      histogram[d] := at + 1;
      assert target[..] == t[at := s[i]] && histogram[..] == starts[d := starts[d] + 1];
    }
    PlacedIsBuckets(target[..], s, digit, 256);
  }

  lemma {:induction false} NothingPlaced(t: seq<U64>, s: seq<U64>, digit: U64 -> nat, n: nat)
    requires |t| == |s| == Start(s, digit, n) && n == 256
    ensures Placed(t, s, digit, 0)
  {
    forall d: nat | d < 256
      ensures BucketPlaced(t, s, digit, 0, d)
    {
      BucketRange(s, digit, d, 0, n);
    }
  }

  lemma {:induction false} NextPlace(h: seq<nat>, s: seq<U64>, digit: U64 -> nat, i: nat)
    requires i < |s| && AreStarts(h, s, digit, i) && digit(s[i]) < 256
    ensures |h| == 256 && h[digit(s[i])] == Start(s, digit, digit(s[i])) + |Filter(s[..i], digit, digit(s[i]))|
  {
  }

  lemma {:induction false} StartsStep(s: seq<U64>, digit: U64 -> nat, i: nat, h: seq<nat>)
    requires i < |s| && AreStarts(h, s, digit, i) && digit(s[i]) < 256
    ensures AreStarts(h[digit(s[i]) := h[digit(s[i])] + 1], s, digit, i + 1)
  {
    var d := digit(s[i]);
    forall k: nat | k < 256
      ensures |Filter(s[..i + 1], digit, k)| == |Filter(s[..i], digit, k)| + if k == d then 1 else 0
    {
      FilterStep(s, digit, k, i);
    }
  }

  /** One pass from source to target, or none when it would change nothing. */
  method SortPass(source: array<U64>, target: array<U64>, pass: nat) returns (moved: bool)
    requires source.Length == target.Length > 0 && source != target
    modifies target
    ensures moved ==> target[..] == Pass(source[..], pass)
    ensures !moved ==> source[..] == Pass(source[..], pass)
  {
    var histogram := CountDigits(source, pass);
    var d := Digit(source[0], pass);
    if histogram[d] == source.Length {
      FilterAll(source[..], DigitOf(pass), d);
      OneBucket(source[..], DigitOf(pass), d, 256);
      return false;
    }
    PrefixSums(histogram, source[..], DigitOf(pass));
    Scatter(source, target, histogram, pass);
    moved := true;
  }

  /** Sorts in place, through a second buffer that ends up holding the result after
      an odd number of passes that moved. */
  method RadixSort(keys: array<U64>)
    modifies keys
    ensures Sorted(keys[..]) && multiset(keys[..]) == multiset(old(keys[..]))
  {
    ghost var s := keys[..];
    if keys.Length < 2 {
      return;
    }
    var buffer := new U64[keys.Length](_ => 0);
    var source, target := keys, buffer;
    for pass := 0 to 8
      invariant (source == keys && target == buffer) || (source == buffer && target == keys)
      invariant source[..] == Passes(s, pass)
    {
      var moved := SortPass(source, target, pass);
      if moved {
        source, target := target, source;
      }
    }
    EightPassesSort(s);
    if source != keys {
      CopyTo(source, keys);
    }
    assert keys[..] == Passes(s, 8);
  }

  method CopyTo(source: array<U64>, keys: array<U64>)
    requires source.Length == keys.Length
    modifies keys
    ensures keys[..] == old(source[..])
  {
    forall i | 0 <= i < keys.Length {
      keys[i] := source[i];
    }
  }
}
