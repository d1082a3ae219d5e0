/** Sort keys for 64-bit floats: an unsigned integer that orders like the float and
    gives it back. A float is its bit pattern: sign, biased exponent, fraction. */
module FloatKeys {
  import opened RadixSort

  const SIGN: nat := 0x8000_0000_0000_0000
  const ALL_ONES: nat := 0xFFFF_FFFF_FFFF_FFFF
  const FRACTION: nat := 0x10_0000_0000_0000
  const SPECIAL: nat := 2047

  predicate Negative(bits: U64) {
    bits >= SIGN
  }

  function Magnitude(bits: U64): (m: nat)
    ensures m < SIGN
  {
    if Negative(bits) then bits - SIGN else bits
  }

  function Exponent(bits: U64): nat {
    Magnitude(bits) / FRACTION
  }

  predicate IsNan(bits: U64) {
    Exponent(bits) == SPECIAL && Magnitude(bits) % FRACTION != 0
  }

  /** The size of a number in units of its smallest positive value; infinity is
      above every finite one. */
  function Scaled(m: nat): nat {
    if m / FRACTION == 0 then m % FRACTION else (FRACTION + m % FRACTION) * Pow2(m / FRACTION - 1)
  }

  function Pow2(k: nat): (p: nat)
    ensures p > 0
  {
    if k == 0 then 1 else 2 * Pow2(k - 1)
  }

  /** The number a pattern that is not a NaN stands for. */
  function Value(bits: U64): int {
    if Negative(bits) then -(Scaled(Magnitude(bits)) as int) else Scaled(Magnitude(bits))
  }

  /** The total order: negative before positive, so -0 before +0, and sizes count
      backwards among negative ones. */
  predicate TotalLess(a: U64, b: U64) {
    if Negative(a) && Negative(b) then Magnitude(a) > Magnitude(b)
    else if Negative(a) != Negative(b) then Negative(a)
    else Magnitude(a) < Magnitude(b)
  }

  /** All bits flipped for a negative number, the sign bit set for the others. */
  function SortKey(bits: U64): (key: U64) {
    if Negative(bits) then ALL_ONES - bits else bits + SIGN
  }

  function FromSortKey(key: U64): (bits: U64) {
    if key >= SIGN then key - SIGN else ALL_ONES - key
  }

  lemma {:induction false} KeyRoundTrip(bits: U64)
    ensures FromSortKey(SortKey(bits)) == bits && SortKey(FromSortKey(bits)) == bits
  {
  }

  lemma {:induction false} KeysKeepOrder(a: U64, b: U64)
    ensures SortKey(a) < SortKey(b) <==> TotalLess(a, b)
  {
  }

  lemma {:induction false} ScaledStep(m: nat)
    ensures Scaled(m) < Scaled(m + 1)
  {
    var e, f := m / FRACTION, m % FRACTION;
    assert m == e * FRACTION + f;
    if f + 1 < FRACTION {
      assert (m + 1) / FRACTION == e && (m + 1) % FRACTION == f + 1;
      if e > 0 {
        Larger(FRACTION + f, FRACTION + f + 1, Pow2(e - 1));
      }
    } else {
      assert m + 1 == (e + 1) * FRACTION;
      assert (m + 1) / FRACTION == e + 1 && (m + 1) % FRACTION == 0;
      if e > 0 {
        assert Pow2(e) == 2 * Pow2(e - 1);
        assert FRACTION * Pow2(e) == (2 * FRACTION) * Pow2(e - 1);
        Larger(FRACTION + f, 2 * FRACTION, Pow2(e - 1));
      }
    }
  }

  lemma {:induction false} Larger(a: nat, b: nat, p: nat)
    requires a < b && p > 0
    ensures a * p < b * p
  {
    Distribute(a, b - a, p);
    AtLeast(b - a, p);
  }

  lemma {:induction false} AtLeast(k: nat, p: nat)
    requires k > 0
    ensures k * p >= p
  {
    Distribute(1, k - 1, p);
  }

  /** A larger pattern is a larger size. */
  lemma {:induction false} ScaledGrows(a: nat, b: nat)
    requires a < b
    ensures Scaled(a) < Scaled(b)
  {
    ScaledStep(b - 1);
    if a < b - 1 {
      ScaledGrows(a, b - 1);
    }
  }

  lemma {:induction false} OnlyZeroIsZero(m: nat)
    ensures Scaled(m) == 0 <==> m == 0
  {
    if m > 0 {
      ScaledGrows(0, m);
    }
  }

  /** Smaller numbers have smaller keys; numbers of equal value are the same pattern,
      or the two zeros. */
  lemma {:induction false} KeysKeepValues(a: U64, b: U64)
    ensures Value(a) < Value(b) ==> SortKey(a) < SortKey(b)
    ensures Value(a) == Value(b) ==> a == b || (Magnitude(a) == 0 && Magnitude(b) == 0)
  {
    var m, n := Magnitude(a), Magnitude(b);
    OnlyZeroIsZero(m);
    OnlyZeroIsZero(n);
    if m < n {
      ScaledGrows(m, n);
    } else if n < m {
      ScaledGrows(n, m);
    }
  }

  function KeysOf(values: seq<U64>): (keys: seq<U64>)
    ensures |keys| == |values|
  {
    seq(|values|, i requires 0 <= i < |values| => SortKey(values[i]))
  }

  function ValuesOf(keys: seq<U64>): (values: seq<U64>)
    ensures |values| == |keys|
  {
    seq(|keys|, i requires 0 <= i < |keys| => FromSortKey(keys[i]))
  }

  predicate SortedValues(values: seq<U64>) {
    forall i, j :: 0 <= i < j < |values| ==> !TotalLess(values[j], values[i]) && Value(values[i]) <= Value(values[j])
  }

  lemma {:induction false} ValuesAreSorted(keys: seq<U64>)
    requires Sorted(keys)
    ensures SortedValues(ValuesOf(keys))
  {
    var values := ValuesOf(keys);
    forall i, j | 0 <= i < j < |values|
      ensures !TotalLess(values[j], values[i]) && Value(values[i]) <= Value(values[j])
    {
      KeyRoundTrip(keys[i]);
      KeyRoundTrip(keys[j]);
      KeysKeepOrder(values[j], values[i]);
      KeysKeepValues(values[j], values[i]);
    }
  }

  lemma {:induction false} ValueCount(keys: seq<U64>, x: U64)
    ensures multiset(ValuesOf(keys))[x] == multiset(keys)[SortKey(x)]
  {
    if keys != [] {
      var init, last := keys[..|keys| - 1], keys[|keys| - 1];
      ValueCount(init, x);
      assert keys == init + [last];
      assert ValuesOf(keys) == ValuesOf(init) + [FromSortKey(last)];
      KeyRoundTrip(x);
      KeyRoundTrip(last);
    }
  }

  /** Sorted by the total order, and so by value, and a permutation. */
  lemma {:induction false} SortedKeysGiveValues(values: seq<U64>, keys: seq<U64>)
    requires Sorted(keys) && multiset(keys) == multiset(KeysOf(values))
    ensures SortedValues(ValuesOf(keys)) && multiset(ValuesOf(keys)) == multiset(values)
  {
    ValuesAreSorted(keys);
    assert ValuesOf(KeysOf(values)) == values by {
      forall i | 0 <= i < |values|
        ensures ValuesOf(KeysOf(values))[i] == values[i]
      {
        KeyRoundTrip(values[i]);
      }
    }
    forall x: U64
      ensures multiset(ValuesOf(keys))[x] == multiset(values)[x]
    {
      ValueCount(keys, x);
      ValueCount(KeysOf(values), x);
    }
  }

  /** Sorts floats that are not NaN through their keys. */
  method SortF64(values: array<U64>)
    requires forall i :: 0 <= i < values.Length ==> !IsNan(values[i])
    modifies values
    ensures SortedValues(values[..]) && multiset(values[..]) == multiset(old(values[..]))
  {
    ghost var before := values[..];
    var keys := new U64[values.Length](_ => 0);
    for i := 0 to values.Length
      invariant values[..] == before && keys[..i] == KeysOf(before)[..i]
    {
      keys[i] := SortKey(values[i]);
    }
    assert keys[..] == KeysOf(before);
    RadixSort.RadixSort(keys);
    ghost var sorted := keys[..];
    for i := 0 to values.Length
      invariant keys[..] == sorted && values[..i] == ValuesOf(sorted)[..i]
    {
      values[i] := FromSortKey(keys[i]);
    }
    assert values[..] == ValuesOf(sorted);
    SortedKeysGiveValues(before, sorted);
  }
}
