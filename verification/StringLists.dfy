/** A list of strings laid out as one run of bytes and the end of every string. */
module StringLists {
  import opened FileBytes

  type Text = seq<Byte>

  function Flat(xs: seq<Text>): Text {
    if xs == [] then [] else Flat(xs[..|xs| - 1]) + xs[|xs| - 1]
  }

  function Total(xs: seq<Text>): nat {
    |Flat(xs)|
  }

  /** The end position of the k-th string, and where it starts. */
  function EndOf(xs: seq<Text>, k: nat): nat
    requires k < |xs|
  {
    Total(xs[..k + 1])
  }

  function StartOf(xs: seq<Text>, k: nat): nat
    requires k <= |xs|
  {
    Total(xs[..k])
  }

  function Ends(xs: seq<Text>): (ends: seq<nat>)
    ensures |ends| == |xs|
  {
    seq(|xs|, k requires 0 <= k < |xs| => EndOf(xs, k))
  }

  lemma {:induction false} FlatJoined(a: seq<Text>, b: seq<Text>)
    ensures Flat(a + b) == Flat(a) + Flat(b)
  {
    if b == [] {
      assert a + b == a;
    } else {
      FlatJoined(a, b[..|b| - 1]);
      assert (a + b)[..|a + b| - 1] == a + b[..|b| - 1];
    }
  }

  lemma {:induction false} FlatPushed(xs: seq<Text>, x: Text)
    ensures Flat(xs + [x]) == Flat(xs) + x && Total(xs + [x]) == Total(xs) + |x|
  {
    assert (xs + [x])[..|xs|] == xs;
  }

  lemma {:induction false} EndsPushed(xs: seq<Text>, x: Text)
    ensures Ends(xs + [x]) == Ends(xs) + [Total(xs) + |x|]
  {
    FlatPushed(xs, x);
    forall k | 0 <= k <= |xs|
      ensures Ends(xs + [x])[k] == (Ends(xs) + [Total(xs) + |x|])[k]
    {
      if k < |xs| {
        assert (xs + [x])[..k + 1] == xs[..k + 1];
      } else {
        assert (xs + [x])[..k + 1] == xs + [x];
      }
    }
  }

  lemma {:induction false} EndsPrefix(xs: seq<Text>, n: nat)
    requires n <= |xs|
    ensures Ends(xs)[..n] == Ends(xs[..n])
  {
    forall k | 0 <= k < n
      ensures Ends(xs)[k] == Ends(xs[..n])[k]
    {
      assert xs[..n][..k + 1] == xs[..k + 1];
    }
  }

  /** The k-th string is the bytes between the end before it and its own end. */
  lemma {:induction false} StringBetweenEnds(xs: seq<Text>, k: nat)
    requires k < |xs|
    ensures StartOf(xs, k) <= EndOf(xs, k) <= Total(xs)
    ensures EndOf(xs, k) == StartOf(xs, k) + |xs[k]|
    ensures Flat(xs)[StartOf(xs, k)..EndOf(xs, k)] == xs[k]
  {
    var before, upTo, rest := xs[..k], xs[..k + 1], xs[k + 1..];
    assert upTo == before + [xs[k]];
    FlatPushed(before, xs[k]);
    assert xs == upTo + rest;
    FlatJoined(upTo, rest);
  }

  lemma {:induction false} EndsAreStarts(xs: seq<Text>, k: nat)
    requires 0 < k <= |xs|
    ensures Ends(xs)[k - 1] == StartOf(xs, k)
    ensures StartOf(xs, 0) == 0 && StartOf(xs, |xs|) == Total(xs)
  {
    assert xs[..|xs|] == xs;
  }

  lemma {:induction false} LaterEnd(xs: seq<Text>, k: nat, i: nat)
    requires k <= i < |xs|
    ensures |xs[k]| <= EndOf(xs, k) <= EndOf(xs, i)
  {
    StringBetweenEnds(xs, k);
    assert xs[..i + 1] == xs[..k + 1] + xs[k + 1..i + 1];
    FlatJoined(xs[..k + 1], xs[k + 1..i + 1]);
  }

  // ---- Removing one string ----

  function Without(xs: seq<Text>, k: nat): (rest: seq<Text>)
    requires k < |xs|
    ensures |rest| == |xs| - 1
  {
    xs[..k] + xs[k + 1..]
  }

  /** Closing the gap of string k in the bytes and shifting the ends down. */
  lemma {:induction false} FlatWithout(xs: seq<Text>, k: nat)
    requires k < |xs|
    ensures StartOf(xs, k) <= EndOf(xs, k) <= Total(xs)
    ensures Flat(Without(xs, k)) == Flat(xs)[..StartOf(xs, k)] + Flat(xs)[EndOf(xs, k)..]
    ensures Total(Without(xs, k)) == Total(xs) - |xs[k]|
  {
    StringBetweenEnds(xs, k);
    assert xs == xs[..k] + xs[k..] && xs == xs[..k + 1] + xs[k + 1..];
    FlatJoined(xs[..k], xs[k..]);
    FlatJoined(xs[..k + 1], xs[k + 1..]);
    FlatJoined(xs[..k], xs[k + 1..]);
  }

  lemma {:induction false} EndsWithout(xs: seq<Text>, k: nat, i: nat)
    requires k < |xs| && i < |xs| - 1
    ensures Ends(Without(xs, k))[i] == if i < k then Ends(xs)[i] else Ends(xs)[i + 1] - |xs[k]|
  {
    var rest := Without(xs, k);
    if i < k {
      assert rest[..i + 1] == xs[..i + 1];
    } else {
      assert rest[..i + 1] == Without(xs[..i + 2], k);
      FlatWithout(xs[..i + 2], k);
    }
  }
}
