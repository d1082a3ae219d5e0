/** A file as a sequence of bytes with positioned reads and writes, and 64-bit
    words stored in it in little-endian order. */
module FileBytes {

  type Byte = x: int | 0 <= x < 256

  function Max(a: nat, b: nat): nat {
    if a < b then b else a
  }

  /** Bytes beyond the end read as zero. */
  function ReadAt(f: seq<Byte>, pos: nat, n: nat): (bytes: seq<Byte>)
    ensures |bytes| == n
  {
    seq(n, i requires 0 <= i < n => if pos + i < |f| then f[pos + i] else 0)
  }

  /** A write beyond the end extends the file. */
  function WriteAt(f: seq<Byte>, pos: nat, bytes: seq<Byte>): (written: seq<Byte>)
    ensures |written| == Max(|f|, pos + |bytes|)
  {
    seq(Max(|f|, pos + |bytes|), i requires 0 <= i < Max(|f|, pos + |bytes|) =>
      if pos <= i < pos + |bytes| then bytes[i - pos] else if i < |f| then f[i] else 0)
  }

  function Resize(f: seq<Byte>, size: nat): (resized: seq<Byte>)
    ensures |resized| == size
  {
    ReadAt(f, 0, size)
  }

  lemma {:induction false} ReadWritten(f: seq<Byte>, pos: nat, bytes: seq<Byte>)
    ensures ReadAt(WriteAt(f, pos, bytes), pos, |bytes|) == bytes
  {
  }

  lemma {:induction false} ReadApart(f: seq<Byte>, pos: nat, bytes: seq<Byte>, q: nat, n: nat)
    requires q + n <= pos || pos + |bytes| <= q
    ensures ReadAt(WriteAt(f, pos, bytes), q, n) == ReadAt(f, q, n)
  {
  }

  lemma {:induction false} ReadResized(f: seq<Byte>, size: nat, q: nat, n: nat)
    requires q + n <= size
    ensures ReadAt(Resize(f, size), q, n) == ReadAt(f, q, n)
  {
  }

  lemma {:induction false} ReadPart(f: seq<Byte>, pos: nat, n: nat, a: nat, b: nat)
    requires a <= b <= n
    ensures ReadAt(f, pos, n)[a..b] == ReadAt(f, pos + a, b - a)
  {
  }

  lemma {:induction false} ReadJoined(f: seq<Byte>, pos: nat, n: nat, m: nat)
    ensures ReadAt(f, pos, n + m) == ReadAt(f, pos, n) + ReadAt(f, pos + n, m)
  {
  }

  // ---- Words ----

  const WORD: nat := 8

  function Pow256(k: nat): (p: nat)
    ensures p > 0
  {
    if k == 0 then 1 else 256 * Pow256(k - 1)
  }

  function LittleEndian(n: nat, k: nat): (bytes: seq<Byte>)
    ensures |bytes| == k
  {
    if k == 0 then [] else [n % 256] + LittleEndian(n / 256, k - 1)
  }

  function FromLittleEndian(bytes: seq<Byte>): nat {
    if bytes == [] then 0 else bytes[0] + 256 * FromLittleEndian(bytes[1..])
  }

  lemma {:induction false} LittleEndianRoundTrip(n: nat, k: nat)
    requires n < Pow256(k)
    ensures FromLittleEndian(LittleEndian(n, k)) == n
  {
    if k > 0 {
      LittleEndianRoundTrip(n / 256, k - 1);
    }
  }

  lemma {:induction false} DivideTwice(n: nat, a: nat, b: nat)
    requires a > 0 && b > 0
    ensures a * b > 0 && n / a / b == n / (a * b)
  {
    var m, s := n / a, n % a;
    var q, r := m / b, m % b;
    Regroup(n, a, b, m, s, q, r);
    QuotientIs(n, a * b, q, r * a + s);
  }

  lemma {:induction false} Regroup(n: nat, a: nat, b: nat, m: nat, s: nat, q: nat, r: nat)
    requires n == m * a + s && m == q * b + r && s < a && r < b
    ensures 0 <= r * a + s < a * b && n == q * (a * b) + (r * a + s)
  {
    Distribute(q, b, r, a);
    Below(r, b, a);
    assert b * a == a * b;
  }

  lemma {:induction false} Distribute(q: nat, b: nat, r: nat, a: nat)
    ensures (q * b + r) * a == q * (a * b) + r * a
  {
  }

  lemma {:induction false} Below(r: nat, b: nat, a: nat)
    requires r < b
    ensures r * a + a <= b * a
    decreases b
  {
    assert b * a == (b - 1) * a + a;
    if r < b - 1 {
      Below(r, b - 1, a);
    }
  }

  lemma {:induction false} QuotientIs(n: nat, d: nat, q: nat, r: nat)
    requires d > 0 && n == q * d + r && r < d
    ensures n / d == q
  {
    var p, s := n / d, n % d;
    assert n == p * d + s;
    if q < p {
      Below(q, p, d);
    } else if p < q {
      Below(p, q, d);
    }
  }

  /** Byte i counts the multiples of 256 to the i. */
  lemma {:induction false} LittleEndianAt(n: nat, k: nat, i: nat)
    requires i < k
    ensures LittleEndian(n, k)[i] == n / Pow256(i) % 256
  {
    if i > 0 {
      LittleEndianAt(n / 256, k - 1, i - 1);
      DivideTwice(n, 256, Pow256(i - 1));
    }
  }

  lemma {:induction false} BytesRoundTrip(bytes: seq<Byte>)
    ensures FromLittleEndian(bytes) < Pow256(|bytes|)
    ensures LittleEndian(FromLittleEndian(bytes), |bytes|) == bytes
  {
    if bytes != [] {
      BytesRoundTrip(bytes[1..]);
    }
  }

  predicate IsU64(n: nat) {
    n < 0x1_0000_0000_0000_0000
  }

  function Word(n: nat): (bytes: seq<Byte>)
    ensures |bytes| == WORD
  {
    LittleEndian(n, WORD)
  }

  lemma {:induction false} WordRoundTrip(n: nat)
    requires IsU64(n)
    ensures FromLittleEndian(Word(n)) == n
  {
    assert Pow256(4) == 0x1_0000_0000;
    assert Pow256(8) == 0x1_0000_0000_0000_0000;
    LittleEndianRoundTrip(n, WORD);
  }

  /** The eight bytes at a position stand for the number, the lowest byte first. */
  predicate IsWordAt(b: seq<Byte>, at: nat, n: nat) {
    IsU64(n) && at + 8 <= |b| && forall i: nat :: i < 8 ==> b[at + i] == n / Pow256(i) % 256
  }

  lemma {:induction false} WordAtIff(b: seq<Byte>, at: nat, n: nat)
    ensures IsWordAt(b, at, n) <==> at + WORD <= |b| && FromLittleEndian(b[at..at + WORD]) == n
  {
    if at + WORD <= |b| {
      var bytes := b[at..at + WORD];
      BytesRoundTrip(bytes);
      assert Pow256(4) == 0x1_0000_0000;
      assert Pow256(8) == 0x1_0000_0000_0000_0000;
      hide FromLittleEndian, LittleEndian;
      forall i: nat | i < 8
        ensures LittleEndian(n, 8)[i] == n / Pow256(i) % 256 && bytes[i] == b[at + i]
      {
        LittleEndianAt(n, 8, i);
      }
      if IsWordAt(b, at, n) {
        assert LittleEndian(n, 8) == bytes;
        LittleEndianRoundTrip(n, 8);
      }
    }
  }

  function Words(ns: seq<nat>): (bytes: seq<Byte>)
    ensures |bytes| == WORD * |ns|
  {
    if ns == [] then [] else Words(ns[..|ns| - 1]) + Word(ns[|ns| - 1])
  }

  lemma {:induction false} WordsJoined(a: seq<nat>, b: seq<nat>)
    ensures Words(a + b) == Words(a) + Words(b)
  {
    if b == [] {
      assert a + b == a;
    } else {
      var init, last := b[..|b| - 1], b[|b| - 1];
      WordsJoined(a, init);
      OneWordMore(init, last);
      OneWordMore(a + init, last);
      assert b == init + [last] && a + b == (a + init) + [last];
      BytesAssociate(Words(a), Words(init), Word(last));
    }
  }

  lemma {:induction false} BytesAssociate(a: seq<Byte>, b: seq<Byte>, c: seq<Byte>)
    ensures (a + b) + c == a + (b + c)
  {
  }

  lemma {:induction false} OneWordMore(ns: seq<nat>, n: nat)
    ensures Words(ns + [n]) == Words(ns) + Word(n)
  {
    assert (ns + [n])[..|ns|] == ns;
  }

  lemma {:induction false} WordAt(ns: seq<nat>, i: nat)
    requires i < |ns|
    ensures Words(ns)[WORD * i..WORD * i + WORD] == Word(ns[i])
  {
    var init := ns[..|ns| - 1];
    if i < |ns| - 1 {
      WordAt(init, i);
      assert Words(ns)[WORD * i..WORD * i + WORD] == Words(init)[WORD * i..WORD * i + WORD];
    }
  }

  method ReadWord(f: seq<Byte>, pos: nat, ghost n: nat) returns (value: nat)
    requires IsU64(n) && ReadAt(f, pos, WORD) == Word(n)
    ensures value == n
  {
    value := FromLittleEndian(ReadAt(f, pos, WORD));
    WordRoundTrip(n);
  }

  /** Words stored in a row read back one by one. */
  lemma {:induction false} StoredWord(f: seq<Byte>, pos: nat, ns: seq<nat>, i: nat)
    requires i < |ns| && ReadAt(f, pos, WORD * |ns|) == Words(ns)
    ensures ReadAt(f, pos + WORD * i, WORD) == Word(ns[i])
  {
    WordAt(ns, i);
    ReadPart(f, pos, WORD * |ns|, WORD * i, WORD * i + WORD);
  }
}
