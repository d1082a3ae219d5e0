/** The binary record of a column's statistics: written field by field, read back
    with every length checked against what is left. */
module StatsRecord {
  import opened FileBytes

  datatype Option<+T> = None | Some(value: T)

  const HISTOGRAM_BUCKETS: nat := 64
  const MCV_COUNT: nat := 8
  const B32_RANGE: nat := 0x1_0000_0000

  /** Floats are kept as their bit patterns. The bounds are empty or one more than
      the buckets. */
  datatype Record = Record(
    name: seq<Byte>,
    rowCount: nat,
    nullCount: nat,
    distinctCount: nat,
    hasRange: nat,
    minValue: nat,
    maxValue: nat,
    bounds: seq<nat>,
    mcv: seq<(nat, nat)>)

  function BucketCount(r: Record): nat {
    if r.bounds == [] then 0 else |r.bounds| - 1
  }

  function Flattened(mcv: seq<(nat, nat)>): (words: seq<nat>)
    ensures |words| == 2 * |mcv|
  {
    if mcv == [] then [] else Flattened(mcv[..|mcv| - 1]) + [mcv[|mcv| - 1].0, mcv[|mcv| - 1].1]
  }

  function Paired(words: seq<nat>): (mcv: seq<(nat, nat)>)
    requires |words| % 2 == 0
    ensures 2 * |mcv| == |words|
  {
    if words == [] then [] else Paired(words[..|words| - 2]) + [(words[|words| - 2], words[|words| - 1])]
  }

  lemma {:induction false} PairedFlattened(mcv: seq<(nat, nat)>)
    ensures Paired(Flattened(mcv)) == mcv
  {
    if mcv != [] {
      var init, last := mcv[..|mcv| - 1], mcv[|mcv| - 1];
      PairedFlattened(init);
      OneMorePair(Flattened(init), last.0, last.1);
      assert mcv == init + [last];
    }
  }

  lemma {:induction false} OneMorePair(words: seq<nat>, a: nat, b: nat)
    requires |words| % 2 == 0
    ensures Paired(words + [a, b]) == Paired(words) + [(a, b)]
  {
    assert (words + [a, b])[..|words|] == words;
  }

  /** Everything behind the name is words. */
  function FixedWords(r: Record): (words: seq<nat>)
    ensures |words| == 7
  {
    [r.rowCount, r.nullCount, r.distinctCount, r.hasRange, r.minValue, r.maxValue, BucketCount(r)]
  }

  predicate AllU64(words: seq<nat>) {
    forall i :: 0 <= i < |words| ==> IsU64(words[i])
  }

  predicate Fits(r: Record) {
    && IsU64(|r.name|) && AllU64(FixedWords(r)) && r.hasRange < B32_RANGE
    && |r.bounds| != 1 && |r.bounds| <= HISTOGRAM_BUCKETS + 1 && AllU64(r.bounds)
    && |r.mcv| <= MCV_COUNT && AllU64(Flattened(r.mcv))
  }

  function Encode(r: Record): seq<Byte> {
    Word(|r.name|) + r.name + Words(FixedWords(r)) + Words(r.bounds) + Word(|r.mcv|) + Words(Flattened(r.mcv))
  }

  function RecordSize(r: Record): nat {
    var size := WORD + |r.name|;
    var fixed := size + WORD * 3 + (WORD + WORD * 2) + WORD;
    var bounds := if BucketCount(r) > 0 then fixed + (BucketCount(r) + 1) * WORD else fixed;
    bounds + WORD + |r.mcv| * (WORD + WORD)
  }

  /** The writer fills exactly the size computed before. */
  lemma {:induction false} SizeIsExact(r: Record)
    requires Fits(r)
    ensures |Encode(r)| == RecordSize(r)
  {
  }

  // ---- Reading ----

  function WordsAt(b: seq<Byte>, n: nat): (words: seq<nat>)
    requires WORD * n <= |b|
    ensures |words| == n
  {
    if n == 0 then [] else WordsAt(b, n - 1) + [FromLittleEndian(b[WORD * (n - 1)..WORD * n])]
  }

  /** n words, and what follows; none when there are not enough bytes. */
  function TakeWords(b: seq<Byte>, n: nat): (taken: Option<(seq<nat>, seq<Byte>)>)
    ensures taken.Some? ==> |taken.value.0| == n && |taken.value.1| == |b| - WORD * n
  {
    if WORD * n > |b| then None else Some((WordsAt(b, n), b[WORD * n..]))
  }

  function TakeName(b: seq<Byte>): Option<(seq<Byte>, seq<Byte>)> {
    var size := TakeWords(b, 1);
    if size.None? then None
    else
      var (words, rest) := size.value;
      if words[0] > |rest| then None else Some((rest[..words[0]], rest[words[0]..]))
  }

  function TakeBounds(b: seq<Byte>, bucketCount: nat): Option<(seq<nat>, seq<Byte>)> {
    if bucketCount > HISTOGRAM_BUCKETS then None
    else if bucketCount > 0 then TakeWords(b, bucketCount + 1)
    else Some(([], b))
  }

  function TakeMcv(b: seq<Byte>): Option<(seq<(nat, nat)>, seq<Byte>)> {
    var count := TakeWords(b, 1);
    if count.None? then None
    else
      var (words, rest) := count.value;
      if words[0] > MCV_COUNT then None
      else
        var entries := TakeWords(rest, 2 * words[0]);
        if entries.None? then None else Some((Paired(entries.value.0), entries.value.1))
  }

  function Assembled(name: seq<Byte>, fixed: seq<nat>, bounds: seq<nat>, mcv: seq<(nat, nat)>): Record
    requires |fixed| == 7
  {
    Record(name, fixed[0], fixed[1], fixed[2], fixed[3] % B32_RANGE, fixed[4], fixed[5], bounds, mcv)
  }

  /** The record at the front, and what follows it. */
  function Decode(b: seq<Byte>): Option<(Record, seq<Byte>)> {
    var name := TakeName(b);
    if name.None? then None
    else
      var fixed := TakeWords(name.value.1, 7);
      if fixed.None? then None
      else
        var bounds := TakeBounds(fixed.value.1, fixed.value.0[6]);
        if bounds.None? then None
        else
          var mcv := TakeMcv(bounds.value.1);
          if mcv.None? then None
          else Some((Assembled(name.value.0, fixed.value.0, bounds.value.0, mcv.value.0), mcv.value.1))
  }

  // ---- What was written is read back ----

  lemma {:induction false} WordsAtPrefix(b: seq<Byte>, more: seq<Byte>, n: nat)
    requires WORD * n <= |b|
    ensures WordsAt(b + more, n) == WordsAt(b, n)
  {
    if n > 0 {
      WordsAtPrefix(b, more, n - 1);
      assert (b + more)[WORD * (n - 1)..WORD * n] == b[WORD * (n - 1)..WORD * n];
    }
  }

  lemma {:induction false} WordsAtWords(words: seq<nat>)
    requires AllU64(words)
    ensures WordsAt(Words(words), |words|) == words
  {
    if words != [] {
      hide Word, FromLittleEndian;
      var init, last := words[..|words| - 1], words[|words| - 1];
      WordsAtWords(init);
      WordRoundTrip(last);
      OneMoreWord(Words(init), Word(last), |init|);
      assert words == init + [last];
    }
  }

  lemma {:induction false} OneMoreWord(b: seq<Byte>, word: seq<Byte>, n: nat)
    requires |b| == WORD * n && |word| == WORD
    ensures WordsAt(b + word, n + 1) == WordsAt(b, n) + [FromLittleEndian(word)]
  {
    WordsAtPrefix(b, word, n);
    assert (b + word)[WORD * n..WORD * (n + 1)] == word;
  }

  lemma {:induction false} WordsTaken(words: seq<nat>, rest: seq<Byte>)
    requires AllU64(words)
    ensures TakeWords(Words(words) + rest, |words|) == Some((words, rest))
  {
    WordsAtWords(words);
    WordsAtPrefix(Words(words), rest, |words|);
    assert (Words(words) + rest)[WORD * |words|..] == rest;
  }

  lemma {:induction false} OneWord(n: nat)
    ensures Words([n]) == Word(n)
  {
    assert Words([n][..0]) == [];
  }

  lemma {:induction false} NameTaken(name: seq<Byte>, rest: seq<Byte>)
    requires IsU64(|name|)
    ensures TakeName(Word(|name|) + name + rest) == Some((name, rest))
  {
    OneWord(|name|);
    WordsTaken([|name|], name + rest);
    assert Word(|name|) + name + rest == Words([|name|]) + (name + rest);
    assert (name + rest)[..|name|] == name && (name + rest)[|name|..] == rest;
  }

  lemma {:induction false} McvTaken(mcv: seq<(nat, nat)>, rest: seq<Byte>)
    requires |mcv| <= MCV_COUNT && AllU64(Flattened(mcv))
    ensures TakeMcv(Word(|mcv|) + Words(Flattened(mcv)) + rest) == Some((mcv, rest))
  {
    OneWord(|mcv|);
    WordsTaken([|mcv|], Words(Flattened(mcv)) + rest);
    assert Word(|mcv|) + Words(Flattened(mcv)) + rest == Words([|mcv|]) + (Words(Flattened(mcv)) + rest);
    WordsTaken(Flattened(mcv), rest);
    PairedFlattened(mcv);
  }

  lemma {:induction false} BoundsTaken(r: Record, rest: seq<Byte>)
    requires Fits(r)
    ensures TakeBounds(Words(r.bounds) + rest, BucketCount(r)) == Some((r.bounds, rest))
  {
    if r.bounds == [] {
      assert Words(r.bounds) + rest == rest;
    } else {
      WordsTaken(r.bounds, rest);
    }
  }

  function McvPart(r: Record, rest: seq<Byte>): seq<Byte> {
    Word(|r.mcv|) + Words(Flattened(r.mcv)) + rest
  }

  function BoundsPart(r: Record, rest: seq<Byte>): seq<Byte> {
    Words(r.bounds) + McvPart(r, rest)
  }

  function FixedPart(r: Record, rest: seq<Byte>): seq<Byte> {
    Words(FixedWords(r)) + BoundsPart(r, rest)
  }

  lemma {:induction false} EncodedParts(r: Record, rest: seq<Byte>)
    ensures Encode(r) + rest == Word(|r.name|) + r.name + FixedPart(r, rest)
  {
    Associate(Word(|r.name|) + r.name, Words(FixedWords(r)), Words(r.bounds), Word(|r.mcv|), Words(Flattened(r.mcv)), rest);
  }

  lemma {:induction false} Associate(a: seq<Byte>, b: seq<Byte>, c: seq<Byte>, d: seq<Byte>, e: seq<Byte>, f: seq<Byte>)
    ensures a + b + c + d + e + f == a + (b + (c + (d + e + f)))
  {
  }

  /** A written record is read back exactly, whatever follows it. */
  lemma {:induction false} RecordRoundTrip(r: Record, rest: seq<Byte>)
    requires Fits(r)
    ensures Decode(Encode(r) + rest) == Some((r, rest))
  {
    EncodedParts(r, rest);
    NameTaken(r.name, FixedPart(r, rest));
    WordsTaken(FixedWords(r), BoundsPart(r, rest));
    BoundsTaken(r, McvPart(r, rest));
    McvTaken(r.mcv, rest);
    AssembledIs(r);
  }

  lemma {:induction false} AssembledIs(r: Record)
    requires Fits(r)
    ensures Assembled(r.name, FixedWords(r), r.bounds, r.mcv) == r
  {
  }

  type Encoder = Record -> seq<Byte>
  type Decoder = seq<Byte> -> Option<(Record, seq<Byte>)>

  function EncodeAll(encode: Encoder, rs: seq<Record>): seq<Byte> {
    if rs == [] then [] else encode(rs[0]) + EncodeAll(encode, rs[1..])
  }

  /** n records, one behind the other. */
  function DecodeAll(decode: Decoder, b: seq<Byte>, n: nat): Option<(seq<Record>, seq<Byte>)>
    decreases n
  {
    if n == 0 then Some(([], b))
    else
      var first := decode(b);
      if first.None? then None
      else
        var others := DecodeAll(decode, first.value.1, n - 1);
        if others.None? then None else Some(([first.value.0] + others.value.0, others.value.1))
  }

  lemma {:induction false} ConcatenationRoundTrip(encode: Encoder, decode: Decoder, rs: seq<Record>, rest: seq<Byte>)
    requires forall i, more :: 0 <= i < |rs| ==> decode(encode(rs[i]) + more) == Some((rs[i], more))
    ensures DecodeAll(decode, EncodeAll(encode, rs) + rest, |rs|) == Some((rs, rest))
  {
    if rs == [] {
      assert EncodeAll(encode, rs) + rest == rest;
    } else {
      var first, others := encode(rs[0]), EncodeAll(encode, rs[1..]);
      ConcatenationRoundTrip(encode, decode, rs[1..], rest);
      assert (first + others) + rest == first + (others + rest);
      OneMoreDecoded(decode, first + (others + rest), rs[0], others + rest, rs[1..], rest);
      assert rs == [rs[0]] + rs[1..];
    }
  }

  lemma {:induction false} OneMoreDecoded(decode: Decoder, b: seq<Byte>, r: Record, behind: seq<Byte>, rs: seq<Record>, rest: seq<Byte>)
    requires decode(b) == Some((r, behind)) && DecodeAll(decode, behind, |rs|) == Some((rs, rest))
    ensures DecodeAll(decode, b, |rs| + 1) == Some(([r] + rs, rest))
  {
  }

  /** Concatenated records decode back to all of them. */
  lemma {:induction false} RecordsRoundTrip(rs: seq<Record>, rest: seq<Byte>)
    requires forall i :: 0 <= i < |rs| ==> Fits(rs[i])
    ensures DecodeAll(Decode, EncodeAll(Encode, rs) + rest, |rs|) == Some((rs, rest))
  {
    forall i, more | 0 <= i < |rs|
      ensures Decode(Encode(rs[i]) + more) == Some((rs[i], more))
    {
      RecordRoundTrip(rs[i], more);
    }
    ConcatenationRoundTrip(Encode, Decode, rs, rest);
  }

  // ---- A truncated record is refused ----

  lemma {:induction false} WordsExtend(b: seq<Byte>, more: seq<Byte>, n: nat)
    requires TakeWords(b, n).Some?
    ensures TakeWords(b + more, n) == Some((TakeWords(b, n).value.0, TakeWords(b, n).value.1 + more))
  {
    WordsAtPrefix(b, more, n);
    assert (b + more)[WORD * n..] == b[WORD * n..] + more;
  }

  lemma {:induction false} NameExtends(b: seq<Byte>, more: seq<Byte>)
    requires TakeName(b).Some?
    ensures TakeName(b + more) == Some((TakeName(b).value.0, TakeName(b).value.1 + more))
  {
    WordsExtend(b, more, 1);
    var (words, rest) := TakeWords(b, 1).value;
    assert (rest + more)[..words[0]] == rest[..words[0]];
    assert (rest + more)[words[0]..] == rest[words[0]..] + more;
  }

  lemma {:induction false} BoundsExtend(b: seq<Byte>, more: seq<Byte>, bucketCount: nat)
    requires TakeBounds(b, bucketCount).Some?
    ensures TakeBounds(b + more, bucketCount) == Some((TakeBounds(b, bucketCount).value.0, TakeBounds(b, bucketCount).value.1 + more))
  {
    if bucketCount > 0 {
      WordsExtend(b, more, bucketCount + 1);
    }
  }

  lemma {:induction false} McvExtends(b: seq<Byte>, more: seq<Byte>)
    requires TakeMcv(b).Some?
    ensures TakeMcv(b + more) == Some((TakeMcv(b).value.0, TakeMcv(b).value.1 + more))
  {
    WordsExtend(b, more, 1);
    var (words, rest) := TakeWords(b, 1).value;
    WordsExtend(rest, more, 2 * words[0]);
  }

  /** More bytes behind a record that is complete do not change it. */
  lemma {:induction false} DecodeExtends(b: seq<Byte>, more: seq<Byte>)
    requires Decode(b).Some?
    ensures Decode(b + more) == Some((Decode(b).value.0, Decode(b).value.1 + more))
  {
    NameExtends(b, more);
    var (_, afterName) := TakeName(b).value;
    WordsExtend(afterName, more, 7);
    var (fixed, afterFixed) := TakeWords(afterName, 7).value;
    BoundsExtend(afterFixed, more, fixed[6]);
    McvExtends(TakeBounds(afterFixed, fixed[6]).value.1, more);
  }

  lemma {:induction false} PrefixRefused(decode: Decoder, r: Record, whole: seq<Byte>, n: nat)
    requires n < |whole| && decode(whole) == Some((r, []))
    requires decode(whole[..n]).Some? ==>
               decode(whole[..n] + whole[n..]) == Some((decode(whole[..n]).value.0, decode(whole[..n]).value.1 + whole[n..]))
    ensures decode(whole[..n]).None?
  {
    assert whole[..n] + whole[n..] == whole;
  }

  /** Every strict prefix of a record is refused. */
  lemma {:induction false} TruncatedIsRefused(r: Record, n: nat)
    requires Fits(r) && n < |Encode(r)|
    ensures Decode(Encode(r)[..n]).None?
  {
    var whole := Encode(r);
    WholeDecodes(r);
    if Decode(whole[..n]).Some? {
      DecodeExtends(whole[..n], whole[n..]);
    }
    PrefixRefused(Decode, r, whole, n);
  }

  lemma {:induction false} WholeDecodes(r: Record)
    requires Fits(r)
    ensures Decode(Encode(r)) == Some((r, []))
  {
    RecordRoundTrip(r, []);
    assert Encode(r) + [] == Encode(r);
  }

  // ---- The writer ----

  /** From start to at, the buffer holds the bytes; the rest is as before. */
  predicate Wrote(out: seq<Byte>, before: seq<Byte>, start: nat, bytes: seq<Byte>) {
    && start + |bytes| <= |out| == |before|
    && out == before[..start] + bytes + before[start + |bytes|..]
  }

  method PutBytes(out: array<Byte>, at: nat, more: seq<Byte>, ghost before: seq<Byte>, ghost start: nat, ghost bytes: seq<Byte>) returns (next: nat)
    requires Wrote(out[..], before, start, bytes) && at == start + |bytes| && at + |more| <= out.Length
    modifies out
    ensures next == at + |more| && Wrote(out[..], before, start, bytes + more)
  {
    forall i | 0 <= i < |more| {
      out[at + i] := more[i];
    }
    next := at + |more|;
  }

  method PutWords(out: array<Byte>, at: nat, words: seq<nat>, ghost before: seq<Byte>, ghost start: nat, ghost bytes: seq<Byte>) returns (next: nat)
    requires Wrote(out[..], before, start, bytes) && at == start + |bytes| && at + WORD * |words| <= out.Length
    modifies out
    ensures next == at + WORD * |words| && Wrote(out[..], before, start, bytes + Words(words))
  {
    next := at;
    assert bytes + Words(words[..0]) == bytes;
    for i := 0 to |words|
      invariant next == at + WORD * i && Wrote(out[..], before, start, bytes + Words(words[..i]))
    {
      next := PutBytes(out, next, Word(words[i]), before, start, bytes + Words(words[..i]));
      assert words[..i + 1][..i] == words[..i];
      assert bytes + Words(words[..i]) + Word(words[i]) == bytes + Words(words[..i + 1]);
    }
    assert words[..|words|] == words;
  }

  method WriteRecord(out: array<Byte>, start: nat, r: Record) returns (next: nat)
    requires Fits(r) && start + RecordSize(r) <= out.Length
    modifies out
    ensures next == start + RecordSize(r)
    ensures out[..] == old(out[..start]) + Encode(r) + old(out[next..])
  {
    ghost var before := out[..];
    SizeIsExact(r);
    next := PutName(out, start, r.name);
    next := PutFields(out, next, r, before, start, Word(|r.name|) + r.name);
    assert before[next..] == old(out[next..]);
  }

  method PutFields(out: array<Byte>, at: nat, r: Record, ghost before: seq<Byte>, ghost start: nat, ghost name: seq<Byte>) returns (next: nat)
    requires Wrote(out[..], before, start, name) && at == start + |name|
    requires at + WORD * 7 + WORD * |r.bounds| + WORD + WORD * (2 * |r.mcv|) <= out.Length
    modifies out
    ensures next == at + WORD * 7 + WORD * |r.bounds| + WORD + WORD * (2 * |r.mcv|)
    ensures Wrote(out[..], before, start,
                  name + Words(FixedWords(r)) + Words(r.bounds) + Word(|r.mcv|) + Words(Flattened(r.mcv)))
  {
    var fixed := FixedWords(r);
    next := PutWords(out, at, fixed, before, start, name);
    next := PutWords(out, next, r.bounds, before, start, name + Words(fixed));
    next := PutMcv(out, next, r.mcv, before, start, name + Words(fixed) + Words(r.bounds));
  }

  method PutName(out: array<Byte>, start: nat, name: seq<Byte>) returns (next: nat)
    requires start + WORD + |name| <= out.Length
    modifies out
    ensures next == start + WORD + |name| && Wrote(out[..], old(out[..]), start, Word(|name|) + name)
  {
    ghost var before := out[..];
    assert before == before[..start] + [] + before[start..];
    next := PutBytes(out, start, Word(|name|), before, start, []);
    assert [] + Word(|name|) == Word(|name|);
    next := PutBytes(out, next, name, before, start, Word(|name|));
  }

  method PutMcv(out: array<Byte>, at: nat, mcv: seq<(nat, nat)>, ghost before: seq<Byte>, ghost start: nat, ghost bytes: seq<Byte>) returns (next: nat)
    requires Wrote(out[..], before, start, bytes) && at == start + |bytes| && at + WORD + WORD * (2 * |mcv|) <= out.Length
    modifies out
    ensures next == at + WORD + WORD * (2 * |mcv|)
    ensures Wrote(out[..], before, start, bytes + Word(|mcv|) + Words(Flattened(mcv)))
  {
    next := PutBytes(out, at, Word(|mcv|), before, start, bytes);
    ghost var counted := bytes + Word(|mcv|);
    assert counted + Words(Flattened(mcv[..0])) == counted;
    for entry := 0 to |mcv|
      invariant next == at + WORD + WORD * (2 * entry)
      invariant Wrote(out[..], before, start, counted + Words(Flattened(mcv[..entry])))
    {
      var words := [mcv[entry].0, mcv[entry].1];
      next := PutWords(out, next, words, before, start, counted + Words(Flattened(mcv[..entry])));
      assert mcv[..entry + 1][..entry] == mcv[..entry];
      WordsJoined(Flattened(mcv[..entry]), words);
      assert counted + Words(Flattened(mcv[..entry])) + Words(words) == counted + Words(Flattened(mcv[..entry + 1]));
    }
    assert mcv[..|mcv|] == mcv;
  }

  // ---- The reader ----

  method ReadWords(b: seq<Byte>, pos: nat, n: nat) returns (words: seq<nat>, next: nat)
    requires pos + WORD * n <= |b|
    ensures next == pos + WORD * n && TakeWords(b[pos..], n) == Some((words, b[next..]))
  {
    words, next := [], pos;
    for i := 0 to n
      invariant next == pos + WORD * i && words == WordsAt(b[pos..], i)
    {
      assert b[pos..][WORD * i..WORD * (i + 1)] == b[next..next + WORD];
      words := words + [FromLittleEndian(b[next..next + WORD])];
      next := next + WORD;
    }
    assert b[pos..][WORD * n..] == b[next..];
  }

  method ReadName(b: seq<Byte>, pos: nat) returns (name: Option<seq<Byte>>, next: nat)
    requires pos <= |b|
    ensures name.None? <==> TakeName(b[pos..]).None?
    ensures name.Some? ==> next <= |b| && TakeName(b[pos..]) == Some((name.value, b[next..]))
  {
    if pos + WORD > |b| {
      return None, pos;
    }
    var size;
    size, next := ReadWords(b, pos, 1);
    if size[0] > |b| - next {
      return None, next;
    }
    name := Some(b[next..next + size[0]]);
    assert b[next..][..size[0]] == name.value && b[next..][size[0]..] == b[next + size[0]..];
    next := next + size[0];
  }

  method ReadBounds(b: seq<Byte>, pos: nat, bucketCount: nat) returns (bounds: Option<seq<nat>>, next: nat)
    requires pos <= |b|
    ensures bounds.None? <==> TakeBounds(b[pos..], bucketCount).None?
    ensures bounds.Some? ==> next <= |b| && TakeBounds(b[pos..], bucketCount) == Some((bounds.value, b[next..]))
  {
    if bucketCount > HISTOGRAM_BUCKETS {
      return None, pos;
    }
    if bucketCount == 0 {
      return Some([]), pos;
    }
    if (bucketCount + 1) * WORD > |b| - pos {
      return None, pos;
    }
    var words;
    words, next := ReadWords(b, pos, bucketCount + 1);
    bounds := Some(words);
  }

  method ReadMcv(b: seq<Byte>, pos: nat) returns (mcv: Option<seq<(nat, nat)>>, next: nat)
    requires pos <= |b|
    ensures mcv.None? <==> TakeMcv(b[pos..]).None?
    ensures mcv.Some? ==> next <= |b| && TakeMcv(b[pos..]) == Some((mcv.value, b[next..]))
  {
    if WORD > |b| - pos {
      return None, pos;
    }
    var count;
    count, next := ReadWords(b, pos, 1);
    if count[0] > MCV_COUNT || count[0] * (WORD + WORD) > |b| - next {
      return None, next;
    }
    var words;
    words, next := ReadWords(b, next, 2 * count[0]);
    mcv := Some(Paired(words));
  }

  /** None on a truncated record or one with a count out of range. */
  method ReadRecord(b: seq<Byte>, pos: nat) returns (r: Option<Record>, next: nat)
    requires pos <= |b|
    ensures r.None? <==> Decode(b[pos..]).None?
    ensures r.Some? ==> next <= |b| && Decode(b[pos..]) == Some((r.value, b[next..]))
  {
    var name, bounds, mcv;
    name, next := ReadName(b, pos);
    if name.None? || WORD * 3 + WORD + WORD * 2 + WORD > |b| - next {
      return None, next;
    }
    var fixed;
    fixed, next := ReadWords(b, next, 7);
    bounds, next := ReadBounds(b, next, fixed[6]);
    if bounds.None? {
      return None, next;
    }
    mcv, next := ReadMcv(b, next);
    if mcv.None? {
      return None, next;
    }
    r := Some(Assembled(name.value, fixed, bounds.value, mcv.value));
  }
}
