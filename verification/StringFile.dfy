/** The file of a string column: a word that says how many bytes are reserved for
    string data, that region, and behind it the end of every row. */
module StringFile {
  import opened FileBytes
  import opened StringLists

  /** Rows xs are stored with this many bytes reserved for their data. */
  ghost predicate Layout(f: seq<Byte>, reserved: nat, xs: seq<Text>) {
    && IsU64(reserved) && Total(xs) <= reserved
    && ReadAt(f, 0, WORD) == Word(reserved)
    && ReadAt(f, WORD, Total(xs)) == Flat(xs)
    && ReadAt(f, WORD + reserved, WORD * |xs|) == Words(Ends(xs))
  }

  ghost function Reserved(f: seq<Byte>): nat {
    FromLittleEndian(ReadAt(f, 0, WORD))
  }

  // ---- Conversion ----

  /** The three writes of a conversion: the whole data buffer counts as reserved. */
  function Converted(f: seq<Byte>, buffer: seq<Byte>, ends: seq<nat>): seq<Byte> {
    WriteAt(WriteAt(WriteAt(f, 0, Word(|buffer|)), WORD, buffer), WORD + |buffer|, Words(ends))
  }

  lemma {:induction false} ConvertedLayout(f: seq<Byte>, buffer: seq<Byte>, xs: seq<Text>)
    requires IsU64(|buffer|) && Total(xs) <= |buffer| && buffer[..Total(xs)] == Flat(xs)
    ensures Layout(Converted(f, buffer, Ends(xs)), |buffer|, xs)
  {
    var n := |buffer|;
    var f1 := WriteAt(f, 0, Word(n));
    var f2 := WriteAt(f1, WORD, buffer);
    var f3 := WriteAt(f2, WORD + n, Words(Ends(xs)));
    ReadWritten(f, 0, Word(n));
    ReadApart(f1, WORD, buffer, 0, WORD);
    ReadApart(f2, WORD + n, Words(Ends(xs)), 0, WORD);
    ReadWritten(f1, WORD, buffer);
    ReadApart(f2, WORD + n, Words(Ends(xs)), WORD, n);
    ReadPart(f3, WORD, n, 0, Total(xs));
    ReadWritten(f2, WORD + n, Words(Ends(xs)));
  }

  // ---- Growth ----

  /** Moving the ends out of the way: they are copied, with one word of slack, to
      behind the new region, the header follows, the file is cut there, and the old
      place is cleared as far as the new one. */
  function Moved(f: seq<Byte>, reserved: nat, newReserved: nat, rows: nat): seq<Byte> {
    var size := WORD * (rows + 1);
    var ends := ReadAt(f, WORD + reserved, size);
    Resize(WriteAt(WriteAt(f, WORD + newReserved, ends), 0, Word(newReserved)), WORD + newReserved + size)
  }

  function Cleared(f: seq<Byte>, reserved: nat, newReserved: nat, rows: nat): seq<Byte> {
    var oldEnd := if WORD + reserved + WORD * (rows + 1) > WORD + newReserved then WORD + newReserved else WORD + reserved + WORD * (rows + 1);
    if oldEnd > WORD + reserved then WriteAt(f, WORD + reserved, seq(oldEnd - (WORD + reserved), _ => 0)) else f
  }

  function Grown(f: seq<Byte>, reserved: nat, newReserved: nat, rows: nat): seq<Byte> {
    Cleared(Moved(f, reserved, newReserved, rows), reserved, newReserved, rows)
  }

  lemma {:induction false} MovedData(f: seq<Byte>, reserved: nat, newReserved: nat, rows: nat, total: nat)
    requires total <= reserved <= newReserved
    ensures var moved := Moved(f, reserved, newReserved, rows);
            ReadAt(moved, 0, WORD) == Word(newReserved) && ReadAt(moved, WORD, total) == ReadAt(f, WORD, total)
  {
    var size := WORD * (rows + 1);
    var ends, header := ReadAt(f, WORD + reserved, size), Word(newReserved);
    var f1 := WriteAt(f, WORD + newReserved, ends);
    var f2 := WriteAt(f1, 0, header);
    ReadWritten(f1, 0, header);
    ReadResized(f2, WORD + newReserved + size, 0, WORD);
    ReadApart(f, WORD + newReserved, ends, WORD, total);
    ReadApart(f1, 0, header, WORD, total);
    ReadResized(f2, WORD + newReserved + size, WORD, total);
  }

  lemma {:induction false} MovedEnds(f: seq<Byte>, reserved: nat, newReserved: nat, rows: nat)
    ensures ReadAt(Moved(f, reserved, newReserved, rows), WORD + newReserved, WORD * rows) == ReadAt(f, WORD + reserved, WORD * rows)
  {
    var size := WORD * (rows + 1);
    var at, ends, header := WORD + newReserved, ReadAt(f, WORD + reserved, size), Word(newReserved);
    var f1 := WriteAt(f, at, ends);
    var f2 := WriteAt(f1, 0, header);
    ReadWritten(f, at, ends);
    ReadApart(f1, 0, header, at, size);
    ReadResized(f2, at + size, at, size);
    ReadPart(Moved(f, reserved, newReserved, rows), at, size, 0, WORD * rows);
    ReadPart(f, WORD + reserved, size, 0, WORD * rows);
  }

  lemma {:induction false} MovedLayout(f: seq<Byte>, reserved: nat, newReserved: nat, xs: seq<Text>)
    requires Layout(f, reserved, xs) && IsU64(newReserved) && reserved <= newReserved
    ensures Layout(Moved(f, reserved, newReserved, |xs|), newReserved, xs)
  {
    MovedData(f, reserved, newReserved, |xs|, Total(xs));
    MovedEnds(f, reserved, newReserved, |xs|);
  }

  /** Growth overlaps neither live data nor live ends. */
  lemma {:induction false} GrownLayout(f: seq<Byte>, reserved: nat, newReserved: nat, xs: seq<Text>)
    requires Layout(f, reserved, xs) && IsU64(newReserved) && reserved <= newReserved
    ensures Layout(Grown(f, reserved, newReserved, |xs|), newReserved, xs)
  {
    MovedLayout(f, reserved, newReserved, xs);
    var moved := Moved(f, reserved, newReserved, |xs|);
    var oldPos := WORD + reserved;
    var oldEnd := if oldPos + WORD * (|xs| + 1) > WORD + newReserved then WORD + newReserved else oldPos + WORD * (|xs| + 1);
    if oldEnd > oldPos {
      var zeros := seq(oldEnd - oldPos, _ => 0);
      ReadApart(moved, oldPos, zeros, 0, WORD);
      ReadApart(moved, oldPos, zeros, WORD, Total(xs));
      ReadApart(moved, oldPos, zeros, WORD + newReserved, WORD * |xs|);
    }
  }

  // ---- Appending the pending rows ----

  function WriteSome(f: seq<Byte>, pos: nat, data: seq<Byte>): seq<Byte> {
    if data == [] then f else WriteAt(f, pos, data)
  }

  function Appended(f: seq<Byte>, reserved: nat, flushed: nat, rows: nat, data: seq<Byte>, ends: seq<nat>): seq<Byte> {
    WriteAt(WriteSome(f, WORD + flushed, data), WORD + reserved + WORD * rows, Words(ends))
  }

  /** The ends of the appended rows. */
  function EndsAfter(xs: seq<Text>, more: seq<Text>): (ends: seq<nat>)
    ensures |ends| == |more|
  {
    Ends(xs + more)[|xs|..]
  }

  /** The data bytes after both writes. */
  lemma {:induction false} AppendedData(f: seq<Byte>, total: nat, data: seq<Byte>, at: nat, ends: seq<Byte>)
    requires WORD + total + |data| <= at
    ensures var after := WriteAt(WriteSome(f, WORD + total, data), at, ends);
            && ReadAt(after, 0, WORD) == ReadAt(f, 0, WORD)
            && ReadAt(after, WORD, total + |data|) == ReadAt(f, WORD, total) + data
  {
    var f1 := WriteSome(f, WORD + total, data);
    if data != [] {
      ReadApart(f, WORD + total, data, 0, WORD);
      ReadApart(f, WORD + total, data, WORD, total);
      ReadWritten(f, WORD + total, data);
    }
    ReadApart(f1, at, ends, 0, WORD);
    ReadJoined(f1, WORD, total, |data|);
    ReadApart(f1, at, ends, WORD, total + |data|);
  }

  /** The end words after both writes. */
  lemma {:induction false} AppendedEnds(f: seq<Byte>, dataAt: nat, data: seq<Byte>, first: nat, size: nat, at: nat, ends: seq<Byte>, n: nat)
    requires dataAt + |data| <= first && at == first + size && n == size + |ends|
    ensures ReadAt(WriteAt(WriteSome(f, dataAt, data), at, ends), first, n) == ReadAt(f, first, size) + ends
  {
    var f1 := WriteSome(f, dataAt, data);
    var f2 := WriteAt(f1, at, ends);
    if data != [] {
      ReadApart(f, dataAt, data, first, size);
    }
    ReadApart(f1, at, ends, first, size);
    ReadWritten(f1, at, ends);
    ReadJoined(f2, first, size, |ends|);
  }

  lemma {:induction false} EndsSplit(xs: seq<Text>, more: seq<Text>)
    ensures Ends(xs + more) == Ends(xs) + EndsAfter(xs, more)
    ensures Words(Ends(xs + more)) == Words(Ends(xs)) + Words(EndsAfter(xs, more))
  {
    EndsPrefix(xs + more, |xs|);
    assert (xs + more)[..|xs|] == xs;
    WordsJoined(Ends(xs), EndsAfter(xs, more));
  }

  /** Data and ends fit together. */
  lemma {:induction false} LayoutOf(f: seq<Byte>, after: seq<Byte>, reserved: nat, xs: seq<Text>, all: seq<Text>, data: seq<Byte>, ends: seq<Byte>)
    requires Layout(f, reserved, xs) && Total(all) <= reserved
    requires ReadAt(after, 0, WORD) == ReadAt(f, 0, WORD)
    requires Flat(all) == Flat(xs) + data && Words(Ends(all)) == Words(Ends(xs)) + ends
    requires ReadAt(after, WORD, Total(xs) + |data|) == ReadAt(f, WORD, Total(xs)) + data
    requires ReadAt(after, WORD + reserved, WORD * |all|) == ReadAt(f, WORD + reserved, WORD * |xs|) + ends
    ensures Layout(after, reserved, all)
  {
  }

  lemma {:induction false} AppendedReads(f: seq<Byte>, reserved: nat, total: nat, rows: nat, data: seq<Byte>, ends: seq<nat>)
    requires total + |data| <= reserved
    ensures var after := Appended(f, reserved, total, rows, data, ends);
            && ReadAt(after, 0, WORD) == ReadAt(f, 0, WORD)
            && ReadAt(after, WORD, total + |data|) == ReadAt(f, WORD, total) + data
            && ReadAt(after, WORD + reserved, WORD * (rows + |ends|)) == ReadAt(f, WORD + reserved, WORD * rows) + Words(ends)
  {
    var at := WORD + reserved + WORD * rows;
    var bytes := Words(ends);
    AppendedData(f, total, data, at, bytes);
    AppendedEnds(f, WORD + total, data, WORD + reserved, WORD * rows, at, bytes, WORD * (rows + |ends|));
    assert Appended(f, reserved, total, rows, data, ends) == WriteAt(WriteSome(f, WORD + total, data), at, bytes);
  }

  lemma {:induction false} AppendedLayout(f: seq<Byte>, reserved: nat, xs: seq<Text>, more: seq<Text>)
    requires Layout(f, reserved, xs) && Total(xs + more) <= reserved
    ensures Layout(Appended(f, reserved, Total(xs), |xs|, Flat(more), EndsAfter(xs, more)), reserved, xs + more)
  {
    var ends := EndsAfter(xs, more);
    FlatJoined(xs, more);
    EndsSplit(xs, more);
    AppendedReads(f, reserved, Total(xs), |xs|, Flat(more), ends);
    LayoutOf(f, Appended(f, reserved, Total(xs), |xs|, Flat(more), ends), reserved, xs, xs + more, Flat(more), Words(ends));
  }

  // ---- Reading ----

  /** The word of row k's end, and its bytes. */
  lemma {:induction false} RowOnDisk(f: seq<Byte>, reserved: nat, xs: seq<Text>, k: nat)
    requires Layout(f, reserved, xs) && k < |xs|
    ensures ReadAt(f, WORD + reserved + WORD * k, WORD) == Word(EndOf(xs, k)) && IsU64(EndOf(xs, k))
    ensures k > 0 ==> ReadAt(f, WORD + reserved + WORD * (k - 1), WORD) == Word(StartOf(xs, k)) && IsU64(StartOf(xs, k))
    ensures StartOf(xs, k) <= EndOf(xs, k)
    ensures ReadAt(f, WORD + StartOf(xs, k), EndOf(xs, k) - StartOf(xs, k)) == xs[k]
  {
    StringBetweenEnds(xs, k);
    StoredWord(f, WORD + reserved, Ends(xs), k);
    if k > 0 {
      StoredWord(f, WORD + reserved, Ends(xs), k - 1);
      EndsAreStarts(xs, k);
    }
    ReadPart(f, WORD, Total(xs), StartOf(xs, k), EndOf(xs, k));
  }
}
