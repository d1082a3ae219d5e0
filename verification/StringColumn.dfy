/** A string column: in memory, or in a file with a buffer of pending appends. In
    every mode it reads like the plain list of its strings. */
module StringColumn {
  import opened FileBytes
  import opened StringLists
  import opened StringFile

  const PENDING_BYTES: nat := 0x10_0000
  const PENDING_ROWS: nat := 65536
  const PENDING_ALIGN: nat := 0x1_0000

  /** All strings of a column together; below it, no 64-bit address wraps around. */
  const MAX_TOTAL: nat := 0x1000_0000_0000_0000
  const MAX_CAPACITY: nat := 0x4000_0000_0000_0000

  /** The text "invalid string", which no sound file makes a column return. */
  const INVALID_STRING: Text := [105, 110, 118, 97, 108, 105, 100, 32, 115, 116, 114, 105, 110, 103]

  datatype Option<+T> = None | Some(value: T)

  datatype Settings = Settings(expandCount: nat, variableAlloc: nat, threshold: nat, isEphemeral: bool)

  predicate Proper(s: Settings) {
    s.expandCount > 0 && 0 < s.variableAlloc <= MAX_TOTAL
  }

  function AlignUp(x: nat, align: nat): (aligned: nat)
    requires align > 0
    ensures x <= aligned < x + align && aligned % align == 0
  {
    var k := (x + align - 1) / align;
    assert k * align + (x + align - 1) % align == x + align - 1;
    MultipleHasNoRest(k, align);
    k * align
  }

  lemma {:induction false} MultipleHasNoRest(k: nat, n: nat)
    requires n > 0
    ensures (k * n) % n == 0
  {
    var q, r := (k * n) / n, (k * n) % n;
    assert (k - q) * n == r;
    assert k - q >= 1 ==> (k - q) * n >= n;
  }

  /** Doubling from c until it covers the required size. */
  function Doubled(c: nat, required: nat): (d: nat)
    requires c > 0
    ensures d >= required && d >= c && (d == c || d < 2 * required)
    decreases required - c
  {
    if c >= required then c else Doubled(2 * c, required)
  }

  /** The first size that is tried when data has to grow. */
  function FirstGrowth(s: Settings, capacity: nat): nat {
    if capacity > 0 then capacity * 2 else s.variableAlloc
  }

  function GrownCapacity(s: Settings, capacity: nat, required: nat): (grown: nat)
    requires Proper(s)
    ensures grown >= required
    ensures capacity < required ==> grown <= 2 * required + s.variableAlloc
  {
    Doubled(FirstGrowth(s, capacity), required)
  }

  /** A column in memory goes to disk when its data has to grow past the threshold. */
  predicate GoesToDisk(s: Settings, capacity: nat, required: nat)
    requires Proper(s)
  {
    required > capacity && !s.isEphemeral && GrownCapacity(s, capacity, required) > s.threshold
  }

  function Pow2(k: nat): nat {
    if k == 0 then 1 else 2 * Pow2(k - 1)
  }

  lemma {:induction false} DoubledIs(c: nat, required: nat) returns (k: nat)
    requires c > 0
    ensures Doubled(c, required) == c * Pow2(k)
    ensures forall j: nat :: j < k ==> c * Pow2(j) < required
    decreases required - c
  {
    if c >= required {
      k := 0;
    } else {
      var m := DoubledIs(2 * c, required);
      k := m + 1;
      DoubleOnce(c, m);
      forall j: nat | j < k
        ensures c * Pow2(j) < required
      {
        if j > 0 {
          DoubleOnce(c, j - 1);
        }
      }
    }
  }

  lemma {:induction false} DoubleOnce(c: nat, k: nat)
    ensures (2 * c) * Pow2(k) == c * Pow2(k + 1)
  {
  }

  /** A column goes to disk exactly when the bytes it needs exceed its capacity and
      every doubling that would hold them is above the threshold. */
  lemma {:induction false} GoesToDiskIff(s: Settings, capacity: nat, required: nat)
    requires Proper(s)
    ensures GoesToDisk(s, capacity, required) <==>
            required > capacity && !s.isEphemeral &&
            forall k: nat :: FirstGrowth(s, capacity) * Pow2(k) >= required ==> FirstGrowth(s, capacity) * Pow2(k) > s.threshold
  {
    var c := FirstGrowth(s, capacity);
    var m := DoubledIs(c, required);
    forall k: nat | c * Pow2(k) >= required
      ensures c * Pow2(k) >= c * Pow2(m)
    {
      assert k >= m;
      Pow2Grows(m, k);
      MultiplyBoth(c, Pow2(m), Pow2(k));
    }
  }

  const DEFAULTS := Settings(64, 0x1000, 0x400_0000, false)

  /** With the default settings a fresh column goes to disk exactly with a first
      string of more than 64 MB. */
  lemma {:induction false} FreshGoesToDiskIff(size: nat)
    ensures GoesToDisk(DEFAULTS, 0, size) <==> size > 0x400_0000
  {
    GoesToDiskIff(DEFAULTS, 0, size);
    var c := FirstGrowth(DEFAULTS, 0);
    assert Pow2(7) == 128;
    assert Pow2(14) == 0x4000;
    assert c * Pow2(14) == 0x1000 * 0x4000;
    if size <= 0x400_0000 {
      assert c * Pow2(14) >= size && c * Pow2(14) <= DEFAULTS.threshold;
    } else {
      assert forall k: nat :: c * Pow2(k) >= size ==> c * Pow2(k) > DEFAULTS.threshold;
    }
  }

  /** A column emptied by removals goes to disk with smaller strings: one with 48 MB
      left and a string of one byte more, and one with 2049 bytes left and a string of
      just over 32 MB. */
  lemma {:induction false} EmptiedGoesToDisk()
    ensures GoesToDisk(DEFAULTS, 0x300_0000, 0x300_0001) && !GoesToDisk(DEFAULTS, 0, 0x300_0001)
    ensures GoesToDisk(DEFAULTS, 2049, 33_570_817) && !GoesToDisk(DEFAULTS, 0, 33_570_817)
  {
    FreshGoesToDiskIff(0x300_0001);
    FreshGoesToDiskIff(33_570_817);
    GoesToDiskIff(DEFAULTS, 2049, 33_570_817);
    forall k: nat | FirstGrowth(DEFAULTS, 2049) * Pow2(k) >= 33_570_817
      ensures FirstGrowth(DEFAULTS, 2049) * Pow2(k) > DEFAULTS.threshold
    {
      StepAbove(k);
    }
  }

  lemma {:induction false} FirstCapacity()
    ensures GrownCapacity(DEFAULTS, 0, 2047) == 4096 && !GoesToDisk(DEFAULTS, 0, 2047)
  {
  }

  lemma {:induction false} StepAbove(k: nat)
    ensures 4098 * Pow2(k) <= 33_570_816 || 4098 * Pow2(k) > 0x400_0000
  {
    assert Pow2(7) == 128;
    assert Pow2(13) == 8192 && Pow2(14) == 0x4000;
    if k <= 13 {
      Pow2Grows(k, 13);
    } else {
      Pow2Grows(14, k);
    }
  }

  lemma {:induction false} Pow2Grows(a: nat, b: nat)
    requires a <= b
    ensures Pow2(a) <= Pow2(b)
  {
    if a < b {
      Pow2Grows(a, b - 1);
    }
  }

  lemma {:induction false} MultiplyBoth(c: nat, a: nat, b: nat)
    requires a <= b
    ensures c * a <= c * b
  {
  }

  /** Bytes reserved in the file after it has to grow. */
  function GrownReserve(s: Settings, reserved: nat, total: nat): (grown: nat)
    ensures grown >= total
    ensures reserved < total ==> reserved <= grown < 2 * total + s.variableAlloc + WORD
  {
    if reserved * 2 < total then AlignUp(total + s.variableAlloc, WORD) else reserved * 2
  }

  /** xs in memory: their bytes in a row, and the end of every row. */
  ghost predicate InMemory(xs: seq<Text>, data: seq<Byte>, offsets: seq<nat>, variableCapacity: nat) {
    && |xs| <= |offsets| && offsets[..|xs|] == Ends(xs)
    && Total(xs) <= variableCapacity <= |data| && variableCapacity <= MAX_CAPACITY
    && data[..Total(xs)] == Flat(xs)
  }

  /** The rows from flushed on wait in the buffer. */
  ghost predicate InBuffer(xs: seq<Text>, flushed: nat, data: seq<Byte>, offsets: seq<nat>, size: nat) {
    && flushed <= |xs| && size <= |data| && |xs| - flushed <= |offsets|
    && data[..size] == Flat(xs[flushed..])
    && offsets[..|xs| - flushed] == EndsAfter(xs[..flushed], xs[flushed..])
  }

  ghost predicate InFile(f: seq<Byte>, xs: seq<Text>) {
    exists reserved: nat :: reserved <= MAX_CAPACITY && Layout(f, reserved, xs)
  }

  lemma {:induction false} ReservedInFile(f: seq<Byte>, xs: seq<Text>)
    requires InFile(f, xs)
    ensures Layout(f, Reserved(f), xs) && Reserved(f) <= MAX_CAPACITY
  {
    var reserved: nat :| reserved <= MAX_CAPACITY && Layout(f, reserved, xs);
    WordRoundTrip(reserved);
  }

  /** Row 0 of the file ends at the given place and x is the last that it holds. */
  ghost predicate LongRow(f: seq<Byte>, x: Text, end: nat) {
    && IsU64(Reserved(f)) && IsU64(end) && |x| <= end
    && ReadAt(f, 0, WORD) == Word(Reserved(f)) && ReadAt(f, WORD + Reserved(f), WORD) == Word(end)
    && ReadAt(f, WORD + end - |x|, |x|) == x
  }

  function WordIn(f: seq<Byte>, pos: nat): nat {
    FromLittleEndian(ReadAt(f, pos, WORD))
  }

  /** What a file holds for a row: the bytes between the end before it and its own. */
  function RowText(f: seq<Byte>, row: nat): Text {
    var at := WORD + WordIn(f, 0) + WORD * row;
    var start, end := if row == 0 then 0 else WordIn(f, at - WORD), WordIn(f, at);
    if end < start then INVALID_STRING else ReadAt(f, WORD + start, end - start)
  }

  lemma {:induction false} WordInIs(f: seq<Byte>, pos: nat, n: nat)
    requires IsU64(n) && ReadAt(f, pos, WORD) == Word(n)
    ensures WordIn(f, pos) == n
  {
    WordRoundTrip(n);
  }

  lemma {:induction false} RowTextInFile(f: seq<Byte>, xs: seq<Text>, row: nat)
    requires InFile(f, xs) && row < |xs|
    ensures RowText(f, row) == xs[row]
  {
    ReservedInFile(f, xs);
    var reserved := Reserved(f);
    RowOnDisk(f, reserved, xs, row);
    WordInIs(f, 0, reserved);
    WordInIs(f, WORD + reserved + WORD * row, EndOf(xs, row));
    if row > 0 {
      WordInIs(f, WORD + reserved + WORD * (row - 1), StartOf(xs, row));
    } else {
      EndsAreStarts(xs, |xs|);
    }
    RowTextFrom(f, row, reserved, StartOf(xs, row), EndOf(xs, row));
  }

  lemma {:induction false} RowTextFrom(f: seq<Byte>, row: nat, reserved: nat, start: nat, end: nat)
    requires WordIn(f, 0) == reserved && WordIn(f, WORD + reserved + WORD * row) == end >= start
    requires if row == 0 then start == 0 else WordIn(f, WORD + reserved + WORD * (row - 1)) == start
    ensures RowText(f, row) == ReadAt(f, WORD + start, end - start)
  {
  }

  lemma {:induction false} LongRowText(f: seq<Byte>, x: Text, end: nat)
    requires LongRow(f, x, end)
    ensures |RowText(f, 0)| == end && RowText(f, 0)[end - |x|..] == x
  {
    WordInIs(f, 0, Reserved(f));
    WordInIs(f, WORD + Reserved(f), end);
    ReadPart(f, WORD, end, end - |x|, end);
  }

  /** A 64-bit sum wraps around. */
  function Wrap64(n: nat): (w: nat)
    ensures IsU64(w) && (IsU64(n) ==> w == n)
  {
    n % 0x1_0000_0000_0000_0000
  }

  lemma {:induction false} WrappedIsSame(n: nat, size: nat)
    requires IsU64(n) && IsU64(size)
    ensures Wrap64(n + size) == size <==> n == 0
  {
  }

  // ---- Steps on the contents ----

  lemma {:induction false} BufferSizes(xs: seq<Text>, flushed: nat)
    requires flushed <= |xs|
    ensures Total(xs) == Total(xs[..flushed]) + Total(xs[flushed..])
    ensures xs == xs[..flushed] + xs[flushed..]
  {
    assert xs == xs[..flushed] + xs[flushed..];
    FlatJoined(xs[..flushed], xs[flushed..]);
  }

  /** The file after the buffer has been written. */
  lemma {:induction false} BufferWritten(f: seq<Byte>, reserved: nat, xs: seq<Text>, flushed: nat, bytes: seq<Byte>, ends: seq<nat>)
    requires flushed <= |xs| && Total(xs) <= reserved <= MAX_CAPACITY && Layout(f, reserved, xs[..flushed])
    requires bytes == Flat(xs[flushed..]) && ends == EndsAfter(xs[..flushed], xs[flushed..])
    ensures |bytes| <= Total(xs)
    ensures InFile(Appended(f, reserved, Total(xs) - |bytes|, flushed, bytes, ends), xs)
  {
    BufferSizes(xs, flushed);
    AppendedLayout(f, reserved, xs[..flushed], xs[flushed..]);
  }

  lemma {:induction false} BufferedWritten(f: seq<Byte>, reserved: nat, xs: seq<Text>, flushed: nat, data: seq<Byte>, offsets: seq<nat>, size: nat)
    requires InBuffer(xs, flushed, data, offsets, size) && Total(xs) <= reserved <= MAX_CAPACITY && Layout(f, reserved, xs[..flushed])
    ensures size <= Total(xs)
    ensures InFile(Appended(f, reserved, Total(xs) - size, flushed, data[..size], offsets[..|xs| - flushed]), xs)
  {
    hide Layout, Flat, EndsAfter, Total, InFile, Appended;
    var bytes, ends := data[..size], offsets[..|xs| - flushed];
    assert |bytes| == size;
    BufferWritten(f, reserved, xs, flushed, bytes, ends);
  }

  /** The only row of the buffer, written as if other data came before it. */
  lemma {:induction false} LongRowWritten(f: seq<Byte>, reserved: nat, x: Text, end: nat)
    requires Layout(f, reserved, []) && |x| <= end <= reserved <= MAX_CAPACITY
    ensures LongRow(Appended(f, reserved, end - |x|, 0, x, [end]), x, end)
  {
    AppendedReads(f, reserved, end - |x|, 0, x, [end]);
    OneWord(end);
    LongRowRead(f, reserved, Appended(f, reserved, end - |x|, 0, x, [end]), x, end);
  }

  lemma {:induction false} OneWord(n: nat)
    ensures Words([n]) == Word(n)
  {
    assert [n][..0] == [];
  }

  lemma {:induction false} LongRowRead(f: seq<Byte>, reserved: nat, after: seq<Byte>, x: Text, end: nat)
    requires |x| <= end <= reserved <= MAX_CAPACITY
    requires ReadAt(after, 0, WORD) == Word(reserved)
    requires ReadAt(after, WORD, end) == ReadAt(f, WORD, end - |x|) + x
    requires ReadAt(after, WORD + reserved, WORD) == ReadAt(f, WORD + reserved, 0) + Word(end)
    ensures LongRow(after, x, end)
  {
    WordRoundTrip(reserved);
    ReadPart(after, WORD, end, end - |x|, end);
  }

  /** One more row in the buffer. */
  lemma {:induction false} BufferPushed(xs: seq<Text>, flushed: nat, data: seq<Byte>, offsets: seq<nat>, size: nat, x: Text, data': seq<Byte>, offsets': seq<nat>)
    requires InBuffer(xs, flushed, data, offsets, size)
    requires size + |x| <= |data'| && data'[..size] == data[..size] && data'[size..size + |x|] == x
    requires |xs| - flushed < |offsets'| && offsets'[..|xs| - flushed] == offsets[..|xs| - flushed]
    requires offsets'[|xs| - flushed] == Total(xs) + |x|
    ensures InBuffer(xs + [x], flushed, data', offsets', size + |x|)
  {
    var more := xs[flushed..];
    assert (xs + [x])[flushed..] == more + [x] && (xs + [x])[..flushed] == xs[..flushed];
    FlatPushed(more, x);
    EndsPushed(xs, x);
    BufferSizes(xs, flushed);
    assert xs[..flushed] + (more + [x]) == xs + [x];
    assert data'[..size + |x|] == data'[..size] + data'[size..size + |x|];
    assert EndsAfter(xs[..flushed], more + [x]) == EndsAfter(xs[..flushed], more) + [Total(xs) + |x|];
    assert offsets'[..|xs| - flushed + 1] == offsets'[..|xs| - flushed] + [Total(xs) + |x|];
  }

  lemma {:induction false} EmptyBuffer(xs: seq<Text>, data: seq<Byte>, offsets: seq<nat>)
    ensures InBuffer(xs, |xs|, data, offsets, 0)
  {
    assert xs[|xs|..] == [];
  }

  /** One more row in memory. */
  lemma {:induction false} MemoryPushed(xs: seq<Text>, data: seq<Byte>, offsets: seq<nat>, variableCapacity: nat, x: Text, data': seq<Byte>, offsets': seq<nat>)
    requires InMemory(xs, data, offsets, variableCapacity) && |data'| == |data| && |offsets'| == |offsets|
    requires |xs| < |offsets| && Total(xs) + |x| <= variableCapacity
    requires data'[..Total(xs)] == data[..Total(xs)] && data'[Total(xs)..Total(xs) + |x|] == x
    requires offsets'[..|xs|] == offsets[..|xs|] && offsets'[|xs|] == Total(xs) + |x|
    ensures InMemory(xs + [x], data', offsets', variableCapacity)
  {
    FlatPushed(xs, x);
    EndsPushed(xs, x);
    assert data'[..Total(xs) + |x|] == data'[..Total(xs)] + data'[Total(xs)..Total(xs) + |x|];
    assert offsets'[..|xs| + 1] == offsets'[..|xs|] + [Total(xs) + |x|];
  }

  /** The end of row i after a row k of the given size is gone. */
  predicate IsShifted(before: seq<nat>, after: seq<nat>, k: nat, size: nat, i: nat) {
    && i < |after| && i + 1 < |before|
    && after[i] == if i < k then before[i] else before[i + 1] - size
  }

  /** Closing the gap of row k. */
  lemma {:induction false} MemoryRemoved(xs: seq<Text>, data: seq<Byte>, offsets: seq<nat>, variableCapacity: nat, k: nat, data': seq<Byte>, offsets': seq<nat>)
    requires InMemory(xs, data, offsets, variableCapacity) && k < |xs| && |data'| == |data| && |offsets'| == |offsets|
    requires StartOf(xs, k) <= EndOf(xs, k) <= Total(xs)
    requires data'[..StartOf(xs, k)] == data[..StartOf(xs, k)]
    requires var moved := Total(xs) - EndOf(xs, k);
             data'[StartOf(xs, k)..StartOf(xs, k) + moved] == data[EndOf(xs, k)..Total(xs)]
    requires forall i: nat :: i < |xs| - 1 ==> IsShifted(offsets, offsets', k, |xs[k]|, i)
    ensures InMemory(Without(xs, k), data', offsets', variableCapacity - |xs[k]|)
  {
    var start, end, rest := StartOf(xs, k), EndOf(xs, k), Without(xs, k);
    StringBetweenEnds(xs, k);
    FlatWithout(xs, k);
    assert data[..start] == data[..Total(xs)][..start];
    assert data[end..Total(xs)] == data[..Total(xs)][end..];
    assert data'[..Total(rest)] == data'[..start] + data'[start..Total(rest)];
    forall i | 0 <= i < |rest|
      ensures offsets'[i] == Ends(rest)[i]
    {
      EndsWithout(xs, k, i);
      assert IsShifted(offsets, offsets', k, |xs[k]|, i);
      if i < k {
        assert offsets[i] == offsets[..|xs|][i] == Ends(xs)[i];
      } else {
        assert offsets[i + 1] == offsets[..|xs|][i + 1] == Ends(xs)[i + 1];
      }
    }
  }

  function SizeOf(value: Option<Text>): nat {
    if value.Some? then |value.value| else 0
  }

  // ---- The column ----

  class StringColumn {
    const settings: Settings
    var rowCount: nat
    var data: array<Byte>
    var offsets: array<nat>
    var capacity: nat
    var variableCapacity: nat
    var isDiskBacked: bool
    var file: seq<Byte>
    var pendingData: array<Byte>
    var pendingOffsets: array<nat>
    var pendingRows: nat
    var pendingDataSize: nat
    ghost var contents: seq<Text>

    ghost predicate Valid()
      reads this, data, offsets, pendingData, pendingOffsets
    {
      && Proper(settings) && rowCount == |contents| && Total(contents) <= MAX_TOTAL
      && (if pendingData.Length == 0 then pendingRows == 0 else pendingOffsets.Length == PENDING_ROWS)
      && if isDiskBacked then DiskValid() else MemoryValid()
    }

    ghost predicate MemoryValid()
      reads this, data, offsets
    {
      pendingRows == 0 && pendingDataSize == 0 && capacity == offsets.Length && InMemory(contents, data[..], offsets[..], variableCapacity)
    }

    ghost predicate DiskValid()
      reads this, pendingData, pendingOffsets
    {
      && pendingRows <= |contents| && variableCapacity == Total(contents)
      && InFile(file, contents[..|contents| - pendingRows])
      && InBuffer(contents, |contents| - pendingRows, pendingData[..], pendingOffsets[..], pendingDataSize)
    }

    /** On disk without a row, whatever the column takes its size to be. */
    ghost predicate NoRowsOnDisk()
      reads this, pendingData, pendingOffsets
    {
      && Proper(settings) && isDiskBacked && rowCount == 0 && contents == [] && pendingRows == 0 && pendingDataSize == 0
      && (pendingData.Length > 0 ==> pendingOffsets.Length == PENDING_ROWS) && InFile(file, [])
    }

    /** One row in the buffer, whose recorded end need not be its size. */
    ghost predicate OneRowMisplaced()
      reads this, pendingData, pendingOffsets
    {
      && Proper(settings) && isDiskBacked && rowCount == 1 && |contents| == 1 && pendingRows == 1
      && pendingDataSize == |contents[0]| <= pendingData.Length && pendingData[..pendingDataSize] == contents[0]
      && pendingOffsets.Length == PENDING_ROWS && pendingOffsets[0] == variableCapacity && InFile(file, [])
    }

    /** The recorded end lies behind the row and below the limit on all strings. */
    ghost predicate MisplacedWithinLimit()
      reads this, pendingData, pendingOffsets
    {
      OneRowMisplaced() && |contents[0]| <= variableCapacity <= MAX_TOTAL
    }

    constructor (s: Settings)
      requires Proper(s)
      ensures Valid() && contents == [] && settings == s && !isDiskBacked && variableCapacity == 0
      ensures fresh(data) && fresh(offsets) && fresh(pendingData) && fresh(pendingOffsets)
    {
      settings, rowCount, capacity, variableCapacity := s, 0, 0, 0;
      data, offsets := new Byte[0], new nat[0];
      isDiskBacked, file := false, [];
      pendingData, pendingOffsets := new Byte[0], new nat[0];
      pendingRows, pendingDataSize := 0, 0;
      contents := [];
    }

    /** Makes room in the file, when the data outgrows what is reserved. */
    method GrowFile(rows: nat, ghost flushed: seq<Text>) returns (reserved: nat)
      requires Proper(settings) && InFile(file, flushed) && rows == |flushed|
      requires Total(flushed) <= variableCapacity <= MAX_TOTAL
      modifies this`file
      ensures Layout(file, reserved, flushed) && variableCapacity <= reserved <= MAX_CAPACITY
    {
      ReservedInFile(file, flushed);
      reserved := ReadWord(file, 0, Reserved(file));
      if variableCapacity > reserved {
        var newReserved := reserved * 2;
        if newReserved < variableCapacity {
          newReserved := AlignUp(variableCapacity + settings.variableAlloc, WORD);
        }
        assert newReserved == GrownReserve(settings, reserved, variableCapacity);
        MoveEnds(rows, flushed, reserved, newReserved);
        reserved := newReserved;
      }
    }

    /** Copies the ends to behind the larger region, cuts the file there and clears
        their old place. */
    method MoveEnds(rows: nat, ghost flushed: seq<Text>, reserved: nat, newReserved: nat)
      requires Layout(file, reserved, flushed) && reserved <= newReserved <= MAX_CAPACITY && rows == |flushed|
      modifies this`file
      ensures Layout(file, newReserved, flushed)
    {
      GrownLayout(file, reserved, newReserved, flushed);
      ghost var grown := Grown(file, reserved, newReserved, rows);
      var size := WORD * (rows + 1);
      var oldPosition, newPosition := WORD + reserved, WORD + newReserved;
      var ends := ReadAt(file, oldPosition, size);
      file := WriteAt(file, newPosition, ends);
      file := WriteAt(file, 0, Word(newReserved));
      file := Resize(file, newPosition + size);
      var oldEnd := oldPosition + size;
      if oldEnd > newPosition {
        oldEnd := newPosition;
      }
      if oldEnd > oldPosition {
        file := WriteAt(file, oldPosition, seq(oldEnd - oldPosition, _ => 0));
      }
      assert file == grown;
    }

    /** Writes the collected appends to the file. */
    method FlushPending()
      requires Valid() || NoRowsOnDisk() || MisplacedWithinLimit()
      modifies this`file, this`pendingRows, this`pendingDataSize
      ensures pendingRows == 0 && pendingDataSize == 0
      ensures old(Valid()) ==> Valid()
      ensures old(NoRowsOnDisk()) ==> NoRowsOnDisk()
      ensures old(MisplacedWithinLimit()) ==> LongRow(file, contents[0], variableCapacity)
    {
      hide InMemory, InBuffer, InFile;
      if pendingRows == 0 {
        if isDiskBacked && !MisplacedWithinLimit() {
          NothingPending();
        }
        return;
      }
      FlushRows();
    }

    method FlushRows()
      requires (Valid() || MisplacedWithinLimit()) && pendingRows > 0
      modifies this`file, this`pendingRows, this`pendingDataSize
      ensures pendingRows == 0 && pendingDataSize == 0
      ensures old(Valid()) ==> Valid()
      ensures old(MisplacedWithinLimit()) ==> LongRow(file, contents[0], variableCapacity)
    {
      hide InMemory, InBuffer, InFile;
      ghost var valid, misplaced := Valid(), MisplacedWithinLimit();
      var flushedRows := rowCount - pendingRows;
      PendingIsReady(flushedRows);
      var reserved := GrowFile(flushedRows, contents[..flushedRows]);
      WritePending(flushedRows, reserved, valid, misplaced);
      pendingRows := 0;
      pendingDataSize := 0;
      if valid {
        FlushedIsValid();
      }
    }

    lemma {:induction false} PendingIsReady(flushedRows: nat)
      requires (Valid() || MisplacedWithinLimit()) && pendingRows > 0 && flushedRows == rowCount - pendingRows
      ensures rowCount == |contents| && Proper(settings)
      ensures InFile(file, contents[..flushedRows]) && Total(contents[..flushedRows]) <= variableCapacity <= MAX_TOTAL
      ensures pendingDataSize <= pendingData.Length && pendingDataSize <= variableCapacity && pendingRows <= pendingOffsets.Length
      ensures Valid() ==> isDiskBacked && variableCapacity == Total(contents) && (pendingData.Length > 0 && pendingOffsets.Length == PENDING_ROWS)
      ensures Valid() ==> InBuffer(contents, flushedRows, pendingData[..], pendingOffsets[..], pendingDataSize)
      ensures MisplacedWithinLimit() ==> flushedRows == 0 && pendingRows == 1 && pendingOffsets[0] == variableCapacity
      ensures MisplacedWithinLimit() ==> pendingData[..pendingDataSize] == contents[0]
    {
      if Valid() {
        BufferSizes(contents, flushedRows);
      } else {
        assert contents[..0] == [];
      }
    }

    lemma {:induction false} NothingPending()
      requires (Valid() || NoRowsOnDisk()) && isDiskBacked && pendingRows == 0
      ensures pendingDataSize == 0 && InFile(file, contents) && (Valid() ==> variableCapacity == Total(contents) <= MAX_TOTAL)
    {
      assert contents[..|contents|] == contents;
      assert Flat(contents[|contents|..]) == [];
    }

    lemma {:induction false} FlushedIsValid()
      requires Proper(settings) && rowCount == |contents| && isDiskBacked && variableCapacity == Total(contents) <= MAX_TOTAL
      requires pendingData.Length > 0 ==> pendingOffsets.Length == PENDING_ROWS
      requires pendingRows == 0 && pendingDataSize == 0 && InFile(file, contents)
      ensures Valid()
    {
      assert contents[..rowCount] == contents;
      EmptyBuffer(contents, pendingData[..], pendingOffsets[..]);
    }

    /** The data behind the flushed data, the ends behind the flushed ends. */
    method WritePending(flushedRows: nat, reserved: nat, ghost valid: bool, ghost misplaced: bool)
      requires flushedRows + pendingRows == |contents| && variableCapacity <= reserved <= MAX_CAPACITY
      requires pendingDataSize <= pendingData.Length && pendingDataSize <= variableCapacity && pendingRows <= pendingOffsets.Length
      requires Layout(file, reserved, contents[..flushedRows])
      requires valid ==> variableCapacity == Total(contents)
      requires valid ==> InBuffer(contents, flushedRows, pendingData[..], pendingOffsets[..], pendingDataSize)
      requires misplaced ==> flushedRows == 0 && pendingRows == 1 && pendingOffsets[0] == variableCapacity
      requires misplaced ==> pendingData[..pendingDataSize] == contents[0]
      modifies this`file
      ensures valid ==> InFile(file, contents)
      ensures misplaced ==> LongRow(file, contents[0], variableCapacity)
    {
      hide *;
      var bytes, ends := pendingData[..pendingDataSize], pendingOffsets[..pendingRows];
      if valid {
        ValidWritten(flushedRows, reserved, bytes, ends);
      }
      if misplaced {
        MisplacedWritten(reserved, bytes, ends);
      }
      AppendToFile(reserved, variableCapacity - pendingDataSize, flushedRows, bytes, ends);
    }

    lemma {:induction false} ValidWritten(flushedRows: nat, reserved: nat, bytes: seq<Byte>, ends: seq<nat>)
      requires flushedRows + pendingRows == |contents| && variableCapacity == Total(contents) <= reserved <= MAX_CAPACITY
      requires pendingDataSize <= pendingData.Length && pendingDataSize <= variableCapacity && pendingRows <= pendingOffsets.Length
      requires Layout(file, reserved, contents[..flushedRows])
      requires InBuffer(contents, flushedRows, pendingData[..], pendingOffsets[..], pendingDataSize)
      requires bytes == pendingData[..pendingDataSize] && ends == pendingOffsets[..pendingRows]
      ensures InFile(Appended(file, reserved, variableCapacity - pendingDataSize, flushedRows, bytes, ends), contents)
    {
      hide *;
      assert pendingOffsets[..][..|contents| - flushedRows] == ends && pendingData[..][..pendingDataSize] == bytes;
      BufferedWritten(file, reserved, contents, flushedRows, pendingData[..], pendingOffsets[..], pendingDataSize);
    }

    lemma {:induction false} MisplacedWritten(reserved: nat, bytes: seq<Byte>, ends: seq<nat>)
      requires |contents| > 0 && variableCapacity <= reserved <= MAX_CAPACITY && pendingDataSize == |bytes| <= variableCapacity
      requires Layout(file, reserved, contents[..0]) && bytes == contents[0] && ends == [variableCapacity]
      ensures LongRow(Appended(file, reserved, variableCapacity - pendingDataSize, 0, bytes, ends), contents[0], variableCapacity)
    {
      assert contents[..0] == [];
      LongRowWritten(file, reserved, contents[0], variableCapacity);
    }

    method AppendToFile(reserved: nat, flushed: nat, rows: nat, bytes: seq<Byte>, ends: seq<nat>)
      modifies this`file
      ensures file == Appended(old(file), reserved, flushed, rows, bytes, ends)
    {
      if |bytes| > 0 {
        file := WriteAt(file, WORD + flushed, bytes);
      }
      file := WriteAt(file, WORD + reserved + WORD * rows, Words(ends));
    }

    /** The buffer takes so many more bytes as one more row. */
    ghost predicate HasRoom(size: nat)
      reads this
    {
      pendingRows < PENDING_ROWS && pendingDataSize + size <= if pendingData.Length == 0 then PENDING_BYTES else pendingData.Length
    }

    /** Collects one append; the buffer is written out first when, and only when, it is
        full. */
    method AddDiskBacked(x: Text)
      requires (Valid() && isDiskBacked) || NoRowsOnDisk()
      requires Total(contents) + |x| <= MAX_TOTAL
      modifies this, pendingData, pendingOffsets
      ensures contents == old(contents) + [x] && isDiskBacked
      ensures old(Valid()) ==> Valid()
      ensures old(NoRowsOnDisk()) ==> OneRowMisplaced() && variableCapacity == Wrap64(old(variableCapacity) + |x|)
      ensures if old(HasRoom(|x|))
              then file == old(file) && pendingRows == old(pendingRows) + 1 && pendingDataSize == old(pendingDataSize) + |x|
              else pendingRows == 1 && pendingDataSize == |x|
      ensures data == old(data) && offsets == old(offsets)
      ensures pendingData == old(pendingData) || fresh(pendingData)
      ensures pendingOffsets == old(pendingOffsets) || fresh(pendingOffsets)
    {
      hide Valid, NoRowsOnDisk, OneRowMisplaced;
      OnDiskHas();
      PrepareBuffer(|x|);
      BufferOne(x);
    }

    method PrepareBuffer(size: nat)
      requires (Valid() && isDiskBacked) || NoRowsOnDisk()
      modifies this`file, this`pendingRows, this`pendingDataSize, this`pendingData, this`pendingOffsets
      ensures pendingData.Length > 0 && pendingRows < PENDING_ROWS && pendingDataSize + size <= pendingData.Length
      ensures if old(HasRoom(size))
              then file == old(file) && pendingRows == old(pendingRows) && pendingDataSize == old(pendingDataSize)
              else pendingRows == 0 && pendingDataSize == 0
      ensures old(Valid()) ==> Valid()
      ensures old(NoRowsOnDisk()) ==> NoRowsOnDisk()
      ensures pendingData == old(pendingData) || fresh(pendingData)
      ensures pendingOffsets == old(pendingOffsets) || fresh(pendingOffsets)
    {
      hide InMemory, InBuffer, InFile;
      AllocatePending();
      MakeRoom(size);
    }

    method AllocatePending()
      requires (Valid() && isDiskBacked) || NoRowsOnDisk()
      modifies this`pendingData, this`pendingOffsets
      ensures pendingData.Length == if old(pendingData).Length == 0 then PENDING_BYTES else old(pendingData).Length
      ensures old(Valid()) ==> Valid()
      ensures old(NoRowsOnDisk()) ==> NoRowsOnDisk()
      ensures pendingData == old(pendingData) || fresh(pendingData)
      ensures pendingOffsets == old(pendingOffsets) || fresh(pendingOffsets)
    {
      hide InMemory, InBuffer, InFile;
      if pendingData.Length == 0 {
        ghost var valid := Valid();
        NothingPending();
        pendingData := new Byte[PENDING_BYTES](_ => 0);
        pendingOffsets := new nat[PENDING_ROWS](_ => 0);
        if valid {
          FlushedIsValid();
        }
      }
    }

    method MakeRoom(size: nat)
      requires (Valid() && isDiskBacked) || NoRowsOnDisk()
      requires pendingData.Length > 0
      modifies this`file, this`pendingRows, this`pendingDataSize, this`pendingData
      ensures pendingData.Length > 0
      ensures old(Valid()) ==> Valid()
      ensures old(NoRowsOnDisk()) ==> NoRowsOnDisk()
      ensures pendingRows < PENDING_ROWS && pendingDataSize + size <= pendingData.Length
      ensures if old(HasRoom(size))
              then file == old(file) && pendingRows == old(pendingRows) && pendingDataSize == old(pendingDataSize)
              else pendingRows == 0 && pendingDataSize == 0
      ensures pendingData == old(pendingData) || fresh(pendingData)
    {
      hide InMemory, InFile;
      if pendingRows == PENDING_ROWS || pendingDataSize + size > pendingData.Length {
        FlushPending();
      }
      if size > pendingData.Length {
        ghost var valid := Valid();
        NothingPending();
        pendingData := new Byte[AlignUp(size, PENDING_ALIGN)](_ => 0);
        if valid {
          FlushedIsValid();
        }
      }
    }

    /** The row is behind everything in the buffer. */
    twostate predicate Pushed(x: Text)
      reads this, pendingData, pendingOffsets
    {
      && isDiskBacked == old(isDiskBacked) && file == old(file)
      && pendingData == old(pendingData) && pendingOffsets == old(pendingOffsets)
      && contents == old(contents) + [x] && rowCount == old(rowCount) + 1 && variableCapacity == Wrap64(old(variableCapacity) + |x|)
      && pendingRows == old(pendingRows) + 1 <= pendingOffsets.Length && pendingDataSize == old(pendingDataSize) + |x| <= pendingData.Length
      && pendingData[..old(pendingDataSize)] == old(pendingData[..])[..old(pendingDataSize)]
      && pendingData[old(pendingDataSize)..pendingDataSize] == x
      && pendingOffsets[..old(pendingRows)] == old(pendingOffsets[..])[..old(pendingRows)]
      && pendingOffsets[old(pendingRows)] == variableCapacity
    }

    method PushPending(x: Text)
      requires pendingRows < pendingOffsets.Length && pendingDataSize + |x| <= pendingData.Length
      modifies this`variableCapacity, this`pendingDataSize, this`pendingRows, this`rowCount, this`contents, pendingData, pendingOffsets
      ensures Pushed(x)
    {
      forall i | 0 <= i < |x| {
        pendingData[pendingDataSize + i] := x[i];
      }
      pendingDataSize := pendingDataSize + |x|;
      variableCapacity := Wrap64(variableCapacity + |x|);
      pendingOffsets[pendingRows] := variableCapacity;
      pendingRows := pendingRows + 1;
      rowCount := rowCount + 1;
      contents := contents + [x];
    }

    method BufferOne(x: Text)
      requires (Valid() && isDiskBacked) || NoRowsOnDisk()
      requires Total(contents) + |x| <= MAX_TOTAL
      requires pendingData.Length > 0 && pendingRows < PENDING_ROWS && pendingDataSize + |x| <= pendingData.Length
      modifies this`variableCapacity, this`pendingDataSize, this`pendingRows, this`rowCount, this`contents, pendingData, pendingOffsets
      ensures contents == old(contents) + [x]
      ensures pendingRows == old(pendingRows) + 1 && pendingDataSize == old(pendingDataSize) + |x|
      ensures old(Valid()) ==> Valid()
      ensures old(NoRowsOnDisk()) ==> OneRowMisplaced() && variableCapacity == Wrap64(old(variableCapacity) + |x|)
    {
      hide Valid, NoRowsOnDisk, OneRowMisplaced, Total;
      label before:
      ghost var valid, none := Valid(), NoRowsOnDisk();
      OnDiskHas();
      PushPending(x);
      if valid {
        PushedValid@before(x);
      }
      if none {
        PushedFirst@before(x);
      }
    }

    lemma {:induction false} OnDiskHas()
      requires (Valid() && isDiskBacked) || NoRowsOnDisk()
      ensures isDiskBacked && (pendingData.Length > 0 ==> pendingOffsets.Length == PENDING_ROWS)
    {
    }

    twostate lemma {:induction false} PushedFirst(x: Text)
      requires old(NoRowsOnDisk()) && pendingData.Length > 0 && Pushed(x)
      ensures OneRowMisplaced()
    {
      assert contents[0] == x && pendingData[0..pendingDataSize] == pendingData[..pendingDataSize];
    }

    /** Pushing a row keeps the column valid. */
    twostate lemma {:induction false} PushedValid(x: Text)
      requires old(Valid()) && isDiskBacked && pendingData.Length > 0 && Total(old(contents)) + |x| <= MAX_TOTAL && Pushed(x)
      ensures Valid()
    {
      var xs, flushed := old(contents), |contents| - pendingRows;
      FlatPushed(xs, x);
      BufferPushed(xs, flushed, old(pendingData[..]), old(pendingOffsets[..]), old(pendingDataSize), x, pendingData[..], pendingOffsets[..]);
      assert contents[..flushed] == xs[..flushed];
    }

    /** Writes the whole column to a file. Its size becomes the last row's end; without
        a row that is the word before the array of ends, which can be anything. */
    method ConvertToDiskBacked(wordBefore: nat)
      requires Valid() && !isDiskBacked
      modifies this`file, this`variableCapacity, this`isDiskBacked, this`data, this`offsets, this`capacity
      ensures isDiskBacked && fresh(data) && fresh(offsets)
      ensures rowCount > 0 || wordBefore == 0 ==> Valid()
      ensures rowCount == 0 ==> NoRowsOnDisk() && variableCapacity == wordBefore
    {
      hide Valid, InMemory, InFile;
      MemoryHas();
      var end := WordBeforeEnd(wordBefore);
      file := Converted(file, data[..variableCapacity], offsets[..rowCount]);
      variableCapacity := end;
      isDiskBacked := true;
      data, offsets, capacity := new Byte[0], new nat[0], 0;
      if rowCount > 0 || wordBefore == 0 {
        FlushedIsValid();
      }
    }

    lemma {:induction false} MemoryHas()
      requires Valid() && !isDiskBacked
      ensures Proper(settings) && rowCount == |contents| && Total(contents) <= variableCapacity && Total(contents) <= MAX_TOTAL
      ensures pendingRows == 0 && pendingDataSize == 0 && (pendingData.Length > 0 ==> pendingOffsets.Length == PENDING_ROWS)
      ensures variableCapacity <= data.Length && rowCount <= offsets.Length == capacity
      ensures InMemory(contents, data[..], offsets[..], variableCapacity)
    {
    }

    lemma {:induction false} MemoryIsValid()
      requires Proper(settings) && !isDiskBacked && rowCount == |contents| && Total(contents) <= MAX_TOTAL
      requires pendingRows == 0 && pendingDataSize == 0 && (pendingData.Length > 0 ==> pendingOffsets.Length == PENDING_ROWS)
      requires offsets.Length == capacity && InMemory(contents, data[..], offsets[..], variableCapacity)
      ensures Valid()
    {
    }

    /** The word before the end of the array of ends. */
    method WordBeforeEnd(wordBefore: nat) returns (end: nat)
      requires Valid() && !isDiskBacked
      ensures end == if rowCount > 0 then Total(contents) else wordBefore
      ensures InFile(Converted(file, data[..variableCapacity], offsets[..rowCount]), contents)
    {
      ConvertedLayout(file, data[..variableCapacity], contents);
      if rowCount > 0 {
        EndsAreStarts(contents, rowCount);
        assert offsets[rowCount - 1] == offsets[..rowCount][rowCount - 1];
      }
      end := if rowCount > 0 then offsets[rowCount - 1] else wordBefore;
    }

    /** Twice as many ends fit, when the array is full. */
    method GrowOffsets()
      requires Valid() && !isDiskBacked
      modifies this`offsets, this`capacity
      ensures Valid() && rowCount < offsets.Length
      ensures offsets == old(offsets) || fresh(offsets)
    {
      if rowCount == capacity {
        var newCapacity := if capacity > 0 then capacity * 2 else settings.expandCount;
        var newOffsets := new nat[newCapacity](_ => 0);
        forall i | 0 <= i < rowCount {
          newOffsets[i] := offsets[i];
        }
        assert newOffsets[..rowCount] == offsets[..rowCount];
        offsets := newOffsets;
        capacity := newCapacity;
      }
    }

    method GrowData(newCapacity: nat)
      requires Valid() && !isDiskBacked && variableCapacity <= newCapacity <= MAX_CAPACITY
      modifies this`data, this`variableCapacity
      ensures Valid() && variableCapacity == newCapacity && fresh(data)
    {
      var newData := new Byte[newCapacity](_ => 0);
      forall i | 0 <= i < variableCapacity {
        newData[i] := data[i];
      }
      assert newData[..Total(contents)] == data[..Total(contents)];
      data := newData;
      variableCapacity := newCapacity;
    }

    method StoreInMemory(x: Text, start: nat)
      requires Valid() && !isDiskBacked && rowCount < offsets.Length && Total(contents) + |x| <= variableCapacity
      requires start == Total(contents) && start + |x| <= MAX_TOTAL
      modifies this`rowCount, this`contents, data, offsets
      ensures Valid() && contents == old(contents) + [x]
    {
      ghost var xs, d, o := contents, data[..], offsets[..];
      forall i | 0 <= i < |x| {
        data[start + i] := x[i];
      }
      offsets[rowCount] := start + |x|;
      rowCount := rowCount + 1;
      contents := contents + [x];
      FlatPushed(xs, x);
      MemoryPushed(xs, d, o, variableCapacity, x, data[..], offsets[..]);
    }

    /** The column would be converted while it holds no row. */
    predicate ConvertsEmpty(size: nat)
      requires Proper(settings)
      reads this
    {
      !isDiskBacked && rowCount == 0 && GoesToDisk(settings, variableCapacity, size)
    }

    /** Appends a string, the empty one for no data. A column that outgrows the
        threshold goes to disk first; the list is kept unless that column has no row
        and the word before its array of ends is not zero. */
    method AddData(value: Option<Text>, wordBefore: nat)
      requires Valid() && IsU64(wordBefore)
      requires Total(contents) + SizeOf(value) <= MAX_TOTAL
      modifies this, data, offsets, pendingData, pendingOffsets
      ensures contents == old(contents) + [if value.Some? then value.value else []]
      ensures Valid() <==> !old(ConvertsEmpty(SizeOf(value))) || wordBefore == 0
      ensures isDiskBacked <==> old(isDiskBacked || GoesToDisk(settings, variableCapacity, Total(contents) + SizeOf(value)))
      ensures old(ConvertsEmpty(SizeOf(value))) ==> OneRowMisplaced() && variableCapacity == Wrap64(wordBefore + SizeOf(value))
      ensures old(!isDiskBacked && !GoesToDisk(settings, variableCapacity, Total(contents) + SizeOf(value))) ==>
                !isDiskBacked && variableCapacity == old(CapacityFor(Total(contents) + SizeOf(value)))
      ensures data == old(data) || fresh(data)
      ensures offsets == old(offsets) || fresh(offsets)
      ensures pendingData == old(pendingData) || fresh(pendingData)
      ensures pendingOffsets == old(pendingOffsets) || fresh(pendingOffsets)
    {
      hide InMemory, InBuffer, InFile;
      var x := if value.Some? then value.value else [];
      if isDiskBacked {
        AddDiskBacked(x);
      } else {
        GrowOffsets();
        AddInMemory(x, wordBefore);
      }
    }

    function CapacityFor(required: nat): nat
      requires Proper(settings)
      reads this
    {
      if required > variableCapacity then GrownCapacity(settings, variableCapacity, required) else variableCapacity
    }

    method AddInMemory(x: Text, wordBefore: nat)
      requires Valid() && !isDiskBacked && rowCount < offsets.Length && IsU64(wordBefore) && Total(contents) + |x| <= MAX_TOTAL
      modifies this, data, offsets, pendingData, pendingOffsets
      ensures contents == old(contents) + [x]
      ensures Valid() <==> !old(ConvertsEmpty(|x|)) || wordBefore == 0
      ensures old(ConvertsEmpty(|x|)) ==> OneRowMisplaced() && variableCapacity == Wrap64(wordBefore + |x|)
      ensures isDiskBacked <==> old(GoesToDisk(settings, variableCapacity, Total(contents) + |x|))
      ensures old(!GoesToDisk(settings, variableCapacity, Total(contents) + |x|)) ==>
                !isDiskBacked && variableCapacity == old(CapacityFor(Total(contents) + |x|))
      ensures data == old(data) || fresh(data)
      ensures offsets == old(offsets) || fresh(offsets)
      ensures pendingData == old(pendingData) || fresh(pendingData)
      ensures pendingOffsets == old(pendingOffsets) || fresh(pendingOffsets)
    {
      hide InMemory, InBuffer, InFile;
      var previous := LastEnd();
      if GoesToDisk(settings, variableCapacity, previous + |x|) {
        AddOnDisk(x, wordBefore);
      } else {
        AddGrown(x, previous);
      }
    }

    method AddGrown(x: Text, previous: nat)
      requires Valid() && !isDiskBacked && rowCount < offsets.Length && previous == Total(contents) && previous + |x| <= MAX_TOTAL
      modifies this`data, this`variableCapacity, this`rowCount, this`contents, data, offsets
      ensures Valid() && !isDiskBacked && contents == old(contents) + [x] && variableCapacity == old(CapacityFor(previous + |x|))
      ensures data == old(data) || fresh(data)
    {
      hide InMemory, InBuffer, InFile;
      var required := previous + |x|;
      if required > variableCapacity {
        GrowData(GrownCapacity(settings, variableCapacity, required));
      }
      StoreInMemory(x, previous);
    }

    /** Goes to disk and appends there. */
    method AddOnDisk(x: Text, wordBefore: nat)
      requires Valid() && !isDiskBacked && IsU64(wordBefore) && Total(contents) + |x| <= MAX_TOTAL
      modifies this, pendingData, pendingOffsets
      ensures contents == old(contents) + [x] && isDiskBacked
      ensures Valid() <==> old(rowCount) > 0 || wordBefore == 0
      ensures old(rowCount) == 0 ==> OneRowMisplaced() && variableCapacity == Wrap64(wordBefore + |x|)
      ensures fresh(data) && fresh(offsets)
      ensures pendingData == old(pendingData) || fresh(pendingData)
      ensures pendingOffsets == old(pendingOffsets) || fresh(pendingOffsets)
    {
      hide Valid, NoRowsOnDisk, OneRowMisplaced, Total;
      MemoryHas();
      ghost var lost := rowCount == 0 && wordBefore != 0;
      ConvertToDiskBacked(wordBefore);
      AddDiskBacked(x);
      if lost {
        WrappedIsSame(wordBefore, |x|);
        MisplacedIsWrong();
      }
    }

    /** A misplaced row makes the column wrong unless its end is its size. */
    lemma {:induction false} MisplacedIsWrong()
      requires OneRowMisplaced() && variableCapacity != |contents[0]|
      ensures !Valid()
    {
      assert contents == [] + [contents[0]];
      FlatPushed([], contents[0]);
    }

    method LastEnd() returns (end: nat)
      requires Valid() && !isDiskBacked
      ensures end == Total(contents)
    {
      if rowCount > 0 {
        EndsAreStarts(contents, rowCount);
        assert offsets[rowCount - 1] == offsets[..rowCount][rowCount - 1];
      }
      end := if rowCount > 0 then offsets[rowCount - 1] else 0;
    }

    /** Brings a column on disk back into memory. */
    method MaterializeToMemory()
      requires Valid()
      modifies this
      ensures Valid() && contents == old(contents) && !isDiskBacked
      ensures old(isDiskBacked) ==> fresh(data) && fresh(offsets)
      ensures !old(isDiskBacked) ==> data == old(data) && offsets == old(offsets)
      ensures pendingData == old(pendingData) && pendingOffsets == old(pendingOffsets)
    {
      hide InMemory, InBuffer, InFile;
      FlushPending();
      if !isDiskBacked {
        return;
      }
      LoadFromFile();
    }

    method LoadFromFile()
      requires Valid() && isDiskBacked && pendingRows == 0 && pendingDataSize == 0
      modifies this`data, this`offsets, this`variableCapacity, this`capacity, this`isDiskBacked
      ensures Valid() && !isDiskBacked && fresh(data) && fresh(offsets)
    {
      assert contents[..rowCount] == contents;
      ReservedInFile(file, contents);
      var size, ends, bytes := ReadAll();
      isDiskBacked := false;
      StoreAll(size, ends, bytes);
    }

    method StoreAll(size: nat, ends: seq<nat>, bytes: seq<Byte>)
      requires size == Total(contents) <= MAX_TOTAL && ends == Ends(contents) && bytes == Flat(contents) && rowCount == |contents|
      modifies this`data, this`offsets, this`variableCapacity, this`capacity
      ensures InMemory(contents, data[..], offsets[..], variableCapacity) && capacity == offsets.Length
      ensures fresh(data) && fresh(offsets)
    {
      data := new Byte[if size > 1 then size else 1](i => if 0 <= i < |bytes| then bytes[i] else 0);
      offsets := new nat[if rowCount > 1 then rowCount else 1](i => if 0 <= i < |ends| then ends[i] else 0);
      variableCapacity := size;
      capacity := offsets.Length;
      assert data[..Total(contents)] == bytes;
      assert offsets[..rowCount] == ends;
    }

    /** All bytes and ends, from the file. */
    method ReadAll() returns (size: nat, ends: seq<nat>, bytes: seq<Byte>)
      requires Valid() && isDiskBacked && Layout(file, Reserved(file), contents)
      ensures size == Total(contents) && ends == Ends(contents) && bytes == Flat(contents)
    {
      if rowCount == 0 {
        return 0, [], [];
      }
      var reserved := ReadWord(file, 0, Reserved(file));
      RowOnDisk(file, reserved, contents, rowCount - 1);
      EndsAreStarts(contents, rowCount);
      size := ReadWord(file, WORD + reserved + WORD * (rowCount - 1), EndOf(contents, rowCount - 1));
      bytes := ReadAt(file, WORD, size);
      ends := ReadEnds(reserved);
    }

    method ReadEnds(reserved: nat) returns (ends: seq<nat>)
      requires rowCount == |contents| && Layout(file, reserved, contents)
      ensures ends == Ends(contents)
    {
      ends := [];
      for row := 0 to rowCount
        invariant ends == Ends(contents)[..row]
      {
        RowOnDisk(file, reserved, contents, row);
        var end := ReadWord(file, WORD + reserved + WORD * row, EndOf(contents, row));
        ends := ends + [end];
      }
    }

    /** Removes a row; a column on disk comes into memory first. */
    method RemoveData(row: nat)
      requires Valid()
      modifies this, data, offsets
      ensures Valid() && contents == if row < |old(contents)| then Without(old(contents), row) else old(contents)
      ensures isDiskBacked <==> old(isDiskBacked) && row >= |old(contents)|
      ensures row < |old(contents)| && !old(isDiskBacked) ==>
                !isDiskBacked && variableCapacity == old(variableCapacity) - |old(contents)[row]|
      ensures data == old(data) || fresh(data)
      ensures offsets == old(offsets) || fresh(offsets)
      ensures pendingData == old(pendingData) && pendingOffsets == old(pendingOffsets)
    {
      hide InMemory, InBuffer, InFile;
      if row >= rowCount {
        return;
      }
      if isDiskBacked {
        MaterializeToMemory();
      }
      CloseGap(row);
    }

    method CloseGap(row: nat)
      requires Valid() && !isDiskBacked && row < rowCount
      modifies this`rowCount, this`variableCapacity, this`contents, data, offsets
      ensures Valid() && contents == Without(old(contents), row)
      ensures variableCapacity == old(variableCapacity) - |old(contents)[row]|
    {
      hide Valid, InMemory, StartOf, EndOf, IsShifted, Total;
      MemoryHas();
      ghost var xs, d, o := contents, data[..], offsets[..];
      StringBetweenEnds(xs, row);
      EndsCover(row);
      var start, end := Bounds(row);
      var removed := end - start;
      MoveBytes(start, end, Total(xs));
      ShiftEnds(row, removed);
      assert removed == |xs[row]|;
      variableCapacity := variableCapacity - removed;
      rowCount := rowCount - 1;
      contents := Without(contents, row);
      FlatWithout(xs, row);
      MemoryRemoved(xs, d, o, old(variableCapacity), row, data[..], offsets[..]);
      MemoryIsValid();
    }

    /** Start and end of a row in memory. */
    method Bounds(row: nat) returns (start: nat, end: nat)
      requires Valid() && !isDiskBacked && row < rowCount
      ensures start == StartOf(contents, row) && end == EndOf(contents, row)
    {
      EndsAreStarts(contents, row + 1);
      assert offsets[row] == offsets[..rowCount][row];
      if row > 0 {
        EndsAreStarts(contents, row);
        assert offsets[row - 1] == offsets[..rowCount][row - 1];
      }
      start := if row > 0 then offsets[row - 1] else 0;
      end := offsets[row];
    }

    /** Moves everything behind a gap down; of the live bytes up to total, those
        behind the gap now follow those before it. */
    method MoveBytes(start: nat, end: nat, ghost total: nat)
      requires start <= end <= total <= variableCapacity <= data.Length
      modifies data
      ensures data[..start] == old(data[..start])
      ensures data[start..start + (total - end)] == old(data[end..total])
    {
      ghost var before := data[..];
      forall i | 0 <= i < variableCapacity - end {
        data[start + i] := data[end + i];
      }
      assert forall i :: start <= i < start + (total - end) ==> data[i] == before[i - start + end];
      assert data[start..start + (total - end)] == before[end..total];
    }

    lemma {:induction false} EndsCover(row: nat)
      requires Valid() && !isDiskBacked && row < rowCount
      ensures forall i :: row < i < rowCount ==> |contents[row]| <= offsets[i]
    {
      forall i | row < i < rowCount
        ensures |contents[row]| <= offsets[i]
      {
        LaterEnd(contents, row, i);
        assert offsets[i] == offsets[..rowCount][i];
      }
    }

    /** The ends behind a removed row move one place down and lose its size. */
    method ShiftEnds(row: nat, removed: nat)
      requires row < rowCount <= offsets.Length
      requires forall i :: row < i < rowCount ==> removed <= offsets[i]
      modifies offsets
      ensures forall i: nat :: i < rowCount - 1 ==> IsShifted(old(offsets[..]), offsets[..], row, removed, i)
    {
      ghost var before := offsets[..];
      for i := row to rowCount - 1
        invariant forall k :: 0 <= k < row ==> offsets[k] == before[k]
        invariant forall k :: row <= k < i ==> offsets[k] == before[k + 1] - removed
        invariant forall k :: i <= k < offsets.Length ==> offsets[k] == before[k]
      {
        offsets[i] := offsets[i + 1] - removed;
      }
    }

    /** The string of a row, the empty one beyond the end. A misplaced row comes back
        with everything between the start of the data and its recorded end. */
    method GetString(row: nat) returns (result: Text)
      requires Valid() || MisplacedWithinLimit()
      modifies this`file, this`pendingRows, this`pendingDataSize
      ensures old(Valid()) ==> Valid() && result == if row < |contents| then contents[row] else []
      ensures old(MisplacedWithinLimit()) && row == 0 ==>
                |result| == variableCapacity && result[variableCapacity - |contents[0]|..] == contents[0]
    {
      hide InMemory, InBuffer, InFile;
      ghost var valid := Valid();
      FlushPending();
      if row >= rowCount {
        return [];
      }
      if isDiskBacked {
        RowTextIs(row, valid);
        result := ReadRow(row);
      } else {
        result := ReadMemory(row);
      }
    }

    /** What the file gives for a row, after a flush. */
    lemma {:induction false} RowTextIs(row: nat, valid: bool)
      requires isDiskBacked && row < rowCount
      requires valid ==> Valid() && pendingRows == 0
      ensures valid ==> RowText(file, row) == contents[row]
      ensures |contents| > 0 && row == 0 && LongRow(file, contents[0], variableCapacity) ==>
                |RowText(file, 0)| == variableCapacity && RowText(file, 0)[variableCapacity - |contents[0]|..] == contents[0]
    {
      if valid {
        assert contents[..rowCount] == contents;
        RowTextInFile(file, contents, row);
      }
      if |contents| > 0 && LongRow(file, contents[0], variableCapacity) {
        LongRowText(file, contents[0], variableCapacity);
      }
    }

    method ReadMemory(row: nat) returns (result: Text)
      requires Valid() && !isDiskBacked && row < rowCount
      ensures result == contents[row]
    {
      var start, end := Bounds(row);
      StringBetweenEnds(contents, row);
      assert data[start..end] == data[..Total(contents)][start..end];
      result := if end >= start && end <= variableCapacity then data[start..end] else [];
    }

    method ReadRow(row: nat) returns (result: Text)
      ensures result == RowText(file, row)
    {
      var reserved := WordIn(file, 0);
      var start := 0;
      if row > 0 {
        start := WordIn(file, WORD + reserved + WORD * (row - 1));
      }
      var end := WordIn(file, WORD + reserved + WORD * row);
      result := if end < start then INVALID_STRING else ReadAt(file, WORD + start, end - start);
    }
  }

  /** A fresh column after a string of 2047 bytes has been appended and removed. */
  method Emptied(first: Text) returns (column: StringColumn)
    requires |first| == 2047
    ensures fresh(column) && fresh(column.data) && fresh(column.offsets) && fresh(column.pendingData) && fresh(column.pendingOffsets)
    ensures column.Valid() && column.contents == [] && column.settings == DEFAULTS
    ensures !column.isDiskBacked && column.rowCount == 0 && column.variableCapacity == 2049
  {
    column := new StringColumn(DEFAULTS);
    FirstCapacity();
    column.AddData(Some(first), 0);
    assert column.contents == [first];
    column.RemoveData(0);
  }

  /** A column that has been emptied gets a string of little more than 32 MB: what is
      read back is that string exactly when the word before the array of ends is 0. */
  method AppendToEmptied(first: Text, second: Text, wordBefore: nat) returns (read: Text)
    requires |first| == 2047 && |second| == 33_570_817 && wordBefore + |second| <= MAX_TOTAL
    ensures read == second <==> wordBefore == 0
    ensures |read| == wordBefore + |second|
  {
    var column := Emptied(first);
    EmptiedGoesToDisk();
    column.AddData(Some(second), wordBefore);
    read := column.GetString(0);
  }
}
