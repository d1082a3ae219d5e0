/** A secondary index: the row numbers of a table in the order of one column's
    keys, kept sorted under inserts and removals of rows. */
module SortedIndex {

  datatype Key = Number(value: real) | Text(bytes: seq<nat>)

  predicate TextLess(a: seq<nat>, b: seq<nat>) {
    if b == [] then false
    else if a == [] then true
    else a[0] < b[0] || (a[0] == b[0] && TextLess(a[1..], b[1..]))
  }

  /** Numbers by size, texts byte by byte with a shorter prefix first. */
  predicate Less(a: Key, b: Key) {
    match (a, b)
    case (Number(x), Number(y)) => x < y
    case (Text(s), Text(t)) => TextLess(s, t)
    case (Number(_), Text(_)) => true
    case (Text(_), Number(_)) => false
  }

  /** The texts agree on their first k bytes, and then a ends, or has the smaller byte. */
  predicate ComesFirst(a: seq<nat>, b: seq<nat>, k: nat) {
    && k <= |a| && k < |b| && a[..k] == b[..k]
    && (k == |a| || a[k] < b[k])
  }

  /** At the first differing byte the smaller one comes first, and a prefix comes before
      what it is a prefix of. */
  lemma {:induction false} TextLessIff(a: seq<nat>, b: seq<nat>)
    ensures TextLess(a, b) <==> exists k: nat :: ComesFirst(a, b, k)
  {
    if a == [] && b != [] {
      assert ComesFirst(a, b, 0);
    } else if a != [] && b != [] {
      TextLessIff(a[1..], b[1..]);
      if a[0] < b[0] {
        assert ComesFirst(a, b, 0);
      }
      if k: nat :| ComesFirst(a[1..], b[1..], k) && a[0] == b[0] {
        assert a[..k + 1] == [a[0]] + a[1..][..k] && b[..k + 1] == [b[0]] + b[1..][..k];
        assert ComesFirst(a, b, k + 1);
      }
      if k: nat :| ComesFirst(a, b, k) && !(a[0] < b[0]) {
        FirstAgree(a, b, k);
      }
    }
  }

  /** Keys ascend: numbers by size, texts by their bytes, and numbers before texts. */
  lemma {:induction false} LessIff(a: Key, b: Key)
    ensures a.Number? && b.Number? ==> (Less(a, b) <==> a.value < b.value)
    ensures a.Text? && b.Text? ==> (Less(a, b) <==> exists k: nat :: ComesFirst(a.bytes, b.bytes, k))
    ensures a.Number? != b.Number? ==> (Less(a, b) <==> a.Number?)
  {
    if a.Text? && b.Text? {
      TextLessIff(a.bytes, b.bytes);
    }
  }

  lemma {:induction false} FirstAgree(a: seq<nat>, b: seq<nat>, k: nat)
    requires a != [] && b != [] && ComesFirst(a, b, k) && !(a[0] < b[0])
    ensures k > 0 && a[0] == b[0] && ComesFirst(a[1..], b[1..], k - 1)
  {
    assert k > 0;
    assert a[..k][0] == b[..k][0] && a[1..][..k - 1] == a[..k][1..] && b[1..][..k - 1] == b[..k][1..];
  }

  lemma {:induction false} TextLessTransitive(a: seq<nat>, b: seq<nat>, c: seq<nat>)
    ensures !TextLess(a, a)
    ensures TextLess(a, b) && TextLess(b, c) ==> TextLess(a, c)
    ensures TextLess(a, b) || TextLess(b, a) || a == b
  {
    if a != [] && b != [] {
      TextLessTransitive(a[1..], b[1..], if c == [] then [] else c[1..]);
      assert a == [a[0]] + a[1..] && b == [b[0]] + b[1..];
    } else if a != [] {
      TextLessTransitive(a[1..], [], []);
    }
  }

  /** Keys are totally ordered. */
  lemma {:induction false} LessIsTotal(a: Key, b: Key, c: Key)
    ensures !Less(a, a)
    ensures Less(a, b) && Less(b, c) ==> Less(a, c)
    ensures Less(a, b) || Less(b, a) || a == b
  {
    if a.Text? && b.Text? && c.Text? {
      TextLessTransitive(a.bytes, b.bytes, c.bytes);
    } else if a.Text? && b.Text? {
      TextLessTransitive(a.bytes, b.bytes, []);
    } else if a.Text? {
      TextLessTransitive(a.bytes, [], []);
    }
  }

  lemma {:induction false} NotLessTransitive(a: Key, b: Key, c: Key)
    requires !Less(b, a) && !Less(c, b)
    ensures !Less(c, a)
  {
    LessIsTotal(c, a, b);
    LessIsTotal(a, b, c);
    LessIsTotal(b, c, a);
  }

  // ---- What an index order is ----

  predicate Distinct(order: seq<nat>) {
    forall i, j :: 0 <= i < j < |order| ==> order[i] != order[j]
  }

  predicate Below(order: seq<nat>, n: nat) {
    forall i :: 0 <= i < |order| ==> order[i] < n
  }

  predicate Sorted(order: seq<nat>, keys: seq<Key>)
    requires Below(order, |keys|)
  {
    forall i, j :: 0 <= i < j < |order| ==> !Less(keys[order[j]], keys[order[i]])
  }

  /** Every row of the table once, in the order of the keys. */
  predicate IsIndex(order: seq<nat>, keys: seq<Key>) {
    |order| == |keys| && Distinct(order) && Below(order, |keys|) && Sorted(order, keys)
  }

  lemma {:induction false} BelowSize(order: seq<nat>, n: nat)
    requires Distinct(order) && Below(order, n)
    ensures |order| <= n && (|order| == n ==> forall r: nat :: r < n ==> r in order)
  {
    assert |order| > 0 ==> order[0] < n;
    if n > 0 {
      if i :| 0 <= i < |order| && order[i] == n - 1 {
        var rest := order[..i] + order[i + 1..];
        BelowSize(rest, n - 1);
        forall r: nat | |order| == n && r < n
          ensures r in order
        {
          if r < n - 1 {
            assert r in rest;
          }
        }
      } else {
        BelowSize(order, n - 1);
      }
    }
  }

  /** An index lists every row of the table. */
  lemma {:induction false} IndexListsRow(order: seq<nat>, keys: seq<Key>, row: nat)
    requires IsIndex(order, keys) && row < |keys|
    ensures row in order
  {
    BelowSize(order, |keys|);
  }

  // ---- Inserting ----

  function Inserted(order: seq<nat>, slot: nat, row: nat): (after: seq<nat>)
    requires slot <= |order|
    ensures |after| == |order| + 1
  {
    order[..slot] + [row] + order[slot..]
  }

  /** The slot is the first one whose key is not less than the new key. */
  predicate IsLowerBound(order: seq<nat>, keys: seq<Key>, key: Key, slot: nat)
    requires Below(order, |keys|)
  {
    && slot <= |order|
    && (forall i :: 0 <= i < slot ==> Less(keys[order[i]], key))
    && (forall i :: slot <= i < |order| ==> !Less(keys[order[i]], key))
  }

  lemma {:induction false} InsertedIsIndex(order: seq<nat>, keys: seq<Key>, slot: nat, key: Key)
    requires IsIndex(order, keys) && IsLowerBound(order, keys, key, slot)
    ensures IsIndex(Inserted(order, slot, |keys|), keys + [key])
  {
    var after, more := Inserted(order, slot, |keys|), keys + [key];
    forall i, j | 0 <= i < j < |after|
      ensures after[i] != after[j] && !Less(more[after[j]], more[after[i]])
    {
      var a, b := more[after[i]], more[after[j]];
      LessIsTotal(a, b, a);
      if i < slot && j == slot {
        assert Less(keys[order[i]], key);
      } else if i == slot {
        assert order[j - 1] == after[j];
      }
    }
  }

  /** The first slot from i on whose key is not less than the new key. */
  function SlotFor(order: seq<nat>, keys: seq<Key>, key: Key, i: nat): (slot: nat)
    requires i <= |order| && Below(order, |keys|)
    ensures i <= slot <= |order|
    ensures forall k :: i <= k < slot ==> Less(keys[order[k]], key)
    ensures slot < |order| ==> !Less(keys[order[slot]], key)
    decreases |order| - i
  {
    if i < |order| && Less(keys[order[i]], key) then SlotFor(order, keys, key, i + 1) else i
  }

  lemma {:induction false} LowerBoundIsSlot(order: seq<nat>, keys: seq<Key>, key: Key, slot: nat)
    requires Below(order, |keys|) && IsLowerBound(order, keys, key, slot)
    ensures slot == SlotFor(order, keys, key, 0)
  {
    var s := SlotFor(order, keys, key, 0);
    var atSlotFor := if s < |order| then order[s] else 0;
    var atSlot := if slot < |order| then order[slot] else 0;
  }

  /** The order after a row with the given key has been appended to the table. */
  function WithNewRow(order: seq<nat>, keys: seq<Key>, key: Key): seq<nat>
    requires Below(order, |keys|)
  {
    Inserted(order, SlotFor(order, keys, key, 0), |keys|)
  }

  lemma {:induction false} NewRowKeepsIndex(order: seq<nat>, keys: seq<Key>, key: Key)
    requires IsIndex(order, keys)
    ensures IsIndex(WithNewRow(order, keys, key), keys + [key])
  {
    var slot := SlotFor(order, keys, key, 0);
    if slot < |order| {
      SortedAround(order, keys, key, slot);
    }
    InsertedIsIndex(order, keys, slot, key);
  }

  // ---- Removing ----

  function WithoutSlot(order: seq<nat>, slot: nat): (rest: seq<nat>)
    requires slot < |order|
    ensures |rest| == |order| - 1
  {
    order[..slot] + order[slot + 1..]
  }

  /** The number of a row after a smaller one is gone. */
  function Shifted(row: nat, removed: nat): nat {
    if row > removed then row - 1 else row
  }

  function Renumbered(order: seq<nat>, removed: nat): (after: seq<nat>)
    ensures |after| == |order|
  {
    seq(|order|, i requires 0 <= i < |order| => Shifted(order[i], removed))
  }

  function WithoutRow<T>(xs: seq<T>, row: nat): (rest: seq<T>)
    requires row < |xs|
    ensures |rest| == |xs| - 1
  {
    xs[..row] + xs[row + 1..]
  }

  lemma {:induction false} ShiftedKey(keys: seq<Key>, removed: nat, row: nat)
    requires removed < |keys| && row < |keys| && row != removed
    ensures Shifted(row, removed) < |keys| - 1 && WithoutRow(keys, removed)[Shifted(row, removed)] == keys[row]
  {
  }

  lemma {:induction false} RemovedIsIndex(order: seq<nat>, keys: seq<Key>, slot: nat)
    requires IsIndex(order, keys) && slot < |order|
    ensures IsIndex(Renumbered(WithoutSlot(order, slot), order[slot]), WithoutRow(keys, order[slot]))
  {
    var removed := order[slot];
    var rest := WithoutSlot(order, slot);
    var after, less := Renumbered(rest, removed), WithoutRow(keys, removed);
    forall i | 0 <= i < |rest|
      ensures rest[i] != removed && rest[i] < |keys| && after[i] < |less| && less[after[i]] == keys[rest[i]]
    {
      assert rest[i] == order[if i < slot then i else i + 1];
      ShiftedKey(keys, removed, rest[i]);
    }
    forall i, j | 0 <= i < j < |after|
      ensures after[i] != after[j] && !Less(less[after[j]], less[after[i]])
    {
      var a, b := if i < slot then i else i + 1, if j < slot then j else j + 1;
      assert rest[i] == order[a] && rest[j] == order[b] && a < b;
    }
  }

  /** The slot of a row, the end when it is not there. */
  function SlotOf(order: seq<nat>, row: nat, i: nat): (slot: nat)
    requires i <= |order|
    ensures i <= slot <= |order| && (slot < |order| ==> order[slot] == row)
    ensures slot == |order| ==> forall k :: i <= k < |order| ==> order[k] != row
    decreases |order| - i
  {
    if i < |order| && order[i] != row then SlotOf(order, row, i + 1) else i
  }

  /** The order after a row of the table is gone. */
  function WithoutOldRow(order: seq<nat>, row: nat): seq<nat> {
    var slot := SlotOf(order, row, 0);
    Renumbered(if slot < |order| then WithoutSlot(order, slot) else order, row)
  }

  lemma {:induction false} OldRowKeepsIndex(order: seq<nat>, keys: seq<Key>, row: nat)
    requires IsIndex(order, keys) && row < |keys|
    ensures IsIndex(WithoutOldRow(order, row), WithoutRow(keys, row))
  {
    IndexListsRow(order, keys, row);
    RemovedIsIndex(order, keys, SlotOf(order, row, 0));
  }

  // ---- The index ----

  class Index {
    const column: nat
    var order: array<nat>
    var count: nat
    ghost var rows: seq<nat>

    ghost predicate Valid()
      reads this, order
    {
      count <= order.Length && rows == order[..count]
    }

    constructor (column: nat)
      ensures Valid() && rows == [] && this.column == column && fresh(order)
    {
      this.column := column;
      order := new nat[0];
      count := 0;
      rows := [];
    }

    /** Room for one more row. */
    method EnsureOrderCapacity(expandCount: nat)
      requires Valid() && expandCount > 0
      modifies this`order
      ensures Valid() && count < order.Length && (order == old(order) || fresh(order))
    {
      if count < order.Length {
        return;
      }
      var newCapacity := if order.Length > 0 then order.Length * 2 else expandCount;
      var newOrder := new nat[newCapacity](_ => 0);
      forall i | 0 <= i < count {
        newOrder[i] := order[i];
      }
      assert newOrder[..count] == order[..count];
      order := newOrder;
    }

    /** Binary search for the first row whose key is not less than the new key. */
    method LowerBound(keys: seq<Key>, key: Key) returns (slot: nat)
      requires Valid() && IsIndex(rows, keys)
      ensures slot == SlotFor(rows, keys, key, 0)
    {
      var lo, hi := 0, count;
      while lo < hi
        invariant lo <= hi <= count
        invariant forall i :: 0 <= i < lo ==> Less(keys[rows[i]], key)
        invariant forall i :: hi <= i < count ==> !Less(keys[rows[i]], key)
      {
        var mid := lo + (hi - lo) / 2;
        assert order[mid] == rows[mid];
        SortedAround(rows, keys, key, mid);
        if Less(keys[order[mid]], key) {
          lo := mid + 1;
        } else {
          hi := mid;
        }
      }
      slot := lo;
      LowerBoundIsSlot(rows, keys, key, slot);
    }

    /** Inserts the last row of the table at its place. */
    method InsertRow(keys: seq<Key>, expandCount: nat)
      requires Valid() && keys != [] && IsIndex(rows, keys[..|keys| - 1]) && expandCount > 0
      modifies this, order
      ensures Valid() && rows == WithNewRow(old(rows), keys[..|keys| - 1], keys[|keys| - 1]) && IsIndex(rows, keys)
      ensures order == old(order) || fresh(order)
    {
      EnsureOrderCapacity(expandCount);
      var newRow := |keys| - 1;
      var slot := LowerBound(keys[..newRow], keys[newRow]);
      NewRowKeepsIndex(rows, keys[..newRow], keys[newRow]);
      assert keys[..newRow] + [keys[newRow]] == keys;
      ShiftIn(slot, newRow);
    }

    /** Moves the rows from the slot on one place up and stores the row there. */
    method ShiftIn(slot: nat, row: nat)
      requires Valid() && slot <= count < order.Length
      modifies this`count, this`rows, order
      ensures Valid() && rows == Inserted(old(rows), slot, row)
    {
      forall i | slot < i <= count {
        order[i] := order[i - 1];
      }
      order[slot] := row;
      count := count + 1;
      rows := Inserted(rows, slot, row);
    }

    /** The slot of a row. */
    method FindRow(row: nat) returns (slot: nat)
      requires Valid()
      ensures slot == SlotOf(rows, row, 0)
    {
      slot := 0;
      while slot < count && order[slot] != row
        invariant slot <= count && SlotOf(rows, row, 0) == SlotOf(rows, row, slot)
      {
        slot := slot + 1;
      }
    }

    /** Takes a removed row out and renumbers the rows behind it. */
    method RemoveRow(removed: nat)
      requires Valid()
      modifies this`count, this`rows, order
      ensures Valid() && rows == WithoutOldRow(old(rows), removed)
    {
      var slot := FindRow(removed);
      if slot < count {
        forall i | slot <= i < count - 1 {
          order[i] := order[i + 1];
        }
        count := count - 1;
        rows := WithoutSlot(rows, slot);
      }
      Renumber(removed);
    }

    method Renumber(removed: nat)
      requires Valid()
      modifies this`rows, order
      ensures Valid() && rows == Renumbered(old(rows), removed)
    {
      ghost var before := rows;
      for i := 0 to count
        invariant forall k :: 0 <= k < i ==> order[k] == Shifted(before[k], removed)
        invariant forall k :: i <= k < count ==> order[k] == before[k]
        modifies order
      {
        if order[i] > removed {
          order[i] := order[i] - 1;
        }
      }
      rows := Renumbered(rows, removed);
    }
  }

  lemma {:induction false} SortedAround(order: seq<nat>, keys: seq<Key>, key: Key, mid: nat)
    requires IsIndex(order, keys) && mid < |order|
    ensures Less(keys[order[mid]], key) ==> forall i :: 0 <= i <= mid ==> Less(keys[order[i]], key)
    ensures !Less(keys[order[mid]], key) ==> forall i :: mid <= i < |order| ==> !Less(keys[order[i]], key)
  {
    var m := keys[order[mid]];
    forall i | 0 <= i < |order|
      ensures i <= mid && Less(m, key) ==> Less(keys[order[i]], key)
      ensures i >= mid && !Less(m, key) ==> !Less(keys[order[i]], key)
    {
      var k := keys[order[i]];
      if i <= mid && Less(m, key) && !Less(k, key) {
        NotLessTransitive(key, k, m);
      }
      if i >= mid && !Less(m, key) {
        LessIsTotal(m, m, m);
        NotLessTransitive(key, m, k);
      }
    }
  }
}
