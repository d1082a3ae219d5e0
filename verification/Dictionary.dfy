/** From a claimed table to a dictionary: codes in slot order, the lookup, and the
    codes of all rows. */
module Dictionary {
  import opened DictionaryClaim

  datatype Option<+T> = None | Some(value: T)

  datatype StringDict = StringDict(values: seq<string>, indexCodes: seq<nat>)

  /** Owned slots before slot n: the code the next owned slot gets. */
  function CountOwned(owner: seq<nat>, n: nat): (count: nat)
    requires n <= |owner|
    ensures count <= n
  {
    if n == 0 then 0 else CountOwned(owner, n - 1) + if owner[n - 1] != EMPTY_SLOT then 1 else 0
  }

  function ValuesBefore(c: Column, owner: seq<nat>, n: nat): (values: seq<string>)
    requires n <= |owner| && forall k :: 0 <= k < |owner| ==> owner[k] < |c.strings| || owner[k] == EMPTY_SLOT
    ensures |values| == CountOwned(owner, n)
  {
    if n == 0 then []
    else ValuesBefore(c, owner, n - 1) + if owner[n - 1] != EMPTY_SLOT then [c.strings[owner[n - 1]]] else []
  }

  function CodesBefore(owner: seq<nat>, n: nat): (codes: seq<nat>)
    requires n <= |owner|
    ensures |codes| == n
  {
    seq(n, k requires 0 <= k < n => if owner[k] == EMPTY_SLOT then EMPTY_SLOT else CountOwned(owner, k))
  }

  predicate OwnersAreRows(c: Column, owner: seq<nat>) {
    forall k :: 0 <= k < |owner| ==> owner[k] < |c.strings| || owner[k] == EMPTY_SLOT
  }

  lemma {:induction false} CompleteOwnersAreRows(c: Column, owner: seq<nat>)
    requires Complete(c, owner)
    ensures OwnersAreRows(c, owner)
  {
    forall k | 0 <= k < |owner|
      ensures owner[k] < |c.strings| || owner[k] == EMPTY_SLOT
    {
      assert SlotIsReached(c, State(owner, false, []), k);
    }
  }

  /** The dictionary that a claimed table stands for. */
  function DictOf(c: Column, owner: seq<nat>): StringDict
    requires OwnersAreRows(c, owner)
  {
    StringDict(ValuesBefore(c, owner, |owner|), CodesBefore(owner, |owner|))
  }

  // ---- What the dictionary holds ----

  lemma {:induction false} CountGrows(owner: seq<nat>, a: nat, b: nat)
    requires a <= b <= |owner|
    ensures CountOwned(owner, a) <= CountOwned(owner, b)
  {
    if a < b {
      CountGrows(owner, a, b - 1);
    }
  }

  /** The value under the code of a slot is the string that owns the slot. */
  lemma {:induction false} CodeOfSlot(c: Column, owner: seq<nat>, slot: nat, n: nat)
    requires OwnersAreRows(c, owner) && slot < n <= |owner| && owner[slot] != EMPTY_SLOT
    ensures CountOwned(owner, slot) < CountOwned(owner, n)
    ensures ValuesBefore(c, owner, n)[CountOwned(owner, slot)] == c.strings[owner[slot]]
  {
    if slot < n - 1 {
      CodeOfSlot(c, owner, slot, n - 1);
    }
  }

  /** Every value comes from a slot. */
  lemma {:induction false} SlotOfCode(c: Column, owner: seq<nat>, code: nat, n: nat) returns (slot: nat)
    requires OwnersAreRows(c, owner) && n <= |owner| && code < CountOwned(owner, n)
    ensures slot < n && owner[slot] != EMPTY_SLOT && CountOwned(owner, slot) == code
  {
    if owner[n - 1] != EMPTY_SLOT && CountOwned(owner, n - 1) == code {
      slot := n - 1;
    } else {
      slot := SlotOfCode(c, owner, code, n - 1);
    }
  }

  ghost predicate AllDifferent(values: seq<string>) {
    forall i, j :: 0 <= i < j < |values| ==> values[i] != values[j]
  }

  /** Equal strings get one code. */
  lemma {:induction false} ValuesDiffer(c: Column, owner: seq<nat>)
    requires Complete(c, owner) && OwnersAreRows(c, owner)
    ensures AllDifferent(DictOf(c, owner).values)
  {
    var values := DictOf(c, owner).values;
    forall i, j | 0 <= i < j < |values|
      ensures values[i] != values[j]
    {
      var a := SlotOfCode(c, owner, i, |owner|);
      var b := SlotOfCode(c, owner, j, |owner|);
      CodeOfSlot(c, owner, a, |owner|);
      CodeOfSlot(c, owner, b, |owner|);
      assert Owned(State(owner, false, []), a) && Owned(State(owner, false, []), b);
      assert OwnDifferent(c, owner, a, b);
    }
  }

  function Strings(c: Column): set<string> {
    set row | 0 <= row < |c.strings| :: c.strings[row]
  }

  lemma {:induction false} ValuesAreStrings(c: Column, owner: seq<nat>, x: string)
    requires Complete(c, owner) && OwnersAreRows(c, owner)
    ensures x in DictOf(c, owner).values <==> x in Strings(c)
  {
    var values, s := DictOf(c, owner).values, State(owner, false, []);
    if x in values {
      var code :| 0 <= code < |values| && values[code] == x;
      var slot := SlotOfCode(c, owner, code, |owner|);
      CodeOfSlot(c, owner, slot, |owner|);
    }
    if x in Strings(c) {
      var row :| 0 <= row < |c.strings| && c.strings[row] == x;
      assert Findable(c, s, x);
      var probe: nat :| OwnsAt(c, s, x, probe);
      CodeOfSlot(c, owner, Slot(c, x, probe), |owner|);
    }
  }

  lemma {:induction false} DifferentCount(values: seq<string>)
    requires AllDifferent(values)
    ensures |set x | x in values| == |values|
  {
    if values != [] {
      var init, last := values[..|values| - 1], values[|values| - 1];
      DifferentCount(init);
      assert values == init + [last];
      assert (set x | x in values) == (set x | x in init) + {last};
      assert last !in init;
    }
  }

  lemma {:induction false} FewerStringsThanRows(c: Column, n: nat)
    requires n <= |c.strings|
    ensures |set row | 0 <= row < n :: c.strings[row]| <= n
  {
    if n > 0 {
      FewerStringsThanRows(c, n - 1);
      assert (set row | 0 <= row < n :: c.strings[row]) == (set row | 0 <= row < n - 1 :: c.strings[row]) + {c.strings[n - 1]};
    }
  }

  /** As many owned slots as different strings. */
  lemma {:induction false} OwnedIsDistinct(c: Column, owner: seq<nat>)
    requires Complete(c, owner)
    ensures CountOwned(owner, |owner|) == |Strings(c)| <= |c.strings|
  {
    CompleteOwnersAreRows(c, owner);
    var values := DictOf(c, owner).values;
    ValuesDiffer(c, owner);
    DifferentCount(values);
    forall x: string
      ensures x in values <==> x in Strings(c)
    {
      ValuesAreStrings(c, owner, x);
    }
    assert (set x | x in values) == Strings(c);
    FewerStringsThanRows(c, |c.strings|);
  }

  // ---- Building and looking up ----

  ghost predicate IsDict(c: Column, owner: seq<nat>, dict: StringDict) {
    Complete(c, owner) && OwnersAreRows(c, owner) && dict == DictOf(c, owner)
  }

  method BuildDict(c: Column, owner: seq<nat>) returns (dict: StringDict)
    requires OwnersAreRows(c, owner)
    ensures dict == DictOf(c, owner)
  {
    var values, codes := [], [];
    for slot := 0 to |owner|
      invariant values == ValuesBefore(c, owner, slot) && codes == CodesBefore(owner, slot)
    {
      if owner[slot] == EMPTY_SLOT {
        codes := codes + [EMPTY_SLOT];
      } else {
        codes := codes + [|values|];
        values := values + [c.strings[owner[slot]]];
      }
    }
    dict := StringDict(values, codes);
  }

  /** The first n slots of the probe path hold codes of other strings. */
  ghost predicate Passed(c: Column, owner: seq<nat>, x: string, n: nat)
    requires c.capacity > 0
  {
    forall q: nat :: q < n ==> Taken(c, State(owner, false, []), Slot(c, x, q), x)
  }

  lemma {:induction false} NotPassed(c: Column, owner: seq<nat>, x: string, n: nat, probe: nat)
    requires c.capacity > 0 && OwnsAt(c, State(owner, false, []), x, probe) && Passed(c, owner, x, n)
    ensures n <= probe
  {
    assert probe < n ==> Taken(c, State(owner, false, []), Slot(c, x, probe), x);
  }

  lemma {:induction false} NotFoundMeansAbsent(c: Column, owner: seq<nat>, x: string, n: nat)
    requires Complete(c, owner) && Passed(c, owner, x, n)
    requires n >= MAX_PROBE || owner[Slot(c, x, n)] == EMPTY_SLOT
    ensures x !in Strings(c)
  {
    if x in Strings(c) {
      var s := State(owner, false, []);
      var row :| 0 <= row < |c.strings| && c.strings[row] == x;
      assert Findable(c, s, x);
      var probe: nat :| OwnsAt(c, s, x, probe);
      NotPassed(c, owner, x, n, probe);
    }
  }

  lemma {:induction false} CodeAt(c: Column, owner: seq<nat>, dict: StringDict, slot: nat)
    requires IsDict(c, owner, dict) && slot < |owner|
    ensures dict.indexCodes[slot] == EMPTY_SLOT <==> owner[slot] == EMPTY_SLOT
    ensures owner[slot] != EMPTY_SLOT ==>
              var code := dict.indexCodes[slot];
              code < |dict.values| && owner[slot] < |c.strings| && dict.values[code] == c.strings[owner[slot]]
  {
    OwnedIsDistinct(c, owner);
    if owner[slot] != EMPTY_SLOT {
      CodeOfSlot(c, owner, slot, |owner|);
    }
  }

  /** The code of a value; none exactly when the column does not hold it. */
  method CodeFromValue(c: Column, dict: StringDict, value: string, ghost owner: seq<nat>) returns (code: Option<nat>)
    requires IsDict(c, owner, dict)
    ensures code.Some? ==> code.value < |dict.values| && dict.values[code.value] == value
    ensures code.None? <==> value !in Strings(c)
  {
    var slot := c.hash(value) % c.capacity;
    var probe := 0;
    while probe < MAX_PROBE
      invariant probe <= MAX_PROBE && slot == Slot(c, value, probe) && Passed(c, owner, value, probe)
    {
      var found := dict.indexCodes[slot];
      CodeAt(c, owner, dict, slot);
      if found == EMPTY_SLOT {
        NotFoundMeansAbsent(c, owner, value, probe);
        return None;
      }
      if dict.values[found] == value {
        return Some(found);
      }
      NextSlot(c, value, probe);
      slot := (slot + 1) % c.capacity;
      probe := probe + 1;
    }
    NotFoundMeansAbsent(c, owner, value, probe);
    code := None;
  }

  /** values[codes[row]] is the string of the row, for every row. */
  ghost predicate Encodes(strings: seq<string>, dict: StringDict, codes: seq<nat>) {
    && |codes| == |strings|
    && AllDifferent(dict.values)
    && (forall x :: x in dict.values <==> x in strings)
    && forall row :: 0 <= row < |strings| ==> codes[row] < |dict.values| && dict.values[codes[row]] == strings[row]
  }

  method FillCodes(c: Column, dict: StringDict, ghost owner: seq<nat>) returns (codes: array<nat>)
    requires IsDict(c, owner, dict)
    ensures fresh(codes) && Encodes(c.strings, dict, codes[..])
  {
    codes := new nat[|c.strings|](_ => 0);
    for row := 0 to |c.strings|
      invariant forall r :: 0 <= r < row ==> codes[r] < |dict.values| && dict.values[codes[r]] == c.strings[r]
    {
      var code := CodeFromValue(c, dict, c.strings[row], owner);
      assert c.strings[row] in Strings(c);
      codes[row] := if code.Some? then code.value else 0;
    }
    ValuesDiffer(c, owner);
    forall x: string
      ensures x in dict.values <==> x in c.strings
    {
      ValuesAreStrings(c, owner, x);
    }
  }

  // ---- When a column gets a dictionary ----

  datatype Settings = Settings(minRows: nat, maxDistinct: nat, maxRatio: real)

  const TABLE_CAPACITY_FACTOR: nat := 4

  /** The smallest power of two that is at least x. */
  function UpToPow2(x: nat, p: nat): (power: nat)
    requires p > 0
    ensures power >= x && power >= p
    decreases x - p
  {
    if p >= x then p else UpToPow2(x, 2 * p)
  }

  function Capacity(settings: Settings): (capacity: nat)
    ensures capacity > 0
  {
    UpToPow2(settings.maxDistinct * TABLE_CAPACITY_FACTOR, 1)
  }

  /** Counts owned slots, as far as the limit. */
  method CountDistinct(owner: seq<nat>, limit: nat) returns (count: nat, eligible: bool)
    ensures eligible <==> CountOwned(owner, |owner|) <= limit
    ensures eligible ==> count == CountOwned(owner, |owner|)
  {
    count := 0;
    for slot := 0 to |owner|
      invariant count == CountOwned(owner, slot) <= limit
    {
      if owner[slot] != EMPTY_SLOT {
        if count >= limit {
          CountGrows(owner, slot + 1, |owner|);
          return count, false;
        }
        count := count + 1;
      }
    }
    eligible := true;
  }

  function Pow2(k: nat): (p: nat)
    ensures p > 0
  {
    if k == 0 then 1 else 2 * Pow2(k - 1)
  }

  lemma {:induction false} UpToPow2Is(x: nat, p: nat, j: nat) returns (k: nat)
    requires p == Pow2(j)
    ensures j <= k && UpToPow2(x, p) == Pow2(k) && (k > j ==> Pow2(k - 1) < x)
    decreases x - p
  {
    if p >= x {
      k := j;
    } else {
      k := UpToPow2Is(x, 2 * p, j + 1);
    }
  }

  /** The table has the smallest power of two slots that is four times the limit. */
  lemma {:induction false} CapacityIs(settings: Settings) returns (k: nat)
    ensures Capacity(settings) == Pow2(k) >= 4 * settings.maxDistinct
    ensures k > 0 ==> Pow2(k - 1) < 4 * settings.maxDistinct
  {
    k := UpToPow2Is(settings.maxDistinct * TABLE_CAPACITY_FACTOR, 1, 0);
  }

  /** Over no rows the quotient is not a number, and no number is above the limit. */
  predicate RatioFits(distinct: nat, rows: nat, ratio: real) {
    rows == 0 || distinct as real / rows as real <= ratio
  }

  /** At most so many different strings among the rows. */
  predicate IsWorthwhile(distinct: nat, rows: nat, ratio: real) {
    rows == 0 || distinct as real <= ratio * rows as real
  }

  lemma {:induction false} RatioIff(distinct: nat, rows: nat, ratio: real)
    ensures RatioFits(distinct, rows, ratio) <==> IsWorthwhile(distinct, rows, ratio)
  {
    if rows > 0 {
      var q, n := distinct as real / rows as real, rows as real;
      assert q * n == distinct as real;
      if q <= ratio {
        assert (ratio - q) * n >= 0.0;
      } else {
        assert (q - ratio) * n > 0.0;
      }
    }
  }

  /** What the parallel claim phase leaves behind, in any interleaving. */
  ghost predicate Claimed(c: Column, workers: nat, run: seq<State>, final: State) {
    && Encodable(c) && workers > 0 && IsRun(c, DivideWork(|c.strings|, workers), run)
    && final == run[|run| - 1] && AllFinished(final)
  }

  /** A string column with its dictionary. */
  class DictColumn {
    var strings: seq<string>
    var writeGeneration: nat
    var checkedGeneration: nat
    var dict: Option<StringDict>
    var codes: array<nat>

    /** A dictionary of the current generation encodes the column. */
    ghost predicate Valid()
      reads this, codes
    {
      && checkedGeneration <= writeGeneration
      && (dict.Some? && checkedGeneration == writeGeneration ==> Encodes(strings, dict.value, codes[..]))
    }

    constructor ()
      ensures Valid() && strings == [] && dict.None?
    {
      strings, writeGeneration, checkedGeneration, dict := [], 0, 0, None;
      codes := new nat[0];
    }

    /** Any change of the rows makes the dictionary stale. */
    method Write(rows: seq<string>)
      requires Valid()
      modifies this`strings, this`writeGeneration
      ensures Valid() && strings == rows && checkedGeneration < writeGeneration
    {
      strings := rows;
      writeGeneration := writeGeneration + 1;
    }

    /** Builds the dictionary from the table that the claim phase left behind,
        unless it is current or the column is not worth encoding. */
    method EnsureStringDict(settings: Settings, c: Column, final: State, ghost workers: nat, ghost run: seq<State>)
      requires Valid()
      requires c.strings == strings && c.capacity == Capacity(settings) && Claimed(c, workers, run, final)
      modifies this`dict, this`codes, this`checkedGeneration
      ensures Valid() && checkedGeneration == writeGeneration
      ensures old(checkedGeneration) == writeGeneration ==> dict == old(dict) && codes == old(codes)
      ensures old(checkedGeneration) != writeGeneration ==>
                (dict.Some? <==>
                   && |strings| >= settings.minRows && !final.overflow
                   && |Strings(c)| <= settings.maxDistinct && IsWorthwhile(|Strings(c)|, |strings|, settings.maxRatio))
      ensures dict.Some? ==> Encodes(strings, dict.value, codes[..])
      ensures dict.Some? && old(checkedGeneration) != writeGeneration ==> |dict.value.values| == |Strings(c)|
    {
      if checkedGeneration == writeGeneration {
        return;
      }
      dict := None;
      codes := new nat[0];
      checkedGeneration := writeGeneration;
      if |strings| < settings.minRows || final.overflow {
        return;
      }
      EveryRunCompletes(c, workers, run);
      OwnedIsDistinct(c, final.owner);
      var distinct, eligible := CountDistinct(final.owner, settings.maxDistinct);
      RatioIff(|Strings(c)|, |strings|, settings.maxRatio);
      hide RatioFits, IsWorthwhile;
      if !eligible || !RatioFits(distinct, |strings|, settings.maxRatio) {
        return;
      }
      CompleteOwnersAreRows(c, final.owner);
      var built := BuildDict(c, final.owner);
      codes := FillCodes(c, built, final.owner);
      dict := Some(built);
    }
  }
}
