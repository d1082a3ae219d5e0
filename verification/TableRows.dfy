/** Rows of a table across its columns, NULL flags and indexes: adding and removing
    a row, and the removal of all selected rows in descending order. */
module TableRows {
  import opened SortedIndex

  // ---- One column: its values and its NULL flags ----

  class Column {
    var values: seq<Key>
    var nullFlags: array<bool>
    ghost var nulls: seq<bool>

    /** Without a flag array no row is NULL. */
    ghost predicate Valid()
      reads this, nullFlags
    {
      && |nulls| == |values|
      && if nullFlags.Length == 0 then forall i :: 0 <= i < |nulls| ==> !nulls[i]
         else |nulls| <= nullFlags.Length && nullFlags[..|nulls|] == nulls
    }

    constructor ()
      ensures Valid() && values == [] && nulls == [] && fresh(nullFlags)
    {
      values, nulls := [], [];
      nullFlags := new bool[0];
    }

    /** Flags for at least the needed rows, the new ones clear. */
    method EnsureNullFlagsCapacity(needed: nat, expandCount: nat)
      requires expandCount > 0
      modifies this`nullFlags
      ensures nullFlags.Length >= needed && nullFlags.Length >= old(nullFlags.Length)
      ensures nullFlags == old(nullFlags) || fresh(nullFlags)
      ensures forall i :: 0 <= i < nullFlags.Length ==>
                nullFlags[i] == if i < old(nullFlags.Length) then old(nullFlags)[i] else false
    {
      if needed <= nullFlags.Length {
        return;
      }
      var newCapacity := if nullFlags.Length > 0 then nullFlags.Length * 2 else expandCount;
      while newCapacity < needed
        invariant newCapacity > 0 && newCapacity >= nullFlags.Length
        decreases needed - newCapacity
      {
        newCapacity := newCapacity * 2;
      }
      var newFlags := new bool[newCapacity](_ => false);
      forall i | 0 <= i < nullFlags.Length {
        newFlags[i] := nullFlags[i];
      }
      nullFlags := newFlags;
    }

    /** Appends a value; the flags are touched only once the column has seen a NULL. */
    method AddMaybeNull(value: Key, isNull: bool, expandCount: nat)
      requires Valid() && expandCount > 0
      modifies this, nullFlags
      ensures Valid() && values == old(values) + [value] && nulls == old(nulls) + [isNull]
      ensures nullFlags == old(nullFlags) || fresh(nullFlags)
    {
      ghost var before := nulls;
      values := values + [value];
      if isNull || nullFlags.Length > 0 {
        EnsureNullFlagsCapacity(|values|, expandCount);
        nullFlags[|values| - 1] := isNull;
        assert nullFlags[..|before|] == before;
        assert nullFlags[..|values|] == nullFlags[..|before|] + [isNull];
      }
      nulls := nulls + [isNull];
    }

    method IsNull(row: nat) returns (isNull: bool)
      requires Valid() && row < |values|
      ensures isNull == nulls[row]
    {
      isNull := nullFlags.Length > 0 && row < nullFlags.Length && nullFlags[row];
      assert nullFlags.Length > 0 ==> nullFlags[row] == nullFlags[..|nulls|][row];
    }

    method RemoveData(row: nat)
      requires Valid() && row < |values|
      modifies this`values, this`nulls, nullFlags
      ensures Valid() && values == WithoutRow(old(values), row) && nulls == WithoutRow(old(nulls), row)
    {
      ghost var before := nulls;
      values := WithoutRow(values, row);
      nulls := WithoutRow(nulls, row);
      if nullFlags.Length > 0 {
        assert forall i :: 0 <= i < |before| ==> nullFlags[i] == nullFlags[..|before|][i] == before[i];
        forall i | row <= i < |values| {
          nullFlags[i] := nullFlags[i + 1];
        }
      }
    }
  }

  // ---- The table ----

  /** What a column holds, row by row. */
  datatype Cells = Cells(values: seq<Key>, nulls: seq<bool>)

  predicate CellsFit(c: Cells, n: nat) {
    |c.values| == n == |c.nulls|
  }

  function WithCell(c: Cells, value: Key, isNull: bool): Cells {
    Cells(c.values + [value], c.nulls + [isNull])
  }

  function WithoutCell(c: Cells, n: nat, row: nat): (rest: Cells)
    requires CellsFit(c, n) && row < n
    ensures CellsFit(rest, n - 1)
  {
    Cells(WithoutRow(c.values, row), WithoutRow(c.nulls, row))
  }

  /** An index over a column lists all rows in the order of the column's keys. */
  predicate OrderFits(order: seq<nat>, column: nat, cells: seq<Cells>) {
    column < |cells| && IsIndex(order, cells[column].values)
  }

  ghost predicate RowsFit(cells: seq<Cells>, orders: seq<seq<nat>>, indexed: seq<nat>, n: nat) {
    && (forall i :: 0 <= i < |cells| ==> CellsFit(cells[i], n))
    && |orders| == |indexed| && forall i :: 0 <= i < |orders| ==> OrderFits(orders[i], indexed[i], cells)
  }

  lemma {:induction false} AllRowsFit(cells: seq<Cells>, orders: seq<seq<nat>>, indexed: seq<nat>, n: nat)
    requires forall i :: 0 <= i < |cells| ==> CellsFit(cells[i], n)
    requires |orders| == |indexed| && forall i :: 0 <= i < |orders| ==> OrderFits(orders[i], indexed[i], cells)
    ensures RowsFit(cells, orders, indexed, n)
  {
  }

  /** A row with one value for every column. */
  function WithRow(cells: seq<Cells>, data: seq<(Key, bool)>): (more: seq<Cells>)
    requires |data| == |cells|
    ensures |more| == |cells|
  {
    seq(|cells|, i requires 0 <= i < |cells| => WithCell(cells[i], data[i].0, data[i].1))
  }

  function WithoutRowAt(cells: seq<Cells>, n: nat, row: nat): (rest: seq<Cells>)
    requires row < n && forall i :: 0 <= i < |cells| ==> CellsFit(cells[i], n)
    ensures |rest| == |cells|
  {
    seq(|cells|, i requires 0 <= i < |cells| => WithoutCell(cells[i], n, row))
  }

  /** The order still lists the rows before the last one. */
  predicate LacksLast(order: seq<nat>, column: nat, cells: seq<Cells>) {
    && column < |cells| && cells[column].values != []
    && IsIndex(order, cells[column].values[..|cells[column].values| - 1])
  }

  lemma {:induction false} RowAddedToCells(cells: seq<Cells>, orders: seq<seq<nat>>, indexed: seq<nat>, n: nat, data: seq<(Key, bool)>)
    requires RowsFit(cells, orders, indexed, n) && |data| == |cells|
    ensures forall i :: 0 <= i < |cells| ==> CellsFit(WithRow(cells, data)[i], n + 1)
    ensures forall i :: 0 <= i < |orders| ==> LacksLast(orders[i], indexed[i], WithRow(cells, data))
  {
    forall i | 0 <= i < |orders|
      ensures LacksLast(orders[i], indexed[i], WithRow(cells, data))
    {
      assert OrderFits(orders[i], indexed[i], cells);
      var keys := cells[indexed[i]].values;
      assert (keys + [data[indexed[i]].0])[..|keys|] == keys;
    }
  }

  lemma {:induction false} RowTakenFromAll(cells: seq<Cells>, orders: seq<seq<nat>>, indexed: seq<nat>, n: nat, row: nat, after: seq<seq<nat>>)
    requires RowsFit(cells, orders, indexed, n) && row < n && |after| == |orders|
    requires forall i :: 0 <= i < |orders| ==> after[i] == WithoutOldRow(orders[i], row)
    ensures RowsFit(WithoutRowAt(cells, n, row), after, indexed, n - 1)
  {
    forall i | 0 <= i < |orders|
      ensures OrderFits(after[i], indexed[i], WithoutRowAt(cells, n, row))
    {
      assert OrderFits(orders[i], indexed[i], cells) && CellsFit(cells[indexed[i]], n);
      OldRowKeepsIndex(orders[i], cells[indexed[i]].values, row);
    }
  }

  /** Columns, indexes over them, and the number of rows they all have. The ghost
      fields mirror what the columns and the indexes hold; index i is over column
      indexed[i]. */
  class Table {
    const columns: seq<Column>
    const indexes: seq<Index>
    const indexed: seq<nat>
    const expandCount: nat
    var rowCount: nat
    ghost var cells: seq<Cells>
    ghost var orders: seq<seq<nat>>

    /** No two columns share storage. */
    ghost predicate ColumnsOk()
      reads this`cells, columns, set c <- columns :: c.nullFlags
    {
      && |cells| == |columns|
      && (forall i :: 0 <= i < |columns| ==> columns[i].Valid() && cells[i] == Cells(columns[i].values, columns[i].nulls))
      && (forall i, j :: 0 <= i < j < |columns| ==> columns[i] != columns[j] && columns[i].nullFlags != columns[j].nullFlags)
    }

    /** No two indexes share storage. */
    ghost predicate IndexesOk()
      reads this`orders, indexes, set x <- indexes :: x.order
    {
      && |orders| == |indexes| == |indexed|
      && (forall i :: 0 <= i < |indexes| ==> indexes[i].Valid() && indexes[i].column == indexed[i] < |columns| && indexes[i].rows == orders[i])
      && (forall i, j :: 0 <= i < j < |indexes| ==> indexes[i] != indexes[j] && indexes[i].order != indexes[j].order)
    }

    ghost predicate Valid()
      reads this, columns, indexes, (set c <- columns :: c.nullFlags), (set x <- indexes :: x.order)
    {
      expandCount > 0 && ColumnsOk() && IndexesOk() && RowsFit(cells, orders, indexed, rowCount)
    }

    /** Puts together empty columns and empty indexes that share nothing. */
    constructor (columns: seq<Column>, indexes: seq<Index>, expandCount: nat)
      requires expandCount > 0
      requires forall i :: 0 <= i < |columns| ==> columns[i].Valid() && columns[i].values == []
      requires forall i :: 0 <= i < |indexes| ==> indexes[i].Valid() && indexes[i].column < |columns| && indexes[i].rows == []
      requires forall i, j :: 0 <= i < j < |columns| ==> columns[i] != columns[j] && columns[i].nullFlags != columns[j].nullFlags
      requires forall i, j :: 0 <= i < j < |indexes| ==> indexes[i] != indexes[j] && indexes[i].order != indexes[j].order
      ensures Valid() && rowCount == 0 && this.columns == columns && this.indexes == indexes
    {
      this.columns, this.indexes, this.expandCount := columns, indexes, expandCount;
      indexed := seq(|indexes|, i requires 0 <= i < |indexes| reads indexes => indexes[i].column);
      rowCount := 0;
      cells, orders := seq(|columns|, _ => Cells([], [])), seq(|indexes|, _ => []);
    }

    /** One column gets a cell, all others stay as they are. */
    method AddCell(i: nat, value: Key, isNull: bool)
      requires i < |columns| && ColumnsOk() && expandCount > 0
      modifies this`cells, columns[i], columns[i].nullFlags
      ensures ColumnsOk() && cells == old(cells)[i := WithCell(old(cells)[i], value, isNull)]
      ensures forall j :: 0 <= j < |columns| && j != i ==> columns[j].nullFlags == old(columns[j].nullFlags)
      ensures columns[i].nullFlags == old(columns[i].nullFlags) || fresh(columns[i].nullFlags)
    {
      columns[i].AddMaybeNull(value, isNull, expandCount);
      cells := cells[i := WithCell(cells[i], value, isNull)];
    }

    method AddCells(data: seq<(Key, bool)>)
      requires ColumnsOk() && IndexesOk() && expandCount > 0 && |data| == |columns|
      modifies this`cells, columns, set c <- columns :: c.nullFlags
      ensures ColumnsOk() && IndexesOk() && cells == WithRow(old(cells), data)
    {
      for i := 0 to |columns|
        invariant ColumnsOk() && IndexesOk()
        invariant forall j :: 0 <= j < i ==> cells[j] == WithCell(old(cells)[j], data[j].0, data[j].1)
        invariant forall j :: i <= j < |columns| ==> cells[j] == old(cells)[j] && columns[j].nullFlags == old(columns[j].nullFlags)
      {
        AddCell(i, data[i].0, data[i].1);
      }
    }

    /** One index takes in the last row of the table. */
    method AddToIndex(i: nat)
      requires i < |indexes| && ColumnsOk() && IndexesOk() && expandCount > 0 && LacksLast(orders[i], indexed[i], cells)
      modifies this`orders, indexes[i], indexes[i].order
      ensures IndexesOk() && |orders| == |old(orders)| && OrderFits(orders[i], indexed[i], cells)
      ensures forall j :: 0 <= j < |indexes| && j != i ==> orders[j] == old(orders)[j] && indexes[j].order == old(indexes[j].order)
      ensures indexes[i].order == old(indexes[i].order) || fresh(indexes[i].order)
    {
      hide WithNewRow, IsIndex;
      var keys := columns[indexes[i].column].values;
      assert keys == cells[indexed[i]].values;
      indexes[i].InsertRow(keys, expandCount);
      orders := orders[i := indexes[i].rows];
    }

    method AddToIndexes()
      requires ColumnsOk() && IndexesOk() && expandCount > 0
      requires forall i :: 0 <= i < |indexes| ==> LacksLast(orders[i], indexed[i], cells)
      modifies this`orders, indexes, set x <- indexes :: x.order
      ensures ColumnsOk() && IndexesOk() && forall i :: 0 <= i < |orders| ==> OrderFits(orders[i], indexed[i], cells)
    {
      for i := 0 to |indexes|
        invariant ColumnsOk() && IndexesOk()
        invariant forall j :: 0 <= j < i ==> OrderFits(orders[j], indexed[j], cells)
        invariant forall j :: i <= j < |indexes| ==> orders[j] == old(orders)[j] && indexes[j].order == old(indexes[j].order)
      {
        AddToIndex(i);
      }
    }

    /** Adds a row to every column, then to every index. */
    method AddRow(data: seq<(Key, bool)>)
      requires Valid() && |data| == |columns|
      modifies this, columns, indexes, (set c <- columns :: c.nullFlags), (set x <- indexes :: x.order)
      ensures Valid() && rowCount == old(rowCount) + 1 && cells == WithRow(old(cells), data)
    {
      hide ColumnsOk, IndexesOk, LacksLast, OrderFits, CellsFit, RowsFit;
      SizesMatch();
      RowAddedToCells(cells, orders, indexed, rowCount, data);
      AddCells(data);
      rowCount := rowCount + 1;
      AddToIndexes();
      SizesMatch();
      AllRowsFit(cells, orders, indexed, rowCount);
    }

    lemma {:induction false} SizesMatch()
      requires ColumnsOk() && IndexesOk()
      ensures |cells| == |columns| && |orders| == |indexes| == |indexed|
    {
    }

    method RemoveCell(i: nat, row: nat, ghost n: nat)
      requires i < |columns| && ColumnsOk() && CellsFit(cells[i], n) && row < n
      modifies this`cells, columns[i], columns[i].nullFlags
      ensures ColumnsOk() && cells == old(cells)[i := WithoutCell(old(cells)[i], n, row)]
      ensures forall j :: 0 <= j < |columns| ==> columns[j].nullFlags == old(columns[j].nullFlags)
    {
      columns[i].RemoveData(row);
      cells := cells[i := WithoutCell(cells[i], n, row)];
    }

    method RemoveCells(row: nat)
      requires ColumnsOk() && IndexesOk() && row < rowCount && forall i :: 0 <= i < |columns| ==> CellsFit(cells[i], rowCount)
      modifies this`cells, columns, set c <- columns :: c.nullFlags
      ensures ColumnsOk() && IndexesOk() && cells == WithoutRowAt(old(cells), rowCount, row)
      ensures forall i :: 0 <= i < |columns| ==> columns[i].nullFlags == old(columns[i].nullFlags)
    {
      hide WithoutCell;
      for i := 0 to |columns|
        invariant ColumnsOk() && IndexesOk()
        invariant forall j :: 0 <= j < i ==> cells[j] == WithoutCell(old(cells)[j], rowCount, row)
        invariant forall j :: i <= j < |columns| ==> cells[j] == old(cells)[j]
        invariant forall j :: 0 <= j < |columns| ==> columns[j].nullFlags == old(columns[j].nullFlags)
      {
        RemoveCell(i, row, rowCount);
      }
    }

    method RemoveFromIndex(i: nat, row: nat)
      requires i < |indexes| && IndexesOk()
      modifies this`orders, indexes[i], indexes[i].order
      ensures IndexesOk() && orders == old(orders)[i := WithoutOldRow(old(orders)[i], row)]
      ensures forall j :: 0 <= j < |indexes| ==> indexes[j].order == old(indexes[j].order)
    {
      hide WithoutOldRow;
      indexes[i].RemoveRow(row);
      orders := orders[i := WithoutOldRow(orders[i], row)];
    }

    method RemoveFromIndexes(row: nat)
      requires ColumnsOk() && IndexesOk()
      modifies this`orders, indexes, set x <- indexes :: x.order
      ensures ColumnsOk() && IndexesOk() && |orders| == |old(orders)| && forall i :: 0 <= i < |orders| ==> orders[i] == WithoutOldRow(old(orders)[i], row)
      ensures forall i :: 0 <= i < |indexes| ==> indexes[i].order == old(indexes[i].order)
    {
      for i := 0 to |indexes|
        invariant ColumnsOk() && IndexesOk() && |orders| == |old(orders)|
        invariant forall j :: 0 <= j < i ==> orders[j] == WithoutOldRow(old(orders)[j], row)
        invariant forall j :: i <= j < |indexes| ==> orders[j] == old(orders)[j]
        invariant forall j :: 0 <= j < |indexes| ==> indexes[j].order == old(indexes[j].order)
      {
        RemoveFromIndex(i, row);
      }
    }

    /** Removes a row from every column, then from every index; a row beyond the end
        changes nothing. */
    method RemoveRow(row: nat)
      requires Valid()
      modifies this, columns, indexes, (set c <- columns :: c.nullFlags), (set x <- indexes :: x.order)
      ensures Valid() && rowCount == if row < old(rowCount) then old(rowCount) - 1 else old(rowCount)
      ensures cells == if row < old(rowCount) then WithoutRowAt(old(cells), old(rowCount), row) else old(cells)
      ensures forall i :: 0 <= i < |columns| ==> columns[i].nullFlags == old(columns[i].nullFlags)
      ensures forall i :: 0 <= i < |indexes| ==> indexes[i].order == old(indexes[i].order)
    {
      hide ColumnsOk, IndexesOk, OrderFits, CellsFit, WithoutOldRow, WithoutRowAt;
      if row >= rowCount {
        return;
      }
      ghost var before, was := cells, orders;
      SizesMatch();
      TakeOut(row);
      SizesMatch();
      RowTakenFromAll(before, was, indexed, rowCount, row, orders);
      rowCount := rowCount - 1;
    }

    method TakeOut(row: nat)
      requires ColumnsOk() && IndexesOk() && row < rowCount && forall i :: 0 <= i < |columns| ==> CellsFit(cells[i], rowCount)
      modifies this`cells, this`orders, columns, indexes, (set c <- columns :: c.nullFlags), (set x <- indexes :: x.order)
      ensures ColumnsOk() && IndexesOk() && cells == WithoutRowAt(old(cells), rowCount, row)
      ensures |orders| == |old(orders)| && forall i :: 0 <= i < |orders| ==> orders[i] == WithoutOldRow(old(orders)[i], row)
      ensures forall i :: 0 <= i < |columns| ==> columns[i].nullFlags == old(columns[i].nullFlags)
      ensures forall i :: 0 <= i < |indexes| ==> indexes[i].order == old(indexes[i].order)
    {
      RemoveCells(row);
      RemoveFromIndexes(row);
    }

    /** Removes the selected rows, the last one first. */
    method DeleteRows(selected: seq<nat>)
      requires Valid() && Descending(selected) && forall i :: 0 <= i < |selected| ==> selected[i] < rowCount
      modifies this, columns, indexes, (set c <- columns :: c.nullFlags), (set x <- indexes :: x.order)
      ensures Valid() && |cells| == |old(cells)|
      ensures forall i :: 0 <= i < |cells| ==>
                && cells[i].values == Unselected(old(cells)[i].values, selected)
                && cells[i].nulls == Unselected(old(cells)[i].nulls, selected)
    {
      ghost var before, n := cells, rowCount;
      NothingLeftOut(before);
      assert selected[..0] == [];
      for k := 0 to |selected|
        invariant Valid() && rowCount == n - k && LeftIn(before, selected[..k], cells)
        invariant forall i :: 0 <= i < |columns| ==> columns[i].nullFlags == old(columns[i].nullFlags)
        invariant forall i :: 0 <= i < |indexes| ==> indexes[i].order == old(indexes[i].order)
      {
        SelectedRowExists(selected, n, k);
        OneMoreLeftOut(before, selected, k, cells, n);
        RemoveRow(selected[k]);
      }
      assert selected[..|selected|] == selected;
    }
  }

  // ---- Which rows are left ----

  predicate Descending(selected: seq<nat>) {
    forall i, j :: 0 <= i < j < |selected| ==> selected[i] > selected[j]
  }

  /** After k removals the next row is still among the first n - k. */
  lemma {:induction false} SelectedRowExists(selected: seq<nat>, n: nat, k: nat)
    requires Descending(selected) && k < |selected| && forall i :: 0 <= i < |selected| ==> selected[i] < n
    ensures selected[k] < n - k
  {
    if k > 0 {
      SelectedRowExists(selected, n, k - 1);
      assert selected[k - 1] > selected[k];
    }
  }

  /** The elements whose positions are not selected, in their order. */
  function Unselected<T>(xs: seq<T>, selected: seq<nat>): seq<T> {
    if xs == [] then []
    else Unselected(xs[..|xs| - 1], selected) + if |xs| - 1 in selected then [] else [xs[|xs| - 1]]
  }

  lemma {:induction false} NothingSelected<T>(xs: seq<T>, selected: seq<nat>)
    requires forall r <- selected :: r >= |xs|
    ensures Unselected(xs, selected) == xs
  {
    if xs != [] {
      NothingSelected(xs[..|xs| - 1], selected);
    }
  }

  /** Rows below all removed ones are still where they were. */
  lemma {:induction false} RemoveBelow<T>(xs: seq<T>, selected: seq<nat>, row: nat)
    requires row < |xs| && forall r <- selected :: r > row
    ensures row < |Unselected(xs, selected)|
    ensures WithoutRow(Unselected(xs, selected), row) == Unselected(xs, selected + [row])
  {
    var init, n := xs[..|xs| - 1], |xs| - 1;
    assert n in selected + [row] <==> n in selected || n == row;
    if row == n {
      NothingSelected(init, selected);
      NothingSelected(init, selected + [row]);
      assert n !in selected;
    } else {
      RemoveBelow(init, selected, row);
    }
  }

  // ---- The same in every column ----

  ghost predicate LeftIn(before: seq<Cells>, selected: seq<nat>, cells: seq<Cells>) {
    && |cells| == |before|
    && forall i :: 0 <= i < |cells| ==>
         cells[i].values == Unselected(before[i].values, selected) && cells[i].nulls == Unselected(before[i].nulls, selected)
  }

  lemma {:induction false} NothingLeftOut(cells: seq<Cells>)
    ensures LeftIn(cells, [], cells)
  {
    forall i | 0 <= i < |cells|
      ensures cells[i].values == Unselected(cells[i].values, []) && cells[i].nulls == Unselected(cells[i].nulls, [])
    {
      NothingSelected(cells[i].values, []);
      NothingSelected(cells[i].nulls, []);
    }
  }

  lemma {:induction false} OneMoreLeftOut(before: seq<Cells>, selected: seq<nat>, k: nat, cells: seq<Cells>, n: nat)
    requires Descending(selected) && k < |selected| && k <= n && selected[k] < n - k
    requires (forall i :: 0 <= i < |before| ==> CellsFit(before[i], n)) && forall i :: 0 <= i < |cells| ==> CellsFit(cells[i], n - k)
    requires LeftIn(before, selected[..k], cells)
    ensures LeftIn(before, selected[..k + 1], WithoutRowAt(cells, n - k, selected[k]))
  {
    assert selected[..k + 1] == selected[..k] + [selected[k]];
    forall i | 0 <= i < |cells|
      ensures WithoutRow(cells[i].values, selected[k]) == Unselected(before[i].values, selected[..k + 1])
      ensures WithoutRow(cells[i].nulls, selected[k]) == Unselected(before[i].nulls, selected[..k + 1])
    {
      RemoveBelow(before[i].values, selected[..k], selected[k]);
      RemoveBelow(before[i].nulls, selected[..k], selected[k]);
    }
  }
}
