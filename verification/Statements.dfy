/** The statement handlers: CREATE TABLE, INSERT row by row, and DELETE, on a
    database whose stored rows satisfy all constraints throughout. */
module Statements {
  import opened Constraints
  import opened Declarations
  import TableRows
  import SortedIndex

  /** Every table has the columns it was written with, over the tables before it. */
  ghost predicate AreWritten(tables: Tables, written: seq<seq<WrittenColumn>>) {
    |written| == |tables| && forall t :: 0 <= t < |tables| ==> AreDeclared(tables[..t], written[t], tables[t].columns)
  }

  ghost predicate IsDatabase(tables: Tables, written: seq<seq<WrittenColumn>>) {
    && DistinctNames(tables) && KeysPointBack(tables) && PrimaryKeysAreKeys(tables) && ConstraintsHold(tables)
    && AreWritten(tables, written)
  }

  /** The tables, and, for the specification, what each was written with. */
  class Database {
    var tables: Tables
    ghost var written: seq<seq<WrittenColumn>>

    ghost predicate Valid()
      reads this
    {
      IsDatabase(tables, written)
    }

    constructor ()
      ensures Valid() && tables == [] && written == []
    {
      tables, written := [], [];
    }

    /** Whatever has been created, inserted and deleted: the stored rows keep what
        their tables were written with. */
    lemma {:induction false} StoredKeepWritten(t: nat)
      requires Valid() && t < |tables|
      ensures RowsKeepWritten(tables[..t], tables, written[t], tables[t].rows)
    {
      ConstraintsKeepWritten(tables[..t], tables, t, written[t]);
    }

    /** The column after all of its clauses. */
    method DeclareColumn(w: WrittenColumn) returns (c: ColumnDef)
      ensures c == DeclaredOne(tables, w)
    {
      c := ColumnDef(w.name, false, false, false, None, None);
      for k := 0 to |w.clauses|
        invariant c == DeclaredUpTo(tables, w, k)
      {
        match w.clauses[k]
        case NotNull => c := c.(notNull := true);
        case Unique => c := c.(isUnique := true);
        case PrimaryKey => c := c.(isPrimaryKey := true, notNull := true, isUnique := true);
        case References(key) =>
          if Target(tables, key).Some? {
            c := c.(foreignKey := Some(key));
          }
        case Check(condition) => c := c.(check := Some(condition));
      }
    }

    /** Adds an empty table under a new name, with the columns as they are written. A
        foreign key to a table or a column that does not exist yet, also to the new table
        itself, is left out. */
    method CreateTable(name: string, columns: seq<WrittenColumn>)
      requires Valid()
      modifies this
      ensures Valid()
      ensures (exists t :: 0 <= t < |old(tables)| && old(tables)[t].name == name) ==> tables == old(tables) && written == old(written)
      ensures (forall t :: 0 <= t < |old(tables)| ==> old(tables)[t].name != name) ==>
                && |tables| == |old(tables)| + 1 && tables[..|old(tables)|] == old(tables) && written == old(written) + [columns]
                && tables[|old(tables)|].name == name && tables[|old(tables)|].rows == []
                && AreDeclared(old(tables), columns, tables[|old(tables)|].columns)
    {
      var existing := FindTable(tables, name, 0);
      if existing.Some? {
        return;
      }
      var defs := [];
      for i := 0 to |columns|
        invariant tables == old(tables) && written == old(written) && defs == Declared(tables, columns)[..i]
      {
        var c := DeclareColumn(columns[i]);
        defs := defs + [c];
      }
      assert defs == Declared(tables, columns);
      CreateKeepsConstraints(tables, name, columns);
      CreateKeepsPrimaryKeys(tables, name, columns);
      CreateIsWritten(tables, written, Table(name, defs, []), columns);
      tables, written := tables + [Table(name, defs, [])], written + [columns];
    }

    method KeepsUnique(t: nat, row: Row) returns (ok: bool)
      requires t < |tables| && AllFit(tables) && |row| == |tables[t].columns|
      ensures ok <==> forall r :: 0 <= r < |tables[t].rows| ==> RowsDiffer(tables[t], row, tables[t].rows[r])
    {
      for c := 0 to |row|
        invariant forall r, k :: 0 <= r < |tables[t].rows| && 0 <= k < c && IsUniqueColumn(tables[t].columns[k]) && row[k].Some? ==>
                    row[k] != tables[t].rows[r][k]
      {
        if row[c].Some? && IsUniqueColumn(tables[t].columns[c]) {
          for r := 0 to |tables[t].rows|
            invariant forall s :: 0 <= s < r ==> row[c] != tables[t].rows[s][c]
          {
            if tables[t].rows[r][c] == row[c] {
              assert !RowsDiffer(tables[t], row, tables[t].rows[r]);
              return false;
            }
          }
        }
      }
      ok := true;
    }

    method KeepsKeys(t: nat, row: Row) returns (ok: bool)
      requires t < |tables| && AllFit(tables) && |row| == |tables[t].columns|
      ensures ok <==> RowKeepsKeys(tables, tables[t], row)
    {
      for c := 0 to |row|
        invariant forall k :: 0 <= k < c ==> CellKeepsKey(tables, tables[t].columns[k], row[k])
      {
        if row[c].Some? && tables[t].columns[c].foreignKey.Some? {
          var found := HasParent(tables[t].columns[c].foreignKey.value, row[c].value);
          if !found {
            assert !CellKeepsKey(tables, tables[t].columns[c], row[c]);
            return false;
          }
        }
      }
      ok := true;
    }

    /** Looks for the value in the column that the key names. */
    method HasParent(fk: ForeignKey, value: Value) returns (found: bool)
      requires AllFit(tables)
      ensures found <==> IsReferenced(tables, fk, value)
    {
      var target := Target(tables, fk);
      if target.None? {
        return false;
      }
      var (p, column) := target.value;
      assert RowsFit(tables[p]);
      for r := 0 to |tables[p].rows|
        invariant forall s :: 0 <= s < r ==> tables[p].rows[s][column] != Some(value)
      {
        if tables[p].rows[r][column] == Some(value) {
          return true;
        }
      }
      found := false;
    }

    /** All constraints for one candidate row. */
    method ValidateRow(t: nat, row: Row) returns (ok: bool)
      requires t < |tables| && AllFit(tables) && |row| == |tables[t].columns|
      ensures ok <==> Insertable(tables, t, row)
    {
      ok := RowKeepsNotNull(tables[t], row) && RowKeepsChecks(tables[t], row);
      if ok {
        ok := KeepsUnique(t, row);
      }
      if ok {
        ok := KeepsKeys(t, row);
      }
    }

    /** Inserts the rows one by one, up to the first one that is refused; None is a
        group of values that cannot be turned into a row of the table. */
    method Insert(t: nat, groups: seq<Option<Row>>) returns (inserted: nat)
      requires Valid() && t < |tables|
      requires forall i :: 0 <= i < |groups| && groups[i].Some? ==> |groups[i].value| == |tables[t].columns|
      modifies this
      ensures Valid() && written == old(written) && inserted <= |groups|
      ensures forall i :: 0 <= i < inserted ==> groups[i].Some?
      ensures tables == WithRows(old(tables), t, old(tables[t].rows) + Rows(groups, inserted))
      ensures inserted < |groups| ==>
                groups[inserted].None? || (AllFit(tables) && !Insertable(tables, t, groups[inserted].value))
    {
      hide IsDatabase, Insertable;
      inserted := 0;
      ghost var before := tables;
      assert before[t].rows + Rows(groups, 0) == before[t].rows;
      while inserted < |groups|
        invariant inserted <= |groups| && forall i :: 0 <= i < inserted ==> groups[i].Some?
        invariant Valid() && written == old(written) && tables == WithRows(before, t, before[t].rows + Rows(groups, inserted))
      {
        if groups[inserted].None? {
          return;
        }
        var row := groups[inserted].value;
        DatabaseFits(tables, written);
        var ok := ValidateRow(t, row);
        if !ok {
          return;
        }
        InsertKeepsDatabase(tables, written, t, row);
        tables := WithRows(tables, t, tables[t].rows + [row]);
        assert before[t].rows + Rows(groups, inserted + 1) == before[t].rows + Rows(groups, inserted) + [row];
        inserted := inserted + 1;
      }
    }

    /** A row of another table that references this row. */
    method HasChildren(t: nat, row: Row) returns (found: bool)
      requires t < |tables| && AllFit(tables) && |row| == |tables[t].columns|
      ensures found <==> !NoChildren(tables, t, row)
    {
      for i := 0 to |tables|
        invariant forall k, c, r :: 0 <= k < i && k != t && 0 <= c < |tables[k].columns| && 0 <= r < |tables[k].rows| ==>
                    !IsChild(tables, t, row, tables[k].columns[c], tables[k].rows[r][c])
      {
        if i != t {
          found := HasChildrenIn(t, row, i);
          if found {
            return;
          }
        }
      }
      found := false;
    }

    method HasChildrenIn(t: nat, row: Row, i: nat) returns (found: bool)
      requires t < |tables| && i < |tables| && AllFit(tables) && |row| == |tables[t].columns|
      ensures found <==> exists c, r :: 0 <= c < |tables[i].columns| && 0 <= r < |tables[i].rows|
                           && IsChild(tables, t, row, tables[i].columns[c], tables[i].rows[r][c])
    {
      assert RowsFit(tables[i]);
      for c := 0 to |tables[i].columns|
        invariant forall k, r :: 0 <= k < c && 0 <= r < |tables[i].rows| ==>
                    !IsChild(tables, t, row, tables[i].columns[k], tables[i].rows[r][k])
      {
        var def := tables[i].columns[c];
        for r := 0 to |tables[i].rows|
          invariant forall s :: 0 <= s < r ==> !IsChild(tables, t, row, def, tables[i].rows[s][c])
        {
          if IsChild(tables, t, row, def, tables[i].rows[r][c]) {
            return true;
          }
        }
      }
      found := false;
    }

    /** Every selected row is checked before any row is removed. */
    method Restricted(t: nat, selected: seq<nat>) returns (restricted: bool)
      requires t < |tables| && AllFit(tables) && forall k :: 0 <= k < |selected| ==> selected[k] < |tables[t].rows|
      ensures restricted <==> !Unreferenced(tables, t, selected)
    {
      assert RowsFit(tables[t]);
      for k := 0 to |selected|
        invariant forall j :: 0 <= j < k ==> NoChildren(tables, t, tables[t].rows[selected[j]])
      {
        var found := HasChildren(t, tables[t].rows[selected[k]]);
        if found {
          return true;
        }
      }
      restricted := false;
    }

    /** Deletes the selected rows, the last one first, or none of them when another
        table still references one. */
    method Delete(t: nat, selected: seq<nat>) returns (restricted: bool)
      requires Valid() && t < |tables| && TableRows.Descending(selected)
      requires forall k :: 0 <= k < |selected| ==> selected[k] < |tables[t].rows|
      modifies this
      ensures Valid() && written == old(written)
      ensures AllFit(old(tables)) && (restricted <==> !Unreferenced(old(tables), t, selected))
      ensures tables == if restricted then old(tables) else Deleted(old(tables), t, selected)
    {
      assert forall i :: 0 <= i < |tables| ==> OwnConstraintsHold(tables[i]);
      restricted := Restricted(t, selected);
      if restricted {
        return;
      }
      ghost var before := tables;
      PointBackMeansNotItself(before, t);
      TableRows.NothingSelected(before[t].rows, selected[..0]);
      for k := 0 to |selected|
        invariant Valid() && written == old(written) && tables == Deleted(before, t, selected[..k])
      {
        RemoveOne(before, t, selected, k);
        StillWritten(tables, written, t, SortedIndex.WithoutRow(tables[t].rows, selected[k]));
        tables := WithRows(tables, t, SortedIndex.WithoutRow(tables[t].rows, selected[k]));
      }
      assert selected[..|selected|] == selected;
    }
  }

  // ---- CREATE TABLE ----

  predicate PrimaryKeysAreKeys(ts: Tables) {
    forall t, c :: 0 <= t < |ts| && 0 <= c < |ts[t].columns| && ts[t].columns[c].isPrimaryKey ==>
      ts[t].columns[c].notNull && ts[t].columns[c].isUnique
  }

  lemma {:induction false} CreateKeepsPrimaryKeys(ts: Tables, name: string, columns: seq<WrittenColumn>)
    requires PrimaryKeysAreKeys(ts) && DistinctNames(ts)
    ensures PrimaryKeysAreKeys(ts + [Table(name, Declared(ts, columns), [])])
  {
    var t := Table(name, Declared(ts, columns), []);
    forall c | 0 <= c < |t.columns| && t.columns[c].isPrimaryKey
      ensures t.columns[c].notNull && t.columns[c].isUnique
    {
      DeclaredAre(ts, columns);
      assert IsDeclared(ts, columns[c], t.columns[c]);
    }
  }

  lemma {:induction false} CreateIsWritten(ts: Tables, written: seq<seq<WrittenColumn>>, t: Table, columns: seq<WrittenColumn>)
    requires AreWritten(ts, written) && DistinctNames(ts) && t.columns == Declared(ts, columns)
    ensures AreWritten(ts + [t], written + [columns]) && AreDeclared(ts, columns, t.columns)
  {
    var all, more := ts + [t], written + [columns];
    DeclaredAre(ts, columns);
    forall i | 0 <= i < |all|
      ensures AreDeclared(all[..i], more[i], all[i].columns)
    {
      assert all[..i] == ts[..i];
      assert i == |ts| ==> ts[..i] == ts;
    }
  }

  lemma {:induction false} SameKeys(ts: Tables, t: nat, rows: seq<Row>, n: nat, key: ForeignKey)
    requires t < |ts| && n <= |ts|
    ensures KeyExists(WithRows(ts, t, rows)[..n], key) <==> KeyExists(ts[..n], key)
  {
    var before, after := ts[..n], WithRows(ts, t, rows)[..n];
    assert forall i :: 0 <= i < n ==> after[i].name == before[i].name && after[i].columns == before[i].columns;
  }

  /** Rows do not change what tables were written with. */
  lemma {:induction false} StillWritten(ts: Tables, written: seq<seq<WrittenColumn>>, t: nat, rows: seq<Row>)
    requires AreWritten(ts, written) && t < |ts|
    ensures AreWritten(WithRows(ts, t, rows), written)
  {
    var after := WithRows(ts, t, rows);
    forall i | 0 <= i < |after|
      ensures AreDeclared(after[..i], written[i], after[i].columns)
    {
      forall key
        ensures KeyExists(after[..i], key) <==> KeyExists(ts[..i], key)
      {
        SameKeys(ts, t, rows, i, key);
      }
      forall c | 0 <= c < |written[i]|
        ensures IsDeclared(after[..i], written[i][c], after[i].columns[c])
      {
        SameDeclared(ts[..i], after[..i], written[i][c], ts[i].columns[c]);
      }
    }
  }

  lemma {:induction false} SameDeclared(ts: Tables, after: Tables, w: WrittenColumn, c: ColumnDef)
    requires IsDeclared(ts, w, c) && forall key :: KeyExists(after, key) <==> KeyExists(ts, key)
    ensures IsDeclared(after, w, c)
  {
    var n := |w.clauses|;
    forall i
      ensures IsLastKey(after, w, n, i) <==> IsLastKey(ts, w, n, i)
    {
    }
  }

  lemma {:induction false} SameNamesBefore(ts: Tables, t: Table, name: string, i: nat)
    requires i <= |ts| && FindTable(ts, name, i).Some?
    ensures FindTable(ts + [t], name, i) == FindTable(ts, name, i)
    decreases |ts| - i
  {
    if ts[i].name != name {
      SameNamesBefore(ts, t, name, i + 1);
    }
  }

  lemma {:induction false} SameTargetBefore(ts: Tables, t: Table, fk: ForeignKey)
    requires Target(ts, fk).Some?
    ensures Target(ts + [t], fk) == Target(ts, fk)
  {
    SameNamesBefore(ts, t, fk.table, 0);
  }

  lemma {:induction false} DeclaredHasTarget(ts: Tables, w: WrittenColumn, k: nat)
    requires k <= |w.clauses|
    ensures var key := DeclaredUpTo(ts, w, k).foreignKey; key.Some? ==> Target(ts, key.value).Some?
  {
    if k > 0 {
      DeclaredHasTarget(ts, w, k - 1);
    }
  }

  lemma {:induction false} CreateKeepsConstraints(ts: Tables, name: string, columns: seq<WrittenColumn>)
    requires DistinctNames(ts) && KeysPointBack(ts) && ConstraintsHold(ts) && FindTable(ts, name, 0).None?
    ensures var after := ts + [Table(name, Declared(ts, columns), [])];
            DistinctNames(after) && KeysPointBack(after) && ConstraintsHold(after)
  {
    var t := Table(name, Declared(ts, columns), []);
    var after := ts + [t];
    forall i, c | 0 <= i < |after| && 0 <= c < |after[i].columns| && after[i].columns[c].foreignKey.Some?
      ensures PointsBack(after, after[i].columns[c].foreignKey.value, i)
    {
      var fk := after[i].columns[c].foreignKey.value;
      if i < |ts| {
        assert PointsBack(ts, ts[i].columns[c].foreignKey.value, i);
      } else {
        DeclaredHasTarget(ts, columns[c], |columns[c].clauses|);
      }
      SameTargetBefore(ts, t, fk);
    }
    forall i | 0 <= i < |after|
      ensures OwnConstraintsHold(after[i])
    {
      if i < |ts| {
        assert OwnConstraintsHold(ts[i]);
      }
    }
    forall i, r, c | 0 <= i < |after| && 0 <= r < |after[i].rows| && 0 <= c < |after[i].columns|
      ensures CellKeepsKey(after, after[i].columns[c], after[i].rows[r][c])
    {
      assert ForeignKeysOf(ts, ts[i]) && RowKeepsKeys(ts, ts[i], ts[i].rows[r]);
      StillReferencedAfterCreate(ts, t, ts[i].columns[c], ts[i].rows[r][c]);
    }
  }

  lemma {:induction false} StillReferencedAfterCreate(ts: Tables, t: Table, def: ColumnDef, cell: Cell)
    requires AllFit(ts) && RowsFit(t) && CellKeepsKey(ts, def, cell)
    ensures AllFit(ts + [t]) && CellKeepsKey(ts + [t], def, cell)
  {
    if def.foreignKey.Some? && cell.Some? {
      SameTargetBefore(ts, t, def.foreignKey.value);
    }
  }

  // ---- INSERT ----

  lemma {:induction false} DatabaseFits(ts: Tables, written: seq<seq<WrittenColumn>>)
    requires IsDatabase(ts, written)
    ensures AllFit(ts)
  {
    assert forall i :: 0 <= i < |ts| ==> OwnConstraintsHold(ts[i]);
  }

  lemma {:induction false} InsertKeepsDatabase(ts: Tables, written: seq<seq<WrittenColumn>>, t: nat, row: Row)
    requires IsDatabase(ts, written) && t < |ts| && AllFit(ts) && |row| == |ts[t].columns| && Insertable(ts, t, row)
    ensures IsDatabase(WithRows(ts, t, ts[t].rows + [row]), written)
  {
    InsertKeepsConstraints(ts, t, row);
    SamePointers(ts, t, ts[t].rows + [row]);
    StillWritten(ts, written, t, ts[t].rows + [row]);
  }

  /** The first n rows. */
  function Rows(groups: seq<Option<Row>>, n: nat): (rows: seq<Row>)
    requires n <= |groups| && forall i :: 0 <= i < n ==> groups[i].Some?
    ensures |rows| == n
  {
    seq(n, i requires 0 <= i < n => groups[i].value)
  }

  // ---- DELETE ----

  /** After k removals the next row is the one that was checked. */
  lemma {:induction false} RemoveOne(before: Tables, t: nat, selected: seq<nat>, k: nat)
    requires t < |before| && k < |selected| && TableRows.Descending(selected) && AllFit(before)
    requires Unreferenced(before, t, selected) && !NamesTable(before[t], before[t].name)
    requires DistinctNames(before) && KeysPointBack(before)
    requires ConstraintsHold(Deleted(before, t, selected[..k]))
    ensures var now, row := Deleted(before, t, selected[..k]), selected[k];
            && row < |now[t].rows|
            && WithRows(now, t, SortedIndex.WithoutRow(now[t].rows, row)) == Deleted(before, t, selected[..k + 1])
    ensures var after := Deleted(before, t, selected[..k + 1]);
            DistinctNames(after) && KeysPointBack(after) && ConstraintsHold(after)
  {
    var row, now := selected[k], Deleted(before, t, selected[..k]);
    assert selected[..k + 1] == selected[..k] + [row];
    TableRows.RemoveBelow(before[t].rows, selected[..k], row);
    StillInPlace(before[t].rows, selected[..k], row);
    assert now[t].rows[row] == before[t].rows[row];
    ChildrenUnchanged(before, t, TableRows.Unselected(before[t].rows, selected[..k]), row);
    RemoveKeepsConstraints(now, t, row);
    SamePointers(before, t, TableRows.Unselected(before[t].rows, selected[..k + 1]));
  }

  lemma {:induction false} StillInPlace(rows: seq<Row>, selected: seq<nat>, row: nat)
    requires row < |rows| && forall r <- selected :: r > row
    ensures row < |TableRows.Unselected(rows, selected)| && TableRows.Unselected(rows, selected)[row] == rows[row]
  {
    if row == |rows| - 1 {
      TableRows.NothingSelected(rows[..|rows| - 1], selected);
    } else {
      StillInPlace(rows[..|rows| - 1], selected, row);
    }
  }

  lemma {:induction false} ChildrenUnchanged(ts: Tables, t: nat, rows: seq<Row>, r: nat)
    requires t < |ts| && AllFit(ts) && AllFit(WithRows(ts, t, rows)) && r < |ts[t].rows| && NoChildren(ts, t, ts[t].rows[r])
    ensures NoChildren(WithRows(ts, t, rows), t, ts[t].rows[r])
  {
    var after, row := WithRows(ts, t, rows), ts[t].rows[r];
    forall i, c, s | 0 <= i < |after| && i != t && 0 <= c < |after[i].columns| && 0 <= s < |after[i].rows|
      ensures !IsChild(after, t, row, after[i].columns[c], after[i].rows[s][c])
    {
      assert !IsChild(ts, t, row, ts[i].columns[c], ts[i].rows[s][c]);
    }
  }
}
