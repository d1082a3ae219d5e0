/** Tables with constraints: CREATE TABLE, INSERT and DELETE keep NOT NULL, UNIQUE,
    PRIMARY KEY, CHECK and FOREIGN KEY true for the stored rows. */
module Constraints {
  import TableRows
  import SortedIndex

  datatype Option<+T> = None | Some(value: T)

  datatype Value = Num(number: real) | Str(text: string)

  /** None is NULL. */
  type Cell = Option<Value>

  type Row = seq<Cell>

  datatype ForeignKey = ForeignKey(table: string, column: string)

  /** A CHECK condition is a test of a whole row. */
  datatype ColumnDef = ColumnDef(
    name: string,
    notNull: bool,
    isUnique: bool,
    isPrimaryKey: bool,
    foreignKey: Option<ForeignKey>,
    check: Option<Row -> bool>)

  datatype Table = Table(name: string, columns: seq<ColumnDef>, rows: seq<Row>)

  type Tables = seq<Table>

  // ---- Names ----

  function FindTable(ts: Tables, name: string, i: nat): (found: Option<nat>)
    requires i <= |ts|
    ensures found.Some? ==> i <= found.value < |ts| && ts[found.value].name == name
    ensures found.None? ==> forall j :: i <= j < |ts| ==> ts[j].name != name
    decreases |ts| - i
  {
    if i == |ts| then None else if ts[i].name == name then Some(i) else FindTable(ts, name, i + 1)
  }

  function FindColumn(cs: seq<ColumnDef>, name: string, i: nat): (found: Option<nat>)
    requires i <= |cs|
    ensures found.Some? ==> i <= found.value < |cs| && cs[found.value].name == name
    ensures found.None? ==> forall j :: i <= j < |cs| ==> cs[j].name != name
    decreases |cs| - i
  {
    if i == |cs| then None else if cs[i].name == name then Some(i) else FindColumn(cs, name, i + 1)
  }

  /** The table and the column that a foreign key names. */
  function Target(ts: Tables, fk: ForeignKey): (target: Option<(nat, nat)>)
    ensures target.Some? ==> target.value.0 < |ts| && target.value.1 < |ts[target.value.0].columns|
    ensures target.Some? ==> ts[target.value.0].name == fk.table && ts[target.value.0].columns[target.value.1].name == fk.column
  {
    var t := FindTable(ts, fk.table, 0);
    if t.None? then None
    else
      var c := FindColumn(ts[t.value].columns, fk.column, 0);
      if c.None? then None else Some((t.value, c.value))
  }

  // ---- What the constraints say ----

  predicate RowsFit(t: Table) {
    forall r :: 0 <= r < |t.rows| ==> |t.rows[r]| == |t.columns|
  }

  predicate DistinctNames(ts: Tables) {
    forall i, j :: 0 <= i < j < |ts| ==> ts[i].name != ts[j].name
  }

  predicate IsUniqueColumn(c: ColumnDef) {
    c.isUnique || c.isPrimaryKey
  }

  predicate RowKeepsNotNull(t: Table, row: Row)
    requires |row| == |t.columns|
  {
    forall c :: 0 <= c < |t.columns| && t.columns[c].notNull ==> row[c].Some?
  }

  predicate RowKeepsChecks(t: Table, row: Row)
    requires |row| == |t.columns|
  {
    forall c :: 0 <= c < |t.columns| && t.columns[c].check.Some? ==> t.columns[c].check.value(row)
  }

  /** No value of a unique column occurs in both rows. */
  predicate RowsDiffer(t: Table, a: Row, b: Row)
    requires |a| == |t.columns| == |b|
  {
    forall c :: 0 <= c < |t.columns| && IsUniqueColumn(t.columns[c]) && a[c].Some? ==> a[c] != b[c]
  }

  predicate Holds(t: Table, column: nat, value: Value)
    requires RowsFit(t) && column < |t.columns|
  {
    exists r :: 0 <= r < |t.rows| && t.rows[r][column] == Some(value)
  }

  predicate AllFit(ts: Tables) {
    forall t :: 0 <= t < |ts| ==> RowsFit(ts[t])
  }

  /** The column a foreign key names holds the value. */
  predicate IsReferenced(ts: Tables, fk: ForeignKey, value: Value)
    requires AllFit(ts)
  {
    Target(ts, fk).Some? && Holds(ts[Target(ts, fk).value.0], Target(ts, fk).value.1, value)
  }

  predicate CellKeepsKey(ts: Tables, def: ColumnDef, cell: Cell)
    requires AllFit(ts)
  {
    def.foreignKey.Some? && cell.Some? ==> IsReferenced(ts, def.foreignKey.value, cell.value)
  }

  predicate RowKeepsKeys(ts: Tables, t: Table, row: Row)
    requires AllFit(ts) && |row| == |t.columns|
  {
    forall c :: 0 <= c < |t.columns| ==> CellKeepsKey(ts, t.columns[c], row[c])
  }

  predicate NotNullHolds(t: Table)
    requires RowsFit(t)
  {
    forall r :: 0 <= r < |t.rows| ==> RowKeepsNotNull(t, t.rows[r])
  }

  predicate ChecksHold(t: Table)
    requires RowsFit(t)
  {
    forall r :: 0 <= r < |t.rows| ==> RowKeepsChecks(t, t.rows[r])
  }

  predicate UniqueHolds(t: Table)
    requires RowsFit(t)
  {
    forall r, s :: 0 <= r < s < |t.rows| ==> RowsDiffer(t, t.rows[r], t.rows[s])
  }

  /** The constraints of one table that are about its own rows. */
  predicate OwnConstraintsHold(t: Table) {
    RowsFit(t) && NotNullHolds(t) && ChecksHold(t) && UniqueHolds(t)
  }

  predicate ForeignKeysOf(ts: Tables, t: Table)
    requires AllFit(ts) && RowsFit(t)
  {
    forall r :: 0 <= r < |t.rows| ==> RowKeepsKeys(ts, t, t.rows[r])
  }

  predicate ForeignKeysHold(ts: Tables)
    requires AllFit(ts)
  {
    forall t :: 0 <= t < |ts| ==> ForeignKeysOf(ts, ts[t])
  }

  predicate ConstraintsHold(ts: Tables) {
    (forall t :: 0 <= t < |ts| ==> OwnConstraintsHold(ts[t])) && ForeignKeysHold(ts)
  }

  /** A foreign key names a column of a table created before. */
  predicate KeysPointBack(ts: Tables) {
    forall t, c :: 0 <= t < |ts| && 0 <= c < |ts[t].columns| && ts[t].columns[c].foreignKey.Some? ==>
      PointsBack(ts, ts[t].columns[c].foreignKey.value, t)
  }

  predicate PointsBack(ts: Tables, fk: ForeignKey, t: nat) {
    Target(ts, fk).Some? && Target(ts, fk).value.0 < t
  }

  // ---- INSERT ----

  /** What a row has to satisfy to be inserted. */
  predicate Insertable(ts: Tables, t: nat, row: Row)
    requires t < |ts| && AllFit(ts) && |row| == |ts[t].columns|
  {
    && RowKeepsNotNull(ts[t], row) && RowKeepsChecks(ts[t], row) && RowKeepsKeys(ts, ts[t], row)
    && forall r :: 0 <= r < |ts[t].rows| ==> RowsDiffer(ts[t], row, ts[t].rows[r])
  }

  function WithRows(ts: Tables, t: nat, rows: seq<Row>): (after: Tables)
    requires t < |ts|
    ensures |after| == |ts|
  {
    ts[t := ts[t].(rows := rows)]
  }

  lemma {:induction false} SameNames(ts: Tables, t: nat, rows: seq<Row>, name: string, i: nat)
    requires t < |ts| && i <= |ts|
    ensures FindTable(WithRows(ts, t, rows), name, i) == FindTable(ts, name, i)
    decreases |ts| - i
  {
    if i < |ts| {
      SameNames(ts, t, rows, name, i + 1);
    }
  }

  lemma {:induction false} SameTarget(ts: Tables, t: nat, rows: seq<Row>, fk: ForeignKey)
    requires t < |ts|
    ensures Target(WithRows(ts, t, rows), fk) == Target(ts, fk)
  {
    SameNames(ts, t, rows, fk.table, 0);
  }

  lemma {:induction false} SamePointers(ts: Tables, t: nat, rows: seq<Row>)
    requires t < |ts| && KeysPointBack(ts)
    ensures KeysPointBack(WithRows(ts, t, rows))
  {
    var after := WithRows(ts, t, rows);
    forall i, c | 0 <= i < |after| && 0 <= c < |after[i].columns| && after[i].columns[c].foreignKey.Some?
      ensures PointsBack(after, after[i].columns[c].foreignKey.value, i)
    {
      assert PointsBack(ts, ts[i].columns[c].foreignKey.value, i);
      SameTarget(ts, t, rows, ts[i].columns[c].foreignKey.value);
    }
  }

  lemma {:induction false} StillReferenced(ts: Tables, t: nat, row: Row, fk: ForeignKey, value: Value)
    requires t < |ts| && AllFit(ts) && |row| == |ts[t].columns| && IsReferenced(ts, fk, value)
    ensures AllFit(WithRows(ts, t, ts[t].rows + [row])) && IsReferenced(WithRows(ts, t, ts[t].rows + [row]), fk, value)
  {
    var after := WithRows(ts, t, ts[t].rows + [row]);
    SameTarget(ts, t, ts[t].rows + [row], fk);
    var (target, column) := Target(ts, fk).value;
    var r :| 0 <= r < |ts[target].rows| && ts[target].rows[r][column] == Some(value);
    assert after[target].rows[r][column] == Some(value);
  }

  lemma {:induction false} RowStillKeepsKeys(ts: Tables, t: nat, row: Row, owner: Table, other: Row)
    requires t < |ts| && AllFit(ts) && |row| == |ts[t].columns|
    requires |other| == |owner.columns| && RowKeepsKeys(ts, owner, other)
    ensures AllFit(WithRows(ts, t, ts[t].rows + [row])) && RowKeepsKeys(WithRows(ts, t, ts[t].rows + [row]), owner, other)
  {
    var after := WithRows(ts, t, ts[t].rows + [row]);
    forall c | 0 <= c < |owner.columns|
      ensures CellKeepsKey(after, owner.columns[c], other[c])
    {
      assert CellKeepsKey(ts, owner.columns[c], other[c]);
      if owner.columns[c].foreignKey.Some? && other[c].Some? {
        StillReferenced(ts, t, row, owner.columns[c].foreignKey.value, other[c].value);
      }
    }
  }

  lemma {:induction false} OwnAfterInsert(t: Table, row: Row)
    requires OwnConstraintsHold(t) && |row| == |t.columns| && RowKeepsNotNull(t, row) && RowKeepsChecks(t, row)
    requires forall r :: 0 <= r < |t.rows| ==> RowsDiffer(t, row, t.rows[r])
    ensures OwnConstraintsHold(t.(rows := t.rows + [row]))
  {
    var after := t.(rows := t.rows + [row]);
    forall r, s | 0 <= r < s < |after.rows|
      ensures RowsDiffer(after, after.rows[r], after.rows[s])
    {
      if s == |t.rows| {
        assert RowsDiffer(t, row, t.rows[r]);
      } else {
        assert RowsDiffer(t, t.rows[r], t.rows[s]);
      }
    }
    forall r | 0 <= r < |after.rows|
      ensures RowKeepsNotNull(after, after.rows[r]) && RowKeepsChecks(after, after.rows[r])
    {
      if r < |t.rows| {
        assert RowKeepsNotNull(t, t.rows[r]) && RowKeepsChecks(t, t.rows[r]);
      }
    }
  }

  /** An insertable row keeps all constraints. */
  lemma {:induction false} InsertKeepsConstraints(ts: Tables, t: nat, row: Row)
    requires t < |ts| && ConstraintsHold(ts) && |row| == |ts[t].columns| && Insertable(ts, t, row)
    ensures ConstraintsHold(WithRows(ts, t, ts[t].rows + [row]))
  {
    var after := WithRows(ts, t, ts[t].rows + [row]);
    OwnAfterInsert(ts[t], row);
    forall i | 0 <= i < |after|
      ensures OwnConstraintsHold(after[i])
    {
      assert OwnConstraintsHold(ts[i]);
    }
    forall i, r | 0 <= i < |after| && 0 <= r < |after[i].rows|
      ensures |after[i].rows[r]| == |after[i].columns| && RowKeepsKeys(after, after[i], after[i].rows[r])
    {
      if i == t && r == |ts[t].rows| {
        RowStillKeepsKeys(ts, t, row, ts[t], row);
      } else {
        assert ForeignKeysOf(ts, ts[i]) && RowKeepsKeys(ts, ts[i], ts[i].rows[r]);
        RowStillKeepsKeys(ts, t, row, ts[i], ts[i].rows[r]);
      }
    }
  }

  lemma {:induction false} RefusedBreaksOwn(t: Table, row: Row)
    requires OwnConstraintsHold(t) && |row| == |t.columns|
    requires !RowKeepsNotNull(t, row) || !RowKeepsChecks(t, row) || exists r :: 0 <= r < |t.rows| && !RowsDiffer(t, row, t.rows[r])
    ensures !OwnConstraintsHold(t.(rows := t.rows + [row]))
  {
    if OwnConstraintsHold(t.(rows := t.rows + [row])) {
      OwnMeansKept(t, row);
    }
  }

  lemma {:induction false} OwnMeansKept(t: Table, row: Row)
    requires |row| == |t.columns| && RowsFit(t) && OwnConstraintsHold(t.(rows := t.rows + [row]))
    ensures RowKeepsNotNull(t, row) && RowKeepsChecks(t, row)
    ensures forall r :: 0 <= r < |t.rows| ==> RowsDiffer(t, row, t.rows[r])
  {
    var after := t.(rows := t.rows + [row]);
    assert after.rows[|t.rows|] == row;
    assert RowKeepsNotNull(after, after.rows[|t.rows|]) && RowKeepsChecks(after, after.rows[|t.rows|]);
    forall r | 0 <= r < |t.rows|
      ensures RowsDiffer(t, row, t.rows[r])
    {
      assert RowsDiffer(after, after.rows[r], after.rows[|t.rows|]);
    }
  }

  /** In a table whose keys name other tables, a row without its parent stays without it. */
  lemma {:induction false} RefusedBreaksKeys(ts: Tables, t: nat, row: Row)
    requires t < |ts| && AllFit(ts) && DistinctNames(ts) && KeysPointBack(ts) && |row| == |ts[t].columns| && !RowKeepsKeys(ts, ts[t], row)
    ensures var after := WithRows(ts, t, ts[t].rows + [row]); AllFit(after) ==> !ForeignKeysHold(after)
  {
    var after := WithRows(ts, t, ts[t].rows + [row]);
    if AllFit(after) && ForeignKeysHold(after) {
      KeysMeanKept(ts, t, row);
    }
  }

  lemma {:induction false} KeysMeanKept(ts: Tables, t: nat, row: Row)
    requires t < |ts| && AllFit(ts) && KeysPointBack(ts) && |row| == |ts[t].columns|
    requires var after := WithRows(ts, t, ts[t].rows + [row]); AllFit(after) && ForeignKeysHold(after)
    ensures RowKeepsKeys(ts, ts[t], row)
  {
    var after := WithRows(ts, t, ts[t].rows + [row]);
    forall c | 0 <= c < |ts[t].columns| && ts[t].columns[c].foreignKey.Some? && row[c].Some?
      ensures CellKeepsKey(ts, ts[t].columns[c], row[c])
    {
      var fk := ts[t].columns[c].foreignKey.value;
      assert PointsBack(ts, fk, t);
      SameTarget(ts, t, ts[t].rows + [row], fk);
      assert ForeignKeysOf(after, after[t]) && after[t].rows[|ts[t].rows|] == row;
      assert RowKeepsKeys(after, after[t], row) && CellKeepsKey(after, after[t].columns[c], row[c]);
      var (target, p) := Target(ts, fk).value;
      assert after[target] == ts[target];
    }
  }

  /** A row can be inserted if and only if all constraints hold with it. */
  lemma {:induction false} InsertableIff(ts: Tables, t: nat, row: Row)
    requires t < |ts| && ConstraintsHold(ts) && DistinctNames(ts) && KeysPointBack(ts) && |row| == |ts[t].columns|
    ensures AllFit(ts) && (Insertable(ts, t, row) <==> ConstraintsHold(WithRows(ts, t, ts[t].rows + [row])))
  {
    var after := WithRows(ts, t, ts[t].rows + [row]);
    assert forall i :: 0 <= i < |ts| ==> OwnConstraintsHold(ts[i]);
    if Insertable(ts, t, row) {
      InsertKeepsConstraints(ts, t, row);
    } else {
      assert after[t] == ts[t].(rows := ts[t].rows + [row]);
      if !RowKeepsKeys(ts, ts[t], row) {
        RefusedBreaksKeys(ts, t, row);
      } else {
        RefusedBreaksOwn(ts[t], row);
      }
    }
  }

  // ---- DELETE ----

  /** No row of another table references this row. */
  predicate NoChildren(ts: Tables, t: nat, row: Row)
    requires t < |ts| && AllFit(ts) && |row| == |ts[t].columns|
  {
    forall i, c, r :: 0 <= i < |ts| && i != t && 0 <= c < |ts[i].columns| && 0 <= r < |ts[i].rows| ==>
      !IsChild(ts, t, row, ts[i].columns[c], ts[i].rows[r][c])
  }

  /** A cell of a foreign key column that references the row. */
  predicate IsChild(ts: Tables, t: nat, row: Row, def: ColumnDef, cell: Cell)
    requires t < |ts| && |row| == |ts[t].columns|
  {
    && def.foreignKey.Some? && def.foreignKey.value.table == ts[t].name
    && var p := FindColumn(ts[t].columns, def.foreignKey.value.column, 0);
       p.Some? && row[p.value].Some? && cell == row[p.value]
  }

  function RowsWithout(rows: seq<Row>, r: nat): seq<Row>
    requires r < |rows|
  {
    SortedIndex.WithoutRow(rows, r)
  }

  lemma {:induction false} OwnAfterRemove(t: Table, r: nat)
    requires OwnConstraintsHold(t) && r < |t.rows|
    ensures OwnConstraintsHold(t.(rows := RowsWithout(t.rows, r)))
  {
    var after := t.(rows := RowsWithout(t.rows, r));
    forall i | 0 <= i < |after.rows|
      ensures |after.rows[i]| == |t.columns| && RowKeepsNotNull(after, after.rows[i]) && RowKeepsChecks(after, after.rows[i])
    {
      var was := if i < r then i else i + 1;
      assert RowKeepsNotNull(t, t.rows[was]) && RowKeepsChecks(t, t.rows[was]) && after.rows[i] == t.rows[was];
    }
    forall i, j | 0 <= i < j < |after.rows|
      ensures RowsDiffer(after, after.rows[i], after.rows[j])
    {
      var a, b := if i < r then i else i + 1, if j < r then j else j + 1;
      assert after.rows[i] == t.rows[a] && after.rows[j] == t.rows[b] && RowsDiffer(t, t.rows[a], t.rows[b]);
    }
  }

  predicate NamesTable(t: Table, name: string) {
    exists c :: 0 <= c < |t.columns| && t.columns[c].foreignKey.Some? && t.columns[c].foreignKey.value.table == name
  }

  /** A reference that is not to the removed row survives. */
  lemma {:induction false} ReferenceSurvives(ts: Tables, t: nat, r: nat, def: ColumnDef, value: Value)
    requires t < |ts| && AllFit(ts) && DistinctNames(ts) && r < |ts[t].rows|
    requires def.foreignKey.Some? && IsReferenced(ts, def.foreignKey.value, value)
    requires def.foreignKey.value.table == ts[t].name ==> !IsChild(ts, t, ts[t].rows[r], def, Some(value))
    requires AllFit(WithRows(ts, t, RowsWithout(ts[t].rows, r)))
    ensures IsReferenced(WithRows(ts, t, RowsWithout(ts[t].rows, r)), def.foreignKey.value, value)
  {
    var fk := def.foreignKey.value;
    var after := WithRows(ts, t, RowsWithout(ts[t].rows, r));
    SameTarget(ts, t, RowsWithout(ts[t].rows, r), fk);
    var (target, column) := Target(ts, fk).value;
    var s :| 0 <= s < |ts[target].rows| && ts[target].rows[s][column] == Some(value);
    if target == t {
      assert s != r;
      var now := if s < r then s else s - 1;
      assert after[t].rows[now] == ts[t].rows[s];
    } else {
      assert after[target].rows[s][column] == Some(value);
    }
  }

  lemma {:induction false} FitsAfterRemove(ts: Tables, t: nat, r: nat)
    requires t < |ts| && AllFit(ts) && r < |ts[t].rows|
    ensures AllFit(WithRows(ts, t, RowsWithout(ts[t].rows, r)))
  {
    var rows := RowsWithout(ts[t].rows, r);
    forall i | 0 <= i < |rows|
      ensures |rows[i]| == |ts[t].columns|
    {
      assert rows[i] == ts[t].rows[if i < r then i else i + 1];
    }
  }

  /** Removing a row that no other table references keeps all constraints, when the
      table does not reference itself. */
  lemma {:induction false} RemoveKeepsConstraints(ts: Tables, t: nat, r: nat)
    requires t < |ts| && ConstraintsHold(ts) && DistinctNames(ts) && r < |ts[t].rows|
    requires NoChildren(ts, t, ts[t].rows[r]) && !NamesTable(ts[t], ts[t].name)
    ensures ConstraintsHold(WithRows(ts, t, RowsWithout(ts[t].rows, r)))
  {
    var after := WithRows(ts, t, RowsWithout(ts[t].rows, r));
    OwnAfterRemove(ts[t], r);
    FitsAfterRemove(ts, t, r);
    forall i | 0 <= i < |after|
      ensures OwnConstraintsHold(after[i])
    {
      assert OwnConstraintsHold(ts[i]);
    }
    forall i, s, c | 0 <= i < |after| && 0 <= s < |after[i].rows| && 0 <= c < |after[i].columns|
      ensures CellKeepsKey(after, after[i].columns[c], after[i].rows[s][c])
    {
      var was := if i == t && s >= r then s + 1 else s;
      assert after[i].rows[s] == ts[i].rows[was];
      assert ForeignKeysOf(ts, ts[i]) && RowKeepsKeys(ts, ts[i], ts[i].rows[was]);
      var def, cell := ts[i].columns[c], ts[i].rows[was][c];
      assert CellKeepsKey(ts, def, cell);
      if def.foreignKey.Some? && cell.Some? {
        assert i != t ==> !IsChild(ts, t, ts[t].rows[r], def, ts[i].rows[was][c]);
        ReferenceSurvives(ts, t, r, def, cell.value);
      }
    }
  }

  lemma {:induction false} PointBackMeansNotItself(ts: Tables, t: nat)
    requires t < |ts| && KeysPointBack(ts) && DistinctNames(ts)
    ensures !NamesTable(ts[t], ts[t].name)
  {
    forall c | 0 <= c < |ts[t].columns| && ts[t].columns[c].foreignKey.Some?
      ensures ts[t].columns[c].foreignKey.value.table != ts[t].name
    {
      assert PointsBack(ts, ts[t].columns[c].foreignKey.value, t);
    }
  }

  // ---- DELETE of a table that references itself ----

  function Deleted(ts: Tables, t: nat, selected: seq<nat>): Tables
    requires t < |ts|
  {
    WithRows(ts, t, TableRows.Unselected(ts[t].rows, selected))
  }

  lemma {:induction false} UnselectedMembers(rows: seq<Row>, selected: seq<nat>, row: Row)
    ensures row in TableRows.Unselected(rows, selected) <==>
            exists i :: 0 <= i < |rows| && i !in selected && rows[i] == row
  {
    if rows != [] {
      var init := rows[..|rows| - 1];
      UnselectedMembers(init, selected, row);
      assert forall i :: 0 <= i < |init| ==> init[i] == rows[i];
      if i :| 0 <= i < |rows| && i !in selected && rows[i] == row {
        assert i < |init| ==> init[i] == row;
      }
    }
  }

  lemma {:induction false} DeletedFits(ts: Tables, t: nat, selected: seq<nat>)
    requires t < |ts| && AllFit(ts)
    ensures AllFit(Deleted(ts, t, selected))
  {
    var rows := TableRows.Unselected(ts[t].rows, selected);
    forall r | 0 <= r < |rows|
      ensures |rows[r]| == |ts[t].columns|
    {
      UnselectedMembers(ts[t].rows, selected, rows[r]);
    }
  }

  /** A column of the table whose foreign key names the table itself. */
  predicate IsSelfKey(ts: Tables, t: nat, c: nat)
    requires t < |ts|
  {
    && c < |ts[t].columns| && ts[t].columns[c].foreignKey.Some?
    && Target(ts, ts[t].columns[c].foreignKey.value).Some?
    && Target(ts, ts[t].columns[c].foreignKey.value).value.0 == t
  }

  /** Some row that stays holds the value. */
  predicate StaysHeld(t: Table, selected: seq<nat>, column: nat, value: Value)
    requires RowsFit(t) && column < |t.columns|
  {
    exists s :: 0 <= s < |t.rows| && s !in selected && t.rows[s][column] == Some(value)
  }

  /** What a row that stays references in its own table is held by a row that stays. */
  ghost predicate SelfCovered(ts: Tables, t: nat, selected: seq<nat>)
    requires t < |ts| && AllFit(ts)
  {
    forall r, c: nat :: 0 <= r < |ts[t].rows| && r !in selected && IsSelfKey(ts, t, c) && ts[t].rows[r][c].Some? ==>
      StaysHeld(ts[t], selected, Target(ts, ts[t].columns[c].foreignKey.value).value.1, ts[t].rows[r][c].value)
  }

  predicate Unreferenced(ts: Tables, t: nat, selected: seq<nat>)
    requires t < |ts| && AllFit(ts)
  {
    forall k :: 0 <= k < |selected| ==> selected[k] < |ts[t].rows| && NoChildren(ts, t, ts[t].rows[selected[k]])
  }

  /** Row r of table i has in column c, whose key names column p of table t, the value
      that row s of table t has in column p. */
  predicate References(ts: Tables, i: nat, r: nat, c: nat, t: nat, s: nat, p: nat)
    requires AllFit(ts)
  {
    && i < |ts| && r < |ts[i].rows| && c < |ts[i].columns| && t < |ts| && s < |ts[t].rows| && p < |ts[t].columns|
    && ts[i].columns[c].foreignKey.Some? && ts[i].columns[c].foreignKey.value.table == ts[t].name
    && ts[i].columns[c].foreignKey.value.column == ts[t].columns[p].name
    && (forall q :: 0 <= q < p ==> ts[t].columns[q].name != ts[t].columns[p].name)
    && ts[i].rows[r][c].Some? && ts[i].rows[r][c] == ts[t].rows[s][p]
  }

  lemma {:induction false} FirstOfName(cs: seq<ColumnDef>, name: string, i: nat, p: nat)
    requires i <= p < |cs| && cs[p].name == name && forall q :: i <= q < p ==> cs[q].name != name
    ensures FindColumn(cs, name, i) == Some(p)
    decreases |cs| - i
  {
    if i < p {
      FirstOfName(cs, name, i + 1, p);
    }
  }

  lemma {:induction false} FoundIsFirst(cs: seq<ColumnDef>, name: string, i: nat)
    requires i <= |cs| && FindColumn(cs, name, i).Some?
    ensures forall q :: i <= q < FindColumn(cs, name, i).value ==> cs[q].name != name
    decreases |cs| - i
  {
    if cs[i].name != name {
      FoundIsFirst(cs, name, i + 1);
    }
  }

  /** A DELETE is refused if and only if a row of another table references a row that
      would go. */
  lemma {:induction false} RestrictedIff(ts: Tables, t: nat, selected: seq<nat>)
    requires t < |ts| && AllFit(ts) && forall k :: 0 <= k < |selected| ==> selected[k] < |ts[t].rows|
    ensures !Unreferenced(ts, t, selected) <==>
            exists i: nat, r: nat, c: nat, k: nat, p: nat :: k < |selected| && i != t && References(ts, i, r, c, t, selected[k], p)
  {
    assert RowsFit(ts[t]);
    if !Unreferenced(ts, t, selected) {
      var k: nat :| k < |selected| && !NoChildren(ts, t, ts[t].rows[selected[k]]);
      var i: nat, c: nat, r: nat :| i < |ts| && i != t && c < |ts[i].columns| && r < |ts[i].rows|
        && IsChild(ts, t, ts[t].rows[selected[k]], ts[i].columns[c], ts[i].rows[r][c]);
      var name := ts[i].columns[c].foreignKey.value.column;
      FoundIsFirst(ts[t].columns, name, 0);
      assert References(ts, i, r, c, t, selected[k], FindColumn(ts[t].columns, name, 0).value);
    }
    if i: nat, r: nat, c: nat, k: nat, p: nat :| k < |selected| && i != t && References(ts, i, r, c, t, selected[k], p) {
      FirstOfName(ts[t].columns, ts[t].columns[p].name, 0, p);
      assert IsChild(ts, t, ts[t].rows[selected[k]], ts[i].columns[c], ts[i].rows[r][c]);
    }
  }

  /** The row that is in the way would lose its parent, when the referenced column is
      unique. */
  lemma {:induction false} RestrictedLosesParent(ts: Tables, t: nat, selected: seq<nat>, i: nat, r: nat, c: nat, k: nat, p: nat)
    requires t < |ts| && ConstraintsHold(ts) && AllFit(ts) && DistinctNames(ts) && AllFit(Deleted(ts, t, selected))
    requires k < |selected| && i != t && References(ts, i, r, c, t, selected[k], p) && IsUniqueColumn(ts[t].columns[p])
    ensures !CellKeepsKey(Deleted(ts, t, selected), ts[i].columns[c], ts[i].rows[r][c])
  {
    var fk, value := ts[i].columns[c].foreignKey.value, ts[i].rows[r][c].value;
    FirstOfName(ts[t].columns, fk.column, 0, p);
    SameTarget(ts, t, TableRows.Unselected(ts[t].rows, selected), fk);
    assert FindTable(ts, fk.table, 0) == Some(t);
    if StaysHeld(ts[t], selected, p, value) {
      var s :| 0 <= s < |ts[t].rows| && s !in selected && ts[t].rows[s][p] == Some(value);
      CellsDiffer(ts[t], s, selected[k], p);
    }
    HeldAfterDelete(ts, t, selected, p, value);
  }

  /** A value of a unique column stands in one row only. */
  lemma {:induction false} CellsDiffer(t: Table, r: nat, s: nat, p: nat)
    requires OwnConstraintsHold(t) && r < |t.rows| && s < |t.rows| && p < |t.columns| && IsUniqueColumn(t.columns[p]) && r != s
    ensures t.rows[r][p].Some? ==> t.rows[r][p] != t.rows[s][p]
  {
    if r < s {
      assert RowsDiffer(t, t.rows[r], t.rows[s]);
    } else {
      assert RowsDiffer(t, t.rows[s], t.rows[r]);
    }
  }

  lemma {:induction false} HeldAfterDelete(ts: Tables, t: nat, selected: seq<nat>, column: nat, value: Value)
    requires t < |ts| && AllFit(ts) && AllFit(Deleted(ts, t, selected)) && column < |ts[t].columns|
    ensures Holds(Deleted(ts, t, selected)[t], column, value) <==> StaysHeld(ts[t], selected, column, value)
  {
    var rows, left := ts[t].rows, TableRows.Unselected(ts[t].rows, selected);
    assert RowsFit(Deleted(ts, t, selected)[t]);
    if r :| 0 <= r < |left| && left[r][column] == Some(value) {
      UnselectedMembers(rows, selected, left[r]);
    }
    if s :| 0 <= s < |rows| && s !in selected && rows[s][column] == Some(value) {
      UnselectedMembers(rows, selected, rows[s]);
      var r :| 0 <= r < |left| && left[r] == rows[s];
    }
  }

  /** The reference of a row in another table survives. */
  lemma {:induction false} ChildKeepsParent(ts: Tables, t: nat, selected: seq<nat>, i: nat, r: nat, c: nat)
    requires t < |ts| && AllFit(ts) && DistinctNames(ts) && Unreferenced(ts, t, selected) && AllFit(Deleted(ts, t, selected))
    requires i < |ts| && i != t && r < |ts[i].rows| && c < |ts[i].columns| && CellKeepsKey(ts, ts[i].columns[c], ts[i].rows[r][c])
    ensures CellKeepsKey(Deleted(ts, t, selected), ts[i].columns[c], ts[i].rows[r][c])
  {
    var def, cell := ts[i].columns[c], ts[i].rows[r][c];
    if def.foreignKey.Some? && cell.Some? {
      var fk := def.foreignKey.value;
      SameTarget(ts, t, TableRows.Unselected(ts[t].rows, selected), fk);
      var (target, p) := Target(ts, fk).value;
      var s :| 0 <= s < |ts[target].rows| && ts[target].rows[s][p] == cell;
      if target == t {
        forall k | 0 <= k < |selected|
          ensures selected[k] != s
        {
          var isChild := IsChild(ts, t, ts[t].rows[selected[k]], ts[i].columns[c], ts[i].rows[r][c]);
        }
        HeldAfterDelete(ts, t, selected, p, cell.value);
      } else {
        assert Holds(Deleted(ts, t, selected)[target], p, cell.value);
      }
    }
  }

  lemma {:induction false} OwnRowKeepsParent(ts: Tables, t: nat, selected: seq<nat>, r: nat, c: nat)
    requires t < |ts| && AllFit(ts) && AllFit(Deleted(ts, t, selected)) && SelfCovered(ts, t, selected)
    requires r < |ts[t].rows| && r !in selected && c < |ts[t].columns| && CellKeepsKey(ts, ts[t].columns[c], ts[t].rows[r][c])
    ensures CellKeepsKey(Deleted(ts, t, selected), ts[t].columns[c], ts[t].rows[r][c])
  {
    var def, cell := ts[t].columns[c], ts[t].rows[r][c];
    if def.foreignKey.Some? && cell.Some? {
      var fk := def.foreignKey.value;
      SameTarget(ts, t, TableRows.Unselected(ts[t].rows, selected), fk);
      var (target, p) := Target(ts, fk).value;
      if target == t {
        assert IsSelfKey(ts, t, c);
        HeldAfterDelete(ts, t, selected, p, cell.value);
      } else {
        assert Holds(ts[target], p, cell.value) && Holds(Deleted(ts, t, selected)[target], p, cell.value);
      }
    }
  }

  /** A DELETE that passes the check against other tables keeps FOREIGN KEY exactly
      when what the rows that stay reference in their own table stays too. */
  lemma {:induction false} DeleteKeepsKeysIff(ts: Tables, t: nat, selected: seq<nat>)
    requires t < |ts| && AllFit(ts) && ForeignKeysHold(ts) && DistinctNames(ts) && Unreferenced(ts, t, selected)
    ensures AllFit(Deleted(ts, t, selected))
    ensures ForeignKeysHold(Deleted(ts, t, selected)) <==> SelfCovered(ts, t, selected)
  {
    var after := Deleted(ts, t, selected);
    DeletedFits(ts, t, selected);
    if SelfCovered(ts, t, selected) {
      CoveredKeepsKeys(ts, t, selected);
    }
    if ForeignKeysHold(after) {
      KeysMeanCovered(ts, t, selected);
    }
  }

  lemma {:induction false} CoveredKeepsKeys(ts: Tables, t: nat, selected: seq<nat>)
    requires t < |ts| && AllFit(ts) && ForeignKeysHold(ts) && DistinctNames(ts) && Unreferenced(ts, t, selected)
    requires SelfCovered(ts, t, selected) && AllFit(Deleted(ts, t, selected))
    ensures ForeignKeysHold(Deleted(ts, t, selected))
  {
    var after := Deleted(ts, t, selected);
    forall i, r, c | 0 <= i < |after| && 0 <= r < |after[i].rows| && 0 <= c < |after[i].columns|
      ensures CellKeepsKey(after, after[i].columns[c], after[i].rows[r][c])
    {
      assert ForeignKeysOf(ts, ts[i]);
      if i == t {
        UnselectedMembers(ts[t].rows, selected, after[t].rows[r]);
        var was :| 0 <= was < |ts[t].rows| && was !in selected && ts[t].rows[was] == after[t].rows[r];
        assert RowKeepsKeys(ts, ts[t], ts[t].rows[was]);
        OwnRowKeepsParent(ts, t, selected, was, c);
      } else {
        assert RowKeepsKeys(ts, ts[i], ts[i].rows[r]);
        ChildKeepsParent(ts, t, selected, i, r, c);
      }
    }
  }

  lemma {:induction false} KeysMeanCovered(ts: Tables, t: nat, selected: seq<nat>)
    requires t < |ts| && AllFit(ts) && AllFit(Deleted(ts, t, selected)) && ForeignKeysHold(Deleted(ts, t, selected))
    ensures SelfCovered(ts, t, selected)
  {
    var after := Deleted(ts, t, selected);
    forall r, c: nat | 0 <= r < |ts[t].rows| && r !in selected && IsSelfKey(ts, t, c) && ts[t].rows[r][c].Some?
      ensures StaysHeld(ts[t], selected, Target(ts, ts[t].columns[c].foreignKey.value).value.1, ts[t].rows[r][c].value)
    {
      var fk, value := ts[t].columns[c].foreignKey.value, ts[t].rows[r][c].value;
      UnselectedMembers(ts[t].rows, selected, ts[t].rows[r]);
      var now :| 0 <= now < |after[t].rows| && after[t].rows[now] == ts[t].rows[r];
      assert ForeignKeysOf(after, after[t]) && RowKeepsKeys(after, after[t], after[t].rows[now]);
      assert CellKeepsKey(after, after[t].columns[c], after[t].rows[now][c]);
      SameTarget(ts, t, TableRows.Unselected(ts[t].rows, selected), fk);
      HeldAfterDelete(ts, t, selected, Target(ts, fk).value.1, value);
    }
  }

  const SELF_KEY := ForeignKey("t", "id")
  const SELF_COLUMNS := [ColumnDef("id", true, true, true, None, None), ColumnDef("up", false, false, false, Some(SELF_KEY), None)]

  /** A table whose second column references its first, with a row and its parent. */
  const SELF_TABLES: Tables := [Table("t", SELF_COLUMNS, [[Some(Num(1.0)), None], [Some(Num(2.0)), Some(Num(1.0))]])]

  lemma {:induction false} SelfTarget()
    ensures Target(SELF_TABLES, SELF_KEY) == Some((0, 0))
  {
    assert FindColumn(SELF_COLUMNS, "id", 0) == Some(0);
    assert FindTable(SELF_TABLES, "t", 0) == Some(0);
  }

  lemma {:induction false} SelfTablesHold()
    ensures AllFit(SELF_TABLES) && ConstraintsHold(SELF_TABLES)
  {
    var t, one := SELF_TABLES[0], Num(1.0);
    SelfTarget();
    assert t.rows[0][0] == Some(one);
    assert Holds(t, 0, one);
    assert CellKeepsKey(SELF_TABLES, t.columns[1], t.rows[1][1]);
    forall r | 0 <= r < |t.rows|
      ensures RowKeepsKeys(SELF_TABLES, t, t.rows[r])
    {
    }
    assert OwnConstraintsHold(t);
  }

  /** Deleting the parent passes the check against other tables and leaves the row
      that references it behind. */
  lemma {:induction false} SelfReferenceCounterexample()
    ensures AllFit(SELF_TABLES) && ConstraintsHold(SELF_TABLES) && DistinctNames(SELF_TABLES) && Unreferenced(SELF_TABLES, 0, [0])
    ensures AllFit(Deleted(SELF_TABLES, 0, [0])) && !ForeignKeysHold(Deleted(SELF_TABLES, 0, [0]))
  {
    SelfTablesHold();
    SelfTarget();
    DeleteKeepsKeysIff(SELF_TABLES, 0, [0]);
    NotCovered();
  }

  lemma {:induction false} NotCovered()
    requires AllFit(SELF_TABLES)
    ensures !SelfCovered(SELF_TABLES, 0, [0])
  {
    var t, c: nat := SELF_TABLES[0], 1;
    SelfTarget();
    assert IsSelfKey(SELF_TABLES, 0, c) && 1 !in [0] && t.rows[1][c] == Some(Num(1.0));
    assert !StaysHeld(t, [0], 0, Num(1.0));
  }
}
