/** CREATE TABLE column by column: what the clauses of a column, in any order, declare,
    and what a table whose columns are declared so promises about its rows. */
module Declarations {
  import opened Constraints

  /** A clause behind the type of a column. */
  datatype Clause =
    | NotNull
    | Unique
    | PrimaryKey
    | References(key: ForeignKey)
    | Check(condition: Row -> bool)

  /** A column as it is written. */
  datatype WrittenColumn = WrittenColumn(name: string, clauses: seq<Clause>)

  /** A later clause of the same kind wins, but a key that names no existing column is
      left out. */
  function WithClause(ts: Tables, c: ColumnDef, clause: Clause): ColumnDef {
    match clause
    case NotNull => c.(notNull := true)
    case Unique => c.(isUnique := true)
    case PrimaryKey => c.(isPrimaryKey := true, notNull := true, isUnique := true)
    case References(key) => if Target(ts, key).Some? then c.(foreignKey := Some(key)) else c
    case Check(condition) => c.(check := Some(condition))
  }

  /** The column after its first k clauses. */
  function DeclaredUpTo(ts: Tables, w: WrittenColumn, k: nat): ColumnDef
    requires k <= |w.clauses|
  {
    if k == 0 then ColumnDef(w.name, false, false, false, None, None)
    else WithClause(ts, DeclaredUpTo(ts, w, k - 1), w.clauses[k - 1])
  }

  function DeclaredOne(ts: Tables, w: WrittenColumn): ColumnDef {
    DeclaredUpTo(ts, w, |w.clauses|)
  }

  function Declared(ts: Tables, ws: seq<WrittenColumn>): (columns: seq<ColumnDef>)
    ensures |columns| == |ws|
  {
    seq(|ws|, i requires 0 <= i < |ws| => DeclaredOne(ts, ws[i]))
  }

  // ---- What is declared ----

  /** Some table has the column that the key names. */
  predicate KeyExists(ts: Tables, key: ForeignKey) {
    exists t, c :: 0 <= t < |ts| && 0 <= c < |ts[t].columns| && ts[t].name == key.table && ts[t].columns[c].name == key.column
  }

  ghost predicate HasNotNull(w: WrittenColumn, k: nat) {
    exists i :: 0 <= i < k && i < |w.clauses| && (w.clauses[i].NotNull? || w.clauses[i].PrimaryKey?)
  }

  ghost predicate HasUnique(w: WrittenColumn, k: nat) {
    exists i :: 0 <= i < k && i < |w.clauses| && (w.clauses[i].Unique? || w.clauses[i].PrimaryKey?)
  }

  ghost predicate HasPrimaryKey(w: WrittenColumn, k: nat) {
    exists i :: 0 <= i < k && i < |w.clauses| && w.clauses[i].PrimaryKey?
  }

  /** Clause i is the last of the first k that references an existing column. */
  ghost predicate IsLastKey(ts: Tables, w: WrittenColumn, k: nat, i: int) {
    && 0 <= i < k && i < |w.clauses| && w.clauses[i].References? && KeyExists(ts, w.clauses[i].key)
    && forall j :: i < j < k && j < |w.clauses| && w.clauses[j].References? ==> !KeyExists(ts, w.clauses[j].key)
  }

  ghost predicate IsLastCheck(w: WrittenColumn, k: nat, i: int) {
    && 0 <= i < k && i < |w.clauses| && w.clauses[i].Check?
    && forall j :: i < j < k && j < |w.clauses| ==> !w.clauses[j].Check?
  }

  ghost predicate KeyIsLast(ts: Tables, w: WrittenColumn, k: nat, key: Option<ForeignKey>) {
    if key.Some? then exists i :: IsLastKey(ts, w, k, i) && w.clauses[i].key == key.value
    else forall i :: !IsLastKey(ts, w, k, i)
  }

  ghost predicate CheckIsLast(w: WrittenColumn, k: nat, check: Option<Row -> bool>) {
    if check.Some? then exists i :: IsLastCheck(w, k, i) && w.clauses[i].condition == check.value
    else forall i :: !IsLastCheck(w, k, i)
  }

  /** The column is what its first k clauses say, in whichever order they come. */
  ghost predicate IsDeclaredUpTo(ts: Tables, w: WrittenColumn, k: nat, c: ColumnDef) {
    && c.name == w.name
    && (c.notNull <==> HasNotNull(w, k)) && (c.isUnique <==> HasUnique(w, k)) && (c.isPrimaryKey <==> HasPrimaryKey(w, k))
    && KeyIsLast(ts, w, k, c.foreignKey) && CheckIsLast(w, k, c.check)
  }

  ghost predicate IsDeclared(ts: Tables, w: WrittenColumn, c: ColumnDef) {
    IsDeclaredUpTo(ts, w, |w.clauses|, c)
  }

  ghost predicate AreDeclared(ts: Tables, ws: seq<WrittenColumn>, columns: seq<ColumnDef>) {
    |columns| == |ws| && forall i :: 0 <= i < |ws| ==> IsDeclared(ts, ws[i], columns[i])
  }

  /** A key has a target if and only if the column it names exists. */
  lemma {:induction false} TargetIff(ts: Tables, key: ForeignKey)
    requires DistinctNames(ts)
    ensures Target(ts, key).Some? <==> KeyExists(ts, key)
  {
    var t := FindTable(ts, key.table, 0);
    if t.Some? {
      var c := FindColumn(ts[t.value].columns, key.column, 0);
      if c.Some? {
        assert ts[t.value].columns[c.value].name == key.column;
      }
    }
  }

  lemma {:induction false} ClauseDeclares(ts: Tables, w: WrittenColumn, k: nat, c: ColumnDef)
    requires DistinctNames(ts) && k < |w.clauses| && IsDeclaredUpTo(ts, w, k, c)
    ensures IsDeclaredUpTo(ts, w, k + 1, WithClause(ts, c, w.clauses[k]))
  {
    var more := WithClause(ts, c, w.clauses[k]);
    FlagsDeclared(w, k);
    KeyDeclared(ts, w, k, c);
    CheckDeclared(ts, w, k, c);
  }

  lemma {:induction false} FlagsDeclared(w: WrittenColumn, k: nat)
    requires k < |w.clauses|
    ensures HasNotNull(w, k + 1) <==> HasNotNull(w, k) || w.clauses[k].NotNull? || w.clauses[k].PrimaryKey?
    ensures HasUnique(w, k + 1) <==> HasUnique(w, k) || w.clauses[k].Unique? || w.clauses[k].PrimaryKey?
    ensures HasPrimaryKey(w, k + 1) <==> HasPrimaryKey(w, k) || w.clauses[k].PrimaryKey?
  {
  }

  lemma {:induction false} KeyDeclared(ts: Tables, w: WrittenColumn, k: nat, c: ColumnDef)
    requires DistinctNames(ts) && k < |w.clauses| && IsDeclaredUpTo(ts, w, k, c)
    ensures KeyIsLast(ts, w, k + 1, WithClause(ts, c, w.clauses[k]).foreignKey)
  {
    var clause, m := w.clauses[k], k + 1;
    if clause.References? {
      TargetIff(ts, clause.key);
    }
    if clause.References? && KeyExists(ts, clause.key) {
      assert IsLastKey(ts, w, m, k);
    } else {
      forall i
        ensures IsLastKey(ts, w, m, i) <==> IsLastKey(ts, w, k, i)
      {
      }
    }
  }

  lemma {:induction false} CheckDeclared(ts: Tables, w: WrittenColumn, k: nat, c: ColumnDef)
    requires k < |w.clauses| && IsDeclaredUpTo(ts, w, k, c)
    ensures CheckIsLast(w, k + 1, WithClause(ts, c, w.clauses[k]).check)
  {
    var m := k + 1;
    if w.clauses[k].Check? {
      assert IsLastCheck(w, m, k);
    } else {
      forall i
        ensures IsLastCheck(w, m, i) <==> IsLastCheck(w, k, i)
      {
      }
    }
  }

  lemma {:induction false} NothingDeclared(ts: Tables, w: WrittenColumn)
    ensures IsDeclaredUpTo(ts, w, 0, ColumnDef(w.name, false, false, false, None, None))
  {
  }

  lemma {:induction false} DeclaredUpToIs(ts: Tables, w: WrittenColumn, k: nat)
    requires DistinctNames(ts) && k <= |w.clauses|
    ensures IsDeclaredUpTo(ts, w, k, DeclaredUpTo(ts, w, k))
  {
    hide IsDeclaredUpTo, WithClause;
    if k == 0 {
      NothingDeclared(ts, w);
    } else {
      DeclaredUpToIs(ts, w, k - 1);
      ClauseDeclares(ts, w, k - 1, DeclaredUpTo(ts, w, k - 1));
    }
  }

  /** The columns of a new table are what is written. */
  lemma {:induction false} DeclaredAre(ts: Tables, ws: seq<WrittenColumn>)
    requires DistinctNames(ts)
    ensures AreDeclared(ts, ws, Declared(ts, ws))
  {
    forall i | 0 <= i < |ws|
      ensures IsDeclared(ts, ws[i], Declared(ts, ws)[i])
    {
      DeclaredUpToIs(ts, ws[i], |ws[i].clauses|);
    }
  }

  // ---- What the rows promise ----

  /** The rows of a table keep what its columns were written with: no NULL where NOT
      NULL or PRIMARY KEY is written, no value twice where UNIQUE or PRIMARY KEY is, the
      last CHECK of every column, and every value of a column whose last REFERENCES names
      an existing column is in that column. */
  ghost predicate RowsKeepWritten(before: Tables, all: Tables, ws: seq<WrittenColumn>, rows: seq<Row>) {
    && (forall r :: 0 <= r < |rows| ==> |rows[r]| == |ws|)
    && forall c :: 0 <= c < |ws| ==> ColumnKeepsWritten(before, all, ws, rows, c)
  }

  ghost predicate ColumnKeepsWritten(before: Tables, all: Tables, ws: seq<WrittenColumn>, rows: seq<Row>, c: nat)
    requires c < |ws| && forall r :: 0 <= r < |rows| ==> |rows[r]| == |ws|
  {
    var n := |ws[c].clauses|;
    && (HasNotNull(ws[c], n) ==> forall r :: 0 <= r < |rows| ==> rows[r][c].Some?)
    && (HasUnique(ws[c], n) ==> forall r, s :: 0 <= r < s < |rows| && rows[r][c].Some? ==> rows[r][c] != rows[s][c])
    && (forall i :: IsLastCheck(ws[c], n, i) ==> forall r :: 0 <= r < |rows| ==> ws[c].clauses[i].condition(rows[r]))
    && (forall i :: IsLastKey(before, ws[c], n, i) ==>
          forall r :: 0 <= r < |rows| && rows[r][c].Some? ==> IsStored(all, ws[c].clauses[i].key, rows[r][c].value))
  }

  /** The value is stored in the column that the key names. */
  ghost predicate IsStored(ts: Tables, key: ForeignKey, value: Value) {
    exists t, c, r ::
      && 0 <= t < |ts| && 0 <= c < |ts[t].columns| && ts[t].name == key.table && ts[t].columns[c].name == key.column
      && 0 <= r < |ts[t].rows| && c < |ts[t].rows[r]| && ts[t].rows[r][c] == Some(value)
  }

  /** A table whose columns are declared as written, and whose constraints hold, keeps
      what is written. */
  lemma {:induction false} ConstraintsKeepWritten(before: Tables, all: Tables, t: nat, ws: seq<WrittenColumn>)
    requires t < |all| && ConstraintsHold(all) && AreDeclared(before, ws, all[t].columns)
    ensures RowsKeepWritten(before, all, ws, all[t].rows)
  {
    var table := all[t];
    assert OwnConstraintsHold(table) && ForeignKeysOf(all, table);
    forall c | 0 <= c < |ws|
      ensures ColumnKeepsWritten(before, all, ws, table.rows, c)
    {
      assert IsDeclared(before, ws[c], table.columns[c]);
      if HasUnique(ws[c], |ws[c].clauses|) {
        UniqueKept(before, table, ws, c);
      }
      ChecksKept(before, table, ws, c);
      KeysKept(before, all, t, ws, c);
      forall r | 0 <= r < |table.rows| && HasNotNull(ws[c], |ws[c].clauses|)
        ensures table.rows[r][c].Some?
      {
        assert RowKeepsNotNull(table, table.rows[r]);
      }
    }
  }

  lemma {:induction false} UniqueKept(before: Tables, table: Table, ws: seq<WrittenColumn>, c: nat)
    requires OwnConstraintsHold(table) && AreDeclared(before, ws, table.columns) && c < |ws|
    requires HasUnique(ws[c], |ws[c].clauses|)
    ensures forall r, s :: 0 <= r < s < |table.rows| && table.rows[r][c].Some? ==> table.rows[r][c] != table.rows[s][c]
  {
    assert IsDeclared(before, ws[c], table.columns[c]);
    forall r, s | 0 <= r < s < |table.rows| && table.rows[r][c].Some?
      ensures table.rows[r][c] != table.rows[s][c]
    {
      assert RowsDiffer(table, table.rows[r], table.rows[s]);
    }
  }

  lemma {:induction false} ChecksKept(before: Tables, table: Table, ws: seq<WrittenColumn>, c: nat)
    requires OwnConstraintsHold(table) && AreDeclared(before, ws, table.columns) && c < |ws|
    ensures forall i :: IsLastCheck(ws[c], |ws[c].clauses|, i) ==> forall r :: 0 <= r < |table.rows| ==> ws[c].clauses[i].condition(table.rows[r])
  {
    var n := |ws[c].clauses|;
    assert IsDeclared(before, ws[c], table.columns[c]);
    forall i, r | IsLastCheck(ws[c], n, i) && 0 <= r < |table.rows|
      ensures ws[c].clauses[i].condition(table.rows[r])
    {
      var j :| IsLastCheck(ws[c], n, j) && ws[c].clauses[j].condition == table.columns[c].check.value;
      assert i == j;
      assert RowKeepsChecks(table, table.rows[r]);
    }
  }

  lemma {:induction false} KeysKept(before: Tables, all: Tables, t: nat, ws: seq<WrittenColumn>, c: nat)
    requires t < |all| && ConstraintsHold(all) && AreDeclared(before, ws, all[t].columns) && c < |ws|
    requires RowsFit(all[t])
    ensures forall i :: IsLastKey(before, ws[c], |ws[c].clauses|, i) ==>
              forall r :: 0 <= r < |all[t].rows| && all[t].rows[r][c].Some? ==> IsStored(all, ws[c].clauses[i].key, all[t].rows[r][c].value)
  {
    var n, table := |ws[c].clauses|, all[t];
    assert IsDeclared(before, ws[c], table.columns[c]) && ForeignKeysOf(all, table);
    forall i, r | IsLastKey(before, ws[c], n, i) && 0 <= r < |table.rows| && table.rows[r][c].Some?
      ensures IsStored(all, ws[c].clauses[i].key, table.rows[r][c].value)
    {
      var j :| IsLastKey(before, ws[c], n, j) && ws[c].clauses[j].key == table.columns[c].foreignKey.value;
      assert i == j;
      assert RowKeepsKeys(all, table, table.rows[r]) && CellKeepsKey(all, table.columns[c], table.rows[r][c]);
      ReferencedIsStored(all, ws[c].clauses[i].key, table.rows[r][c].value);
    }
  }

  lemma {:induction false} ReferencedIsStored(ts: Tables, key: ForeignKey, value: Value)
    requires AllFit(ts) && IsReferenced(ts, key, value)
    ensures IsStored(ts, key, value)
  {
    var (t, c) := Target(ts, key).value;
    var r :| 0 <= r < |ts[t].rows| && ts[t].rows[r][c] == Some(value);
    assert ts[t].name == key.table && ts[t].columns[c].name == key.column;
  }
}
