/** Schema migration: what Migrate issues, and what it does to the table. */
module Migration {
  import opened Common
  import opened Tables

  /** The elements of a that are not in b, in order. */
  function Difference(a: seq<string>, b: seq<string>): (diff: seq<string>)
    ensures forall c :: c in diff <==> c in a && c !in b
  {
    if a == [] then []
    else
      assert forall c :: c in a <==> c == a[0] || c in a[1..];
      if a[0] in b then Difference(a[1..], b) else [a[0]] + Difference(a[1..], b)
  }

  lemma {:induction false} DifferenceDistinct(a: seq<string>, b: seq<string>)
    requires Distinct(a)
    ensures Distinct(Difference(a, b))
  {
    if a != [] {
      DifferenceDistinct(a[1..], b);
      var rest := Difference(a[1..], b);
      forall j | 0 <= j < |rest| ensures rest[j] != a[0] {
        assert rest[j] in rest;
      }
    }
  }

  method ComputeDifference(a: seq<string>, b: seq<string>) returns (diff: seq<string>)
    ensures diff == Difference(a, b)
  {
    var m: map<string, bool> := map[];
    var i := 0;
    while i < |b|
      invariant i <= |b|
      invariant forall c :: c in m <==> c in b[..i]
    {
      m := m[b[i] := true];
      assert b[..i + 1] == b[..i] + [b[i]];
      i := i + 1;
    }
    assert b[..i] == b;
    diff := [];
    var k := 0;
    while k < |a|
      invariant k <= |a|
      invariant diff + Difference(a[k..], b) == Difference(a, b)
    {
      assert a[k..][1..] == a[k + 1..];
      if a[k] !in m {
        diff := diff + [a[k]];
      }
      k := k + 1;
    }
  }

  function Additions(name: string, columns: seq<string>): seq<Statement> {
    if columns == [] then [] else [AddColumn(name, columns[0])] + Additions(name, columns[1..])
  }

  function Temporary(name: string): string {
    "tmp_" + name
  }

  function Rebuild(name: string, fields: seq<string>): seq<Statement> {
    [CreateAs(Temporary(name), fields, name), DropTable(name), Rename(Temporary(name), name)]
  }

  /** The statements for a table with these columns. */
  function Alterations(name: string, fields: seq<string>, columns: seq<string>): seq<Statement> {
    Additions(name, Difference(fields, columns))
    + if Difference(columns, fields) == [] then [] else Rebuild(name, fields)
  }

  /** Migrate inside its transaction. Statement 0 asks whether the table exists, and a fault there reads as no;
      statement 1 fetches its rows, and a fault there makes a nil result set whose use panics. */
  function Migrate(db: Database, name: string, fields: seq<string>, faults: set<nat>): Run {
    if 0 in faults || name !in db then ExecuteAll([CreateTable(name, fields)], db, 1, faults)
    else if 1 in faults then Run(db, 2, Panicked)
    else ExecuteAll(Alterations(name, fields, db[name].columns), db, 2, faults)
  }

  // ---------- the table it leads to ----------

  function NullRow(columns: seq<string>): Row {
    map c | c in columns :: None
  }

  function AllWithNulls(rows: seq<Row>, columns: seq<string>): (rows': seq<Row>)
    ensures |rows'| == |rows|
    ensures forall i :: 0 <= i < |rows| ==> rows'[i] == rows[i] + NullRow(columns)
  {
    seq(|rows|, i requires 0 <= i < |rows| => rows[i] + NullRow(columns))
  }

  function Extended(t: Table, adds: seq<string>): Table {
    Table(t.columns + adds, AllWithNulls(t.rows, adds))
  }

  /** The migrated table. */
  function Migrated(t: Table, fields: seq<string>): Table {
    var t' := Extended(t, Difference(fields, t.columns));
    if Difference(t.columns, fields) == [] then t' else Table(fields, Projected(t'.rows, fields))
  }

  predicate SameColumns(columns: seq<string>, fields: seq<string>) {
    (forall c :: c in columns ==> c in fields) && forall c :: c in fields ==> c in columns
  }

  /** A row keeps what it held in the columns that stay, and is NULL in the new ones. */
  ghost predicate RowMigrated(before: Row, after: Row, columns: seq<string>, fields: seq<string>) {
    HasColumns(after, fields) && forall c :: c in fields ==> CellMigrated(before, after, columns, c)
  }

  ghost predicate CellMigrated(before: Row, after: Row, columns: seq<string>, c: string) {
    c in after && if c in columns then c in before && after[c] == before[c] else after[c] == None
  }

  lemma ExtendedRow(r: Row, columns: seq<string>, fields: seq<string>)
    requires HasColumns(r, columns)
    ensures var r' := r + NullRow(Difference(fields, columns));
      && HasColumns(r', columns + Difference(fields, columns))
      && forall c :: c in fields ==> CellMigrated(r, r', columns, c)
  {
    var adds := Difference(fields, columns);
    var r' := r + NullRow(adds);
    forall c ensures c in r' <==> c in columns + adds {
      assert c in r <==> c in columns;
      assert c in NullRow(adds) <==> c in adds;
    }
    assert HasColumns(r', columns + adds);
    forall c | c in fields ensures CellMigrated(r, r', columns, c) {
      assert c in adds <==> c !in columns;
    }
  }

  lemma MigratedRow(t: Table, fields: seq<string>, i: nat)
    requires WellFormedTable(t) && i < |t.rows|
    ensures RowMigrated(t.rows[i], Migrated(t, fields).rows[i], t.columns, fields)
  {
    var adds := Difference(fields, t.columns);
    var r := t.rows[i] + NullRow(adds);
    assert HasColumns(t.rows[i], t.columns);
    ExtendedRow(t.rows[i], t.columns, fields);
    assert Extended(t, adds).rows[i] == r;
    if Difference(t.columns, fields) == [] {
      forall c ensures c in r <==> c in fields {
        assert c in Difference(t.columns, fields) <==> c in t.columns && c !in fields;
      }
    } else {
      assert Migrated(t, fields).rows[i] == Only(r, fields);
      forall c | c in fields ensures CellMigrated(t.rows[i], Only(r, fields), t.columns, c) {
        assert CellMigrated(t.rows[i], r, t.columns, c);
      }
    }
  }

  /** The migrated table has exactly the schema's columns, as many rows in the same order, each with its old values in
      the columns that stay and NULL in the new ones. */
  lemma MigratedTable(t: Table, fields: seq<string>)
    requires WellFormedTable(t) && Distinct(fields)
    ensures var t' := Migrated(t, fields);
      && WellFormedTable(t') && SameColumns(t'.columns, fields) && |t'.rows| == |t.rows|
      && forall i :: 0 <= i < |t.rows| ==> RowMigrated(t.rows[i], t'.rows[i], t.columns, fields)
  {
    var t' := Migrated(t, fields);
    forall i | 0 <= i < |t.rows| ensures RowMigrated(t.rows[i], t'.rows[i], t.columns, fields) {
      MigratedRow(t, fields, i);
    }
    DifferenceDistinct(fields, t.columns);
    forall c ensures c in t'.columns <==> c in fields {
      assert c in Difference(t.columns, fields) <==> c in t.columns && c !in fields;
    }
    forall r | r in t'.rows ensures HasColumns(r, t'.columns) {
      var i :| 0 <= i < |t'.rows| && t'.rows[i] == r;
      assert RowMigrated(t.rows[i], r, t.columns, fields);
    }
    DistinctSum(t.columns, Difference(fields, t.columns));
  }

  lemma DistinctSum(a: seq<string>, b: seq<string>)
    requires Distinct(a) && Distinct(b) && forall c :: c in b ==> c !in a
    ensures Distinct(a + b)
  {
    forall i, j | 0 <= i < j < |a + b| ensures (a + b)[i] != (a + b)[j] {
      assert j >= |a| ==> (a + b)[j] in b;
      assert i < |a| ==> (a + b)[i] in a;
    }
  }

  /** The columns come out in the order of the schema exactly if some column was dropped or the old columns were its
      beginning. */
  lemma ColumnOrder(t: Table, fields: seq<string>)
    requires WellFormedTable(t) && Distinct(fields)
    ensures Migrated(t, fields).columns == fields <==>
      (exists c :: c in t.columns && c !in fields) || t.columns <= fields
  {
    var adds, dels := Difference(fields, t.columns), Difference(t.columns, fields);
    Head(dels);
    assert forall c :: c in dels <==> c in t.columns && c !in fields;
    assert t.columns <= t.columns + adds;
    if dels == [] && t.columns <= fields {
      var rest := fields[|t.columns|..];
      assert fields == t.columns + rest;
      DifferenceSkips(t.columns, rest, t.columns);
      DifferenceAll(rest, t.columns);
    }
  }

  lemma {:induction false} DifferenceSkips(a: seq<string>, rest: seq<string>, b: seq<string>)
    requires forall c :: c in a ==> c in b
    ensures Difference(a + rest, b) == Difference(rest, b)
  {
    if a == [] {
      assert a + rest == rest;
    } else {
      assert (a + rest)[1..] == a[1..] + rest;
      DifferenceSkips(a[1..], rest, b);
    }
  }

  lemma {:induction false} DifferenceAll(a: seq<string>, b: seq<string>)
    requires forall i :: 0 <= i < |a| ==> a[i] !in b
    ensures Difference(a, b) == a
  {
    if a != [] {
      DifferenceAll(a[1..], b);
      assert a == [a[0]] + a[1..];
    }
  }

  lemma AlreadyMigrated(t: Table, fields: seq<string>)
    requires SameColumns(t.columns, fields)
    ensures Difference(fields, t.columns) == [] && Difference(t.columns, fields) == [] && Migrated(t, fields) == t
  {
    var adds, dels := Difference(fields, t.columns), Difference(t.columns, fields);
    Head(adds);
    Head(dels);
    forall i | 0 <= i < |t.rows| ensures Extended(t, []).rows[i] == t.rows[i] {
      assert t.rows[i] + NullRow([]) == t.rows[i];
    }
    assert t.columns + [] == t.columns;
  }

  /** Migrating to another schema and back keeps exactly the values of the columns that both schemas have. */
  lemma ThereAndBack(t: Table, fields: seq<string>, i: nat, c: string)
    requires WellFormedTable(t) && Distinct(fields) && i < |t.rows| && c in t.columns
    ensures var back := Migrated(Migrated(t, fields), t.columns);
      && |back.rows| == |t.rows| && c in back.rows[i] && c in t.rows[i]
      && back.rows[i][c] == if c in fields then t.rows[i][c] else None
  {
    var there := Migrated(t, fields);
    MigratedTable(t, fields);
    MigratedTable(there, t.columns);
    assert RowMigrated(t.rows[i], there.rows[i], t.columns, fields);
    assert RowMigrated(there.rows[i], Migrated(there, t.columns).rows[i], there.columns, t.columns);
    assert CellMigrated(there.rows[i], Migrated(there, t.columns).rows[i], there.columns, c);
    assert c in fields ==> CellMigrated(t.rows[i], there.rows[i], t.columns, c);
    assert HasColumns(t.rows[i], t.columns);
  }

  // ---------- the statements lead to it ----------

  ghost predicate NoFault(faults: set<nat>, from: nat, count: nat) {
    forall k: nat :: from <= k < from + count ==> k !in faults
  }

  lemma {:induction false} AdditionsRun(db: Database, name: string, adds: seq<string>, n: nat, faults: set<nat>)
    requires name in db && Distinct(adds) && forall c :: c in adds ==> c !in db[name].columns
    ensures var r := ExecuteAll(Additions(name, adds), db, n, faults);
      && (r.outcome == Done <==> NoFault(faults, n, |adds|)) && r.outcome != Panicked
      && (r.outcome == Done ==> r.next == n + |adds| && r.db == db[name := Extended(db[name], adds)])
  {
    if adds == [] {
      NothingAdded(db[name]);
      assert db[name := db[name]] == db;
    } else {
      var t := Table(db[name].columns + [adds[0]], WithNull(db[name].rows, adds[0]));
      var db' := db[name := t];
      forall c | c in adds[1..] ensures c !in t.columns {
        var i :| 0 <= i < |adds[1..]| && adds[1..][i] == c;
        assert adds[i + 1] == c && adds[0] != adds[i + 1];
      }
      AdditionsRun(db', name, adds[1..], n + 1, faults);
      ExtendedStep(db[name], adds);
      assert db'[name := Extended(t, adds[1..])] == db[name := Extended(db[name], adds)];
      assert NoFault(faults, n, |adds|) <==> n !in faults && NoFault(faults, n + 1, |adds| - 1);
    }
  }

  lemma NothingAdded(t: Table)
    ensures Extended(t, []) == t
  {
    forall i | 0 <= i < |t.rows| ensures Extended(t, []).rows[i] == t.rows[i] {
      assert t.rows[i] + NullRow([]) == t.rows[i];
    }
    assert t.columns + [] == t.columns;
  }

  lemma ExtendedStep(t: Table, adds: seq<string>)
    requires adds != []
    ensures Extended(Table(t.columns + [adds[0]], WithNull(t.rows, adds[0])), adds[1..]) == Extended(t, adds)
  {
    assert adds == [adds[0]] + adds[1..];
    assert t.columns + [adds[0]] + adds[1..] == t.columns + adds;
    forall i | 0 <= i < |t.rows| ensures t.rows[i][adds[0] := None] + NullRow(adds[1..]) == t.rows[i] + NullRow(adds) {
      assert forall c :: c in adds <==> c == adds[0] || c in adds[1..];
    }
  }

  lemma RebuildRun(db: Database, name: string, fields: seq<string>, n: nat, faults: set<nat>)
    requires name in db && Distinct(fields) && forall c :: c in fields ==> c in db[name].columns
    ensures var r := ExecuteAll(Rebuild(name, fields), db, n, faults);
      && (r.outcome == Done <==> NoFault(faults, n, 3) && fields != [] && Temporary(name) !in db)
      && r.outcome != Panicked
      && (r.outcome == Done ==> r.db == db[name := Table(fields, Projected(db[name].rows, fields))])
  {
    var tmp, t := Temporary(name), Table(fields, Projected(db[name].rows, fields));
    assert |tmp| != |name|;
    ExecuteThree(CreateAs(tmp, fields, name), DropTable(name), Rename(tmp, name), db, n, faults);
    assert Rebuild(name, fields) == [CreateAs(tmp, fields, name)] + ([DropTable(name)] + ([Rename(tmp, name)] + []));
    assert NoFault(faults, n, 3) <==> n !in faults && n + 1 !in faults && n + 2 !in faults;
    if tmp !in db {
      assert (db[tmp := t] - {name})[name := t] - {tmp} == db[name := t];
    }
  }

  lemma ExecuteFirst(a: Statement, rest: seq<Statement>, db: Database, n: nat, faults: set<nat>)
    ensures ExecuteAll([a] + rest, db, n, faults) ==
      if n in faults || Execute(a, db).None? then Run(db, n + 1, Failed)
      else ExecuteAll(rest, Execute(a, db).value, n + 1, faults)
  {
    assert ([a] + rest)[1..] == rest;
  }

  lemma ExecuteThree(a: Statement, b: Statement, c: Statement, db: Database, n: nat, faults: set<nat>)
    ensures ExecuteAll([a] + ([b] + ([c] + [])), db, n, faults) ==
      if n in faults || Execute(a, db).None? then Run(db, n + 1, Failed)
      else
        var db1 := Execute(a, db).value;
        if n + 1 in faults || Execute(b, db1).None? then Run(db1, n + 2, Failed)
        else
          var db2 := Execute(b, db1).value;
          if n + 2 in faults || Execute(c, db2).None? then Run(db2, n + 3, Failed)
          else Run(Execute(c, db2).value, n + 3, Done)
  {
    ExecuteFirst(a, [b] + ([c] + []), db, n, faults);
    if Execute(a, db).Some? {
      var db1 := Execute(a, db).value;
      ExecuteFirst(b, [c] + [], db1, n + 1, faults);
      if Execute(b, db1).Some? {
        ExecuteFirst(c, [], Execute(b, db1).value, n + 2, faults);
      }
    }
  }

  /** When a migration succeeds: no statement is hit by a fault and, if columns are to be dropped, the schema has
      columns and the temporary name is free. */
  ghost predicate Succeeds(db: Database, name: string, fields: seq<string>, faults: set<nat>) {
    if name !in db then fields != [] && 1 !in faults
    else
      var adds, dels := Difference(fields, db[name].columns), Difference(db[name].columns, fields);
      && NoFault(faults, 0, 2 + |adds| + if dels == [] then 0 else 3)
      && (dels == [] || (fields != [] && "tmp_" + name !in db))
  }

  /** Migrate succeeds exactly then, and replaces the table by the migrated one and nothing else; it panics exactly if
      the rows of an existing table cannot be fetched. */
  lemma MigrateRun(db: Database, name: string, fields: seq<string>, faults: set<nat>)
    requires WellFormed(db) && Distinct(fields)
    ensures var r := Migrate(db, name, fields, faults);
      && (r.outcome == Done <==> Succeeds(db, name, fields, faults))
      && (r.outcome == Done ==>
            r.db == db[name := if name in db then Migrated(db[name], fields) else Table(fields, [])])
      && (r.outcome == Panicked <==> name in db && 0 !in faults && 1 in faults)
  {
    if 0 in faults || name !in db {
      CreateRun(db, name, fields, faults);
    } else if 1 !in faults {
      AlterRun(db, name, fields, faults);
    }
  }

  lemma CreateRun(db: Database, name: string, fields: seq<string>, faults: set<nat>)
    requires Distinct(fields)
    ensures var r := ExecuteAll([CreateTable(name, fields)], db, 1, faults);
      && (r.outcome == Done <==> 1 !in faults && name !in db && fields != []) && r.outcome != Panicked
      && (r.outcome == Done ==> r.db == db[name := Table(fields, [])])
  {
    assert [CreateTable(name, fields)][1..] == [];
  }

  lemma AlterRun(db: Database, name: string, fields: seq<string>, faults: set<nat>)
    requires WellFormed(db) && Distinct(fields) && name in db && 0 !in faults && 1 !in faults
    ensures var r := ExecuteAll(Alterations(name, fields, db[name].columns), db, 2, faults);
      && (r.outcome == Done <==> Succeeds(db, name, fields, faults)) && r.outcome != Panicked
      && (r.outcome == Done ==> r.db == db[name := Migrated(db[name], fields)])
  {
    var t := db[name];
    var adds, dels := Difference(fields, t.columns), Difference(t.columns, fields);
    var rest := if dels == [] then [] else Rebuild(name, fields);
    DifferenceDistinct(fields, t.columns);
    AdditionsRun(db, name, adds, 2, faults);
    ExecuteAllSplit(Additions(name, adds), rest, db, 2, faults);
    var r := ExecuteAll(Additions(name, adds), db, 2, faults);
    if r.outcome == Done && dels != [] {
      RebuildRun(r.db, name, fields, r.next, faults);
      assert |Temporary(name)| != |name|;
    }
    FaultRanges(faults, |adds|);
  }

  lemma FaultRanges(faults: set<nat>, adds: nat)
    requires 0 !in faults && 1 !in faults
    ensures NoFault(faults, 0, 2 + adds) <==> NoFault(faults, 2, adds)
    ensures NoFault(faults, 0, 2 + adds + 3) <==> NoFault(faults, 2, adds) && NoFault(faults, 2 + adds, 3)
  {
  }

  /** A second migration to the same schema succeeds unless the existence check or the fetch fails, and changes
      nothing. */
  lemma MigrateAgain(db: Database, name: string, fields: seq<string>,
                     faults: set<nat>, faults': set<nat>)
    requires WellFormed(db) && Distinct(fields) && Migrate(db, name, fields, faults).outcome == Done
    ensures var db1 := Migrate(db, name, fields, faults).db; var r := Migrate(db1, name, fields, faults');
      && (r.outcome == Done <==> 0 !in faults' && 1 !in faults')
      && (r.outcome == Done ==> r.db == db1)
  {
    MigrateRun(db, name, fields, faults);
    var db1 := Migrate(db, name, fields, faults).db;
    var t := db1[name];
    if name in db {
      MigratedTable(db[name], fields);
    }
    AlreadyMigrated(t, fields);
    assert db1[name := t] == db1;
    assert WellFormed(db1);
    MigrateRun(db1, name, fields, faults');
  }
}
