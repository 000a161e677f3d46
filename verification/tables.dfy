/** An abstract database: named tables, and the statements that a migration issues. */
module Tables {
  import opened Common

  /** None is NULL. */
  type Cell = Option<string>

  type Row = map<string, Cell>

  datatype Table = Table(columns: seq<string>, rows: seq<Row>)

  type Database = map<string, Table>

  datatype Statement =
    | CreateTable(name: string, fields: seq<string>)
    | AddColumn(name: string, column: string)
    | CreateAs(copy: string, fields: seq<string>, name: string)
    | DropTable(name: string)
    | Rename(name: string, newName: string)

  ghost predicate WellFormedTable(t: Table) {
    Distinct(t.columns) && forall r :: r in t.rows ==> HasColumns(r, t.columns)
  }

  ghost predicate HasColumns(r: Row, columns: seq<string>) {
    forall c :: c in r <==> c in columns
  }

  ghost predicate WellFormed(db: Database) {
    forall n :: n in db ==> WellFormedTable(db[n])
  }

  function WithNull(rows: seq<Row>, column: string): (rows': seq<Row>)
    ensures |rows'| == |rows|
    ensures forall i :: 0 <= i < |rows| ==> rows'[i] == rows[i][column := None]
  {
    seq(|rows|, i requires 0 <= i < |rows| => rows[i][column := None])
  }

  function Only(r: Row, fields: seq<string>): Row {
    map c | c in r && c in fields :: r[c]
  }

  function Projected(rows: seq<Row>, fields: seq<string>): (rows': seq<Row>)
    ensures |rows'| == |rows|
    ensures forall i :: 0 <= i < |rows| ==> rows'[i] == Only(rows[i], fields)
  {
    seq(|rows|, i requires 0 <= i < |rows| => Only(rows[i], fields))
  }

  /** The effect of one statement, or None if the database refuses it. */
  function Execute(s: Statement, db: Database): Option<Database> {
    match s
    case CreateTable(name, fields) =>
      if name in db || fields == [] || !Distinct(fields) then None else Some(db[name := Table(fields, [])])
    case AddColumn(name, column) =>
      if name !in db || column in db[name].columns then None
      else Some(db[name := Table(db[name].columns + [column], WithNull(db[name].rows, column))])
    case CreateAs(copy, fields, name) =>
      if copy in db || name !in db || fields == [] || !Distinct(fields) then None
      else if exists c :: c in fields && c !in db[name].columns then None
      else Some(db[copy := Table(fields, Projected(db[name].rows, fields))])
    case DropTable(name) =>
      if name in db then Some(db - {name}) else None
    case Rename(name, newName) =>
      if name !in db || newName in db then None else Some(db[newName := db[name]] - {name})
  }

  lemma ExecuteKeepsWellFormed(s: Statement, db: Database)
    requires WellFormed(db)
    ensures Execute(s, db).Some? ==> WellFormed(Execute(s, db).value)
  {
    if Execute(s, db).Some? {
      var db' := Execute(s, db).value;
      forall n | n in db' ensures WellFormedTable(db'[n]) {
        match s {
          case AddColumn(name, column) =>
            if n == name {
              ColumnAdded(db[n], column);
            }
          case CreateAs(copy, fields, name) =>
            if n == copy {
              ColumnsTaken(db[name], fields);
            }
          case _ =>
        }
      }
    }
  }

  lemma ColumnAdded(t: Table, column: string)
    requires WellFormedTable(t) && column !in t.columns
    ensures WellFormedTable(Table(t.columns + [column], WithNull(t.rows, column)))
  {
    var rows' := WithNull(t.rows, column);
    forall r | r in rows' ensures HasColumns(r, t.columns + [column]) {
      var i :| 0 <= i < |rows'| && rows'[i] == r;
      assert HasColumns(t.rows[i], t.columns);
    }
  }

  lemma ColumnsTaken(t: Table, fields: seq<string>)
    requires WellFormedTable(t) && Distinct(fields) && forall c :: c in fields ==> c in t.columns
    ensures WellFormedTable(Table(fields, Projected(t.rows, fields)))
  {
    var rows' := Projected(t.rows, fields);
    forall r | r in rows' ensures HasColumns(r, fields) {
      var i :| 0 <= i < |rows'| && rows'[i] == r;
      assert HasColumns(t.rows[i], t.columns);
    }
  }

  // ---------- runs of statements ----------

  datatype Outcome = Done | Failed | Panicked

  datatype Run = Run(db: Database, next: nat, outcome: Outcome)

  /** Statement number n and those after it, until one is refused or hit by a fault. */
  function ExecuteAll(ss: seq<Statement>, db: Database, n: nat, faults: set<nat>): (run: Run)
    ensures run.outcome != Panicked
  {
    if ss == [] then Run(db, n, Done)
    else
      var r := Execute(ss[0], db);
      if n in faults || r.None? then Run(db, n + 1, Failed) else ExecuteAll(ss[1..], r.value, n + 1, faults)
  }

  lemma {:induction false} ExecuteAllSplit(ss: seq<Statement>, tt: seq<Statement>, db: Database, n: nat,
                                           faults: set<nat>)
    ensures ExecuteAll(ss + tt, db, n, faults) ==
      var r := ExecuteAll(ss, db, n, faults);
      if r.outcome == Done then ExecuteAll(tt, r.db, r.next, faults) else r
  {
    if ss == [] {
      assert ss + tt == tt;
    } else {
      assert (ss + tt)[1..] == ss[1..] + tt;
      if Execute(ss[0], db).Some? {
        ExecuteAllSplit(ss[1..], tt, Execute(ss[0], db).value, n + 1, faults);
      }
    }
  }
}
