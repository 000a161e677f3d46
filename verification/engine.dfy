/** Sessions and transactions over the abstract database, and Migrate run in one. */
module Engine {
  import opened Common
  import opened Tables
  import M = Migration

  datatype Ending = NotBegun | Committed | RolledBack | CommitFailed | PanicPassedOn

  class Session {
    /** What other sessions see. */
    var committed: Database
    /** What this session sees inside its transaction. */
    var working: Database
    var open: bool
    /** Statements written by Raw and not yet executed. */
    var sql: seq<Statement>
    var next: nat
    const faults: set<nat>
    const beginFails: bool
    const commitFails: bool

    constructor (db: Database, faults: set<nat>, beginFails: bool, commitFails: bool)
      ensures committed == working == db && !open && sql == [] && next == 0
      ensures this.faults == faults && this.beginFails == beginFails && this.commitFails == commitFails
    {
      committed, working, open, sql, next := db, db, false, [], 0;
      this.faults, this.beginFails, this.commitFails := faults, beginFails, commitFails;
    }

    method Begin() returns (ok: bool)
      requires !open
      modifies this`working, this`open
      ensures ok == !beginFails && open == ok
      ensures ok ==> working == committed
    {
      ok := !beginFails;
      if ok {
        working, open := committed, true;
      }
    }

    method Rollback()
      modifies this`working, this`open
      ensures !open && working == committed
    {
      working, open := committed, false;
    }

    method Commit() returns (ok: bool)
      requires open
      modifies this`committed, this`working, this`open
      ensures ok == !commitFails && !open
      ensures committed == (if ok then old(working) else old(committed)) && working == committed
    {
      ok := !commitFails;
      if ok {
        committed := working;
      } else {
        working := committed;
      }
      open := false;
    }

    method Raw(s: Statement)
      modifies this`sql
      ensures sql == old(sql) + [s]
    {
      sql := sql + [s];
    }

    method Exec() returns (ok: bool)
      requires open
      modifies this`working, this`sql, this`next
      ensures sql == []
      ensures var r := ExecuteAll(old(sql), old(working), old(next), faults);
        working == r.db && next == r.next && ok == (r.outcome == Done)
    {
      var ss, i := sql, 0;
      sql := [];
      assert ss[0..] == ss;
      while i < |ss|
        invariant i <= |ss| && sql == []
        invariant ExecuteAll(ss[i..], working, next, faults) == ExecuteAll(ss, old(working), old(next), faults)
      {
        assert ss[i..][1..] == ss[i + 1..];
        var fault, r := next in faults, Execute(ss[i], working);
        next := next + 1;
        if fault || r.None? {
          return false;
        }
        working := r.value;
        i := i + 1;
      }
      ok := true;
    }

    /** A query that fails leaves the name unscanned, so the table seems absent. */
    method HasTable(name: string) returns (there: bool)
      modifies this`next
      ensures there == (old(next) !in faults && name in working) && next == old(next) + 1
    {
      there := next !in faults && name in working;
      next := next + 1;
    }

    /** The columns of the rows fetched; None is the nil result set of a failed query. */
    method QueryColumns(name: string) returns (columns: Option<seq<string>>)
      requires name in working
      modifies this`next
      ensures columns == (if old(next) in faults then None else Some(working[name].columns)) && next == old(next) + 1
    {
      columns := if next in faults then None else Some(working[name].columns);
      next := next + 1;
    }

    method AddColumns(name: string, columns: seq<string>) returns (ok: bool)
      requires open && sql == []
      modifies this`working, this`sql, this`next
      ensures sql == []
      ensures var r := ExecuteAll(M.Additions(name, columns), old(working), old(next), faults);
        working == r.db && next == r.next && ok == (r.outcome == Done)
    {
      var i := 0;
      assert columns[0..] == columns;
      while i < |columns|
        invariant i <= |columns| && sql == []
        invariant ExecuteAll(M.Additions(name, columns[i..]), working, next, faults)
          == ExecuteAll(M.Additions(name, columns), old(working), old(next), faults)
      {
        ghost var rest := M.Additions(name, columns[i..][1..]);
        M.ExecuteFirst(AddColumn(name, columns[i]), rest, working, next, faults);
        M.ExecuteFirst(AddColumn(name, columns[i]), [], working, next, faults);
        assert columns[i..][1..] == columns[i + 1..];
        Raw(AddColumn(name, columns[i]));
        assert sql == [AddColumn(name, columns[i])] + [];
        ok := Exec();
        if !ok {
          return;
        }
        i := i + 1;
      }
      ok := true;
    }

    method CreateTable(name: string, fields: seq<string>) returns (ok: bool)
      requires open && sql == []
      modifies this`working, this`sql, this`next
      ensures sql == []
      ensures var r := ExecuteAll([Statement.CreateTable(name, fields)], old(working), old(next), faults);
        working == r.db && next == r.next && ok == (r.outcome == Done)
    {
      Raw(Statement.CreateTable(name, fields));
      assert sql == [Statement.CreateTable(name, fields)];
      ok := Exec();
    }

    /** The three statements of dropping columns, sent as one text. */
    method Rebuild(name: string, fields: seq<string>) returns (ok: bool)
      requires open && sql == []
      modifies this`working, this`sql, this`next
      ensures sql == []
      ensures var r := ExecuteAll(M.Rebuild(name, fields), old(working), old(next), faults);
        working == r.db && next == r.next && ok == (r.outcome == Done)
    {
      var tmpTable := "tmp_" + name;
      Raw(CreateAs(tmpTable, fields, name));
      Raw(DropTable(name));
      Raw(Rename(tmpTable, name));
      assert sql == M.Rebuild(name, fields);
      ok := Exec();
    }

    /** Adding and dropping columns, once both differences are known. */
    method Alter(name: string, fields: seq<string>, addCols: seq<string>, delCols: seq<string>) returns (ok: bool)
      requires open && sql == []
      modifies this`working, this`sql, this`next
      ensures sql == []
      ensures
        var r := ExecuteAll(M.Additions(name, addCols) + if delCols == [] then [] else M.Rebuild(name, fields),
                            old(working), old(next), faults);
        working == r.db && next == r.next && ok == (r.outcome == Done)
    {
      ghost var rest := if delCols == [] then [] else M.Rebuild(name, fields);
      ExecuteAllSplit(M.Additions(name, addCols), rest, working, next, faults);
      ok := AddColumns(name, addCols);
      if !ok || |delCols| == 0 {
        return;
      }
      ok := Rebuild(name, fields);
    }

    /** The function that Migrate passes to Transaction. */
    method MigrateTable(name: string, fields: seq<string>) returns (outcome: Outcome)
      requires open && sql == [] && next == 0
      modifies this`working, this`sql, this`next
      ensures sql == []
      ensures var r := M.Migrate(old(working), name, fields, faults);
        working == r.db && next == r.next && outcome == r.outcome
    {
      var there := HasTable(name);
      var ok;
      if !there {
        ok := CreateTable(name, fields);
        return if ok then Done else Failed;
      }
      var columns := QueryColumns(name);
      if columns.None? {
        return Panicked;
      }
      var addCols := M.ComputeDifference(fields, columns.value);
      var delCols := M.ComputeDifference(columns.value, fields);
      ok := Alter(name, fields, addCols, delCols);
      outcome := if ok then Done else Failed;
    }

    /** The deferred part of Transaction. */
    method Finish(outcome: Outcome) returns (ending: Ending)
      requires open
      modifies this`committed, this`working, this`open
      ensures !open && working == committed
      ensures ending == match outcome
        case Panicked => PanicPassedOn
        case Failed => RolledBack
        case Done => if commitFails then CommitFailed else Committed
      ensures committed == if ending == Committed then old(working) else old(committed)
    {
      match outcome {
        case Panicked =>
          Rollback();
          ending := PanicPassedOn;
        case Failed =>
          Rollback();
          ending := RolledBack;
        case Done =>
          var ok := Commit();
          if !ok {
            Rollback();
          }
          ending := if ok then Committed else CommitFailed;
      }
    }

    /** Whatever the function does, all of its changes become visible or none. */
    method Transaction(fn: Database -> Run) returns (ending: Ending)
      requires !open
      modifies this`committed, this`working, this`open
      ensures !open
      ensures var r := fn(old(committed));
        && (ending == Committed <==> !beginFails && !commitFails && r.outcome == Done)
        && (ending == PanicPassedOn <==> !beginFails && r.outcome == Panicked)
        && committed == if ending == Committed then r.db else old(committed)
    {
      var ok := Begin();
      if !ok {
        return NotBegun;
      }
      var r := fn(working);
      working := r.db;
      ending := Finish(r.outcome);
    }

    /** Migrate commits exactly if no step fails and then replaces the table by the migrated one; otherwise the
        database is as before. */
    method Migrate(name: string, fields: seq<string>) returns (ending: Ending)
      requires !open && sql == [] && next == 0 && WellFormed(committed) && Distinct(fields)
      modifies this
      ensures !open && WellFormed(committed)
      ensures ending == Committed <==> !beginFails && !commitFails && M.Succeeds(old(committed), name, fields, faults)
      ensures ending == PanicPassedOn <==> !beginFails && name in old(committed) && 0 !in faults && 1 in faults
      ensures committed ==
        if ending != Committed then old(committed)
        else if name in old(committed) then old(committed)[name := M.Migrated(old(committed)[name], fields)]
        else old(committed)[name := Table(fields, [])]
    {
      M.MigrateRun(committed, name, fields, faults);
      if name in committed {
        M.MigratedTable(committed[name], fields);
      }
      var ok := Begin();
      if !ok {
        return NotBegun;
      }
      var outcome := MigrateTable(name, fields);
      ending := Finish(outcome);
    }
  }
}
