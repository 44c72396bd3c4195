/** The MySQL database the core talks to, reduced to what its statements
    do: tables of records keyed by a unique column, each record carrying an
    auto-increment local `id`; the `users` table; and a ghost log of the
    writes and commits issued on the connection, in order. */
module Store {

  datatype Option<T> = None | Some(value: T)

  datatype Result<T, E> = Success(value: T) | Failure(error: E)

  /** A cell of a row, as the driver hands it to Python. */
  datatype Value = Null | Int(i: int) | Real(r: real) | Text(s: string)

  /** A stored row: column name to value; a column not set reads as NULL. */
  type Row = map<string, Value>

  /** A stored record: the auto-increment local id and the named columns. */
  datatype Record = Record(id: nat, cells: Row)

  /** The errors the core can raise: `IndexError` is Python's, on
      `columns[0]` of an empty list; the others are raised by the driver or
      the server for a bad `select` or `insert`. */
  datatype Error =
    | IndexError
    | UnknownColumn
    | DuplicateColumn
    | ParameterCount
    | ColumnCount
    | NoDefault
    | DuplicateKey

  datatype Outcome = Ok | Err(error: Error)

  /** What the connection has been asked to write or commit. */
  datatype Action =
    | Insert(table: string, rows: nat)
    | UserUpdated(id: int, usosId: string, firstName: string, lastName: string, courses: string)
    | Commit

  /** `insert into <table> (<columns>) values (<placeholders>)`: the SQL
      text itself is not modelled, only what it names. */
  datatype InsertStatement = InsertStatement(table: string, columns: seq<string>, placeholders: nat)

  function Cell(row: Row, column: string): Value
  {
    if column in row then row[column] else Null
  }

  predicate Distinct<T(==)>(s: seq<T>)
  {
    forall i, j :: 0 <= i < j < |s| ==> s[i] != s[j]
  }

  /** The rows `select <column> from <table>` returns, in storage order. */
  function ColumnOf(records: seq<Record>, column: string): seq<Value>
  {
    seq(|records|, k requires 0 <= k < |records| => Cell(records[k].cells, column))
  }

  /** The set of values of one column. */
  function ColumnSet(records: seq<Record>, column: string): set<Value>
  {
    set k | 0 <= k < |records| :: Cell(records[k].cells, column)
  }

  /** Appending records never loses a value of a column. */
  lemma ColumnSetGrows(records: seq<Record>, more: seq<Record>, column: string)
    ensures ColumnSet(records, column) <= ColumnSet(records + more, column)
  {
    forall v | v in ColumnSet(records, column)
      ensures v in ColumnSet(records + more, column)
    {
      var k :| 0 <= k < |records| && Cell(records[k].cells, column) == v;
      assert (records + more)[k] == records[k];
    }
  }

  /** The row an insert stores for one parameter tuple: each listed column
      gets the value in the same position. */
  function RowOf(columns: seq<string>, tuple: seq<Value>): (row: Row)
    requires Distinct(columns) && |tuple| == |columns|
    ensures row.Keys == set k | 0 <= k < |columns| :: columns[k]
    ensures forall k :: 0 <= k < |columns| ==> row[columns[k]] == tuple[k]
  {
    map k | 0 <= k < |columns| :: columns[k] := tuple[k]
  }

  /** The records a successful multi-row insert appends, numbered from the
      table's next auto-increment id. */
  function NewRecords(nextId: nat, columns: seq<string>, tuples: seq<seq<Value>>): (rs: seq<Record>)
    requires Distinct(columns)
    requires forall k :: 0 <= k < |tuples| ==> |tuples[k]| == |columns|
    ensures |rs| == |tuples|
  {
    seq(|tuples|, k requires 0 <= k < |tuples| => Record(nextId + k, RowOf(columns, tuples[k])))
  }

  /** What a table holds: its records and its auto-increment counter. */
  datatype TableState = TableState(records: seq<Record>, nextId: nat)

  /** Record `a` was stored before record `b`. */
  predicate IdBefore(a: Record, b: Record)
  {
    a.id < b.id
  }

  /** Records `a` and `b` hold different values in the key column. */
  predicate KeysDiffer(a: Record, b: Record, keyColumn: string)
  {
    Cell(a.cells, keyColumn) != Cell(b.cells, keyColumn)
  }

  /** The table invariant: the key column is set and unique, no column
      outside the schema is set, and the local ids increase and stay below
      the auto-increment counter. */
  ghost predicate WellFormed(records: seq<Record>, nextId: nat, columns: set<string>, keyColumn: string)
  {
    && keyColumn in columns
    && (forall k :: 0 <= k < |records| ==>
          records[k].cells.Keys <= columns && keyColumn in records[k].cells && records[k].id < nextId)
    && (forall j, k {:trigger IdBefore(records[j], records[k])} :: 0 <= j < k < |records| ==>
          IdBefore(records[j], records[k]))
    && (forall j, k {:trigger KeysDiffer(records[j], records[k], keyColumn)} :: 0 <= j < k < |records| ==>
          KeysDiffer(records[j], records[k], keyColumn))
  }

  class Table {
    const name: string
    const columns: set<string>
    const keyColumn: string
    var records: seq<Record>
    var nextId: nat

    ghost predicate Valid()
      reads this
    {
      WellFormed(records, nextId, columns, keyColumn)
    }

    constructor (name: string, columns: set<string>, keyColumn: string, records: seq<Record>, nextId: nat)
      requires WellFormed(records, nextId, columns, keyColumn)
      ensures Valid()
      ensures this.name == name && this.columns == columns && this.keyColumn == keyColumn
      ensures this.records == records && this.nextId == nextId
    {
      this.name := name;
      this.columns := columns;
      this.keyColumn := keyColumn;
      this.records := records;
      this.nextId := nextId;
    }

    function State(): TableState
      reads this
    {
      TableState(records, nextId)
    }

    /** `select <column> from <table>`: one value per stored record, in
        storage order, so the values returned are exactly the column's
        values; a column outside the schema is an error. */
    method SelectColumn(column: string) returns (result: Result<seq<Value>, Error>)
      ensures column in columns ==>
        && result.Success? && |result.value| == |records|
        && (forall k :: 0 <= k < |records| ==> result.value[k] == Cell(records[k].cells, column))
        && (set v | v in result.value) == ColumnSet(records, column)
      ensures column !in columns ==> result == Failure(UnknownColumn)
    {
      if column !in columns {
        return Failure(UnknownColumn);
      }
      var values := ColumnOf(records, column);
      assert (set v | v in values) == ColumnSet(records, column) by {
        forall v ensures v in values <==> v in ColumnSet(records, column) {
          if v in values {
            var k :| 0 <= k < |values| && values[k] == v;
          }
          if v in ColumnSet(records, column) {
            var k :| 0 <= k < |records| && Cell(records[k].cells, column) == v;
            assert values[k] == v;
          }
        }
      }
      result := Success(values);
    }

    /** The key value one parameter tuple would store. */
    function NewKey(stmt: InsertStatement, tuple: seq<Value>): Value
      requires Distinct(stmt.columns) && |tuple| == |stmt.columns|
    {
      Cell(RowOf(stmt.columns, tuple), keyColumn)
    }

    /** Why `executemany(stmt, tuples)` would fail, if it would. */
    function InsertError(stmt: InsertStatement, tuples: seq<seq<Value>>): (e: Option<Error>)
      reads this
      ensures e.None? ==>
        && Distinct(stmt.columns) && keyColumn in stmt.columns
        && (forall k :: 0 <= k < |stmt.columns| ==> stmt.columns[k] in columns)
        && (forall k :: 0 <= k < |tuples| ==> |tuples[k]| == |stmt.columns|)
      ensures e.None? ==> forall k :: 0 <= k < |tuples| ==> NewKey(stmt, tuples[k]) !in ColumnSet(records, keyColumn)
      ensures e.None? ==> forall j, k :: 0 <= j < k < |tuples| ==> NewKey(stmt, tuples[j]) != NewKey(stmt, tuples[k])
    {
      if exists k :: 0 <= k < |tuples| && |tuples[k]| != stmt.placeholders then Some(ParameterCount)
      else if exists k :: 0 <= k < |stmt.columns| && stmt.columns[k] !in columns then Some(UnknownColumn)
      else if !Distinct(stmt.columns) then Some(DuplicateColumn)
      else if |stmt.columns| != stmt.placeholders then Some(ColumnCount)
      else if keyColumn !in stmt.columns then Some(NoDefault)
      else if exists k :: 0 <= k < |tuples| && NewKey(stmt, tuples[k]) in ColumnSet(records, keyColumn)
        then Some(DuplicateKey)
      else if exists j, k :: 0 <= j < k < |tuples| && NewKey(stmt, tuples[j]) == NewKey(stmt, tuples[k])
        then Some(DuplicateKey)
      else None
    }

    /** For a statement that names distinct schema columns including the
        key, with one placeholder per column, and tuples of that arity, the
        only possible failure is a key collision. */
    lemma WellShapedInsertError(stmt: InsertStatement, tuples: seq<seq<Value>>)
      requires |stmt.columns| == stmt.placeholders && Distinct(stmt.columns) && keyColumn in stmt.columns
      requires forall k :: 0 <= k < |stmt.columns| ==> stmt.columns[k] in columns
      requires forall k :: 0 <= k < |tuples| ==> |tuples[k]| == stmt.placeholders
      ensures InsertError(stmt, tuples) ==
        if (exists k :: 0 <= k < |tuples| && NewKey(stmt, tuples[k]) in ColumnSet(records, keyColumn))
           || (exists j, k :: 0 <= j < k < |tuples| && NewKey(stmt, tuples[j]) == NewKey(stmt, tuples[k]))
        then Some(DuplicateKey) else None
    {
    }

    /** `cursor.executemany(stmt, tuples)`: one multi-row insert, which
        either stores every tuple or fails and stores none. */
    method ExecuteMany(stmt: InsertStatement, tuples: seq<seq<Value>>) returns (outcome: Outcome)
      requires Valid()
      modifies this
      ensures Valid()
      ensures old(InsertError(stmt, tuples)).Some? ==>
        outcome == Err(old(InsertError(stmt, tuples)).value) && unchanged(this)
      ensures old(InsertError(stmt, tuples)).None? ==>
        && outcome == Ok
        && records == old(records) + NewRecords(old(nextId), stmt.columns, tuples)
        && nextId == old(nextId) + |tuples|
    {
      var e := InsertError(stmt, tuples);
      if e.Some? {
        return Err(e.value);
      }
      var added := NewRecords(nextId, stmt.columns, tuples);
      InsertKeeps(stmt, tuples, added);
      records := records + added;
      nextId := nextId + |tuples|;
      outcome := Ok;
    }

    /** Appending the records of an insert that raises nothing keeps the
        table invariant. */
    lemma InsertKeeps(stmt: InsertStatement, tuples: seq<seq<Value>>, added: seq<Record>)
      requires Valid()
      requires InsertError(stmt, tuples).None?
      requires added == NewRecords(nextId, stmt.columns, tuples)
      ensures WellFormed(records + added, nextId + |tuples|, columns, keyColumn)
    {
      var all := records + added;
      forall k | 0 <= k < |added|
        ensures added[k].cells.Keys <= columns && keyColumn in added[k].cells
        ensures added[k].cells[keyColumn] == NewKey(stmt, tuples[k])
      {
        var i :| 0 <= i < |stmt.columns| && stmt.columns[i] == keyColumn;
        assert keyColumn in added[k].cells;
      }
      forall j, k | 0 <= j < k < |all|
        ensures IdBefore(all[j], all[k]) && KeysDiffer(all[j], all[k], keyColumn)
      {
        if k < |records| {
          assert IdBefore(records[j], records[k]) && KeysDiffer(records[j], records[k], keyColumn);
        } else if j < |records| {
          assert all[k] == added[k - |records|];
          StoredBeforeAdded(stmt, tuples, added, j, k - |records|);
        } else {
          assert all[j] == added[j - |records|] && all[k] == added[k - |records|];
          AddedApart(stmt, tuples, added, j - |records|, k - |records|);
        }
      }
    }

    /** A stored record comes before, and differs in key from, each
        record a clean insert appends. */
    lemma StoredBeforeAdded(stmt: InsertStatement, tuples: seq<seq<Value>>, added: seq<Record>, j: nat, b: nat)
      requires Valid()
      requires InsertError(stmt, tuples).None?
      requires added == NewRecords(nextId, stmt.columns, tuples)
      requires j < |records| && b < |added|
      ensures IdBefore(records[j], added[b]) && KeysDiffer(records[j], added[b], keyColumn)
    {
      assert Cell(records[j].cells, keyColumn) in ColumnSet(records, keyColumn);
      assert NewKey(stmt, tuples[b]) !in ColumnSet(records, keyColumn);
    }

    /** The records a clean insert appends are numbered in order and hold
        pairwise different keys. */
    lemma AddedApart(stmt: InsertStatement, tuples: seq<seq<Value>>, added: seq<Record>, a: nat, b: nat)
      requires InsertError(stmt, tuples).None?
      requires added == NewRecords(nextId, stmt.columns, tuples)
      requires a < b < |added|
      ensures IdBefore(added[a], added[b]) && KeysDiffer(added[a], added[b], keyColumn)
    {
      assert NewKey(stmt, tuples[a]) != NewKey(stmt, tuples[b]);
    }
  }

  /** A row of the `users` table: the name copied from the chat platform
      and the four columns the core fills from the academic-records
      system. */
  datatype UserRow = UserRow(
    fbFirstName: string, fbLastName: string,
    usosId: Value, usosFirstName: Value, usosLastName: Value, usosCourses: Value)

  /** The columns of the three tables the syncs write. */
  const ProgramsSchema: set<string> :=
    {"program_id", "program_name_pl", "short_program_name_pl", "program_name_en", "short_program_name_en"}
  const CoursesSchema: set<string> := {"course_id", "course_name_pl", "course_name_en", "term_id"}
  const PointsSchema: set<string> :=
    {"node_id", "name", "points", "comment", "grader_id", "student_id", "last_changed", "course_id"}

  /** The connection: the three tables the core syncs, the `users` table,
      and the log of writes and commits issued on it. */
  class Connection {
    const programs: Table
    const courses: Table
    const points: Table
    var users: map<int, UserRow>
    ghost var log: seq<Action>

    ghost predicate Valid()
      reads programs, courses, points
    {
      && programs != courses && courses != points && programs != points
      && programs.Valid() && courses.Valid() && points.Valid()
      && programs.name == "usos_programs" && programs.keyColumn == "program_id"
      && programs.columns == ProgramsSchema
      && courses.name == "usos_courses" && courses.keyColumn == "course_id"
      && courses.columns == CoursesSchema
      && points.name == "usos_points" && points.keyColumn == "node_id"
      && points.columns == PointsSchema
    }

    constructor (programs: Table, courses: Table, points: Table, users: map<int, UserRow>)
      requires programs != courses && courses != points && programs != points
      requires programs.Valid() && courses.Valid() && points.Valid()
      requires programs.name == "usos_programs" && programs.keyColumn == "program_id"
      requires programs.columns == ProgramsSchema
      requires courses.name == "usos_courses" && courses.keyColumn == "course_id"
      requires courses.columns == CoursesSchema
      requires points.name == "usos_points" && points.keyColumn == "node_id"
      requires points.columns == PointsSchema
      ensures Valid() && this.users == users && log == []
      ensures this.programs == programs && this.courses == courses && this.points == points
    {
      this.programs := programs;
      this.courses := courses;
      this.points := points;
      this.users := users;
      log := [];
    }

    /** `update users set usos_id = ..., usos_first_name = ...,
        usos_last_name = ..., usos_courses = ... where id = <id>`: changes
        the matching row, if there is one, and nothing else. */
    method UpdateUser(id: int, usosId: string, firstName: string, lastName: string, memberships: string)
      modifies this`users, this`log
      ensures id in old(users) ==>
        users == old(users)[id := old(users)[id].(usosId := Text(usosId), usosFirstName := Text(firstName),
                                                    usosLastName := Text(lastName), usosCourses := Text(memberships))]
      ensures id !in old(users) ==> users == old(users)
      ensures log == old(log) + [UserUpdated(id, usosId, firstName, lastName, memberships)]
    {
      if id in users {
        users := users[id := users[id].(usosId := Text(usosId), usosFirstName := Text(firstName),
                                        usosLastName := Text(lastName), usosCourses := Text(memberships))];
      }
      log := log + [UserUpdated(id, usosId, firstName, lastName, memberships)];
    }

    /** `cursor.executemany(stmt, tuples)` on one of this connection's
        tables: an insert that succeeds is logged. */
    method ExecuteMany(table: Table, stmt: InsertStatement, tuples: seq<seq<Value>>) returns (outcome: Outcome)
      requires table.Valid()
      modifies table, this`log
      ensures table.Valid()
      ensures old(table.InsertError(stmt, tuples)).Some? ==>
        outcome == Err(old(table.InsertError(stmt, tuples)).value) && unchanged(table) && log == old(log)
      ensures old(table.InsertError(stmt, tuples)).None? ==>
        && outcome == Ok
        && table.records == old(table.records) + NewRecords(old(table.nextId), stmt.columns, tuples)
        && table.nextId == old(table.nextId) + |tuples|
        && log == old(log) + [Insert(table.name, |tuples|)]
    {
      outcome := table.ExecuteMany(stmt, tuples);
      if outcome.Ok? {
        log := log + [Insert(table.name, |tuples|)];
      }
    }

    /** `connection.commit()`. */
    method Commit()
      modifies this`log
      ensures log == old(log) + [Action.Commit]
    {
      log := log + [Action.Commit];
    }
  }
}
