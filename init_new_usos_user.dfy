/** The pipeline of `scripts/init_new_usos_user.py`: check that every
    requested user exists, sync each user's programs and courses (pass 1),
    map external course ids to local row ids once, then write each user's
    academic-records identity and course-membership string, commit, and sync
    that user's points (pass 2). */
module InitNewUsosUser {
  import opened Store
  import opened Text
  import opened UpdateTables

  /** A user as the lookup in the `users` table returns it. */
  datatype User = User(id: int, fbFirstName: string, fbLastName: string)

  /** What `get_user_usos_id_and_name` returns. */
  datatype UsosInfo = UsosInfo(id: string, firstName: string, lastName: string)

  /** The academic-records API, one call per user and kind:
      `get_user_programs`, `get_user_courses`, `get_user_usos_id_and_name`,
      and `get_user_points(user, False)`. */
  datatype Api = Api(
    programsOf: User -> seq<Program>,
    coursesOf: User -> seq<Course>,
    infoOf: User -> UsosInfo,
    pointsOf: User -> seq<Point>)

  /** How the run ends: normally, through `sys.exit`, or by an exception
      raised by the database. */
  datatype Status = Finished | Exited(code: int) | Raised(error: Error)

  /** What the user lookup guarantees: every returned user is a row of the
      `users` table, and no row is returned twice. */
  ghost predicate FromStore(users: seq<User>, rows: map<int, UserRow>)
  {
    && (forall k :: 0 <= k < |users| ==> users[k].id in rows)
    && (forall j, k :: 0 <= j < k < |users| ==> users[j].id != users[k].id)
  }

  /* ---------------- the course-id map ---------------- */

  /** `{course_id: str(tbl_id) for (course_id, tbl_id) in cursor}` over
      `select course_id, id from usos_courses`: later rows overwrite
      earlier ones. Its keys are exactly the stored course ids and every
      value is a decimal string, so it holds no `;`. */
  function CourseIdMap(records: seq<Record>): (m: map<Value, string>)
    ensures m.Keys == ColumnSet(records, "course_id")
    ensures forall v :: v in m ==> |m[v]| > 0 && ';' !in m[v]
    decreases |records|
  {
    if |records| == 0 then map[]
    else
      var n := |records| - 1;
      var last := records[n];
      var m := CourseIdMap(records[..n])[Cell(last.cells, "course_id") := NatToString(last.id)];
      assert m.Keys == ColumnSet(records, "course_id") by {
        forall v ensures v in m.Keys <==> v in ColumnSet(records, "course_id") {
          if v in ColumnSet(records[..n], "course_id") {
            var k :| 0 <= k < n && Cell(records[..n][k].cells, "course_id") == v;
            assert records[k] == records[..n][k];
          }
          if v in ColumnSet(records, "course_id") && v != Cell(last.cells, "course_id") {
            var k :| 0 <= k < |records| && Cell(records[k].cells, "course_id") == v;
            assert records[..n][k] == records[k];
          }
        }
      }
      m
  }

  /** With unique course ids, the map sends each stored course id to the
      decimal string of that row's own local id. */
  lemma {:induction false} CourseIdMapValue(records: seq<Record>, k: nat)
    requires k < |records|
    requires forall i, j {:trigger KeysDiffer(records[i], records[j], "course_id")} :: 0 <= i < j < |records| ==>
      KeysDiffer(records[i], records[j], "course_id")
    ensures CourseIdMap(records)[Cell(records[k].cells, "course_id")] == NatToString(records[k].id)
    decreases |records|
  {
    var n := |records| - 1;
    if k < n {
      var prefix := records[..n];
      forall i, j | 0 <= i < j < |prefix| ensures KeysDiffer(prefix[i], prefix[j], "course_id") {
        assert prefix[i] == records[i] && prefix[j] == records[j];
        assert KeysDiffer(records[i], records[j], "course_id");
      }
      assert prefix[k] == records[k];
      assert KeysDiffer(records[k], records[n], "course_id");
      CourseIdMapValue(prefix, k);
    }
  }

  /* ---------------- the membership string ---------------- */

  /** Every course of the list has an entry in the map. */
  predicate Resolved(courses: seq<Course>, courseIds: map<Value, string>)
  {
    forall k :: 0 <= k < |courses| ==> CourseKey(courses[k]) in courseIds
  }

  /** `[course_ids[c.course_id] for c in users_courses[user]]`. */
  function LocalIds(courses: seq<Course>, courseIds: map<Value, string>): (ids: seq<string>)
    requires Resolved(courses, courseIds)
    ensures |ids| == |courses|
    ensures forall k :: 0 <= k < |ids| ==> ids[k] in courseIds.Values
  {
    seq(|courses|, k requires 0 <= k < |courses| => courseIds[CourseKey(courses[k])])
  }

  /** `';'.join(sorted(...))` of the local ids, compared as strings. */
  function Membership(courses: seq<Course>, courseIds: map<Value, string>): (m: string)
    requires Resolved(courses, courseIds)
    ensures |courses| == 0 ==> m == ""
    ensures |courses| == 1 ==> m == courseIds[CourseKey(courses[0])]
  {
    Join(";", SortStrings(LocalIds(courses, courseIds)))
  }

  /** The membership string of a user with courses splits back on `;` into
      exactly that user's local ids, in string order; with no course it is
      empty. */
  lemma MembershipDecodes(courses: seq<Course>, records: seq<Record>)
    requires Resolved(courses, CourseIdMap(records))
    ensures |courses| == 0 ==> Membership(courses, CourseIdMap(records)) == ""
    ensures |courses| > 0 ==>
      var parts := Split(Membership(courses, CourseIdMap(records)), ';');
      && SortedLex(parts)
      && multiset(parts) == multiset(LocalIds(courses, CourseIdMap(records)))
  {
    var ids := LocalIds(courses, CourseIdMap(records));
    var sorted := SortStrings(ids);
    SortStringsSorts(ids);
    if |courses| > 0 {
      forall k | 0 <= k < |sorted| ensures ';' !in sorted[k] {
        assert sorted[k] in multiset(ids);
      }
      SplitJoin(sorted, ';');
    }
  }

  /** Local ids 9 and 10 give "10;9": the ids are sorted as strings. */
  lemma MembershipSortsAsStrings()
    ensures Membership([Course("A", "", "", ""), Course("B", "", "", "")],
                       CourseIdMap([Record(9, map["course_id" := Text("B")]),
                                    Record(10, map["course_id" := Text("A")])])) == "10;9"
  {
    var records := [Record(9, map["course_id" := Text("B")]), Record(10, map["course_id" := Text("A")])];
    var courses := [Course("A", "", "", ""), Course("B", "", "", "")];
    var m := CourseIdMap(records);
    TenNineIds(records);
    assert Resolved(courses, m);
    var ids := LocalIds(courses, m);
    assert ids == ["10", "9"];
    TenBeforeNine();
    assert Membership(courses, m) == Join(";", ["10", "9"]);
    assert Join(";", ["9"]) == "9";
  }

  lemma TenNineIds(records: seq<Record>)
    requires records == [Record(9, map["course_id" := Text("B")]), Record(10, map["course_id" := Text("A")])]
    ensures Text("A") in CourseIdMap(records) && CourseIdMap(records)[Text("A")] == "10"
    ensures Text("B") in CourseIdMap(records) && CourseIdMap(records)[Text("B")] == "9"
  {
    assert NatToString(10) == "10" by {
      assert NatToString(1) == "1";
      assert DigitChar(0) == '0';
    }
    CourseIdMapValue(records, 1);
    CourseIdMapValue(records, 0);
    assert Cell(records[0].cells, "course_id") == Text("B");
    assert Cell(records[1].cells, "course_id") == Text("A");
  }

  lemma TenBeforeNine()
    ensures SortStrings(["10", "9"]) == ["10", "9"]
  {
    assert SortStrings(["9"]) == ["9"];
    assert LexLeq("10", "9");
    assert InsertLex("10", ["9"]) == ["10", "9"];
  }

  /** Local ids 7 and 3 give "3;7". */
  lemma MembershipAscending()
    ensures Membership([Course("A", "", "", ""), Course("B", "", "", "")],
                       CourseIdMap([Record(3, map["course_id" := Text("B")]),
                                    Record(7, map["course_id" := Text("A")])])) == "3;7"
  {
    var records := [Record(3, map["course_id" := Text("B")]), Record(7, map["course_id" := Text("A")])];
    var courses := [Course("A", "", "", ""), Course("B", "", "", "")];
    var m := CourseIdMap(records);
    ThreeSevenIds(records);
    assert Resolved(courses, m);
    var ids := LocalIds(courses, m);
    assert ids == ["7", "3"];
    ThreeBeforeSeven();
    assert Membership(courses, m) == Join(";", ["3", "7"]);
    assert Join(";", ["7"]) == "7";
  }

  lemma ThreeSevenIds(records: seq<Record>)
    requires records == [Record(3, map["course_id" := Text("B")]), Record(7, map["course_id" := Text("A")])]
    ensures Text("A") in CourseIdMap(records) && CourseIdMap(records)[Text("A")] == "7"
    ensures Text("B") in CourseIdMap(records) && CourseIdMap(records)[Text("B")] == "3"
  {
    assert NatToString(7) == "7";
    assert NatToString(3) == "3";
    CourseIdMapValue(records, 1);
    CourseIdMapValue(records, 0);
    assert Cell(records[0].cells, "course_id") == Text("B");
    assert Cell(records[1].cells, "course_id") == Text("A");
  }

  lemma ThreeBeforeSeven()
    ensures SortStrings(["7", "3"]) == ["3", "7"]
  {
    assert SortStrings(["3"]) == ["3"];
    assert !LexLeq("7", "3");
    assert InsertLex("3", []) == ["3"];
    assert InsertLex("7", ["3"]) == ["3", "7"];
  }

  /* ---------------- the passes as folds over the users ---------------- */

  /** What the syncs of one pass leave in one table: the table, and how
      many rows each user's sync queued, in lookup order. */
  datatype Run = Run(table: TableState, queued: seq<nat>)

  /** The first `n` users' fetched objects synced into the table `t`, user
      by user in lookup order, each user's sync against the table as the
      earlier users left it. `None` when some user's sync meets two objects
      sharing a key that is not stored yet: that sync raises and the pass
      stops. */
  ghost function SyncEach<T(!new)>(users: seq<User>, n: nat, fetch: User -> seq<T>, columns: seq<string>,
                                   objPkey: T -> Value, objToTuple: T -> seq<Value>, t: TableState): (r: Option<Run>)
    requires Projects(columns, objPkey, objToTuple) && n <= |users|
    ensures r.Some? ==> t.records <= r.value.table.records && |r.value.queued| == n
    decreases n, 1
  {
    if n == 0 then Some(Run(t, [])) else SyncStep(users, n, fetch, columns, objPkey, objToTuple, t)
  }

  /** The `n`-th user's sync, after the first `n - 1` users'. */
  ghost function SyncStep<T(!new)>(users: seq<User>, n: nat, fetch: User -> seq<T>, columns: seq<string>,
                                   objPkey: T -> Value, objToTuple: T -> seq<Value>, t: TableState): (r: Option<Run>)
    requires Projects(columns, objPkey, objToTuple) && 0 < n <= |users|
    ensures r.Some? ==> t.records <= r.value.table.records && |r.value.queued| == n
    decreases n, 0
  {
    match SyncEach(users, n - 1, fetch, columns, objPkey, objToTuple, t)
    case None => None
    case Some(run) =>
      var objects := fetch(users[n - 1]);
      if SharedNewKey(objects, ColumnSet(run.table.records, columns[0]), objPkey) then None
      else
        var after := Synced(objects, columns, objPkey, objToTuple, run.table);
        PrefixTransitive(t.records, run.table.records, after.records);
        Some(Run(after, run.queued + [Queued(objects, columns, objPkey, objToTuple, run.table)]))
  }

  /** One step of `SyncEach`, spelled out. */
  lemma SyncEachUnfold<T(!new)>(users: seq<User>, n: nat, fetch: User -> seq<T>, columns: seq<string>,
                                objPkey: T -> Value, objToTuple: T -> seq<Value>, t: TableState)
    requires Projects(columns, objPkey, objToTuple) && 0 < n <= |users|
    ensures SyncEach(users, n, fetch, columns, objPkey, objToTuple, t) == SyncStep(users, n, fetch, columns, objPkey, objToTuple, t)
  { }

  /** Once one user's sync raises, the rest of the pass does not run. */
  lemma {:induction false} SyncEachStops<T(!new)>(users: seq<User>, m: nat, n: nat, fetch: User -> seq<T>,
                                                  columns: seq<string>, objPkey: T -> Value,
                                                  objToTuple: T -> seq<Value>, t: TableState)
    requires Projects(columns, objPkey, objToTuple) && m <= n <= |users|
    requires SyncEach(users, m, fetch, columns, objPkey, objToTuple, t).None?
    ensures SyncEach(users, n, fetch, columns, objPkey, objToTuple, t).None?
  {
    if m < n {
      SyncEachStops(users, m, n - 1, fetch, columns, objPkey, objToTuple, t);
    }
  }

  /** After a pass that runs, every fetched object's key is stored. */
  lemma {:induction false} SyncEachStores<T(!new)>(users: seq<User>, n: nat, fetch: User -> seq<T>, columns: seq<string>,
                                                   objPkey: T -> Value, objToTuple: T -> seq<Value>, t: TableState, run: Run)
    requires Projects(columns, objPkey, objToTuple) && n <= |users|
    requires SyncEach(users, n, fetch, columns, objPkey, objToTuple, t) == Some(run)
    ensures forall j, o :: 0 <= j < n && o in fetch(users[j]) ==> objPkey(o) in ColumnSet(run.table.records, columns[0])
  {
    if n > 0 {
      var prev := SyncEach(users, n - 1, fetch, columns, objPkey, objToTuple, t).value;
      var objects := fetch(users[n - 1]);
      ProjectsFits(objects, columns, objPkey, objToTuple);
      assert run.table == Synced(objects, columns, objPkey, objToTuple, prev.table);
      SyncEachStores(users, n - 1, fetch, columns, objPkey, objToTuple, t, prev);
      SyncedStores(objects, columns, objPkey, objToTuple, prev.table);
      StoredUnion(users, n, fetch, objPkey, ColumnSet(prev.table.records, columns[0]), ColumnSet(run.table.records, columns[0]));
    }
  }

  /** If the keys of the first `n - 1` users' objects are in `before`,
      `before` is kept in `after`, and the last user's keys are in `after`,
      then all `n` users' keys are in `after`. */
  lemma StoredUnion<T>(users: seq<User>, n: nat, fetch: User -> seq<T>, objPkey: T -> Value,
                       before: set<Value>, after: set<Value>)
    requires 0 < n <= |users|
    requires forall j, o :: 0 <= j < n - 1 && o in fetch(users[j]) ==> objPkey(o) in before
    requires before <= after
    requires forall o :: o in fetch(users[n - 1]) ==> objPkey(o) in after
    ensures forall j, o :: 0 <= j < n && o in fetch(users[j]) ==> objPkey(o) in after
  {
    forall j, o | 0 <= j < n && o in fetch(users[j])
      ensures objPkey(o) in after
    {
      if j < n - 1 {
        assert objPkey(o) in before;
      }
    }
  }

  /* ---------------- what the run writes ---------------- */

  /** How many entries of the log satisfy `p`. */
  function Count(log: seq<Action>, p: Action -> bool): nat
    decreases |log|
  {
    if |log| == 0 then 0 else (if p(log[0]) then 1 else 0) + Count(log[1..], p)
  }

  predicate IsInsert(a: Action) { a.Insert? }

  predicate IsCommit(a: Action) { a.Commit? }

  predicate IsUserUpdate(a: Action) { a.UserUpdated? }

  /** Counting distributes over the concatenation of two logs. */
  lemma {:induction false} CountAppend(a: seq<Action>, b: seq<Action>, p: Action -> bool)
    ensures Count(a + b, p) == Count(a, p) + Count(b, p)
    decreases |a|
  {
    if |a| == 0 {
      assert a + b == b;
    } else {
      assert (a + b)[0] == a[0] && (a + b)[1..] == a[1..] + b;
      CountAppend(a[1..], b, p);
    }
  }

  /** One sync logs one insert and one commit, or nothing. */
  lemma SyncLogCounts(table: string, queued: nat)
    ensures Count(SyncLog(table, queued), IsInsert) == (if queued == 0 then 0 else 1)
    ensures Count(SyncLog(table, queued), IsCommit) == (if queued == 0 then 0 else 1)
    ensures Count(SyncLog(table, queued), IsUserUpdate) == 0
  {
    var log := SyncLog(table, queued);
    if queued > 0 {
      assert log[0] == Insert(table, queued) && log[1] == Commit;
      TwoCounts(log, IsInsert);
      TwoCounts(log, IsCommit);
      TwoCounts(log, IsUserUpdate);
    }
  }

  /** The count of a two-entry log, entry by entry. */
  lemma TwoCounts(log: seq<Action>, p: Action -> bool)
    requires |log| == 2
    ensures Count(log, p) == (if p(log[0]) then 1 else 0) + (if p(log[1]) then 1 else 0)
  {
    var rest := log[1..];
    assert rest[0] == log[1] && rest[1..] == [];
    assert Count(rest, p) == (if p(rest[0]) then 1 else 0) + Count(rest[1..], p);
  }

  /** A user update and its commit. */
  lemma UpdateCounts(log: seq<Action>)
    requires |log| == 2 && log[0].UserUpdated? && log[1] == Commit
    ensures Count(log, IsUserUpdate) == 1 && Count(log, IsInsert) == 0 && Count(log, IsCommit) == 1
  {
    TwoCounts(log, IsUserUpdate);
    TwoCounts(log, IsInsert);
    TwoCounts(log, IsCommit);
  }

  /** Pass 1's writes, given how many rows each user's programs sync and
      courses sync queue: for each user in turn, the programs insert and its
      commit, then the courses insert and its commit, each only when
      something was queued. */
  function Pass1Log(programsQueued: seq<nat>, coursesQueued: seq<nat>): (log: seq<Action>)
    requires |programsQueued| == |coursesQueued|
    ensures |log| <= 4 * |programsQueued|
    decreases |programsQueued|
  {
    var n := |programsQueued|;
    if n == 0 then []
    else
      Pass1Log(programsQueued[..n - 1], coursesQueued[..n - 1])
        + SyncLog("usos_programs", programsQueued[n - 1])
        + SyncLog("usos_courses", coursesQueued[n - 1])
  }

  /** Pass 1's log for one more user. */
  lemma Pass1LogSnoc(programsQueued: seq<nat>, coursesQueued: seq<nat>, p: nat, c: nat)
    requires |programsQueued| == |coursesQueued|
    ensures Pass1Log(programsQueued + [p], coursesQueued + [c])
         == Pass1Log(programsQueued, coursesQueued) + SyncLog("usos_programs", p) + SyncLog("usos_courses", c)
  {
    assert (programsQueued + [p])[..|programsQueued|] == programsQueued;
    assert (coursesQueued + [c])[..|coursesQueued|] == coursesQueued;
  }

  /** Pass 1 writes nothing but inserts into the programs and courses
      tables and commits. */
  lemma {:induction false} Pass1LogWrites(programsQueued: seq<nat>, coursesQueued: seq<nat>)
    requires |programsQueued| == |coursesQueued|
    ensures forall a :: a in Pass1Log(programsQueued, coursesQueued) ==>
      a.Commit? || (a.Insert? && (a.table == "usos_programs" || a.table == "usos_courses"))
    decreases |programsQueued|
  {
    var n := |programsQueued|;
    if n > 0 {
      Pass1LogWrites(programsQueued[..n - 1], coursesQueued[..n - 1]);
    }
  }

  /** Pass 1 logs at most two inserts per user, each insert followed by
      its own commit. */
  lemma {:induction false} Pass1LogCounts(programsQueued: seq<nat>, coursesQueued: seq<nat>)
    requires |programsQueued| == |coursesQueued|
    ensures Count(Pass1Log(programsQueued, coursesQueued), IsInsert) <= 2 * |programsQueued|
    ensures Count(Pass1Log(programsQueued, coursesQueued), IsCommit)
         == Count(Pass1Log(programsQueued, coursesQueued), IsInsert)
    decreases |programsQueued|
  {
    var n := |programsQueued|;
    if n > 0 {
      var before := Pass1Log(programsQueued[..n - 1], coursesQueued[..n - 1]);
      var programs := SyncLog("usos_programs", programsQueued[n - 1]);
      var courses := SyncLog("usos_courses", coursesQueued[n - 1]);
      Pass1LogCounts(programsQueued[..n - 1], coursesQueued[..n - 1]);
      SyncLogCounts("usos_programs", programsQueued[n - 1]);
      SyncLogCounts("usos_courses", coursesQueued[n - 1]);
      CountAppend(before, programs, IsInsert);
      CountAppend(before + programs, courses, IsInsert);
      CountAppend(before, programs, IsCommit);
      CountAppend(before + programs, courses, IsCommit);
    }
  }

  /** The `users` row after the update of line 81-89. */
  function UpdatedRow(row: UserRow, info: UsosInfo, memberships: string): UserRow
  {
    row.(usosId := Text(info.id), usosFirstName := Text(info.firstName),
         usosLastName := Text(info.lastName), usosCourses := Text(memberships))
  }

  /** The update statement pass 2 issues for one user, whose membership
      string is `memberships`. */
  function UserUpdate(user: User, api: Api, memberships: string): Action
  {
    var info := api.infoOf(user);
    UserUpdated(user.id, info.id, info.firstName, info.lastName, memberships)
  }

  /** Every user's courses resolve in the course-id map. */
  predicate AllResolved(users: seq<User>, api: Api, courseIds: map<Value, string>)
  {
    forall k :: 0 <= k < |users| ==> Resolved(api.coursesOf(users[k]), courseIds)
  }

  /** The membership strings of the first `n` users, in lookup order. */
  function Memberships(users: seq<User>, n: nat, api: Api, courseIds: map<Value, string>): (ms: seq<string>)
    requires n <= |users| && AllResolved(users, api, courseIds)
    ensures |ms| == n
  {
    if n == 0 then []
    else Memberships(users, n - 1, api, courseIds) + [Membership(api.coursesOf(users[n - 1]), courseIds)]
  }

  /** The `k`-th of those strings is the `k`-th user's. */
  lemma {:induction false} MembershipsAt(users: seq<User>, n: nat, api: Api, courseIds: map<Value, string>, k: nat)
    requires n <= |users| && AllResolved(users, api, courseIds) && k < n
    ensures Memberships(users, n, api, courseIds)[k] == Membership(api.coursesOf(users[k]), courseIds)
  {
    if k < n - 1 {
      MembershipsAt(users, n - 1, api, courseIds, k);
    }
  }

  /** Pass 2's writes, given each user's membership string and how many
      rows each user's points sync queues: for each user in turn, the record
      update and its own commit, then the points insert and its commit when
      something was queued. */
  function Pass2Log(users: seq<User>, api: Api, memberships: seq<string>, pointsQueued: seq<nat>)
    : (log: seq<Action>)
    requires |pointsQueued| <= |users| && |memberships| == |users|
    ensures 2 * |pointsQueued| <= |log| <= 4 * |pointsQueued|
    decreases |pointsQueued|
  {
    var n := |pointsQueued|;
    if n == 0 then []
    else
      Pass2Log(users, api, memberships, pointsQueued[..n - 1])
        + [UserUpdate(users[n - 1], api, memberships[n - 1]), Commit]
        + SyncLog("usos_points", pointsQueued[n - 1])
  }

  /** Pass 2's log for one more user. */
  lemma Pass2LogSnoc(users: seq<User>, api: Api, memberships: seq<string>, pointsQueued: seq<nat>, q: nat)
    requires |pointsQueued| < |users| && |memberships| == |users|
    ensures Pass2Log(users, api, memberships, pointsQueued + [q])
         == Pass2Log(users, api, memberships, pointsQueued)
            + [UserUpdate(users[|pointsQueued|], api, memberships[|pointsQueued|]), Commit]
            + SyncLog("usos_points", q)
  {
    assert (pointsQueued + [q])[..|pointsQueued|] == pointsQueued;
  }

  /** Pass 2 inserts into no table but the points table. */
  lemma {:induction false} Pass2LogWrites(users: seq<User>, api: Api, memberships: seq<string>,
                                          pointsQueued: seq<nat>)
    requires |pointsQueued| <= |users| && |memberships| == |users|
    ensures forall a :: a in Pass2Log(users, api, memberships, pointsQueued) ==>
      a.Commit? || a.UserUpdated? || (a.Insert? && a.table == "usos_points")
    decreases |pointsQueued|
  {
    var n := |pointsQueued|;
    if n > 0 {
      Pass2LogWrites(users, api, memberships, pointsQueued[..n - 1]);
    }
  }

  /** Pass 2 logs exactly one user update per user and at most one insert
      per user, and one commit for each update and each insert. */
  lemma {:induction false} Pass2LogCounts(users: seq<User>, api: Api, memberships: seq<string>,
                                          pointsQueued: seq<nat>)
    requires |pointsQueued| <= |users| && |memberships| == |users|
    ensures Count(Pass2Log(users, api, memberships, pointsQueued), IsUserUpdate) == |pointsQueued|
    ensures Count(Pass2Log(users, api, memberships, pointsQueued), IsInsert) <= |pointsQueued|
    ensures Count(Pass2Log(users, api, memberships, pointsQueued), IsCommit)
         == |pointsQueued| + Count(Pass2Log(users, api, memberships, pointsQueued), IsInsert)
    decreases |pointsQueued|
  {
    var n := |pointsQueued|;
    if n > 0 {
      var before := Pass2Log(users, api, memberships, pointsQueued[..n - 1]);
      var update := [UserUpdate(users[n - 1], api, memberships[n - 1]), Commit];
      var points := SyncLog("usos_points", pointsQueued[n - 1]);
      Pass2LogCounts(users, api, memberships, pointsQueued[..n - 1]);
      SyncLogCounts("usos_points", pointsQueued[n - 1]);
      UpdateCounts(update);
      CountAppend(before, update, IsUserUpdate);
      CountAppend(before + update, points, IsUserUpdate);
      CountAppend(before, update, IsInsert);
      CountAppend(before + update, points, IsInsert);
      CountAppend(before, update, IsCommit);
      CountAppend(before + update, points, IsCommit);
    }
  }

  /** Every one of those users' updates is in pass 2's log, followed at
      once by its commit. */
  lemma {:induction false} Pass2LogUpdates(users: seq<User>, api: Api, memberships: seq<string>,
                                           pointsQueued: seq<nat>, k: nat)
    requires |pointsQueued| <= |users| && |memberships| == |users|
    requires k < |pointsQueued|
    ensures exists p ::
      && 0 <= p < |Pass2Log(users, api, memberships, pointsQueued)| - 1
      && Pass2Log(users, api, memberships, pointsQueued)[p] == UserUpdate(users[k], api, memberships[k])
      && Pass2Log(users, api, memberships, pointsQueued)[p + 1] == Commit
    decreases |pointsQueued|
  {
    var n := |pointsQueued|;
    var before := Pass2Log(users, api, memberships, pointsQueued[..n - 1]);
    var log := Pass2Log(users, api, memberships, pointsQueued);
    if k < n - 1 {
      Pass2LogUpdates(users, api, memberships, pointsQueued[..n - 1], k);
      var p :| 0 <= p < |before| - 1 && before[p] == UserUpdate(users[k], api, memberships[k]) && before[p + 1] == Commit;
      assert log[p] == before[p] && log[p + 1] == before[p + 1];
    } else {
      assert log[|before|] == UserUpdate(users[k], api, memberships[k]);
      assert log[|before| + 1] == Commit;
    }
  }

  /** The `users` rows after pass 2 has updated the first `n` users in
      turn, each with its membership string; an update whose id matches no
      row changes nothing, and none adds or removes a row. */
  function FilledRows(users: seq<User>, n: nat, api: Api, memberships: seq<string>, rows: map<int, UserRow>)
    : (r: map<int, UserRow>)
    requires n <= |users| && |memberships| == |users|
    ensures r.Keys == rows.Keys
  {
    if n == 0 then rows
    else
      var before := FilledRows(users, n - 1, api, memberships, rows);
      var user := users[n - 1];
      if user.id in before then before[user.id := UpdatedRow(before[user.id], api.infoOf(user), memberships[n - 1])]
      else before
  }

  /** Pass 2 leaves alone every row of a user it was not asked to update. */
  lemma {:induction false} FilledRowsOthers(users: seq<User>, n: nat, api: Api, memberships: seq<string>,
                                            rows: map<int, UserRow>, id: int)
    requires n <= |users| && |memberships| == |users|
    requires id in rows && forall k :: 0 <= k < n ==> users[k].id != id
    ensures FilledRows(users, n, api, memberships, rows)[id] == rows[id]
  {
    if n > 0 {
      assert users[n - 1].id != id;
      FilledRowsOthers(users, n - 1, api, memberships, rows, id);
    }
  }

  /** With distinct user ids that all name rows, each updated user's row
      ends up holding that user's identity and membership string over the
      row's other columns. */
  lemma {:induction false} FilledRowsUpdated(users: seq<User>, n: nat, api: Api, memberships: seq<string>,
                                             rows: map<int, UserRow>, k: nat)
    requires FromStore(users, rows)
    requires k < n <= |users| && |memberships| == |users|
    ensures FilledRows(users, n, api, memberships, rows)[users[k].id]
      == UpdatedRow(rows[users[k].id], api.infoOf(users[k]), memberships[k])
  {
    if k < n - 1 {
      assert users[n - 1].id != users[k].id;
      FilledRowsUpdated(users, n - 1, api, memberships, rows, k);
    } else {
      FilledRowsOthers(users, n - 1, api, memberships, rows, users[n - 1].id);
    }
  }

  /** The map of line 52 holds the courses of the first `n` users. */
  predicate Remembers(users: seq<User>, n: nat, api: Api, usersCourses: map<User, seq<Course>>)
  {
    forall j :: 0 <= j < n && j < |users| ==>
      users[j] in usersCourses && usersCourses[users[j]] == api.coursesOf(users[j])
  }

  /** Remembering one more user's courses keeps the earlier users'. */
  lemma RememberCourses(users: seq<User>, i: nat, api: Api, usersCourses: map<User, seq<Course>>)
    requires i < |users| && Remembers(users, i, api, usersCourses)
    ensures Remembers(users, i + 1, api, usersCourses[users[i] := api.coursesOf(users[i])])
  {
    var after := usersCourses[users[i] := api.coursesOf(users[i])];
    forall j | 0 <= j <= i ensures users[j] in after && after[users[j]] == api.coursesOf(users[j]) {
      if j < i && users[j] != users[i] {
        assert users[j] in usersCourses;
      }
    }
  }

  /** Regrouping a log of four segments. */
  lemma AppendAssociative(a: seq<Action>, b: seq<Action>, c: seq<Action>, d: seq<Action>)
    ensures a + b + c + d == a + (b + c + d)
  {
  }

  /** A prefix of a prefix is a prefix. */
  lemma PrefixTransitive(a: seq<Record>, b: seq<Record>, c: seq<Record>)
    requires a <= b && b <= c
    ensures a <= c
  {
    assert c[..|a|] == b[..|a|];
  }

  /** Each requested user's row, and only those, holds the fetched
      identity and the membership string over the row's other columns; no
      row is added or removed. */
  predicate RowsFilled(users: seq<User>, api: Api, courseIds: map<Value, string>,
                       rows0: map<int, UserRow>, rows: map<int, UserRow>)
    requires AllResolved(users, api, courseIds)
  {
    && rows.Keys == rows0.Keys
    && (forall k :: 0 <= k < |users| && users[k].id in rows0 ==>
          rows[users[k].id]
          == UpdatedRow(rows0[users[k].id], api.infoOf(users[k]), Membership(api.coursesOf(users[k]), courseIds)))
    && (forall id :: id in rows0 && (forall k :: 0 <= k < |users| ==> users[k].id != id) ==> rows[id] == rows0[id])
  }

  /* ---------------- the passes' loop states ---------------- */

  /** Pass 1 has run clean over the first `n` users, starting from the
      tables `programs0` and `courses0` and the log `log0`: no sync met two
      objects sharing a new key, and the tables `programs` and `courses` and
      the log `log` are what those syncs leave. */
  ghost predicate Pass1Ran(users: seq<User>, n: nat, api: Api, programs0: TableState, courses0: TableState,
                           log0: seq<Action>, programs: TableState, courses: TableState, log: seq<Action>)
    requires n <= |users|
  {
    BindingsProject();
    var p := SyncEach(users, n, api.programsOf, ProgramColumns, ProgramKey, ProgramTuple, programs0);
    var c := SyncEach(users, n, api.coursesOf, CourseColumns, CourseKey, CourseTuple, courses0);
    && p.Some? && c.Some?
    && programs == p.value.table && courses == c.value.table
    && log == log0 + Pass1Log(p.value.queued, c.value.queued)
  }

  /** Pass 2 has run clean over the first `n` users, each with its
      membership string, starting from the points table `points0`, the rows
      `rows0` and the log `log0`: no points sync met two points sharing a
      new node id, and the points table, the rows and the log are what those
      users' updates and syncs leave. */
  ghost predicate Pass2Ran(users: seq<User>, n: nat, api: Api, memberships: seq<string>,
                           points0: TableState, rows0: map<int, UserRow>, log0: seq<Action>,
                           points: TableState, rows: map<int, UserRow>, log: seq<Action>)
    requires n <= |users| && |memberships| == |users|
  {
    BindingsProject();
    var p := SyncEach(users, n, api.pointsOf, PointColumns, PointKey, PointTuple, points0);
    && p.Some? && points == p.value.table
    && rows == FilledRows(users, n, api, memberships, rows0)
    && log == log0 + Pass2Log(users, api, memberships, p.value.queued)
  }

  /* ---------------- the run ---------------- */

  /** Lines 41-55, iteration `i`: sync the user's programs, then the
      user's courses. Pass 1 has run clean over the first `i` users; the
      call fails exactly when one of the two syncs meets two objects sharing
      a new key, and otherwise pass 1 has run clean over `i + 1` users. */
  method SyncUserProgramsAndCourses(users: seq<User>, i: nat, api: Api, db: Connection,
                                    ghost programs0: TableState, ghost courses0: TableState, ghost log0: seq<Action>)
    returns (outcome: Outcome)
    requires db.Valid() && i < |users|
    requires Pass1Ran(users, i, api, programs0, courses0, log0, db.programs.State(), db.courses.State(), db.log)
    modifies db`log, db.programs, db.courses
    ensures db.Valid()
    ensures old(db.programs.records) <= db.programs.records
    ensures old(db.courses.records) <= db.courses.records
    ensures outcome.Ok? <==>
      && !SharedNewKey(api.programsOf(users[i]), ColumnSet(old(db.programs.records), "program_id"), ProgramKey)
      && !SharedNewKey(api.coursesOf(users[i]), ColumnSet(old(db.courses.records), "course_id"), CourseKey)
    ensures outcome.Err? ==> outcome.error == DuplicateKey
    ensures outcome.Ok? ==>
      Pass1Ran(users, i + 1, api, programs0, courses0, log0, db.programs.State(), db.courses.State(), db.log)
  {
    BindingsProject();
    var user := users[i];
    ghost var programsQueued := SyncEach(users, i, api.programsOf, ProgramColumns, ProgramKey, ProgramTuple, programs0).value.queued;
    ghost var coursesQueued := SyncEach(users, i, api.coursesOf, CourseColumns, CourseKey, CourseTuple, courses0).value.queued;
    outcome := UpdateUsosPrograms(api.programsOf(user), db);
    if outcome.Err? {
      return;
    }
    outcome := UpdateUsosCourses(api.coursesOf(user), db);
    if outcome.Err? {
      return;
    }
    ghost var p := Queued(api.programsOf(user), ProgramColumns, ProgramKey, ProgramTuple, old(db.programs.State()));
    ghost var c := Queued(api.coursesOf(user), CourseColumns, CourseKey, CourseTuple, old(db.courses.State()));
    Pass1LogSnoc(programsQueued, coursesQueued, p, c);
    AppendAssociative(log0, Pass1Log(programsQueued, coursesQueued),
                      SyncLog("usos_programs", p), SyncLog("usos_courses", c));
  }

  /** Lines 37-55: for each user in lookup order, fetch and sync the
      programs, then fetch, remember and sync the courses. The pass fails
      exactly when some user's sync meets two objects sharing a new key;
      otherwise the programs and courses tables and the log are the folds
      over all users, every fetched program is stored, and every
      remembered course resolves in the course-id map. */
  method SyncProgramsAndCourses(users: seq<User>, api: Api, db: Connection)
    returns (outcome: Outcome, usersCourses: map<User, seq<Course>>)
    requires db.Valid()
    modifies db`log, db.programs, db.courses
    ensures db.Valid()
    ensures old(db.programs.records) <= db.programs.records
    ensures old(db.courses.records) <= db.courses.records
    ensures outcome.Ok? <==>
      && SyncEach(users, |users|, api.programsOf, ProgramColumns, ProgramKey, ProgramTuple, old(db.programs.State())).Some?
      && SyncEach(users, |users|, api.coursesOf, CourseColumns, CourseKey, CourseTuple, old(db.courses.State())).Some?
    ensures outcome.Err? ==> outcome.error == DuplicateKey
    ensures outcome.Ok? ==>
      && Pass1Ran(users, |users|, api, old(db.programs.State()), old(db.courses.State()), old(db.log),
                  db.programs.State(), db.courses.State(), db.log)
      && Remembers(users, |users|, api, usersCourses)
      && (forall k, p :: 0 <= k < |users| && p in api.programsOf(users[k]) ==>
            ProgramKey(p) in ColumnSet(db.programs.records, "program_id"))
      && AllResolved(users, api, CourseIdMap(db.courses.records))
  {
    BindingsProject();
    ghost var programs0, courses0 := db.programs.State(), db.courses.State();
    outcome, usersCourses := Ok, map[];
    var i := 0;
    while i < |users|
      invariant 0 <= i <= |users|
      invariant outcome == Ok
      invariant db.Valid()
      invariant programs0.records <= db.programs.records && courses0.records <= db.courses.records
      invariant Pass1Ran(users, i, api, programs0, courses0, old(db.log), db.programs.State(), db.courses.State(), db.log)
      invariant Remembers(users, i, api, usersCourses)
    {
      var user := users[i];
      ghost var programs, courses, log := db.programs.State(), db.courses.State(), db.log;
      outcome := SyncUserProgramsAndCourses(users, i, api, db, programs0, courses0, old(db.log));
      PrefixTransitive(programs0.records, programs.records, db.programs.records);
      PrefixTransitive(courses0.records, courses.records, db.courses.records);
      if outcome.Err? {
        Pass1Stops(users, i, api, programs0, courses0, old(db.log), programs, courses, log);
        return;
      }
      RememberCourses(users, i, api, usersCourses);
      usersCourses := usersCourses[user := api.coursesOf(user)];
      i := i + 1;
    }
    Pass1Stores(users, api, programs0, courses0, old(db.log), db.programs.State(), db.courses.State(), db.log);
  }

  /** A pass-1 sync that fails at user `i`, after a clean run over the
      users before, leaves pass 1 unclean. */
  lemma Pass1Stops(users: seq<User>, i: nat, api: Api, programs0: TableState, courses0: TableState,
                   log0: seq<Action>, programs: TableState, courses: TableState, log: seq<Action>)
    requires Projects(ProgramColumns, ProgramKey, ProgramTuple) && Projects(CourseColumns, CourseKey, CourseTuple)
    requires i < |users| && Pass1Ran(users, i, api, programs0, courses0, log0, programs, courses, log)
    requires
      || SharedNewKey(api.programsOf(users[i]), ColumnSet(programs.records, "program_id"), ProgramKey)
      || SharedNewKey(api.coursesOf(users[i]), ColumnSet(courses.records, "course_id"), CourseKey)
    ensures
      || SyncEach(users, |users|, api.programsOf, ProgramColumns, ProgramKey, ProgramTuple, programs0).None?
      || SyncEach(users, |users|, api.coursesOf, CourseColumns, CourseKey, CourseTuple, courses0).None?
  {
    SyncEachUnfold(users, i + 1, api.programsOf, ProgramColumns, ProgramKey, ProgramTuple, programs0);
    SyncEachUnfold(users, i + 1, api.coursesOf, CourseColumns, CourseKey, CourseTuple, courses0);
    if SyncEach(users, i + 1, api.programsOf, ProgramColumns, ProgramKey, ProgramTuple, programs0).None? {
      SyncEachStops(users, i + 1, |users|, api.programsOf, ProgramColumns, ProgramKey, ProgramTuple, programs0);
    } else {
      SyncEachStops(users, i + 1, |users|, api.coursesOf, CourseColumns, CourseKey, CourseTuple, courses0);
    }
  }

  /** After a clean pass 1, every fetched program is stored and every
      fetched course resolves in the course-id map. */
  lemma Pass1Stores(users: seq<User>, api: Api, programs0: TableState, courses0: TableState,
                    log0: seq<Action>, programs: TableState, courses: TableState, log: seq<Action>)
    requires Projects(ProgramColumns, ProgramKey, ProgramTuple) && Projects(CourseColumns, CourseKey, CourseTuple)
    requires Pass1Ran(users, |users|, api, programs0, courses0, log0, programs, courses, log)
    ensures forall k, p :: 0 <= k < |users| && p in api.programsOf(users[k]) ==>
      ProgramKey(p) in ColumnSet(programs.records, "program_id")
    ensures AllResolved(users, api, CourseIdMap(courses.records))
  {
    SyncEachStores(users, |users|, api.programsOf, ProgramColumns, ProgramKey, ProgramTuple, programs0,
                   SyncEach(users, |users|, api.programsOf, ProgramColumns, ProgramKey, ProgramTuple, programs0).value);
    SyncEachStores(users, |users|, api.coursesOf, CourseColumns, CourseKey, CourseTuple, courses0,
                   SyncEach(users, |users|, api.coursesOf, CourseColumns, CourseKey, CourseTuple, courses0).value);
    forall k | 0 <= k < |users| ensures Resolved(api.coursesOf(users[k]), CourseIdMap(courses.records)) {
      forall j | 0 <= j < |api.coursesOf(users[k])|
        ensures CourseKey(api.coursesOf(users[k])[j]) in CourseIdMap(courses.records)
      {
        assert api.coursesOf(users[k])[j] in api.coursesOf(users[k]);
      }
    }
  }

  /** Lines 73-90, iteration `i`: the user's row gets the fetched identity
      and the membership string, and the change is committed. */
  method WriteUsosInfo(users: seq<User>, i: nat, usersCourses: map<User, seq<Course>>,
                       courseIds: map<Value, string>, api: Api, db: Connection,
                       ghost memberships: seq<string>, ghost rows0: map<int, UserRow>)
    requires i < |users|
    requires Remembers(users, |users|, api, usersCourses)
    requires AllResolved(users, api, courseIds) && memberships == Memberships(users, |users|, api, courseIds)
    requires db.users == FilledRows(users, i, api, memberships, rows0)
    modifies db`users, db`log
    ensures db.users == FilledRows(users, i + 1, api, memberships, rows0)
    ensures db.log == old(db.log) + [UserUpdate(users[i], api, memberships[i]), Commit]
  {
    var user := users[i];
    var info := api.infoOf(user);
    var membership := Membership(usersCourses[user], courseIds);
    MembershipsAt(users, |users|, api, courseIds, i);
    db.UpdateUser(user.id, info.id, info.firstName, info.lastName, membership);
    db.Commit();
  }

  /** Lines 92-95, iteration `i`: fetch and sync the user's points. Before
      the call the points table is the one after `i` users, and the log
      holds pass 2 for `i` users followed by this user's update and commit;
      the sync fails exactly when two of the user's points share a new node
      id, and otherwise the table and the log are those after `i + 1`
      users. */
  method SyncUserPoints(users: seq<User>, i: nat, api: Api, db: Connection, ghost memberships: seq<string>,
                        ghost points0: TableState, ghost log0: seq<Action>)
    returns (outcome: Outcome)
    requires db.Valid()
    requires i < |users| && |memberships| == |users|
    requires
      var p := SyncEach(users, i, api.pointsOf, PointColumns, PointKey, PointTuple, points0);
      && p.Some? && db.points.State() == p.value.table
      && db.log == log0 + Pass2Log(users, api, memberships, p.value.queued)
                        + [UserUpdate(users[i], api, memberships[i]), Commit]
    modifies db`log, db.points
    ensures db.Valid()
    ensures old(db.points.records) <= db.points.records
    ensures outcome.Ok? <==> !SharedNewKey(api.pointsOf(users[i]), ColumnSet(old(db.points.records), "node_id"), PointKey)
    ensures outcome.Err? ==> outcome.error == DuplicateKey
    ensures outcome.Ok? ==>
      var p := SyncEach(users, i + 1, api.pointsOf, PointColumns, PointKey, PointTuple, points0);
      && p.Some? && db.points.State() == p.value.table
      && db.log == log0 + Pass2Log(users, api, memberships, p.value.queued)
  {
    BindingsProject();
    ghost var pointsQueued := SyncEach(users, i, api.pointsOf, PointColumns, PointKey, PointTuple, points0).value.queued;
    outcome := UpdateUsosPoints(api.pointsOf(users[i]), db);
    if outcome.Err? {
      return;
    }
    ghost var q := Queued(api.pointsOf(users[i]), PointColumns, PointKey, PointTuple, old(db.points.State()));
    Pass2LogSnoc(users, api, memberships, pointsQueued, q);
    AppendAssociative(log0, Pass2Log(users, api, memberships, pointsQueued),
                      [UserUpdate(users[i], api, memberships[i]), Commit], SyncLog("usos_points", q));
  }

  /** Lines 71-95, iteration `i`: write the fetched identity and the
      membership string into the user's row and commit, then sync the
      user's points. Pass 2 has run clean over the first `i` users; the row
      is written in any case, the points sync fails exactly when two of the
      user's points share a new node id, and otherwise pass 2 has run clean
      over `i + 1` users. */
  method FillUserInfo(users: seq<User>, i: nat, usersCourses: map<User, seq<Course>>,
                      courseIds: map<Value, string>, api: Api, db: Connection, ghost memberships: seq<string>,
                      ghost points0: TableState, ghost rows0: map<int, UserRow>, ghost log0: seq<Action>)
    returns (outcome: Outcome)
    requires db.Valid()
    requires i < |users|
    requires Remembers(users, |users|, api, usersCourses)
    requires AllResolved(users, api, courseIds) && memberships == Memberships(users, |users|, api, courseIds)
    requires Pass2Ran(users, i, api, memberships, points0, rows0, log0, db.points.State(), db.users, db.log)
    modifies db`users, db`log, db.points
    ensures db.Valid()
    ensures old(db.points.records) <= db.points.records
    ensures db.users == FilledRows(users, i + 1, api, memberships, rows0)
    ensures outcome.Ok? <==> !SharedNewKey(api.pointsOf(users[i]), ColumnSet(old(db.points.records), "node_id"), PointKey)
    ensures outcome.Err? ==> outcome.error == DuplicateKey
    ensures outcome.Ok? ==>
      Pass2Ran(users, i + 1, api, memberships, points0, rows0, log0, db.points.State(), db.users, db.log)
  {
    WriteUsosInfo(users, i, usersCourses, courseIds, api, db, memberships, rows0);
    outcome := SyncUserPoints(users, i, api, db, memberships, points0, log0);
  }

  /** Lines 69-95: for each user in lookup order, write the fetched
      identity and the membership string into the user's row and commit,
      then fetch and sync the user's points. `courseIds` is the map read
      once after pass 1. The pass fails exactly when some user's points
      sync meets two points sharing a new node id; otherwise the points
      table, the rows and the log are the folds over all users. */
  method FillUsosInfo(users: seq<User>, usersCourses: map<User, seq<Course>>,
                      courseIds: map<Value, string>, api: Api, db: Connection)
    returns (outcome: Outcome)
    requires db.Valid()
    requires Remembers(users, |users|, api, usersCourses)
    requires AllResolved(users, api, courseIds)
    modifies db`users, db`log, db.points
    ensures db.Valid()
    ensures old(db.points.records) <= db.points.records
    ensures outcome.Ok? <==>
      SyncEach(users, |users|, api.pointsOf, PointColumns, PointKey, PointTuple, old(db.points.State())).Some?
    ensures outcome.Err? ==> outcome.error == DuplicateKey
    ensures outcome.Ok? ==>
      Pass2Ran(users, |users|, api, Memberships(users, |users|, api, courseIds), old(db.points.State()), old(db.users),
               old(db.log), db.points.State(), db.users, db.log)
  {
    BindingsProject();
    ghost var memberships := Memberships(users, |users|, api, courseIds);
    ghost var points0, rows0, log0 := db.points.State(), db.users, db.log;
    outcome := Ok;
    var i := 0;
    while i < |users|
      invariant 0 <= i <= |users|
      invariant outcome == Ok
      invariant db.Valid()
      invariant points0.records <= db.points.records
      invariant Pass2Ran(users, i, api, memberships, points0, rows0, log0, db.points.State(), db.users, db.log)
    {
      ghost var points, rows, log := db.points.State(), db.users, db.log;
      outcome := FillUserInfo(users, i, usersCourses, courseIds, api, db, memberships, points0, rows0, log0);
      PrefixTransitive(points0.records, points.records, db.points.records);
      if outcome.Err? {
        Pass2Stops(users, i, api, memberships, points0, rows0, log0, points, rows, log);
        return;
      }
      i := i + 1;
    }
  }

  /** A points sync that fails at user `i`, after a clean run over the
      users before, leaves pass 2 unclean. */
  lemma Pass2Stops(users: seq<User>, i: nat, api: Api, memberships: seq<string>,
                   points0: TableState, rows0: map<int, UserRow>, log0: seq<Action>,
                   points: TableState, rows: map<int, UserRow>, log: seq<Action>)
    requires Projects(PointColumns, PointKey, PointTuple)
    requires i < |users| && |memberships| == |users|
    requires Pass2Ran(users, i, api, memberships, points0, rows0, log0, points, rows, log)
    requires SharedNewKey(api.pointsOf(users[i]), ColumnSet(points.records, "node_id"), PointKey)
    ensures SyncEach(users, |users|, api.pointsOf, PointColumns, PointKey, PointTuple, points0).None?
  {
    SyncEachStops(users, i + 1, |users|, api.pointsOf, PointColumns, PointKey, PointTuple, points0);
  }

  /** After a clean pass 2, every fetched point is stored, and each
      requested user's row, and only those, holds the fetched identity and
      the membership string. */
  lemma Pass2Stores(users: seq<User>, api: Api, courseIds: map<Value, string>,
                    points0: TableState, rows0: map<int, UserRow>, log0: seq<Action>,
                    points: TableState, rows: map<int, UserRow>, log: seq<Action>)
    requires Projects(PointColumns, PointKey, PointTuple)
    requires FromStore(users, rows0) && AllResolved(users, api, courseIds)
    requires Pass2Ran(users, |users|, api, Memberships(users, |users|, api, courseIds), points0, rows0, log0, points, rows, log)
    ensures forall k, p :: 0 <= k < |users| && p in api.pointsOf(users[k]) ==>
      PointKey(p) in ColumnSet(points.records, "node_id")
    ensures RowsFilled(users, api, courseIds, rows0, rows)
  {
    var memberships := Memberships(users, |users|, api, courseIds);
    SyncEachStores(users, |users|, api.pointsOf, PointColumns, PointKey, PointTuple, points0,
                   SyncEach(users, |users|, api.pointsOf, PointColumns, PointKey, PointTuple, points0).value);
    forall k | 0 <= k < |users|
      ensures rows[users[k].id]
           == UpdatedRow(rows0[users[k].id], api.infoOf(users[k]), Membership(api.coursesOf(users[k]), courseIds))
    {
      FilledRowsUpdated(users, |users|, api, memberships, rows0, k);
      MembershipsAt(users, |users|, api, courseIds, k);
    }
    forall id | id in rows0 && (forall k :: 0 <= k < |users| ==> users[k].id != id)
      ensures rows[id] == rows0[id]
    {
      FilledRowsOthers(users, |users|, api, memberships, rows0, id);
    }
  }

  /** The `__main__` block, from the user lookup on. `users` is what the
      lookup returned for `userIds`. */
  method InitNewUsosUser(userIds: seq<int>, users: seq<User>, api: Api, db: Connection) returns (status: Status)
    requires db.Valid()
    requires FromStore(users, db.users)
    modifies db, db.programs, db.courses, db.points
    ensures db.Valid()
    ensures old(db.programs.records) <= db.programs.records
    ensures old(db.courses.records) <= db.courses.records
    ensures old(db.points.records) <= db.points.records
    // the user-count check comes before any write
    ensures status == Exited(-1) <==> |users| != |userIds|
    ensures status == Exited(-1) ==> unchanged(db, db.programs, db.courses, db.points)
    // the run finishes exactly when no sync of either pass meets two objects sharing a new key
    ensures status == Finished <==>
      && |users| == |userIds|
      && SyncEach(users, |users|, api.programsOf, ProgramColumns, ProgramKey, ProgramTuple, old(db.programs.State())).Some?
      && SyncEach(users, |users|, api.coursesOf, CourseColumns, CourseKey, CourseTuple, old(db.courses.State())).Some?
      && SyncEach(users, |users|, api.pointsOf, PointColumns, PointKey, PointTuple, old(db.points.State())).Some?
    ensures status.Raised? ==> status.error == DuplicateKey
    ensures status.Finished? ==>
      var courseIds := CourseIdMap(db.courses.records);
      var programs := SyncEach(users, |users|, api.programsOf, ProgramColumns, ProgramKey, ProgramTuple, old(db.programs.State()));
      var courses := SyncEach(users, |users|, api.coursesOf, CourseColumns, CourseKey, CourseTuple, old(db.courses.State()));
      var points := SyncEach(users, |users|, api.pointsOf, PointColumns, PointKey, PointTuple, old(db.points.State()));
      // each table is the fold of its syncs over the users, in lookup order
      && db.programs.State() == programs.value.table
      && db.courses.State() == courses.value.table
      && db.points.State() == points.value.table
      && (forall k, p :: 0 <= k < |users| && p in api.programsOf(users[k]) ==>
            ProgramKey(p) in ColumnSet(db.programs.records, "program_id"))
      && (forall k, p :: 0 <= k < |users| && p in api.pointsOf(users[k]) ==>
            PointKey(p) in ColumnSet(db.points.records, "node_id"))
      // every course fetched in pass 1 resolves, so the lookup of line 88 cannot fail
      && AllResolved(users, api, courseIds)
      // pass 1 for every user, then pass 2 for every user, in the same order
      && db.log == old(db.log)
         + Pass1Log(programs.value.queued, courses.value.queued)
         + Pass2Log(users, api, Memberships(users, |users|, api, courseIds), points.value.queued)
      // each requested user's row now holds the fetched identity and the membership string
      && RowsFilled(users, api, courseIds, old(db.users), db.users)
  {
    if |users| != |userIds| {
      return Exited(-1);
    }

    var outcome, usersCourses := SyncProgramsAndCourses(users, api, db);
    if outcome.Err? {
      return Raised(outcome.error);
    }

    // The course-id map, read once after pass 1.
    var courseIds := CourseIdMap(db.courses.records);

    ghost var points0, rows0, log1 := db.points.State(), db.users, db.log;
    outcome := FillUsosInfo(users, usersCourses, courseIds, api, db);
    if outcome.Err? {
      return Raised(outcome.error);
    }
    BindingsProject();
    Pass2Stores(users, api, courseIds, points0, rows0, log1, db.points.State(), db.users, db.log);
    status := Finished;
  }
}
