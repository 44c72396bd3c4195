# Additive table sync and the new-user initialisation script

This project is a Dafny model of two parts of the USOS integration of the
repository.

- `usos/usos_mysql/update_tables.py` holds `generic_update_table`, the
  additive sync primitive. It reads the key column of a table, queues every
  input object whose key was not in that snapshot, and inserts the queue with
  one multi-row `executemany` followed by one commit. The file also holds its
  three bindings, `update_usos_programs`, `update_usos_courses` and
  `update_usos_points`.
- `scripts/init_new_usos_user.py` is the `__main__` pipeline:
  1. It exits with status -1 when the lookup returns fewer or more users
     than ids were requested.
  2. Pass 1 syncs every user's programs and courses.
  3. It reads the course-id map once.
  4. Pass 2 writes each user's academic-records identity and course
     membership string, commits, and syncs that user's points.

## Files

- `store.dfy` (module `Store`) models the database the core talks to:
  - A `Table` class has a sequence of records. Each record is an
    auto-increment local id plus a map from column name to value. The
    table's invariant keeps the key column unique.
  - The class has `SelectColumn` (the key query) and `ExecuteMany`. The
    multi-row insert is atomic. It raises the shape and key errors that
    `InsertError` lists; the server's checks on individual values are
    left out.
  - A `Connection` class owns the three synced tables and the `users` rows.
    It keeps a ghost log of the inserts, user updates and commits issued on
    it, in order.
- `update_tables.dfy` (module `UpdateTables`) has these parts:
  - `GenericUpdateTable`, a method with the source's loop. Its contract is
    stated against the function `Missing`, the queue the loop builds.
  - The lemmas about `Missing`.
  - The bound form `BoundUpdate`, whose effect is summarised by
    `BoundSyncEffect` and the table state `Synced`, and idempotence
    (`UpdateTwice`).
  - The three bindings.
- `text.dfy` (module `Text`) models the Python builtins the script relies
  on, each with an independent partner:
  - `';'.join` (`Join`), with `Split`;
  - `sorted` on `str`, which is lexicographic (`SortStrings`), with a
    uniqueness theorem for sorted permutations;
  - `str(n)` (`NatToString`), with `ParseNat`.
- `init_new_usos_user.dfy` (module `InitNewUsosUser`) has these parts:
  - The course-id map and the membership string.
  - `SyncEach`, the fold of one kind of sync over the users in lookup
    order. Each user's sync runs against the table as the earlier users
    left it.
  - The writes of each pass as log segments, `Pass1Log` and `Pass2Log`.
  - The user rows after pass 2, `FilledRows`.
  - One method per loop iteration, one per pass, and `InitNewUsosUser`
    for the whole run. Each pass is proved equal to the folds.

## Modelling decisions

- A Python `set` of objects is a `seq`: its iteration order. Every result
  is stated for that order.
- Every table has a unique key column, the first column of the binding. So
  two input objects that share a key not yet stored are both queued, since
  the loop checks keys only against the snapshot. The multi-row insert then
  fails with `DuplicateKey` and writes nothing.
  - The "N inputs, M stored keys, N−M inserted rows" promise therefore
    holds for the queue (`MissingCount`) in every case.
  - It holds for the table only when no two inputs share a new key.
- In the model, an exception raised by the driver is an `Err` outcome of
  the sync and a `Raised` status of the script. It leaves the table, the
  log and the uncommitted transaction as they were before the failing
  call. The only exceptions the model has are the shape and key errors
  of the driver; the ones it leaves out are listed below.
- `sys.exit(-1)` is the status `Exited(-1)`.
- The script calls the sync functions without a connector and under other
  import names. Those calls are modelled as the primitive applied to the
  matching table of the one `Connection`.
- Rows are maps from column name to value. An insert places each value
  under the column at the same position of the column list, and a column
  not listed reads as NULL.
- An `update users ... where id = ...` whose id matches no row changes no
  row. It is still logged, and its commit is issued.

## Model

| member | source | states |
|---|---|---|
| `Store.Table.SelectColumn` | usos/usos_mysql/update_tables.py:92-95 | the key query returns one value per stored record, in storage order, and the set of those values is exactly the column's stored values; an unknown column is an error |
| `Store.Table.InsertError` | usos/usos_mysql/update_tables.py:104-108 | an insert that raises nothing names distinct schema columns including the key, has tuples of the statement's arity, and every new key is neither stored already nor shared with another tuple of the batch |
| `Store.Table.ExecuteMany` | usos/usos_mysql/update_tables.py:108 | the multi-row insert either appends one record per tuple, with consecutive new local ids and each value under its column, and keeps the table invariant, or fails with the driver's error and changes nothing |
| `Store.Table.InsertKeeps` | usos/usos_mysql/update_tables.py:108 | an insert that raises nothing keeps the key column unique and set, the columns within the schema and the ids increasing |
| `Store.Table.WellShapedInsertError` | usos/usos_mysql/update_tables.py:104-108 | for a statement with one placeholder per distinct schema column including the key, and tuples of that arity, the only possible error is a duplicate key: an already stored one, or one shared within the batch |
| `Store.Connection.ExecuteMany` | usos/usos_mysql/update_tables.py:108 | the effect of `Store.Table.ExecuteMany` on one table of the connection, plus one logged insert on success and no log entry on failure |
| `Store.Connection.Commit` | usos/usos_mysql/update_tables.py:109 | a commit is appended to the log and nothing else changes |
| `Store.Connection.UpdateUser` | scripts/init_new_usos_user.py:81-89 | the row with the given id gets the four academic-records columns and keeps its other columns, no other row changes, a missing id changes no row, and the update is logged |
| `UpdateTables.Missing` | usos/usos_mysql/update_tables.py:95-99 | the loop queues at most one tuple per input object |
| `UpdateTables.MissingMembers` | usos/usos_mysql/update_tables.py:95-99 | the queue holds the projection of every object whose key is not in the snapshot, and nothing else |
| `UpdateTables.MissingCount` | usos/usos_mysql/update_tables.py:95-99 | with N objects of which M have a stored key, exactly N−M tuples are queued |
| `UpdateTables.MissingEmptyIff` | usos/usos_mysql/update_tables.py:101-102 | nothing is queued if and only if every input key is already stored |
| `UpdateTables.MissingShape` | usos/usos_mysql/update_tables.py:95-99 | when every projection has the column count and puts the key first, every queued tuple has that arity and starts with a key that is not stored |
| `UpdateTables.QueuedKeysMembers` | usos/usos_mysql/update_tables.py:95-99 | a key is queued if and only if it is not stored and some input object has it |
| `UpdateTables.QueuedKeysDistinct` | usos/usos_mysql/update_tables.py:95-99 | the queue repeats a key if and only if two input objects share a key that is not stored, because the snapshot is not extended inside the loop |
| `UpdateTables.SharedNewKeyPair` | usos/usos_mysql/update_tables.py:95-99 | the input meets a shared new key exactly when two input objects carry the same key and that key is not stored |
| `UpdateTables.GenericUpdateTable` | usos/usos_mysql/update_tables.py:73-110 | an empty column list raises an index error and a key column outside the model's schema an unknown-column error; an empty queue writes nothing and commits nothing; otherwise the insert of the queue with one placeholder per column either fails unchanged or appends exactly the queued rows after the existing ones, then commits |
| `UpdateTables.BoundInsertError` | usos/usos_mysql/update_tables.py:104-108 | under a binding, the insert of the queue fails if and only if two inputs share a new key, and then with a duplicate-key error |
| `UpdateTables.SecondRunQueuesNothing` | usos/usos_mysql/update_tables.py:95-109 | after the queued rows are appended, every input key is stored and the same objects queue nothing |
| `UpdateTables.SyncedStores` | usos/usos_mysql/update_tables.py:95-109 | a sync that raises nothing keeps every stored key and stores every input key |
| `UpdateTables.BoundUpdate` | usos/usos_mysql/update_tables.py:73-110 | under a binding, in the model the sync fails exactly when two inputs share a new key, and then changes nothing; otherwise existing rows are kept, the queued rows are appended, the log grows by the call's insert and commit, and every input key is stored |
| `UpdateTables.UpdateTwice` | usos/usos_mysql/update_tables.py:95-109 | running the same sync twice has the effect of running it once: the second run succeeds, inserts nothing and commits nothing |
| `UpdateTables.CourseTuple` | usos/usos_mysql/update_tables.py:10-21 | the course projection has 4 values, one per column, and its first value is the course key |
| `UpdateTables.ProgramTuple` | usos/usos_mysql/update_tables.py:33-45 | the program projection has 5 values, one per column, and its first value is the program key |
| `UpdateTables.PointTuple` | usos/usos_mysql/update_tables.py:56-67 | the point projection has 8 values, one per column, and its first value is the node id |
| `UpdateTables.BindingsProject` | usos/usos_mysql/update_tables.py:4-70 | each of the three bindings names distinct columns and projects every object to one value per column with its key first |
| `UpdateTables.UpdateUsosCourses` | usos/usos_mysql/update_tables.py:4-24 | the bound sync of courses into `usos_courses` has the effect `BoundSyncEffect` states |
| `UpdateTables.UpdateUsosPrograms` | usos/usos_mysql/update_tables.py:27-47 | the bound sync of programs into `usos_programs` has the effect `BoundSyncEffect` states |
| `UpdateTables.UpdateUsosPoints` | usos/usos_mysql/update_tables.py:50-70 | the bound sync of points into `usos_points` has the effect `BoundSyncEffect` states |
| `Text.Join` | scripts/init_new_usos_user.py:88 | joining no part gives the empty string; joining n parts gives their total length plus n−1 separators |
| `Text.SplitJoin` | scripts/init_new_usos_user.py:88 | joining at least one `;`-free part with `;` and splitting on `;` gives the parts back |
| `Text.InsertLexCounts` | scripts/init_new_usos_user.py:88 | inserting a string into a list adds exactly one copy of it |
| `Text.InsertLexSorts` | scripts/init_new_usos_user.py:88 | inserting a string into a lexicographically sorted list keeps it sorted |
| `Text.SortStringsSorts` | scripts/init_new_usos_user.py:88 | `sorted` on strings returns a permutation of its input in lexicographic order |
| `Text.SortedUnique` | scripts/init_new_usos_user.py:88 | two lexicographically sorted permutations of the same strings are equal, so the model's sort returns what Python's returns |
| `Text.NatToString` | scripts/init_new_usos_user.py:66 | `str` of a local id is a non-empty string of decimal digits without a leading zero, so it holds no `;` |
| `Text.ParseNatToString` | scripts/init_new_usos_user.py:66 | reading `str(n)` back as a decimal number gives `n` |
| `Text.NatToStringInjective` | scripts/init_new_usos_user.py:66 | distinct local ids have distinct strings |
| `InitNewUsosUser.CourseIdMap` | scripts/init_new_usos_user.py:63-66 | the map's keys are exactly the stored course ids, and every value is a non-empty decimal string without `;` |
| `InitNewUsosUser.CourseIdMapValue` | scripts/init_new_usos_user.py:66 | with unique course ids, each course id maps to the string of its own row's local id |
| `InitNewUsosUser.LocalIds` | scripts/init_new_usos_user.py:88 | one local id per course of the user, each a value of the course-id map |
| `InitNewUsosUser.Membership` | scripts/init_new_usos_user.py:88 | a user with no course gets the empty string, and a user with one course gets that course's local id |
| `InitNewUsosUser.MembershipDecodes` | scripts/init_new_usos_user.py:88 | a user with no course gets the empty string; otherwise the string splits on `;` into exactly the user's local ids, as a multiset, in string order |
| `InitNewUsosUser.MembershipSortsAsStrings` | scripts/init_new_usos_user.py:88 | local ids 9 and 10 give `"10;9"`: the ids are ordered as strings, not as numbers |
| `InitNewUsosUser.MembershipAscending` | scripts/init_new_usos_user.py:88 | local ids 7 and 3 give `"3;7"` |
| `InitNewUsosUser.Memberships` | scripts/init_new_usos_user.py:70-88 | pass 2 computes one membership string per user |
| `InitNewUsosUser.MembershipsAt` | scripts/init_new_usos_user.py:70-88 | the k-th membership string of pass 2 is the k-th user's |
| `InitNewUsosUser.SyncEach` | scripts/init_new_usos_user.py:40-55 | the syncs of one kind over the users in lookup order only append to the table, and queue one count per user |
| `InitNewUsosUser.SyncEachStops` | scripts/init_new_usos_user.py:40-55 | once one user's sync raises, the pass does not complete for any later number of users |
| `InitNewUsosUser.SyncEachStores` | scripts/init_new_usos_user.py:40-55 | after a pass that raises nothing, every fetched object's key of every user is stored |
| `InitNewUsosUser.Pass1Log` | scripts/init_new_usos_user.py:40-55 | pass 1's log has at most four entries per user |
| `InitNewUsosUser.Pass1LogCounts` | scripts/init_new_usos_user.py:40-55 | pass 1 logs at most two inserts per user, and exactly as many commits as inserts |
| `InitNewUsosUser.Pass1LogWrites` | scripts/init_new_usos_user.py:40-55 | pass 1 writes nothing but inserts into the programs and courses tables and commits |
| `InitNewUsosUser.Pass2Log` | scripts/init_new_usos_user.py:70-95 | pass 2's log has at least two and at most four entries per user |
| `InitNewUsosUser.Pass2LogCounts` | scripts/init_new_usos_user.py:70-95 | pass 2 logs exactly one user update per user and at most one insert per user, and one commit for each update and each insert |
| `InitNewUsosUser.Pass2LogWrites` | scripts/init_new_usos_user.py:70-95 | pass 2 inserts into no table but the points table |
| `InitNewUsosUser.Pass2LogUpdates` | scripts/init_new_usos_user.py:81-90 | every requested user's update is in pass 2's log, followed at once by its commit |
| `InitNewUsosUser.FilledRows` | scripts/init_new_usos_user.py:81-89 | the user updates of pass 2 never add or remove a row |
| `InitNewUsosUser.FilledRowsOthers` | scripts/init_new_usos_user.py:81-89 | a row whose id is not a requested user's is left unchanged by pass 2 |
| `InitNewUsosUser.FilledRowsUpdated` | scripts/init_new_usos_user.py:81-89 | with distinct user ids, each requested user's row ends up with that user's identity and membership string over its other columns |
| `InitNewUsosUser.RememberCourses` | scripts/init_new_usos_user.py:51 | remembering one more user's courses keeps every earlier user's |
| `InitNewUsosUser.SyncUserProgramsAndCourses` | scripts/init_new_usos_user.py:41-55 | one user's programs sync, then courses sync: in the model it fails exactly when one of the two meets a shared new key; otherwise the tables and the log are the folds over one more user |
| `InitNewUsosUser.SyncProgramsAndCourses` | scripts/init_new_usos_user.py:37-55 | in the model, pass 1 fails exactly when the fold over all users fails; otherwise the programs and courses tables are the in-order folds, the log is pass 1's log for those folds, every fetched program is stored, and every remembered course resolves in the course-id map |
| `InitNewUsosUser.Pass1Stops` | scripts/init_new_usos_user.py:40-55 | a sync that fails at one user leaves the whole pass unclean |
| `InitNewUsosUser.Pass1Stores` | scripts/init_new_usos_user.py:43-55 | after a clean pass 1 every fetched program is stored and every fetched course resolves in the course-id map |
| `InitNewUsosUser.WriteUsosInfo` | scripts/init_new_usos_user.py:73-90 | the user's row gets the fetched identity and membership string, and the update is logged followed by its own commit |
| `InitNewUsosUser.SyncUserPoints` | scripts/init_new_usos_user.py:92-95 | the user's points sync: in the model it fails exactly when two points share a new node id; otherwise the points table and the log are those after one more user |
| `InitNewUsosUser.FillUserInfo` | scripts/init_new_usos_user.py:71-95 | one pass-2 iteration: the row is written in any case; the points sync fails exactly when two points share a new node id, and otherwise the table, rows and log are those after one more user |
| `InitNewUsosUser.FillUsosInfo` | scripts/init_new_usos_user.py:69-95 | in the model, pass 2 fails exactly when the points fold fails; otherwise the points table is the in-order fold, the rows are every user's update, and the log is pass 2's log |
| `InitNewUsosUser.Pass2Stops` | scripts/init_new_usos_user.py:70-95 | a points sync that fails at one user leaves the whole pass unclean |
| `InitNewUsosUser.Pass2Stores` | scripts/init_new_usos_user.py:70-95 | after a clean pass 2 every fetched point is stored, and each requested user's row, and only those, holds the identity and membership string |
| `InitNewUsosUser.InitNewUsosUser` | scripts/init_new_usos_user.py:32-95 | the run exits with -1 before any write exactly when the lookup found fewer or more users than requested; in the model it finishes exactly when no sync of either pass meets a shared new key, and any other ending is a duplicate key; a finished run leaves each table equal to the in-order fold of its syncs with every fetched program and point stored, logs pass 1 for every user before pass 2 for every user in the same order, resolves every fetched course, and fills each requested user's row |

## Left out

- Argument parsing, `.env` loading and every logging call: command-line plumbing and presentation.
- The academic-records API calls (`get_user_programs`, `get_user_courses`, `get_user_usos_id_and_name`, `get_user_points(user, False)`) are total functions of the user, in `Api`. They are foreign network calls and are not part of this model.
- Exceptions from those API calls (scripts/init_new_usos_user.py lines 43, 50, 73 and 93) are not modelled. In the program they end the run at that call; the model's runs fail only on the driver's errors.
- A lost or broken database connection, which can make any statement raise, is not modelled.
- `obj_pkey(obj) not in pkeys` compares keys exactly, and so does the model's unique key column. MySQL compares a unique index under the column's collation, by default case-insensitively. So a key that differs from a stored one only in case is queued by the program and then rejected by the server. The model does not have collations.
- The server's checks on individual values are not modelled: a string longer than its column, a number out of range, or a malformed date. So in the model neither an insert nor the `update users` at scripts/init_new_usos_user.py:86-89 can fail on a value, for example on a membership string longer than the `usos_courses` column.
- The auto-increment `id` column of each table is the record's `id` field, not a schema column. So in the model a select or an insert that names `id` fails with `UnknownColumn`, while the server accepts it. The three bindings never name `id`, and the script reads it only through the course-id map (scripts/init_new_usos_user.py:63-66), which the model reads from the records' ids.
- A rolled-back insert can use up auto-increment values on the server. The model keeps `nextId` unchanged after a failed insert, so later local ids may differ from the server's.
- The user lookup `get_usos_users` is not part of this model. Its result is an input that `FromStore` requires to be rows of the `users` table with distinct ids, as a `select ... where id in (...)` returns them.
- The SQL text of the statements, the connector and cursor objects, and closing the cursor, including the close skipped on the early return: only the effect of each statement is modelled.
- The query string assigned at scripts/init_new_usos_user.py:79 and never run.
- The import names and signatures the script uses for the sync functions. The script's calls are the primitive applied to the matching table.
- Concurrent runs racing between the key query and the insert: the model is sequential.
- `InitNewUsosUser.InitNewUsosUser`: after a `Raised` status, the contract states the error and that tables only grew, not how far the run got.
- `sys.exit(-1)` is the status `Exited(-1)`. The operating system's view of it as 255 is not modelled.
- Point values are Dafny `real`s. Floating-point and decimal column types are not modelled.
