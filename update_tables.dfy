/** The additive table sync of `usos/usos_mysql/update_tables.py`: read
    the key column, queue every object whose key was not there, and insert
    the queue in one statement followed by one commit; plus its three
    bindings to the programs, courses and points tables. */
module UpdateTables {
  import opened Store

  /* ---------------- the queue built by the loop ---------------- */

  /** The parameter tuples the loop queues, in iteration order: the
      projection of every object whose key is not in the snapshot `pkeys`.
      The snapshot is never extended inside the loop. */
  function Missing<T>(objects: seq<T>, pkeys: set<Value>, objPkey: T -> Value, objToTuple: T -> seq<Value>)
    : (queued: seq<seq<Value>>)
    ensures |queued| <= |objects|
    decreases |objects|
  {
    if |objects| == 0 then []
    else
      var last := objects[|objects| - 1];
      Missing(objects[..|objects| - 1], pkeys, objPkey, objToTuple)
        + (if objPkey(last) !in pkeys then [objToTuple(last)] else [])
  }

  /** The keys of the queued objects, in the same order. */
  function QueuedKeys<T>(objects: seq<T>, pkeys: set<Value>, objPkey: T -> Value): seq<Value>
    decreases |objects|
  {
    if |objects| == 0 then []
    else
      var last := objects[|objects| - 1];
      QueuedKeys(objects[..|objects| - 1], pkeys, objPkey)
        + (if objPkey(last) !in pkeys then [objPkey(last)] else [])
  }

  /** Positions of the objects whose key is already stored. */
  function PresentIndices<T>(objects: seq<T>, pkeys: set<Value>, objPkey: T -> Value): set<int>
  {
    set k | 0 <= k < |objects| && objPkey(objects[k]) in pkeys
  }

  /** Some object's key is not stored yet and an earlier object has the
      same key: the second of the two would be queued again. */
  ghost predicate SharedNewKey<T>(objects: seq<T>, pkeys: set<Value>, objPkey: T -> Value)
    decreases |objects|
  {
    && |objects| > 0
    && var n := |objects| - 1;
       || SharedNewKey(objects[..n], pkeys, objPkey)
       || (objPkey(objects[n]) !in pkeys && exists k :: 0 <= k < n && objPkey(objects[k]) == objPkey(objects[n]))
  }

  /** The queue holds exactly the projections of the objects whose key is
      absent from the snapshot: every such projection, and nothing else. */
  lemma {:induction false} MissingMembers<T>(objects: seq<T>, pkeys: set<Value>, objPkey: T -> Value, objToTuple: T -> seq<Value>)
    ensures forall k :: 0 <= k < |objects| && objPkey(objects[k]) !in pkeys ==>
      objToTuple(objects[k]) in Missing(objects, pkeys, objPkey, objToTuple)
    ensures forall t :: t in Missing(objects, pkeys, objPkey, objToTuple) ==>
      exists k :: 0 <= k < |objects| && objPkey(objects[k]) !in pkeys && objToTuple(objects[k]) == t
    decreases |objects|
  {
    if |objects| > 0 {
      var n := |objects| - 1;
      var prefix := objects[..n];
      MissingMembers(prefix, pkeys, objPkey, objToTuple);
      forall k | 0 <= k < n ensures objects[k] == prefix[k] { }
    }
  }

  /** Nothing is queued exactly when every input key is already stored. */
  lemma MissingEmptyIff<T>(objects: seq<T>, pkeys: set<Value>, objPkey: T -> Value, objToTuple: T -> seq<Value>)
    ensures Missing(objects, pkeys, objPkey, objToTuple) == [] <==>
      forall k :: 0 <= k < |objects| ==> objPkey(objects[k]) in pkeys
  {
    MissingMembers(objects, pkeys, objPkey, objToTuple);
    var q := Missing(objects, pkeys, objPkey, objToTuple);
    if q != [] {
      assert q[0] in q;
    }
  }

  /** N objects of which M already have a stored key queue N - M tuples. */
  lemma {:induction false} MissingCount<T>(objects: seq<T>, pkeys: set<Value>, objPkey: T -> Value, objToTuple: T -> seq<Value>)
    ensures |Missing(objects, pkeys, objPkey, objToTuple)| + |PresentIndices(objects, pkeys, objPkey)| == |objects|
    decreases |objects|
  {
    if |objects| == 0 {
      assert PresentIndices(objects, pkeys, objPkey) == {};
    } else {
      var n := |objects| - 1;
      var prefix := objects[..n];
      MissingCount(prefix, pkeys, objPkey, objToTuple);
      PresentIndicesStep(objects, pkeys, objPkey);
    }
  }

  /** Extending the input by one object adds its position to the present
      ones exactly when its key is stored. */
  lemma PresentIndicesStep<T>(objects: seq<T>, pkeys: set<Value>, objPkey: T -> Value)
    requires |objects| > 0
    ensures var n := |objects| - 1;
      var before := PresentIndices(objects[..n], pkeys, objPkey);
      |PresentIndices(objects, pkeys, objPkey)| == |before| + (if objPkey(objects[n]) in pkeys then 1 else 0)
  {
    var n := |objects| - 1;
    var prefix := objects[..n];
    var before := PresentIndices(prefix, pkeys, objPkey);
    var after := PresentIndices(objects, pkeys, objPkey);
    assert n !in before;
    var extra: set<int> := if objPkey(objects[n]) in pkeys then {n} else {};
    assert after == before + extra by {
      forall k ensures k in after <==> k in before + extra {
        if 0 <= k < n { assert prefix[k] == objects[k]; }
      }
    }
  }

  /** When every projection has the table's arity and puts the key first,
      each queued tuple has that arity, starts with its object's key, and
      that key is not stored. */
  lemma {:induction false} MissingShape<T>(objects: seq<T>, pkeys: set<Value>, objPkey: T -> Value, objToTuple: T -> seq<Value>, arity: nat)
    requires forall k :: 0 <= k < |objects| ==>
      |objToTuple(objects[k])| == arity && arity > 0 && objToTuple(objects[k])[0] == objPkey(objects[k])
    ensures |Missing(objects, pkeys, objPkey, objToTuple)| == |QueuedKeys(objects, pkeys, objPkey)|
    ensures forall i :: 0 <= i < |Missing(objects, pkeys, objPkey, objToTuple)| ==>
      |Missing(objects, pkeys, objPkey, objToTuple)[i]| == arity
      && Missing(objects, pkeys, objPkey, objToTuple)[i][0] == QueuedKeys(objects, pkeys, objPkey)[i]
      && QueuedKeys(objects, pkeys, objPkey)[i] !in pkeys
    decreases |objects|
  {
    if |objects| > 0 {
      var n := |objects| - 1;
      var prefix := objects[..n];
      forall k | 0 <= k < n
        ensures |objToTuple(prefix[k])| == arity && arity > 0 && objToTuple(prefix[k])[0] == objPkey(prefix[k])
      {
        assert prefix[k] == objects[k];
      }
      MissingShape(prefix, pkeys, objPkey, objToTuple, arity);
    }
  }

  /** A key is queued exactly when it is not stored and some object has it. */
  lemma {:induction false} QueuedKeysMembers<T>(objects: seq<T>, pkeys: set<Value>, objPkey: T -> Value, v: Value)
    ensures v in QueuedKeys(objects, pkeys, objPkey) <==>
      v !in pkeys && exists k :: 0 <= k < |objects| && objPkey(objects[k]) == v
    decreases |objects|
  {
    if |objects| > 0 {
      var n := |objects| - 1;
      var prefix := objects[..n];
      QueuedKeysMembers(prefix, pkeys, objPkey, v);
      assert forall k :: 0 <= k < n ==> prefix[k] == objects[k];
      if v !in pkeys && (exists k :: 0 <= k < |objects| && objPkey(objects[k]) == v) {
        var k :| 0 <= k < |objects| && objPkey(objects[k]) == v;
        if k < n { assert objPkey(prefix[k]) == v; }
      }
    }
  }

  /** A list with one more element is distinct exactly when the list is
      and the element is new. */
  lemma DistinctSnoc<V>(q: seq<V>, x: V)
    ensures Distinct(q + [x]) <==> Distinct(q) && x !in q
  {
    var r := q + [x];
    if Distinct(r) {
      forall i, j | 0 <= i < j < |q| ensures q[i] != q[j] {
        assert r[i] == q[i] && r[j] == q[j];
      }
      forall i | 0 <= i < |q| ensures q[i] != x {
        assert r[i] == q[i] && r[|q|] == x;
      }
    }
    if Distinct(q) && x !in q {
      forall i, j | 0 <= i < j < |r| ensures r[i] != r[j] {
        assert r[i] == q[i];
        if j < |q| { assert r[j] == q[j]; }
      }
    }
  }

  /** Equivalently, two input objects carry the same key and that key is
      not stored yet. */
  lemma {:induction false} SharedNewKeyPair<T>(objects: seq<T>, pkeys: set<Value>, objPkey: T -> Value)
    ensures SharedNewKey(objects, pkeys, objPkey) <==>
      exists j, k :: 0 <= j < k < |objects| && objPkey(objects[j]) == objPkey(objects[k]) && objPkey(objects[j]) !in pkeys
    decreases |objects|
  {
    if |objects| > 0 {
      var n := |objects| - 1;
      var prefix := objects[..n];
      SharedNewKeyPair(prefix, pkeys, objPkey);
      if SharedNewKey(prefix, pkeys, objPkey) {
        var j, k :| 0 <= j < k < |prefix| && objPkey(prefix[j]) == objPkey(prefix[k]) && objPkey(prefix[j]) !in pkeys;
        assert prefix[j] == objects[j] && prefix[k] == objects[k];
      }
      if exists j, k :: 0 <= j < k < |objects| && objPkey(objects[j]) == objPkey(objects[k]) && objPkey(objects[j]) !in pkeys {
        var j, k :| 0 <= j < k < |objects| && objPkey(objects[j]) == objPkey(objects[k]) && objPkey(objects[j]) !in pkeys;
        if k < n {
          assert prefix[j] == objects[j] && prefix[k] == objects[k];
        }
      }
    }
  }

  /** The queue repeats a key exactly when two input objects share a key
      that is not stored yet: the snapshot check lets both through. */
  lemma {:induction false} QueuedKeysDistinct<T>(objects: seq<T>, pkeys: set<Value>, objPkey: T -> Value)
    ensures Distinct(QueuedKeys(objects, pkeys, objPkey)) <==> !SharedNewKey(objects, pkeys, objPkey)
    decreases |objects|
  {
    if |objects| > 0 {
      var n := |objects| - 1;
      var prefix := objects[..n];
      var last := objects[n];
      var q' := QueuedKeys(prefix, pkeys, objPkey);
      QueuedKeysDistinct(prefix, pkeys, objPkey);
      if objPkey(last) in pkeys {
        assert QueuedKeys(objects, pkeys, objPkey) == q' + [];
        assert q' + [] == q';
      } else {
        QueuedKeysMembers(prefix, pkeys, objPkey, objPkey(last));
        DistinctSnoc(q', objPkey(last));
        assert (exists k :: 0 <= k < |prefix| && objPkey(prefix[k]) == objPkey(last))
           <==> (exists k :: 0 <= k < n && objPkey(objects[k]) == objPkey(last)) by {
          forall k | 0 <= k < n ensures prefix[k] == objects[k] { }
        }
      }
    }
  }

  /* ---------------- the primitive ---------------- */

  /** What one call writes to the connection: nothing when the queue is
      empty, otherwise the multi-row insert followed by a commit. */
  function SyncLog(table: string, queued: nat): (log: seq<Action>)
    ensures queued == 0 <==> log == []
    ensures queued > 0 ==> log == [Insert(table, queued), Commit]
  {
    if queued == 0 then [] else [Insert(table, queued), Commit]
  }

  /** `generic_update_table`: the objects are taken in the order the loop
      visits them; the key snapshot is the column named `columns[0]`. A
      raised exception is an `Err` outcome, after which nothing has been
      written or committed by this call. */
  method GenericUpdateTable<T>(objects: seq<T>, table: Table, columns: seq<string>,
                               objPkey: T -> Value, objToTuple: T -> seq<Value>, connector: Connection)
    returns (outcome: Outcome)
    requires table.Valid()
    modifies table, connector`log
    ensures table.Valid()
    ensures old(table.records) <= table.records
    ensures outcome.Err? ==> unchanged(table) && connector.log == old(connector.log)
    ensures |columns| == 0 ==> outcome == Err(IndexError)
    ensures |columns| > 0 && columns[0] !in table.columns ==> outcome == Err(UnknownColumn)
    ensures |columns| > 0 && columns[0] in table.columns ==>
      var queued := Missing(objects, ColumnSet(old(table.records), columns[0]), objPkey, objToTuple);
      var stmt := InsertStatement(table.name, columns, |columns|);
      if queued == [] then
        outcome == Ok && unchanged(table) && connector.log == old(connector.log)
      else if old(table.InsertError(stmt, queued)).Some? then
        outcome == Err(old(table.InsertError(stmt, queued)).value)
      else
        && outcome == Ok
        && table.records == old(table.records) + NewRecords(old(table.nextId), columns, queued)
        && table.nextId == old(table.nextId) + |queued|
        && connector.log == old(connector.log) + [Insert(table.name, |queued|), Commit]
  {
    if |columns| == 0 {
      return Err(IndexError);
    }
    var selected := table.SelectColumn(columns[0]);
    if selected.Failure? {
      return Err(selected.error);
    }
    var pkeys := set v | v in selected.value;
    var insertData: seq<seq<Value>> := [];
    var i := 0;
    while i < |objects|
      invariant 0 <= i <= |objects|
      invariant insertData == Missing(objects[..i], pkeys, objPkey, objToTuple)
    {
      var obj := objects[i];
      assert objects[..i + 1][..i] == objects[..i];
      if objPkey(obj) !in pkeys {
        insertData := insertData + [objToTuple(obj)];
      }
      i := i + 1;
    }
    assert objects[..i] == objects;
    if |insertData| == 0 {
      return Ok;
    }
    var stmt := InsertStatement(table.name, columns, |columns|);
    outcome := connector.ExecuteMany(table, stmt, insertData);
    if outcome.Err? {
      return;
    }
    connector.Commit();
  }

  /* ---------------- bindings ---------------- */

  /** What a binding must satisfy, as the doc comment of the primitive
      asks: the first column is the table's key column, the columns exist
      and are distinct, and every projection has one value per column with
      the key first. */
  ghost predicate Binding<T>(columns: seq<string>, table: Table, objects: seq<T>,
                             objPkey: T -> Value, objToTuple: T -> seq<Value>)
  {
    && |columns| > 0 && columns[0] == table.keyColumn && Distinct(columns)
    && (forall k :: 0 <= k < |columns| ==> columns[k] in table.columns)
    && (forall k :: 0 <= k < |objects| ==>
          |objToTuple(objects[k])| == |columns| && objToTuple(objects[k])[0] == objPkey(objects[k]))
  }

  /** Under a binding, the insert of the queue fails only when two input
      objects share a key that was not stored. */
  lemma BoundInsertError<T>(objects: seq<T>, table: Table, columns: seq<string>,
                            objPkey: T -> Value, objToTuple: T -> seq<Value>)
    requires table.Valid()
    requires Binding(columns, table, objects, objPkey, objToTuple)
    ensures var pkeys := ColumnSet(table.records, columns[0]);
      table.InsertError(InsertStatement(table.name, columns, |columns|), Missing(objects, pkeys, objPkey, objToTuple))
        == if SharedNewKey(objects, pkeys, objPkey) then Some(DuplicateKey) else None
  {
    var pkeys := ColumnSet(table.records, columns[0]);
    var q := Missing(objects, pkeys, objPkey, objToTuple);
    var keys := QueuedKeys(objects, pkeys, objPkey);
    var stmt := InsertStatement(table.name, columns, |columns|);
    MissingShape(objects, pkeys, objPkey, objToTuple, |columns|);
    QueuedKeysDistinct(objects, pkeys, objPkey);
    table.WellShapedInsertError(stmt, q);
    forall k | 0 <= k < |q| ensures table.NewKey(stmt, q[k]) == keys[k] {
      assert RowOf(columns, q[k])[columns[0]] == q[k][0];
    }
    assert !exists k :: 0 <= k < |q| && table.NewKey(stmt, q[k]) in ColumnSet(table.records, table.keyColumn);
    if SharedNewKey(objects, pkeys, objPkey) {
      var i, j :| 0 <= i < j < |keys| && keys[i] == keys[j];
      assert table.NewKey(stmt, q[i]) == keys[i];
      assert table.NewKey(stmt, q[j]) == keys[j];
    } else {
      assert !exists i, j :: 0 <= i < j < |q| && table.NewKey(stmt, q[i]) == table.NewKey(stmt, q[j]) by {
        forall i, j | 0 <= i < j < |q| ensures table.NewKey(stmt, q[i]) != table.NewKey(stmt, q[j]) {
          assert keys[i] != keys[j];
        }
      }
    }
  }

  /** After a successful call every input key is stored, so a second call
      with the same objects queues nothing. */
  lemma SecondRunQueuesNothing<T>(records: seq<Record>, nextId: nat, columns: seq<string>, objects: seq<T>,
                                  objPkey: T -> Value, objToTuple: T -> seq<Value>)
    requires |columns| > 0 && Distinct(columns)
    requires forall k :: 0 <= k < |objects| ==>
      |objToTuple(objects[k])| == |columns| && objToTuple(objects[k])[0] == objPkey(objects[k])
    ensures (var pkeys := ColumnSet(records, columns[0]);
      var queued := Missing(objects, pkeys, objPkey, objToTuple);
      MissingShape(objects, pkeys, objPkey, objToTuple, |columns|);
      var after := records + NewRecords(nextId, columns, queued);
      && (forall k :: 0 <= k < |objects| ==> objPkey(objects[k]) in ColumnSet(after, columns[0]))
      && Missing(objects, ColumnSet(after, columns[0]), objPkey, objToTuple) == [])
  {
    var pkeys := ColumnSet(records, columns[0]);
    var queued := Missing(objects, pkeys, objPkey, objToTuple);
    MissingShape(objects, pkeys, objPkey, objToTuple, |columns|);
    MissingMembers(objects, pkeys, objPkey, objToTuple);
    var added := NewRecords(nextId, columns, queued);
    var after := records + added;
    ColumnSetGrows(records, added, columns[0]);
    forall k | 0 <= k < |objects| ensures objPkey(objects[k]) in ColumnSet(after, columns[0]) {
      if objPkey(objects[k]) !in pkeys {
        var t := objToTuple(objects[k]);
        var i :| 0 <= i < |queued| && queued[i] == t;
        assert after[|records| + i] == added[i];
        assert Cell(added[i].cells, columns[0]) == t[0];
      }
    }
    MissingEmptyIff(objects, ColumnSet(after, columns[0]), objPkey, objToTuple);
  }

  /** Every object of the list projects to one value per column, its key
      first, over distinct columns. */
  ghost predicate Fits<T>(objects: seq<T>, columns: seq<string>, objPkey: T -> Value, objToTuple: T -> seq<Value>)
  {
    && |columns| > 0 && Distinct(columns)
    && forall k :: 0 <= k < |objects| ==>
         |objToTuple(objects[k])| == |columns| && objToTuple(objects[k])[0] == objPkey(objects[k])
  }

  /** Every object of the type projects that way, as the three bindings do. */
  ghost predicate Projects<T(!new)>(columns: seq<string>, objPkey: T -> Value, objToTuple: T -> seq<Value>)
  {
    && |columns| > 0 && Distinct(columns)
    && forall x :: |objToTuple(x)| == |columns| && objToTuple(x)[0] == objPkey(x)
  }

  /** A type whose every object projects that way fits any list of them. */
  lemma ProjectsFits<T(!new)>(objects: seq<T>, columns: seq<string>, objPkey: T -> Value, objToTuple: T -> seq<Value>)
    requires Projects(columns, objPkey, objToTuple)
    ensures Fits(objects, columns, objPkey, objToTuple)
  {
  }

  /** How many tuples a sync of `objects` queues against the table state `t`. */
  ghost function Queued<T>(objects: seq<T>, columns: seq<string>, objPkey: T -> Value, objToTuple: T -> seq<Value>,
                           t: TableState): nat
    requires |columns| > 0
  {
    |Missing(objects, ColumnSet(t.records, columns[0]), objPkey, objToTuple)|
  }

  /** The table state after a sync of `objects` that raises nothing: the
      queued rows appended, numbered from the auto-increment counter. */
  ghost function Synced<T>(objects: seq<T>, columns: seq<string>, objPkey: T -> Value, objToTuple: T -> seq<Value>,
                           t: TableState): (r: TableState)
    requires Fits(objects, columns, objPkey, objToTuple)
    ensures t.records <= r.records
  {
    var pkeys := ColumnSet(t.records, columns[0]);
    var queued := Missing(objects, pkeys, objPkey, objToTuple);
    MissingShape(objects, pkeys, objPkey, objToTuple, |columns|);
    TableState(t.records + NewRecords(t.nextId, columns, queued), t.nextId + |queued|)
  }

  /** After a sync that raises nothing, every key stored before is still
      stored and every input object's key is stored. */
  lemma SyncedStores<T>(objects: seq<T>, columns: seq<string>, objPkey: T -> Value, objToTuple: T -> seq<Value>,
                        t: TableState)
    requires Fits(objects, columns, objPkey, objToTuple)
    ensures ColumnSet(t.records, columns[0])
         <= ColumnSet(Synced(objects, columns, objPkey, objToTuple, t).records, columns[0])
    ensures forall o :: o in objects ==>
      objPkey(o) in ColumnSet(Synced(objects, columns, objPkey, objToTuple, t).records, columns[0])
  {
    var pkeys := ColumnSet(t.records, columns[0]);
    var queued := Missing(objects, pkeys, objPkey, objToTuple);
    MissingShape(objects, pkeys, objPkey, objToTuple, |columns|);
    var added := NewRecords(t.nextId, columns, queued);
    SecondRunQueuesNothing(t.records, t.nextId, columns, objects, objPkey, objToTuple);
    ColumnSetGrows(t.records, added, columns[0]);
    forall o | o in objects
      ensures objPkey(o) in ColumnSet(t.records + added, columns[0])
    {
      var k :| 0 <= k < |objects| && objects[k] == o;
    }
  }

  /** The effect of one bound sync on its table and the connection log:
      it fails exactly when two inputs share a new key, and then changes
      nothing; otherwise it appends the queued rows, logs one insert and
      one commit if anything was queued, and every input key is stored. */
  ghost predicate BoundSyncEffect<T>(
    objects: seq<T>, columns: seq<string>, objPkey: T -> Value, objToTuple: T -> seq<Value>, name: string,
    before: TableState, oldLog: seq<Action>, after: TableState, log: seq<Action>, outcome: Outcome)
    requires Fits(objects, columns, objPkey, objToTuple)
  {
    && (outcome.Err? <==> SharedNewKey(objects, ColumnSet(before.records, columns[0]), objPkey))
    && (outcome.Err? ==> outcome.error == DuplicateKey && after == before && log == oldLog)
    && (outcome.Ok? ==>
          && after == Synced(objects, columns, objPkey, objToTuple, before)
          && log == oldLog + SyncLog(name, Queued(objects, columns, objPkey, objToTuple, before))
          && forall k :: 0 <= k < |objects| ==> objPkey(objects[k]) in ColumnSet(after.records, columns[0]))
  }

  /** The primitive under a binding: `BoundSyncEffect` holds. */
  method BoundUpdate<T>(objects: seq<T>, table: Table, columns: seq<string>,
                        objPkey: T -> Value, objToTuple: T -> seq<Value>, connector: Connection)
    returns (outcome: Outcome)
    requires table.Valid()
    requires Binding(columns, table, objects, objPkey, objToTuple)
    modifies table, connector`log
    ensures table.Valid()
    ensures BoundSyncEffect(objects, columns, objPkey, objToTuple, table.name,
                            old(table.State()), old(connector.log), table.State(), connector.log, outcome)
  {
    BoundInsertError(objects, table, columns, objPkey, objToTuple);
    ghost var before := table.State();
    ghost var oldLog := connector.log;
    outcome := GenericUpdateTable(objects, table, columns, objPkey, objToTuple, connector);
    BoundEffectHolds(objects, columns, objPkey, objToTuple, table.name, before, oldLog, table.State(), connector.log, outcome);
  }

  /** The cases of the primitive's contract, read on table states, make up
      `BoundSyncEffect`. */
  lemma BoundEffectHolds<T>(
    objects: seq<T>, columns: seq<string>, objPkey: T -> Value, objToTuple: T -> seq<Value>, name: string,
    before: TableState, oldLog: seq<Action>, after: TableState, log: seq<Action>, outcome: Outcome)
    requires Fits(objects, columns, objPkey, objToTuple)
    requires (MissingShape(objects, ColumnSet(before.records, columns[0]), objPkey, objToTuple, |columns|);
      var queued := Missing(objects, ColumnSet(before.records, columns[0]), objPkey, objToTuple);
      var shared := SharedNewKey(objects, ColumnSet(before.records, columns[0]), objPkey);
      && (queued == [] ==> outcome == Ok && after == before && log == oldLog)
      && (queued != [] && shared ==> outcome == Err(DuplicateKey) && after == before && log == oldLog)
      && (queued != [] && !shared ==>
            && outcome == Ok
            && after.records == before.records + NewRecords(before.nextId, columns, queued)
            && after.nextId == before.nextId + |queued|
            && log == oldLog + [Insert(name, |queued|), Commit]))
    ensures BoundSyncEffect(objects, columns, objPkey, objToTuple, name, before, oldLog, after, log, outcome)
  {
    var pkeys := ColumnSet(before.records, columns[0]);
    var queued := Missing(objects, pkeys, objPkey, objToTuple);
    MissingShape(objects, pkeys, objPkey, objToTuple, |columns|);
    SecondRunQueuesNothing(before.records, before.nextId, columns, objects, objPkey, objToTuple);
    MissingEmptyIff(objects, pkeys, objPkey, objToTuple);
    SharedNewKeyPair(objects, pkeys, objPkey);
    if queued == [] {
      assert NewRecords(before.nextId, columns, queued) == [];
      assert before.records + [] == before.records;
    }
  }

  /** Idempotence: running the same sync twice has the effect of running
      it once; the second run writes and commits nothing. */
  method UpdateTwice<T>(objects: seq<T>, table: Table, columns: seq<string>,
                        objPkey: T -> Value, objToTuple: T -> seq<Value>, connector: Connection)
    returns (first: Outcome, second: Outcome)
    requires table.Valid()
    requires Binding(columns, table, objects, objPkey, objToTuple)
    modifies table, connector`log
    ensures table.Valid()
    ensures first.Ok? ==>
      && second == Ok
      && BoundSyncEffect(objects, columns, objPkey, objToTuple, table.name,
                         old(table.State()), old(connector.log), table.State(), connector.log, first)
  {
    first := BoundUpdate(objects, table, columns, objPkey, objToTuple, connector);
    if first.Err? {
      return first, first;
    }
    ghost var records, nextId, log := table.records, table.nextId, connector.log;
    MissingEmptyIff(objects, ColumnSet(table.records, columns[0]), objPkey, objToTuple);
    second := GenericUpdateTable(objects, table, columns, objPkey, objToTuple, connector);
    assert table.records == records && table.nextId == nextId && connector.log == log;
  }

  /* ---------------- the three bindings ---------------- */

  datatype Program = Program(
    programId: string, programNamePl: string, shortProgramNamePl: string,
    programNameEn: string, shortProgramNameEn: string)

  datatype Course = Course(courseId: string, courseNamePl: string, courseNameEn: string, termId: string)

  datatype Point = Point(
    nodeId: int, name: string, points: real, comment: string,
    graderId: int, studentId: int, lastChanged: string, courseId: string)

  const ProgramColumns: seq<string> :=
    ["program_id", "program_name_pl", "short_program_name_pl", "program_name_en", "short_program_name_en"]

  const CourseColumns: seq<string> := ["course_id", "course_name_pl", "course_name_en", "term_id"]

  const PointColumns: seq<string> :=
    ["node_id", "name", "points", "comment", "grader_id", "student_id", "last_changed", "course_id"]

  function ProgramKey(p: Program): Value { Text(p.programId) }

  function CourseKey(c: Course): Value { Text(c.courseId) }

  function PointKey(p: Point): Value { Int(p.nodeId) }

  /** The program projection: one value per column, key first. */
  function ProgramTuple(p: Program): (t: seq<Value>)
    ensures |t| == |ProgramColumns| == 5 && t[0] == ProgramKey(p)
  {
    [Text(p.programId), Text(p.programNamePl), Text(p.shortProgramNamePl),
     Text(p.programNameEn), Text(p.shortProgramNameEn)]
  }

  /** The course projection: one value per column, key first. */
  function CourseTuple(c: Course): (t: seq<Value>)
    ensures |t| == |CourseColumns| == 4 && t[0] == CourseKey(c)
  {
    [Text(c.courseId), Text(c.courseNamePl), Text(c.courseNameEn), Text(c.termId)]
  }

  /** The point projection: one value per column, key first. */
  function PointTuple(p: Point): (t: seq<Value>)
    ensures |t| == |PointColumns| == 8 && t[0] == PointKey(p)
  {
    [Int(p.nodeId), Text(p.name), Real(p.points), Text(p.comment),
     Int(p.graderId), Int(p.studentId), Text(p.lastChanged), Text(p.courseId)]
  }

  /** The three projections fit their column lists. */
  lemma BindingsProject()
    ensures Projects(ProgramColumns, ProgramKey, ProgramTuple)
    ensures Projects(CourseColumns, CourseKey, CourseTuple)
    ensures Projects(PointColumns, PointKey, PointTuple)
  {
  }

  /** `update_usos_programs`. */
  method UpdateUsosPrograms(programs: seq<Program>, connector: Connection) returns (outcome: Outcome)
    requires connector.Valid()
    modifies connector.programs, connector`log
    ensures connector.Valid()
    ensures BoundSyncEffect(programs, ProgramColumns, ProgramKey, ProgramTuple, "usos_programs",
                            old(connector.programs.State()), old(connector.log),
                            connector.programs.State(), connector.log, outcome)
  {
    outcome := BoundUpdate(programs, connector.programs, ProgramColumns, ProgramKey, ProgramTuple, connector);
  }

  /** `update_usos_courses`. */
  method UpdateUsosCourses(courses: seq<Course>, connector: Connection) returns (outcome: Outcome)
    requires connector.Valid()
    modifies connector.courses, connector`log
    ensures connector.Valid()
    ensures BoundSyncEffect(courses, CourseColumns, CourseKey, CourseTuple, "usos_courses",
                            old(connector.courses.State()), old(connector.log),
                            connector.courses.State(), connector.log, outcome)
  {
    outcome := BoundUpdate(courses, connector.courses, CourseColumns, CourseKey, CourseTuple, connector);
  }

  /** `update_usos_points`. */
  method UpdateUsosPoints(points: seq<Point>, connector: Connection) returns (outcome: Outcome)
    requires connector.Valid()
    modifies connector.points, connector`log
    ensures connector.Valid()
    ensures BoundSyncEffect(points, PointColumns, PointKey, PointTuple, "usos_points",
                            old(connector.points.State()), old(connector.log),
                            connector.points.State(), connector.log, outcome)
  {
    outcome := BoundUpdate(points, connector.points, PointColumns, PointKey, PointTuple, connector);
  }
}
