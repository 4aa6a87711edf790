/** Attributes whose column is one of the translator's own: when they are harmless, and what the failed create of a
    table that would have `instanceid` twice leads to. */
module Clashes {
  import opened Sequences
  import opened Ngsi
  import opened Database
  import opened RowInsert
  import opened Translator
  import opened Coherence
  import opened Partition
  import opened Queryable

  // ---- Runs without clashes -------------------------------------------------------------

  /** On Timescale only the name of the instance id can clash, on Crate that of any internal column. */
  function ClashingColumns(backend: Backend): set<Column> {
    if backend.Timescale? then {InstanceIdCol} else INTERNAL_COLUMNS
  }

  ghost predicate Harmless(backend: Backend, attrs: seq<Attr>) {
    forall a :: a in attrs ==> ColumnOf(a.name) !in ClashingColumns(backend)
  }

  /** No attribute of an entity for table `tn` is named like an internal column. */
  ghost predicate HarmlessNames(config: Config, op: Operation, tn: string) {
    op.Insert? ==>
      forall e :: e in op.entities && TableName(e.etype, op.service) == tn ==> Harmless(config.backend, e.attrs)
  }

  lemma HarmlessEntities(backend: Backend, db: Db, tn: string, es: seq<Entity>)
    requires forall e :: e in es ==> Harmless(backend, e.attrs)
    ensures !Clashes(db, backend, tn, OriginalAttrs(es))
  {
    OriginalAttrsKeys(es);
    var base := BASE_COLUMNS;
    assert base !! ClashingColumns(backend);
    forall c | c in OriginalAttrs(es) && c !in base ensures c !in ClashingColumns(backend) {
      var e :| e in es && Mentions(e.attrs, c);
      assert Harmless(backend, e.attrs);
    }
  }

  lemma HarmlessCallClear(config: Config, s: Store, service: Option<string>, call: Call, now: int, tn: string)
    requires TableName(call.etype, service) == tn ==>
      forall e :: e in call.entities ==> Harmless(config.backend, e.attrs)
    ensures CallClear(config, s, service, call, now, tn)
  {
    var checked := CheckedAll(call.etype, call.entities, now);
    if TableName(call.etype, service) == tn && checked.Success? {
      ChecksPass(call.etype, call.entities, now);
      var es := checked.value;
      forall e | e in es ensures Harmless(config.backend, e.attrs) {
        var i :| 0 <= i < |es| && es[i] == e;
        assert call.entities[i] in call.entities && IsStamped(call.entities[i], es[i], now);
      }
      HarmlessEntities(config.backend, s.db, tn, es);
    }
  }

  lemma {:induction false} HarmlessCallsClear(config: Config, s: Store, service: Option<string>, calls: seq<Call>,
                                              now: int, tn: string)
    requires Lists(config)
    requires forall c, e :: c in calls && TableName(c.etype, service) == tn && e in c.entities ==>
      Harmless(config.backend, e.attrs)
    ensures CallsClear(config, s, service, calls, now, tn)
    decreases |calls|
  {
    if calls != [] {
      assert calls[0] in calls;
      HarmlessCallClear(config, s, service, calls[0], now, tn);
      var (next, err) := AfterCall(s, config, service, calls[0], now);
      assert forall c :: c in calls[1..] ==> c in calls;
      if err.None? { HarmlessCallsClear(config, next, service, calls[1..], now, tn); }
    }
  }

  lemma HarmlessIsClear(config: Config, s: Store, op: Operation, tn: string)
    requires Lists(config) && HarmlessNames(config, op, tn)
    ensures Clear(config, s, op, tn)
  {
    if op.Insert? && Calls(op.entities, op.path).Success? {
      var calls := Calls(op.entities, op.path).value;
      forall c, e | c in calls && TableName(c.etype, op.service) == tn && e in c.entities
        ensures Harmless(config.backend, e.attrs)
      {
        CallTypes(op.entities, op.path, c);
      }
      HarmlessCallsClear(config, s, op.service, calls, op.now, tn);
    }
  }

  /** From an empty database every run in which no entity of a table has such an attribute keeps the table coherent. */
  lemma {:induction false} HarmlessRunsStayCoherent(config: Config, s: Store, ops: seq<Operation>, tn: string)
    requires Coherent(config.cacheName, s, tn) && Lists(config)
    requires forall op :: op in ops ==> HarmlessNames(config, op, tn)
    ensures Coherent(config.cacheName, AfterRun(config, s, ops), tn)
  {
    if ops != [] {
      var init, op := ops[..|ops| - 1], ops[|ops| - 1];
      assert op in ops && forall o :: o in init ==> o in ops;
      HarmlessRunsStayCoherent(config, s, init, tn);
      HarmlessIsClear(config, AfterRun(config, s, init), op, tn);
      OperationStaysCoherent(config, AfterRun(config, s, init), op, tn);
    }
  }

  // ---- A failed create ------------------------------------------------------------------

  /** The metadata knows a table that is not there. */
  ghost predicate Orphaned(db: Db, tn: string) {
    tn !in db.tables && tn in db.metadata && EntityIdCol in db.metadata[tn]
  }

  lemma NothingExecutes(db: Db, backend: Backend, tn: string, cols: seq<Column>, batches: seq<seq<seq<Cell>>>,
                        es: seq<Entity>, now: int)
    requires tn !in db.tables && AllShaped(batches, |cols|)
    ensures var (after, err) := AfterInsertRows(db, backend, tn, cols, batches, es, now);
      after == db && (batches != [] ==> err.Some?)
  {
  }

  lemma BatchesOfSome(config: Config, es: seq<Entity>, path: Option<string>)
    requires Lists(config) && es != []
    ensures TableBatches(config, es, path) != []
  {
    var batches := TableBatches(config, es, path);
    var colNames := config.sorted(TableKeys(es));
    ListedKeys(config, es);
    var matrix := Matrix(config.codec, es, OriginalAttrs(es), colNames, path);
    assert Flatten(batches) == WithRawEntities(config.keepRawEntity, colNames, matrix, es);
    assert |Flatten(batches)| == |es|;
  }

  lemma NotCreated(s: Store, config: Config, tn: string, keys: set<Column>, md: Metadata, diff: set<Column>)
    requires tn !in s.db.tables && diff != md.Keys
    ensures tn !in AfterSortOutTable(s, config, tn, keys, md, diff).0.db.tables
  {
    var listed := config.listed(diff);
    assert AfterAddEach(s.db, tn, listed).0 == s.db;
  }

  /** A table once known is altered, never created, and cannot be altered when it is not there. */
  lemma SchemaStaysOrphaned(config: Config, s: Store, tn: string, es: seq<Entity>)
    requires CoherentCache(config.cacheName, s) && Orphaned(s.db, tn)
    ensures Orphaned(AfterSchema(s, config, tn, es).0.db, tn)
  {
    var md := OriginalAttrs(es);
    var (updated, diff) := AfterUpdateMetadata(s, config.cacheName, tn, md);
    InferredNames(es);
    assert EntityIdCol in md;
    UpdateStoresMerge(config.cacheName, s, tn, md);
    assert EntityIdCol !in diff;
    UpdateKeepsTables(s, config.cacheName, tn, md);
    NotCreated(updated, config, tn, TableKeys(es), md, diff);
    MetadataCatchesUp(config, s, tn, es);
  }

  lemma InsertStaysOrphaned(config: Config, s: Store, tn: string, es: seq<Entity>, path: Option<string>, now: int)
    requires CoherentCache(config.cacheName, s) && Lists(config) && Orphaned(s.db, tn)
    ensures var (after, err) := AfterInsertOfType(s, config, tn, es, path, now);
      Orphaned(after.db, tn) && (es != [] ==> err.Some?)
  {
    var (sorted, ok) := AfterSchema(s, config, tn, es);
    SchemaStaysOrphaned(config, s, tn, es);
    if ok {
      NothingExecutes(sorted.db, config.backend, tn, Map(InDatabase, config.sorted(TableKeys(es))),
                      TableBatches(config, es, path), es, now);
      if es != [] { BatchesOfSome(config, es, path); }
    }
  }

  /** The first insert into a table that mentions `instanceId` fails, and leaves metadata without a table. */
  lemma ClashOrphans(config: Config, s: Store, tn: string, es: seq<Entity>, path: Option<string>, now: int)
    requires Coherent(config.cacheName, s, tn) && Lists(config) && es != []
    requires tn !in s.db.metadata && InstanceIdCol in OriginalAttrs(es)
    ensures var (after, err) := AfterInsertOfType(s, config, tn, es, path, now);
      err.Some? && Orphaned(after.db, tn)
  {
    var (sorted, ok) := AfterSchema(s, config, tn, es);
    InferredNames(es);
    assert EntityIdCol in OriginalAttrs(es);
    CreatedSchema(config, s, tn, es);
    MetadataCatchesUp(config, s, tn, es);
    if ok {
      NothingExecutes(sorted.db, config.backend, tn, Map(InDatabase, config.sorted(TableKeys(es))),
                      TableBatches(config, es, path), es, now);
      BatchesOfSome(config, es, path);
    }
  }

  lemma CallStaysOrphaned(config: Config, s: Store, service: Option<string>, call: Call, now: int, tn: string)
    requires CoherentCache(config.cacheName, s) && Lists(config) && Orphaned(s.db, tn) && call.entities != []
    ensures var (after, err) := AfterCall(s, config, service, call, now);
      Orphaned(after.db, tn) && (TableName(call.etype, service) == tn ==> err.Some?)
  {
    CallStaysCoherent(config, s, service, call, now, tn);
    var checked := CheckedAll(call.etype, call.entities, now);
    if TableName(call.etype, service) == tn && checked.Success? {
      ChecksPass(call.etype, call.entities, now);
      InsertStaysOrphaned(config, s, tn, checked.value, call.path, now);
    }
  }

  lemma {:induction false} CallsStayOrphaned(config: Config, s: Store, service: Option<string>, calls: seq<Call>,
                                             now: int, tn: string)
    requires CoherentCache(config.cacheName, s) && Lists(config) && Orphaned(s.db, tn)
    requires forall c :: c in calls ==> c.entities != []
    ensures var (after, err) := AfterCalls(s, config, service, calls, now);
      Orphaned(after.db, tn) && ((exists c :: c in calls && TableName(c.etype, service) == tn) ==> err.Some?)
    decreases |calls|
  {
    if calls != [] {
      var call, rest := calls[0], calls[1..];
      assert call in calls && forall c :: c in rest ==> c in calls;
      assert forall c :: c in calls ==> c == call || c in rest;
      CallStaysOrphaned(config, s, service, call, now, tn);
      CallStaysCoherent(config, s, service, call, now, tn);
      var (next, err) := AfterCall(s, config, service, call, now);
      if err.None? { CallsStayOrphaned(config, next, service, rest, now, tn); }
    }
  }

  /** Until it is dropped, an orphaned table stays so, and every insert with an entity for it fails. */
  lemma OperationStaysOrphaned(config: Config, s: Store, op: Operation, tn: string)
    requires CoherentCache(config.cacheName, s) && Lists(config) && Orphaned(s.db, tn) && !DropsTable(op, tn)
    ensures Orphaned(AfterOperation(config, s, op).db, tn)
    ensures op.Insert? && (exists e :: e in op.entities && TableName(e.etype, op.service) == tn) ==>
      AfterInsert(s, config, op.entities, op.service, op.path, op.now).1.Some?
  {
    if op.Insert? && Calls(op.entities, op.path).Success? {
      var calls := Calls(op.entities, op.path).value;
      InsertPartitions(op.entities, op.path);
      CallsStayOrphaned(config, s, op.service, calls, op.now, tn);
      forall e | e in op.entities ensures exists c :: c in calls && c.etype == e.etype {
        var tagged := Address(ServicePaths(op.path), op.entities);
        var i :| 0 <= i < |op.entities| && op.entities[i] == e;
        assert tagged[i] in tagged && Covers(calls, tagged[i]);
      }
    }
  }

  lemma {:induction false} RunStaysOrphaned(config: Config, s: Store, ops: seq<Operation>, tn: string)
    requires CoherentCache(config.cacheName, s) && Lists(config) && Orphaned(s.db, tn)
    requires forall op :: op in ops ==> !DropsTable(op, tn)
    ensures Orphaned(AfterRun(config, s, ops).db, tn) && CoherentCache(config.cacheName, AfterRun(config, s, ops))
  {
    if ops != [] {
      var init, op := ops[..|ops| - 1], ops[|ops| - 1];
      assert op in ops && forall o :: o in init ==> o in ops;
      RunStaysOrphaned(config, s, init, tn);
      OperationStaysOrphaned(config, AfterRun(config, s, init), op, tn);
      OperationStaysCoherent(config, AfterRun(config, s, init), op, tn);
    }
  }
}
