/** What a whole `insert` that returns has stored: a row for every entity of the request, in spite of failed batches. */
module Kept {
  import opened Sequences
  import opened Ngsi
  import opened Database
  import opened RowInsert
  import opened Translator
  import opened Coherence
  import opened Partition
  import opened Queryable

  /** The row is the entity's: a normal one with its time index, or a raw one with the whole entity. */
  ghost predicate Remembers(row: Row, e: Entity) {
    && CellAt(row, EntityIdCol) == Text(e.id) && CellAt(row, EntityTypeCol) == Text(e.etype)
    && e.timeIndex.Some?
    && (CellAt(row, TimeIndexCol) == Stamp(e.timeIndex.value) || CellAt(row, OriginalEntityCol) == Original(e, true))
  }

  ghost predicate HasRow(db: Db, tn: string, e: Entity) {
    tn in db.tables && exists row :: row in db.tables[tn].rows && Remembers(row, e)
  }

  // ---- The rows of one call -------------------------------------------------------------

  lemma WrappedRowRemembers(keep: bool, codec: Codec, es: seq<Entity>, md: Metadata, colNames: seq<Column>,
                         path: Option<string>, i: nat)
    requires OriginalEntityCol in colNames && EntityIdCol in colNames && EntityTypeCol in colNames
    requires TimeIndexCol in colNames && i < |es| && es[i].timeIndex.Some?
    ensures var cells := WithRawEntities(keep, colNames, Matrix(codec, es, md, colNames, path), es)[i];
      |cells| == |colNames| && Remembers(ToRow(Map(InDatabase, colNames), cells), es[i])
  {
    var matrix := Matrix(codec, es, md, colNames, path);
    var row := WithRawEntities(keep, colNames, matrix, es)[i];
    InsertedRowNames(keep, codec, es, md, colNames, path, i);
    forall j | 0 <= j < |colNames| && colNames[j] == TimeIndexCol ensures row[j] == Stamp(es[i].timeIndex.value) {
      assert row[j] == matrix[i][j];
    }
    NamedCell(colNames, row, TimeIndexCol, Stamp(es[i].timeIndex.value));
  }

  lemma NormalRowRemembers(config: Config, es: seq<Entity>, path: Option<string>, i: nat)
    requires Lists(config) && i < |es| && es[i].timeIndex.Some?
    ensures var cols := Map(InDatabase, config.sorted(TableKeys(es)));
      var rows := Flatten(TableBatches(config, es, path));
      |rows| == |es| && |rows[i]| == |cols| && Remembers(ToRow(cols, rows[i]), es[i])
  {
    var colNames := config.sorted(TableKeys(es));
    KeyColumns(config, es);
    InferredNames(es);
    var base := BASE_COLUMNS;
    assert TimeIndexCol in base && TimeIndexCol in colNames;
    WrappedRowRemembers(config.keepRawEntity, config.codec, es, OriginalAttrs(es), colNames, path, i);
  }

  lemma RawRowRemembers(e: Entity, now: int)
    requires e.timeIndex.Some?
    ensures Remembers(ToRow(RESCUE_COLS, RescueRow(e, now)), e)
  {
    RescueRowNames(e, now);
    CellOfRow(RESCUE_COLS, RescueRow(e, now), OriginalEntityCol);
  }

  lemma {:induction false} SelectedAt<T>(xs: seq<T>, mask: seq<bool>, i: nat)
    requires |xs| == |mask| && i < |xs| && mask[i]
    ensures xs[i] in Select(xs, mask)
  {
    if i > 0 { SelectedAt(xs[1..], mask[1..], i - 1); }
  }

  /** Where an insert of rows returns at all, Timescale does what Crate does. */
  lemma ReturnsAlike(db: Db, backend: Backend, tn: string, cols: seq<Column>, batches: seq<seq<seq<Cell>>>,
                     es: seq<Entity>, now: int)
    requires AllShaped(batches, |cols|) && AfterInsertRows(db, backend, tn, cols, batches, es, now).1.None?
    ensures AfterInsertRows(db, backend, tn, cols, batches, es, now)
         == AfterInsertRows(db, Crate, tn, cols, batches, es, now)
  {
  }

  /** If the insert of rows returns and no raw insert is refused, each entity has its normal row or its raw one. */
  lemma RowsKept(db: Db, backend: Backend, tn: string, cols: seq<Column>, batches: seq<seq<seq<Cell>>>,
                 es: seq<Entity>, now: int, i: nat)
    requires AllShaped(batches, |cols|) && Shaped(Flatten(batches), |cols|) && |Flatten(batches)| == |es| && i < |es|
    requires AfterInsertRows(db, backend, tn, cols, batches, es, now).1.None?
    requires BatchesFail(db, tn, cols, batches) ==> !RescueFate(db, tn, cols, batches).Refused?
    ensures var tables := AfterInsertRows(db, backend, tn, cols, batches, es, now).0.tables;
      tn in tables && (ToRow(cols, Flatten(batches)[i]) in tables[tn].rows
                       || ToRow(RESCUE_COLS, RescueRow(es[i], now)) in tables[tn].rows)
  {
    ReturnsAlike(db, backend, tn, cols, batches, es, now);
    CrateKeepsEntities(db, tn, cols, batches, es, now);
    SafeWithoutRefusal(db, tn, cols, batches, |es|);
    var normal, raw := NormalMask(db, tn, cols, batches), RawMask(db, tn, cols, batches, |es|);
    if normal[i] {
      SelectedAt(ToRows(cols, Flatten(batches)), normal, i);
    } else {
      SelectedAt(ToRows(RESCUE_COLS, RescueRows(es, now)), raw, i);
    }
  }

  /** The raw insert of the call comes back with refused rows. */
  ghost predicate Refuses(config: Config, s: Store, tn: string, es: seq<Entity>, path: Option<string>)
    requires Lists(config)
  {
    var (sorted, ok) := AfterSchema(s, config, tn, es);
    var cols := Map(InDatabase, config.sorted(TableKeys(es)));
    ok && BatchesFail(sorted.db, tn, cols, TableBatches(config, es, path))
    && RescueFate(sorted.db, tn, cols, TableBatches(config, es, path)).Refused?
  }

  lemma InsertOfTypeKeeps(config: Config, s: Store, tn: string, es: seq<Entity>, path: Option<string>, now: int, i: nat)
    requires Lists(config) && i < |es| && es[i].timeIndex.Some? && !Refuses(config, s, tn, es, path)
    requires AfterInsertOfType(s, config, tn, es, path, now).1.None?
    ensures HasRow(AfterInsertOfType(s, config, tn, es, path, now).0.db, tn, es[i])
  {
    var sorted := AfterSchema(s, config, tn, es).0;
    var cols, batches := Map(InDatabase, config.sorted(TableKeys(es))), TableBatches(config, es, path);
    NormalRowRemembers(config, es, path, i);
    RawRowRemembers(es[i], now);
    ShapedParts(batches, |cols|);
    RowsKept(sorted.db, config.backend, tn, cols, batches, es, now, i);
  }

  // ---- Calls ----------------------------------------------------------------------------

  /** Rows are only ever added. */
  ghost predicate Grows(a: Db, b: Db) {
    forall t :: t in a.tables ==> t in b.tables && a.tables[t].rows <= b.tables[t].rows
  }

  lemma InsertedGrows(db: Db, sorted: Db, after: Db, tn: string)
    requires Defines(db, sorted, tn) && AddsRows(sorted, after, tn)
    ensures Grows(db, after)
  {
  }

  lemma CallGrows(config: Config, s: Store, service: Option<string>, call: Call, now: int)
    requires Lists(config)
    ensures Grows(s.db, AfterCall(s, config, service, call, now).0.db)
  {
    var tn, checked := TableName(call.etype, service), CheckedAll(call.etype, call.entities, now);
    if checked.Success? {
      SchemaDefines(config, s, tn, checked.value);
      InsertAddsRows(config, s, tn, checked.value, call.path, now);
      InsertedGrows(s.db, AfterSchema(s, config, tn, checked.value).0.db,
                    AfterInsertOfType(s, config, tn, checked.value, call.path, now).0.db, tn);
    }
  }

  lemma GrowsKeeps(a: Db, b: Db, tn: string, e: Entity)
    requires HasRow(a, tn, e) && Grows(a, b)
    ensures HasRow(b, tn, e)
  {
    var row :| row in a.tables[tn].rows && Remembers(row, e);
    var k :| 0 <= k < |a.tables[tn].rows| && a.tables[tn].rows[k] == row;
    assert b.tables[tn].rows[k] == row;
  }

  lemma {:induction false} CallsGrow(config: Config, s: Store, service: Option<string>, calls: seq<Call>, now: int)
    requires Lists(config)
    ensures Grows(s.db, AfterCalls(s, config, service, calls, now).0.db)
    decreases |calls|
  {
    if calls != [] {
      CallGrows(config, s, service, calls[0], now);
      var (next, err) := AfterCall(s, config, service, calls[0], now);
      if err.None? { CallsGrow(config, next, service, calls[1..], now); }
    }
  }

  ghost predicate CallRefuses(config: Config, s: Store, service: Option<string>, call: Call, now: int)
    requires Lists(config)
  {
    var checked := CheckedAll(call.etype, call.entities, now);
    checked.Success? && Refuses(config, s, TableName(call.etype, service), checked.value, call.path)
  }

  ghost predicate CallsRefuse(config: Config, s: Store, service: Option<string>, calls: seq<Call>, now: int)
    requires Lists(config)
    decreases |calls|
  {
    calls != [] &&
    (|| CallRefuses(config, s, service, calls[0], now)
     || var (next, err) := AfterCall(s, config, service, calls[0], now);
        err.None? && CallsRefuse(config, next, service, calls[1..], now))
  }

  lemma CallKeeps(config: Config, s: Store, service: Option<string>, call: Call, now: int, e: Entity)
    requires Lists(config) && e in call.entities && !CallRefuses(config, s, service, call, now)
    requires AfterCall(s, config, service, call, now).1.None?
    ensures HasRow(AfterCall(s, config, service, call, now).0.db, TableName(call.etype, service), WithTimeIndex(e, now))
  {
    ChecksPass(call.etype, call.entities, now);
    var es := CheckedAll(call.etype, call.entities, now).value;
    var i :| 0 <= i < |call.entities| && call.entities[i] == e;
    assert IsStamped(e, es[i], now);
    assert es[i] == WithTimeIndex(e, now);
    InsertOfTypeKeeps(config, s, TableName(call.etype, service), es, call.path, now, i);
  }

  lemma {:induction false} CallsKeep(config: Config, s: Store, service: Option<string>, calls: seq<Call>, now: int,
                                     call: Call, e: Entity)
    requires Lists(config) && call in calls && e in call.entities && !CallsRefuse(config, s, service, calls, now)
    requires AfterCalls(s, config, service, calls, now).1.None?
    ensures HasRow(AfterCalls(s, config, service, calls, now).0.db, TableName(call.etype, service),
                   WithTimeIndex(e, now))
    decreases |calls|
  {
    var (next, err) := AfterCall(s, config, service, calls[0], now);
    if calls[0] == call {
      CallKeeps(config, s, service, call, now, e);
      CallsGrow(config, next, service, calls[1..], now);
      GrowsKeeps(next.db, AfterCalls(s, config, service, calls, now).0.db, TableName(call.etype, service),
                 WithTimeIndex(e, now));
    } else {
      CallsKeep(config, next, service, calls[1..], now, call, e);
    }
  }

  lemma CarriedBy(tagged: seq<Addressed>, call: Call, a: Addressed)
    requires RightCall(call, tagged) && a in tagged && call.path == a.path && call.etype == a.entity.etype
    ensures a.entity in call.entities
  {
    var mine := Filter(Destined(call.path, call.etype), tagged);
    FilterMembers(Destined(call.path, call.etype), tagged);
    assert a in mine;
    var k :| 0 <= k < |mine| && mine[k] == a;
    assert call.entities[k] == a.entity;
  }

  /** Each entity is in a call for its type. */
  lemma CallOf(es: seq<Entity>, path: Option<string>, calls: seq<Call>, e: Entity) returns (call: Call)
    requires Calls(es, path) == Success(calls) && e in es
    ensures call in calls && call.etype == e.etype && e in call.entities
  {
    InsertPartitions(es, path);
    var tagged := Address(ServicePaths(path), es);
    var i :| 0 <= i < |es| && es[i] == e;
    var a := tagged[i];
    assert a in tagged && a.entity == e && Covers(calls, a);
    call :| call in calls && call.path == a.path && call.etype == e.etype;
    CarriedBy(tagged, call, a);
  }

  /** Some raw insert of the request comes back with refused rows. */
  ghost predicate InsertRefuses(config: Config, s: Store, es: seq<Entity>, service: Option<string>,
                                path: Option<string>, now: int)
    requires Lists(config)
  {
    Calls(es, path).Success? && CallsRefuse(config, s, service, Calls(es, path).value, now)
  }

  /** If a whole `insert` returns, on either back-end, and no raw insert was refused, every entity of the request has a
      row in the table of its type. */
  lemma InsertKeepsEntities(config: Config, s: Store, es: seq<Entity>, service: Option<string>, path: Option<string>,
                            now: int)
    requires Lists(config) && AfterInsert(s, config, es, service, path, now).1.None?
    requires !InsertRefuses(config, s, es, service, path, now)
    ensures forall e :: e in es ==>
      HasRow(AfterInsert(s, config, es, service, path, now).0.db, TableName(e.etype, service), WithTimeIndex(e, now))
  {
    var calls := Calls(es, path).value;
    forall e | e in es
      ensures HasRow(AfterInsert(s, config, es, service, path, now).0.db, TableName(e.etype, service),
                     WithTimeIndex(e, now))
    {
      var call := CallOf(es, path, calls, e);
      CallsKeep(config, s, service, calls, now, call, e);
    }
  }
}
