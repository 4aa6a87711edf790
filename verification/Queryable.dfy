/** Every store the translator's operations can reach can be queried: all rows, rescued ones included, name their
    entity and its type. */
module Queryable {
  import opened Sequences
  import opened Ngsi
  import opened Database
  import opened RowInsert
  import opened Caching
  import opened Translator
  import opened Coherence
  import opened Partition

  /** The row names an entity, of a type that may be so spelled. */
  ghost predicate Tells(row: Row, spelled: string -> bool) {
    IdentifiedRow(row) && spelled(CellAt(row, EntityTypeCol).text)
  }

  /** The table can be queried, and its rows are of types so spelled. */
  ghost predicate Ready(db: Db, tn: string, spelled: string -> bool) {
    tn in db.tables ==>
      BASE_COLUMNS <= db.tables[tn].cols && forall r :: r in db.tables[tn].rows ==> Tells(r, spelled)
  }

  lemma ReadyIsIdentifiable(db: Db, tn: string, spelled: string -> bool)
    requires Ready(db, tn, spelled)
    ensures Identifiable(db.tables, tn)
  {
    if tn in db.tables {
      var rows := db.tables[tn].rows;
      forall i | 0 <= i < |rows| ensures IdentifiedRow(rows[i]) { assert Tells(rows[i], spelled); }
    }
  }

  // ---- The rows of an insert ------------------------------------------------------------

  /** The first of several positions of a column gives its cell. */
  lemma {:induction false} CellOfRow(cols: seq<Column>, cells: seq<Cell>, c: Column)
    requires |cols| == |cells| && c in cols
    ensures CellAt(ToRow(cols, cells), c) == cells[IndexOf(cols, c)]
  {
    if cols[0] != c {
      CellOfRow(cols[1..], cells[1..], c);
    }
  }

  /** The row the cells make names its entity. */
  ghost predicate Names(cols: seq<Column>, cells: seq<Cell>, e: Entity) {
    && |cells| == |cols|
    && CellAt(ToRow(cols, cells), EntityIdCol) == Text(e.id)
    && CellAt(ToRow(cols, cells), EntityTypeCol) == Text(e.etype)
  }

  lemma {:induction false} NamedCell(colNames: seq<Column>, row: seq<Cell>, c: Column, v: Cell)
    requires |row| == |colNames| && c in colNames && InDatabase(c) == c && c != InstanceIdCol
    requires forall j :: 0 <= j < |colNames| && colNames[j] == c ==> row[j] == v
    ensures CellAt(ToRow(Map(InDatabase, colNames), row), c) == v
  {
    var cols := Map(InDatabase, colNames);
    assert cols[IndexOf(colNames, c)] == c;
    CellOfRow(cols, row, c);
    var k := IndexOf(cols, c);
    assert InDatabase(colNames[k]) == c;
  }

  lemma KeyColumns(config: Config, es: seq<Entity>)
    requires Lists(config)
    ensures var colNames := config.sorted(TableKeys(es));
      OriginalEntityCol in colNames && EntityIdCol in colNames && EntityTypeCol in colNames
  {
    ListedKeys(config, es);
    InferredNames(es);
    var base := BASE_COLUMNS;
    assert EntityIdCol in base && EntityTypeCol in base;
  }

  lemma InsertedRowNames(keep: bool, codec: Codec, es: seq<Entity>, md: Metadata, colNames: seq<Column>,
                         path: Option<string>, i: nat)
    requires OriginalEntityCol in colNames && EntityIdCol in colNames && EntityTypeCol in colNames && i < |es|
    ensures Names(Map(InDatabase, colNames),
                  WithRawEntities(keep, colNames, Matrix(codec, es, md, colNames, path), es)[i], es[i])
  {
    var matrix := Matrix(codec, es, md, colNames, path);
    var row := WithRawEntities(keep, colNames, matrix, es)[i];
    assert forall j :: 0 <= j < |colNames| && colNames[j] != OriginalEntityCol ==> row[j] == matrix[i][j];
    NamedCell(colNames, row, EntityIdCol, Text(es[i].id));
    NamedCell(colNames, row, EntityTypeCol, Text(es[i].etype));
  }

  lemma RescueRowNames(e: Entity, now: int)
    ensures Names(RESCUE_COLS, RescueRow(e, now), e)
  {
    CellOfRow(RESCUE_COLS, RescueRow(e, now), EntityIdCol);
    CellOfRow(RESCUE_COLS, RescueRow(e, now), EntityTypeCol);
  }

  // ---- Steps ----------------------------------------------------------------------------

  lemma {:induction false} SelectMembers<T>(xs: seq<T>, mask: seq<bool>)
    requires |xs| == |mask|
    ensures forall x :: x in Select(xs, mask) ==> x in xs
  {
    if xs != [] { SelectMembers(xs[1..], mask[1..]); }
  }

  /** All rows the cells make name an entity of a type so spelled. */
  ghost predicate AllTell(cols: seq<Column>, rows: seq<seq<Cell>>, spelled: string -> bool) {
    forall cells :: cells in rows ==> |cells| == |cols| && Tells(ToRow(cols, cells), spelled)
  }

  lemma ExecuteStaysReady(db: Db, t: string, cols: seq<Column>, batch: seq<seq<Cell>>, tn: string,
                          spelled: string -> bool)
    requires Ready(db, tn, spelled) && Shaped(batch, |cols|) && (t == tn ==> AllTell(cols, batch, spelled))
    ensures Ready(AfterExecuteMany(db, t, cols, batch).0, tn, spelled)
  {
    if Executable(db, t, cols) && t == tn {
      var rows := ToRows(cols, batch);
      SelectMembers(rows, Mask(NextFate(db.script), |batch|));
      forall r | r in rows ensures Tells(r, spelled) {
        var i :| 0 <= i < |rows| && rows[i] == r;
        assert batch[i] in batch;
      }
    }
  }

  lemma {:induction false} BatchesStayReady(db: Db, t: string, cols: seq<Column>, batches: seq<seq<seq<Cell>>>,
                                            tn: string, spelled: string -> bool)
    requires Ready(db, tn, spelled) && AllShaped(batches, |cols|)
    requires t == tn ==> AllTell(cols, Flatten(batches), spelled)
    ensures Ready(AfterBatches(db, t, cols, batches).0, tn, spelled)
    decreases |batches|
  {
    if batches != [] {
      FlattenMembers(batches);
      assert batches[0] in batches;
      ExecuteStaysReady(db, t, cols, batches[0], tn, spelled);
      var (landed, status) := AfterExecuteMany(db, t, cols, batches[0]);
      if status.Ok? {
        assert forall cells :: cells in Flatten(batches[1..]) ==> cells in Flatten(batches);
        BatchesStayReady(landed, t, cols, batches[1..], tn, spelled);
      }
    }
  }

  ghost predicate AllSpelled(es: seq<Entity>, spelled: string -> bool) {
    forall e :: e in es ==> spelled(e.etype)
  }

  lemma RescueRowsTell(es: seq<Entity>, now: int, spelled: string -> bool)
    requires AllSpelled(es, spelled)
    ensures AllTell(RESCUE_COLS, RescueRows(es, now), spelled)
  {
    var raw := RescueRows(es, now);
    forall cells | cells in raw ensures |cells| == |RESCUE_COLS| && Tells(ToRow(RESCUE_COLS, cells), spelled) {
      var i :| 0 <= i < |raw| && raw[i] == cells;
      RescueRowNames(es[i], now);
      assert es[i] in es;
    }
  }

  lemma InsertRowsStayReady(db: Db, backend: Backend, t: string, cols: seq<Column>, batches: seq<seq<seq<Cell>>>,
                            es: seq<Entity>, now: int, tn: string, spelled: string -> bool)
    requires Ready(db, tn, spelled) && AllShaped(batches, |cols|)
    requires t == tn ==> AllTell(cols, Flatten(batches), spelled) && AllSpelled(es, spelled)
    ensures Ready(AfterInsertRows(db, backend, t, cols, batches, es, now).0, tn, spelled)
  {
    BatchesStayReady(db, t, cols, batches, tn, spelled);
    if t == tn { RescueRowsTell(es, now, spelled); }
    ExecuteStaysReady(AfterBatches(db, t, cols, batches).0, t, RESCUE_COLS, RescueRows(es, now), tn, spelled);
  }

  lemma InsertedRowsTell(config: Config, es: seq<Entity>, path: Option<string>, spelled: string -> bool)
    requires Lists(config) && AllSpelled(es, spelled)
    ensures AllTell(Map(InDatabase, config.sorted(TableKeys(es))), Flatten(TableBatches(config, es, path)), spelled)
  {
    var colNames := config.sorted(TableKeys(es));
    var cols := Map(InDatabase, colNames);
    var rows := Flatten(TableBatches(config, es, path));
    KeyColumns(config, es);
    forall cells | cells in rows ensures |cells| == |cols| && Tells(ToRow(cols, cells), spelled) {
      var i :| 0 <= i < |rows| && rows[i] == cells;
      InsertedRowNames(config.keepRawEntity, config.codec, es, OriginalAttrs(es), colNames, path, i);
      assert es[i] in es;
    }
  }

  lemma CreatedHasBase(config: Config, s: Store, tn: string, keys: set<Column>, md: Metadata, diff: set<Column>)
    requires tn !in s.db.tables && BASE_COLUMNS <= keys
    ensures var db := AfterSortOutTable(s, config, tn, keys, md, diff).0.db;
      tn in db.tables ==> BASE_COLUMNS <= db.tables[tn].cols
  {
    var listed := config.listed(diff);
    assert listed != [] ==> AfterAddEach(s.db, tn, listed) == (s.db, false);
  }

  lemma DefinedStaysReady(db: Db, after: Db, t: string, tn: string, spelled: string -> bool)
    requires Ready(db, tn, spelled) && Defines(db, after, t)
    requires tn in after.tables && tn !in db.tables ==> BASE_COLUMNS <= after.tables[tn].cols
    ensures Ready(after, tn, spelled)
  {
  }

  /** Tables are created with the identifying columns and lose none. */
  lemma SchemaStaysReady(config: Config, s: Store, t: string, es: seq<Entity>, tn: string, spelled: string -> bool)
    requires Ready(s.db, tn, spelled)
    ensures Ready(AfterSchema(s, config, t, es).0.db, tn, spelled)
  {
    var md := OriginalAttrs(es);
    InferredNames(es);
    SchemaDefines(config, s, t, es);
    if tn == t && tn !in s.db.tables {
      var (updated, diff) := AfterUpdateMetadata(s, config.cacheName, t, md);
      UpdateKeepsTables(s, config.cacheName, t, md);
      CreatedHasBase(config, updated, t, TableKeys(es), md, diff);
    }
    DefinedStaysReady(s.db, AfterSchema(s, config, t, es).0.db, t, tn, spelled);
  }

  lemma InsertOfTypeStaysReady(config: Config, s: Store, t: string, es: seq<Entity>, path: Option<string>, now: int,
                               tn: string, spelled: string -> bool)
    requires Ready(s.db, tn, spelled) && Lists(config) && (t == tn ==> AllSpelled(es, spelled))
    ensures Ready(AfterInsertOfType(s, config, t, es, path, now).0.db, tn, spelled)
  {
    var (sorted, ok) := AfterSchema(s, config, t, es);
    SchemaStaysReady(config, s, t, es, tn, spelled);
    if ok {
      if t == tn { InsertedRowsTell(config, es, path, spelled); }
      InsertRowsStayReady(sorted.db, config.backend, t, Map(InDatabase, config.sorted(TableKeys(es))),
                          TableBatches(config, es, path), es, now, tn, spelled);
    }
  }

  // ---- Runs -----------------------------------------------------------------------------

  /** What is inserted into table `tn` is of types so spelled. */
  ghost predicate CallSpelled(call: Call, service: Option<string>, tn: string, spelled: string -> bool) {
    TableName(call.etype, service) == tn ==> spelled(call.etype)
  }

  ghost predicate Spelled(op: Operation, tn: string, spelled: string -> bool) {
    op.Insert? ==> forall e :: e in op.entities && TableName(e.etype, op.service) == tn ==> spelled(e.etype)
  }

  lemma CheckedSpelled(etype: string, es: seq<Entity>, now: int, spelled: string -> bool)
    requires CheckedAll(etype, es, now).Success? && spelled(etype)
    ensures AllSpelled(CheckedAll(etype, es, now).value, spelled)
  {
    ChecksPass(etype, es, now);
    var checked := CheckedAll(etype, es, now).value;
    forall e | e in checked ensures spelled(e.etype) {
      var i :| 0 <= i < |checked| && checked[i] == e;
      assert es[i] in es && IsStamped(es[i], checked[i], now);
    }
  }

  lemma {:induction false} CallsStayReady(config: Config, s: Store, service: Option<string>, calls: seq<Call>, now: int,
                                          tn: string, spelled: string -> bool)
    requires Ready(s.db, tn, spelled) && Lists(config)
    requires forall c :: c in calls ==> CallSpelled(c, service, tn, spelled)
    ensures Ready(AfterCalls(s, config, service, calls, now).0.db, tn, spelled)
    decreases |calls|
  {
    if calls != [] {
      var call := calls[0];
      var t, checked := TableName(call.etype, service), CheckedAll(call.etype, call.entities, now);
      assert call in calls;
      if checked.Success? {
        if t == tn { CheckedSpelled(call.etype, call.entities, now, spelled); }
        InsertOfTypeStaysReady(config, s, t, checked.value, call.path, now, tn, spelled);
      }
      var (next, err) := AfterCall(s, config, service, call, now);
      if err.None? {
        assert forall c :: c in calls[1..] ==> c in calls;
        CallsStayReady(config, next, service, calls[1..], now, tn, spelled);
      }
    }
  }

  /** Each call has the type of some entity of the insert. */
  lemma CallTypes(es: seq<Entity>, path: Option<string>, call: Call)
    requires Calls(es, path).Success? && call in Calls(es, path).value
    ensures exists e :: e in es && e.etype == call.etype
    ensures forall e :: e in call.entities ==> e in es && e.etype == call.etype
  {
    InsertPartitions(es, path);
    var tagged := Address(ServicePaths(path), es);
    var mine := Filter(Destined(call.path, call.etype), tagged);
    FilterMembers(Destined(call.path, call.etype), tagged);
    assert RightCall(call, tagged);
    forall e | e in call.entities ensures e in es && e.etype == call.etype {
      var i :| 0 <= i < |mine| && mine[i].entity == e;
      assert mine[i] in mine && mine[i] in tagged;
      var k :| 0 <= k < |tagged| && tagged[k] == mine[i];
      assert es[k] == e;
    }
    assert call.entities[0] in call.entities;
  }

  lemma OperationStaysReady(config: Config, s: Store, op: Operation, tn: string, spelled: string -> bool)
    requires Ready(s.db, tn, spelled) && Lists(config) && Spelled(op, tn, spelled)
    ensures Ready(AfterOperation(config, s, op).db, tn, spelled)
  {
    match op
    case Insert(es, service, path, now) =>
      var r := Calls(es, path);
      if r.Success? {
        forall c | c in r.value ensures CallSpelled(c, service, tn, spelled) { CallTypes(es, path, c); }
        CallsStayReady(config, s, service, r.value, now, tn, spelled);
      }
    case Delete(etype, service, matching) =>
      if tn in s.db.tables { FilterMembers((r: Row) => !matching(r), s.db.tables[tn].rows); }
    case Drop(etype, service) =>
    case Expire(hash) =>
  }

  /** Over every run, whatever became of the rows, the rows of a table name their entity and have its type spelled as in
      some insert. */
  lemma {:induction false} RunStaysReady(config: Config, s: Store, ops: seq<Operation>, tn: string,
                                         spelled: string -> bool)
    requires Ready(s.db, tn, spelled) && Lists(config)
    requires forall op :: op in ops ==> Spelled(op, tn, spelled)
    ensures Ready(AfterRun(config, s, ops).db, tn, spelled)
  {
    if ops != [] {
      var init, op := ops[..|ops| - 1], ops[|ops| - 1];
      assert op in ops && forall o :: o in init ==> o in ops;
      RunStaysReady(config, s, init, tn, spelled);
      OperationStaysReady(config, AfterRun(config, s, init), op, tn, spelled);
    }
  }

  /** After every run from an empty database every table can be queried, whatever became of the rows on the way. */
  lemma RunsAreQueryable(config: Config, script: seq<Fate>, hashes: Hashes, caching: bool, ops: seq<Operation>,
                         tn: string)
    requires Lists(config)
    ensures Identifiable(AfterRun(config, Store(Db(map[], map[], script), hashes, caching), ops).db.tables, tn)
  {
    var empty := Store(Db(map[], map[], script), hashes, caching);
    var any: string -> bool := _ => true;
    RunStaysReady(config, empty, ops, tn, any);
    ReadyIsIdentifiable(AfterRun(config, empty, ops).db, tn, any);
  }
}
