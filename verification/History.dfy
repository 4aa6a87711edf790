/** Entities inserted and then queried: the whole write path followed by the whole read path. */
module History {
  import opened Sequences
  import opened Ngsi
  import opened Database
  import opened RowInsert
  import opened Grouping
  import opened Translator
  import opened Coherence
  import opened Partition
  import opened Queryable

  // ---- What a run adds to the history of a type -----------------------------------------

  /** What one call of `insert` is given. */
  datatype Request = Request(entities: seq<Entity>, path: Option<string>, now: int)

  function StampedAt(now: int): Entity -> Entity {
    (e: Entity) => WithTimeIndex(e, now)
  }

  function TaggedWith(path: Option<string>): Entity -> Addressed {
    (e: Entity) => Addressed(path, e)
  }

  function Arrived(now: int): Addressed -> Addressed {
    (a: Addressed) => Addressed(a.path, WithTimeIndex(a.entity, now))
  }

  /** What one call for a type and path adds to the history: its entities, with time index and service path. */
  function Posted(now: int): Call -> seq<Addressed> {
    (call: Call) => Map(TaggedWith(call.path), Map(StampedAt(now), call.entities))
  }

  function CallsPosted(calls: seq<Call>, now: int): seq<Addressed> {
    Flatten(Map(Posted(now), calls))
  }

  predicate PathsFit(r: Request) {
    |ServicePaths(r.path)| == 1 || |ServicePaths(r.path)| == |r.entities|
  }

  /** What a request of one type adds: its entities with their paths, one path after the other; nothing when the
      paths do not fit. */
  function Received(r: Request): seq<Addressed> {
    if PathsFit(r)
    then Map(Arrived(r.now), Flatten(Map(Members(), GroupBy(PathOf(), Address(ServicePaths(r.path), r.entities)))))
    else []
  }

  function RequestOf(op: Operation): Request
    requires op.Insert?
  {
    Request(op.entities, op.path, op.now)
  }

  /** The operation concerns other tables only, or no table. */
  ghost predicate Elsewhere(op: Operation, tn: string) {
    match op
    case Insert(es, service, _, _) => forall e :: e in es ==> TableName(e.etype, service) != tn
    case Delete(etype, service, _) => TableName(etype, service) != tn
    case Drop(etype, service) => TableName(etype, service) != tn
    case Expire(_) => true
  }

  /** What an operation adds for table `tn`. */
  ghost function Added(tn: string, op: Operation): seq<Addressed> {
    if op.Insert? && !Elsewhere(op, tn) then Received(RequestOf(op)) else []
  }

  /** What a run adds for table `tn`. */
  ghost function AllReceived(tn: string, ops: seq<Operation>): seq<Addressed> {
    if ops == [] then [] else AllReceived(tn, ops[..|ops| - 1]) + Added(tn, ops[|ops| - 1])
  }

  /** Of type `etype`, no reserved name, one spelling and one type for each attribute. */
  ghost predicate Fits(schema: Metadata, etype: string, e: Entity) {
    e.etype == etype && !Reserved(e) && Follows(schema, e.attrs)
  }

  ghost predicate FitsSchema(schema: Metadata, etype: string, call: Call) {
    call.etype == etype && forall e :: e in call.entities ==> Fits(schema, etype, e)
  }

  ghost predicate FitsRequest(schema: Metadata, etype: string, r: Request) {
    PathsFit(r) && forall e :: e in r.entities ==> Fits(schema, etype, e)
  }

  /** An insert of entities of type `etype` into table `tn`. */
  ghost predicate FitsTable(schema: Metadata, etype: string, tn: string, op: Operation) {
    op.Insert? && TableName(etype, op.service) == tn && FitsRequest(schema, etype, RequestOf(op))
  }

  // ---- One row, one entity --------------------------------------------------------------

  /** The cell of an attribute: its converted value, NULL when the entity lacks it. */
  function AttrCell(codec: Codec, e: Entity, origin: Origin): Cell {
    if !origin.AttrOrigin? then Null
    else
      var attr := FindAttr(e.attrs, origin.name);
      if attr.None? then Null else codec.toDb(attr.value.datum, origin.atype)
  }

  /** The row is the entity's, whichever columns the table had when it was inserted. */
  ghost predicate Represents(codec: Codec, schema: Metadata, row: Row, a: Addressed) {
    && CellAt(row, EntityTypeCol) == Text(a.entity.etype)
    && CellAt(row, EntityIdCol) == Text(a.entity.id)
    && a.entity.timeIndex.Some? && CellAt(row, TimeIndexCol) == Stamp(a.entity.timeIndex.value)
    && CellAt(row, ServicePathCol) == Text(if a.path.Some? && a.path.value != "" then a.path.value else "/")
    && CellAt(row, InstanceIdCol) == FreshInstanceId
    && forall c :: c in schema ==> CellAt(row, c) == AttrCell(codec, a.entity, schema[c])
  }

  lemma {:induction false} CheckedFits(etype: string, es: seq<Entity>, now: int, schema: Metadata)
    requires forall e :: e in es ==> Fits(schema, etype, e)
    ensures CheckedAll(etype, es, now) == Success(Map(StampedAt(now), es))
  {
    if es != [] {
      assert es[0] in es && forall x :: x in es[1..] ==> x in es;
      CheckedFits(etype, es[1..], now, schema);
    }
  }

  // ---- One insert that the database accepts ---------------------------------------------

  lemma DatabaseNamesDistinct(colNames: seq<Column>)
    requires Distinct(colNames) && InstanceIdCol !in colNames
    ensures Distinct(Map(InDatabase, colNames))
  {
  }

  /** `colNames` lists the keys of an insert that inferred `md`, none of them a clash with `instanceId`. */
  ghost predicate ColumnList(md: Metadata, colNames: seq<Column>) {
    && Distinct(colNames) && OriginalEntityCol in colNames && InstanceIdCol !in colNames
    && forall c :: c in colNames <==> c in md.Keys + EXTRA_KEYS
  }

  lemma SortedKeysListed(config: Config, es: seq<Entity>)
    requires Lists(config) && InstanceIdCol !in OriginalAttrs(es)
    ensures ColumnList(OriginalAttrs(es), config.sorted(TableKeys(es)))
  {
  }

  lemma NamesInTable(colNames: seq<Column>, md: Metadata, cols: set<Column>)
    requires ColumnList(md, colNames) && InstanceIdKey !in md && md.Keys + INTERNAL_COLUMNS <= cols
    ensures forall c :: c in Map(InDatabase, colNames) ==> c in cols
    ensures Distinct(Map(InDatabase, colNames))
  {
    var names := Map(InDatabase, colNames);
    DatabaseNamesDistinct(colNames);
    forall c | c in names ensures c in cols {
      var i :| 0 <= i < |names| && names[i] == c;
      assert colNames[i] in colNames;
    }
  }

  lemma ColumnsExecutable(config: Config, db: Db, tn: string, es: seq<Entity>)
    requires CoherentDb(db, tn) && Lists(config)
    requires InstanceIdCol !in OriginalAttrs(es)
    requires tn in db.metadata && OriginalAttrs(es).Keys <= db.metadata[tn].Keys
    ensures Distinct(Map(InDatabase, config.sorted(TableKeys(es))))
    ensures Executable(db, tn, Map(InDatabase, config.sorted(TableKeys(es))))
  {
    var md := OriginalAttrs(es);
    var colNames := config.sorted(TableKeys(es));
    assert CoherentTable(db.tables[tn], db.metadata[tn]);
    InferredNames(es);
    SortedKeysListed(config, es);
    NamesInTable(colNames, md, db.tables[tn].cols);
    DistinctCardinality(Map(InDatabase, colNames));
  }

  lemma InsertIsExecutable(config: Config, s: Store, tn: string, es: seq<Entity>)
    requires Coherent(config.cacheName, s, tn) && Lists(config)
    requires InstanceIdCol !in OriginalAttrs(es) && !Clashes(s.db, config.backend, tn, OriginalAttrs(es))
    ensures Executable(AfterSchema(s, config, tn, es).0.db, tn, Map(InDatabase, config.sorted(TableKeys(es))))
    ensures Distinct(Map(InDatabase, config.sorted(TableKeys(es))))
  {
    SchemaStaysCoherent(config, s, tn, es);
    MergeKnows(Known(s.db, tn), OriginalAttrs(es));
    ColumnsExecutable(config, AfterSchema(s, config, tn, es).0.db, tn, es);
  }

  lemma MergeKnows(known: Metadata, md: Metadata)
    ensures md.Keys <= Merged(known, md).Keys && known.Keys <= Merged(known, md).Keys
  {
  }

  lemma AcceptedInsert(db: Db, backend: Backend, tn: string, cols: seq<Column>, batches: seq<seq<seq<Cell>>>,
                       es: seq<Entity>, now: int)
    requires db.script == [] && Executable(db, tn, cols)
    requires AllShaped(batches, |cols|) && Shaped(Flatten(batches), |cols|)
    ensures AfterInsertRows(db, backend, tn, cols, batches, es, now)
         == (Append(db, tn, ToRows(cols, Flatten(batches))), None)
  {
    BatchesLand(db, tn, cols, batches);
    NoFateLeft(batches);
    BatchMaskWithoutError(db.script, batches);
    SelectUniform(ToRows(cols, Flatten(batches)), true);
  }

  function Values(config: Config, es: seq<Entity>, md: Metadata, colNames: seq<Column>, path: Option<string>)
    : (r: seq<seq<Cell>>)
    requires OriginalEntityCol in colNames
    ensures |r| == |es| && Shaped(r, |colNames|)
  {
    WithRawEntities(config.keepRawEntity, colNames, Matrix(config.codec, es, md, colNames, path), es)
  }

  /** The rows one accepted insert adds. */
  function NewRows(config: Config, es: seq<Entity>, path: Option<string>): (rows: seq<Row>)
    requires Lists(config)
    ensures |rows| == |es|
  {
    var colNames := config.sorted(TableKeys(es));
    ListedKeys(config, es);
    ToRows(Map(InDatabase, colNames), Values(config, es, OriginalAttrs(es), colNames, path))
  }

  lemma InsertAppendsRows(config: Config, s: Store, tn: string, es: seq<Entity>, path: Option<string>, now: int)
    requires Coherent(config.cacheName, s, tn) && Lists(config) && s.db.script == []
    requires InstanceIdCol !in OriginalAttrs(es) && !Clashes(s.db, config.backend, tn, OriginalAttrs(es))
    ensures var sorted := AfterSchema(s, config, tn, es).0;
      tn in sorted.db.tables && AfterInsertOfType(s, config, tn, es, path, now)
        == (sorted.(db := Append(sorted.db, tn, NewRows(config, es, path))), None)
  {
    var sorted := AfterSchema(s, config, tn, es).0;
    var cols := Map(InDatabase, config.sorted(TableKeys(es)));
    InsertIsExecutable(config, s, tn, es);
    SchemaStaysCoherent(config, s, tn, es);
    var batches := TableBatches(config, es, path);
    ShapedParts(batches, |cols|);
    AcceptedInsert(sorted.db, config.backend, tn, cols, batches, es, now);
  }

  lemma CellInRow(cols: seq<Column>, cells: seq<Cell>, key: Column)
    requires |cols| == |cells| && Distinct(cols)
    ensures CellAt(ToRow(cols, cells), key) == if key in cols then cells[IndexOf(cols, key)] else Null
  {
    ToRowCells(cols, cells);
  }

  /** Columns whose cells are the same under their key and their database name. */
  ghost predicate Ordinary(key: Column) {
    !key.InstanceIdKey? && !key.InstanceIdCol? && !key.OriginalEntityCol?
  }

  lemma KeyPosition(colNames: seq<Column>, key: Column)
    requires Distinct(colNames) && InstanceIdCol !in colNames && Ordinary(key)
    ensures var cols := Map(InDatabase, colNames);
      (key in cols <==> key in colNames) && (key in cols ==> colNames[IndexOf(cols, key)] == key)
  {
  }

  lemma ValueAt(config: Config, es: seq<Entity>, md: Metadata, colNames: seq<Column>, path: Option<string>,
                i: nat, j: nat)
    requires OriginalEntityCol in colNames && i < |es| && j < |colNames| && colNames[j] != OriginalEntityCol
    ensures Values(config, es, md, colNames, path)[i][j] == CellFor(config.codec, es[i], md, colNames[j], path)
  {
  }

  /** The cell an insert that inferred `md` gives an entity in an ordinary column. */
  function ExpectedCell(codec: Codec, e: Entity, md: Metadata, path: Option<string>, key: Column): Cell {
    if key in md.Keys + EXTRA_KEYS then CellFor(codec, e, md, key, path) else Null
  }

  lemma RowCell(config: Config, es: seq<Entity>, md: Metadata, colNames: seq<Column>, path: Option<string>,
                i: nat, key: Column)
    requires ColumnList(md, colNames) && i < |es| && Ordinary(key)
    ensures CellAt(ToRow(Map(InDatabase, colNames), Values(config, es, md, colNames, path)[i]), key)
         == ExpectedCell(config.codec, es[i], md, path, key)
  {
    var cols := Map(InDatabase, colNames);
    DatabaseNamesDistinct(colNames);
    CellInRow(cols, Values(config, es, md, colNames, path)[i], key);
    KeyPosition(colNames, key);
    if key in cols { ValueAt(config, es, md, colNames, path, i, IndexOf(cols, key)); }
  }

  lemma InstanceIdCell(config: Config, es: seq<Entity>, md: Metadata, colNames: seq<Column>, path: Option<string>,
                       i: nat)
    requires ColumnList(md, colNames) && i < |es|
    ensures CellAt(ToRow(Map(InDatabase, colNames), Values(config, es, md, colNames, path)[i]), InstanceIdCol)
         == FreshInstanceId
  {
    var cols := Map(InDatabase, colNames);
    DatabaseNamesDistinct(colNames);
    InstanceIdPosition(colNames, md);
    CellInRow(cols, Values(config, es, md, colNames, path)[i], InstanceIdCol);
    ValueAt(config, es, md, colNames, path, i, IndexOf(cols, InstanceIdCol));
    FreshCell(config.codec, es[i], md, path);
  }

  lemma FreshCell(codec: Codec, e: Entity, md: Metadata, path: Option<string>)
    ensures CellFor(codec, e, md, InstanceIdKey, path) == FreshInstanceId
  {
  }

  lemma InstanceIdPosition(colNames: seq<Column>, md: Metadata)
    requires ColumnList(md, colNames)
    ensures var cols := Map(InDatabase, colNames);
      InstanceIdCol in cols && colNames[IndexOf(cols, InstanceIdCol)] == InstanceIdKey
  {
    assert InstanceIdKey in EXTRA_KEYS;
    var cols, k := Map(InDatabase, colNames), IndexOf(colNames, InstanceIdKey);
    assert cols[k] == InstanceIdCol;
    var j := IndexOf(cols, InstanceIdCol);
    assert colNames[j] in colNames && InDatabase(colNames[j]) == InstanceIdCol;
  }

  ghost predicate RowIs(codec: Codec, e: Entity, md: Metadata, path: Option<string>, row: Row) {
    && CellAt(row, InstanceIdCol) == FreshInstanceId
    && forall key :: Ordinary(key) ==> (CellAt(row, key) == ExpectedCell(codec, e, md, path, key))
  }

  lemma SchemaCell(codec: Codec, origin: Origin, e: Entity, md: Metadata, path: Option<string>, c: Column)
    requires c.Named? && origin.AttrOrigin?
    requires c in md ==> md[c] == origin
    requires c !in md ==> FindAttr(e.attrs, origin.name).None?
    ensures ExpectedCell(codec, e, md, path, c) == AttrCell(codec, e, origin)
  {
  }

  lemma BaseCells(codec: Codec, e: Entity, md: Metadata, path: Option<string>)
    requires e.timeIndex.Some? && BASE_COLUMNS <= md.Keys
    ensures ExpectedCell(codec, e, md, path, EntityTypeCol) == Text(e.etype)
    ensures ExpectedCell(codec, e, md, path, EntityIdCol) == Text(e.id)
    ensures ExpectedCell(codec, e, md, path, TimeIndexCol) == Stamp(e.timeIndex.value)
    ensures ExpectedCell(codec, e, md, path, ServicePathCol) == PathCell(path)
  {
  }

  /** `md` says of the schema's columns what the schema says, and lacks none that `e` has a value for. */
  ghost predicate Agrees(schema: Metadata, md: Metadata, e: Entity) {
    && e.timeIndex.Some? && BASE_COLUMNS <= md.Keys
    && (forall c :: c in schema ==> c.Named? && schema[c].AttrOrigin?)
    && (forall c :: c in schema && c in md ==> md[c] == schema[c])
    && (forall c :: c in schema && c !in md ==> FindAttr(e.attrs, schema[c].name).None?)
  }

  lemma InferredAgrees(schema: Metadata, es: seq<Entity>, e: Entity)
    requires WellFormedSchema(schema) && e in es && e.timeIndex.Some?
    requires forall x :: x in es ==> Follows(schema, x.attrs)
    ensures Agrees(schema, OriginalAttrs(es), e)
  {
    InferredNames(es);
    OriginalAttrsFollow(schema, es);
    forall c | c in schema && c !in OriginalAttrs(es) ensures FindAttr(e.attrs, schema[c].name).None? {
      UnmentionedAttr(schema, es, e, c);
    }
  }

  lemma RowRepresents(codec: Codec, schema: Metadata, e: Entity, md: Metadata, path: Option<string>, row: Row)
    requires RowIs(codec, e, md, path, row) && Agrees(schema, md, e)
    ensures Represents(codec, schema, row, Addressed(path, e))
  {
    BaseCells(codec, e, md, path);
    assert Ordinary(EntityTypeCol) && Ordinary(EntityIdCol) && Ordinary(TimeIndexCol) && Ordinary(ServicePathCol);
    forall c | c in schema ensures CellAt(row, c) == AttrCell(codec, e, schema[c]) {
      assert Ordinary(c);
      SchemaCell(codec, schema[c], e, md, path, c);
    }
  }

  /** An entity has no value for a column its insert did not infer. */
  lemma UnmentionedAttr(schema: Metadata, es: seq<Entity>, e: Entity, c: Column)
    requires WellFormedSchema(schema) && c in schema && e in es && c !in OriginalAttrs(es)
    ensures FindAttr(e.attrs, schema[c].name).None?
  {
    FindAttrFound(e.attrs, schema[c].name);
    var hit := FindAttr(e.attrs, schema[c].name);
    if hit.Some? {
      assert Mentions(e.attrs, c);
      OriginalAttrsKeys(es);
      assert false;
    }
  }

  // ---- All the rows of the run ----------------------------------------------------------

  /** Every attribute of the entity has its column. */
  ghost predicate Covered(md: Metadata, e: Entity) {
    forall a :: a in e.attrs ==> ColumnOf(a.name) in md
  }

  lemma InferredCovers(es: seq<Entity>, md: Metadata)
    requires OriginalAttrs(es).Keys <= md.Keys
    ensures forall e :: e in es ==> Covered(md, e)
  {
    OriginalAttrsKeys(es);
    forall e, a | e in es && a in e.attrs ensures ColumnOf(a.name) in md {
      assert Mentions(e.attrs, ColumnOf(a.name));
    }
  }

  /** The table holds one row for every entity posted, in order, and its metadata comes from the schema. */
  ghost predicate Recorded(config: Config, schema: Metadata, s: Store, tn: string, hist: seq<Addressed>) {
    && Coherent(config.cacheName, s, tn) && s.db.script == []
    && (tn !in s.db.tables ==> hist == [])
    && (tn in s.db.tables ==>
         && WithinSchema(schema, s.db.metadata[tn])
         && |s.db.tables[tn].rows| == |hist|
         && (forall i :: 0 <= i < |hist| ==> Covered(s.db.metadata[tn], hist[i].entity))
         && forall i :: 0 <= i < |hist| ==> Represents(config.codec, schema, s.db.tables[tn].rows[i], hist[i]))
  }

  lemma MergeWithinSchema(schema: Metadata, known: Metadata, md: Metadata)
    requires WithinSchema(schema, md) && (known == map[] || WithinSchema(schema, known))
    ensures WithinSchema(schema, Merged(known, md))
  {
  }

  lemma RowsExtend(codec: Codec, schema: Metadata, rows: seq<Row>, hist: seq<Addressed>, added: seq<Row>,
                   more: seq<Addressed>)
    requires |rows| == |hist| && |added| == |more|
    requires forall i :: 0 <= i < |hist| ==> Represents(codec, schema, rows[i], hist[i])
    requires forall i :: 0 <= i < |more| ==> Represents(codec, schema, added[i], more[i])
    ensures forall i :: 0 <= i < |hist + more| ==> Represents(codec, schema, (rows + added)[i], (hist + more)[i])
  {
  }

  lemma RowIsExpected(config: Config, es: seq<Entity>, md: Metadata, colNames: seq<Column>, path: Option<string>,
                      i: nat)
    requires ColumnList(md, colNames) && i < |es|
    ensures RowIs(config.codec, es[i], md, path,
                  ToRow(Map(InDatabase, colNames), Values(config, es, md, colNames, path)[i]))
  {
    var row := ToRow(Map(InDatabase, colNames), Values(config, es, md, colNames, path)[i]);
    InstanceIdCell(config, es, md, colNames, path, i);
    forall key | Ordinary(key) ensures CellAt(row, key) == ExpectedCell(config.codec, es[i], md, path, key) {
      RowCell(config, es, md, colNames, path, i, key);
    }
  }

  lemma AddedRow(config: Config, es: seq<Entity>, path: Option<string>, i: nat)
    requires Lists(config) && InstanceIdCol !in OriginalAttrs(es) && i < |es|
    ensures RowIs(config.codec, es[i], OriginalAttrs(es), path, NewRows(config, es, path)[i])
  {
    var md, colNames := OriginalAttrs(es), config.sorted(TableKeys(es));
    SortedKeysListed(config, es);
    RowIsExpected(config, es, md, colNames, path, i);
    assert NewRows(config, es, path)[i] == ToRow(Map(InDatabase, colNames), Values(config, es, md, colNames, path)[i]);
  }

  lemma AddedRepresent(config: Config, schema: Metadata, es: seq<Entity>, path: Option<string>)
    requires Lists(config) && InstanceIdCol !in OriginalAttrs(es) && WellFormedSchema(schema)
    requires forall e :: e in es ==> Follows(schema, e.attrs) && e.timeIndex.Some?
    ensures var more := Map(TaggedWith(path), es);
      forall i :: 0 <= i < |more| ==> Represents(config.codec, schema, NewRows(config, es, path)[i], more[i])
  {
    forall i | 0 <= i < |es|
      ensures Represents(config.codec, schema, NewRows(config, es, path)[i], Addressed(path, es[i]))
    {
      assert es[i] in es;
      AddedRow(config, es, path, i);
      InferredAgrees(schema, es, es[i]);
      RowRepresents(config.codec, schema, es[i], OriginalAttrs(es), path, NewRows(config, es, path)[i]);
    }
  }

  /** The insert went through: `added` are the new rows, and the store is in order. */
  ghost predicate WentThrough(config: Config, schema: Metadata, s: Store, after: Store, tn: string, added: seq<Row>) {
    && tn in after.db.tables && after.db.script == []
    && Coherent(config.cacheName, after, tn) && WithinSchema(schema, after.db.metadata[tn])
    && (tn in s.db.metadata ==> s.db.metadata[tn].Keys <= after.db.metadata[tn].Keys)
    && after.db.tables[tn].rows == (if tn in s.db.tables then s.db.tables[tn].rows else []) + added
  }

  lemma SchemaNeverClashes(schema: Metadata, db: Db, backend: Backend, tn: string, md: Metadata)
    requires WellFormedSchema(schema) && WithinSchema(schema, md)
    ensures InstanceIdCol !in md && !Clashes(db, backend, tn, md)
  {
    var base := BASE_COLUMNS;
    assert base !! INTERNAL_COLUMNS && InstanceIdCol in INTERNAL_COLUMNS;
    assert forall c :: c in md ==> c !in INTERNAL_COLUMNS;
  }

  lemma InsertGoesThrough(config: Config, schema: Metadata, s: Store, tn: string, es: seq<Entity>,
                          path: Option<string>, now: int)
    requires Lists(config) && WellFormedSchema(schema) && WithinSchema(schema, OriginalAttrs(es))
    requires Coherent(config.cacheName, s, tn) && s.db.script == []
    requires tn in s.db.tables ==> WithinSchema(schema, s.db.metadata[tn])
    ensures var (after, err) := AfterInsertOfType(s, config, tn, es, path, now);
      && err.None? && WentThrough(config, schema, s, after, tn, NewRows(config, es, path))
      && OriginalAttrs(es).Keys <= after.db.metadata[tn].Keys
  {
    var md := OriginalAttrs(es);
    SchemaNeverClashes(schema, s.db, config.backend, tn, md);
    MergeKnows(Known(s.db, tn), md);
    InsertAppendsRows(config, s, tn, es, path, now);
    InsertOfTypeStaysCoherent(config, s, tn, es, path, now);
    InsertOfTypeExtends(config, s, tn, es, path, now);
    SchemaStaysCoherent(config, s, tn, es);
    MergeWithinSchema(schema, Known(s.db, tn), md);
  }

  lemma SchemaHasNoInstanceId(schema: Metadata, es: seq<Entity>)
    requires WellFormedSchema(schema) && forall e :: e in es ==> Follows(schema, e.attrs)
    ensures WithinSchema(schema, OriginalAttrs(es)) && InstanceIdCol !in OriginalAttrs(es)
  {
    OriginalAttrsFollow(schema, es);
    var base := BASE_COLUMNS;
    assert InstanceIdCol !in base;
  }

  /** What an insert of entities that follow the schema does to the table. */
  lemma InsertOutcome(config: Config, schema: Metadata, s: Store, tn: string, es: seq<Entity>,
                      path: Option<string>, now: int) returns (added: seq<Row>, more: seq<Addressed>)
    requires Lists(config) && WellFormedSchema(schema)
    requires Coherent(config.cacheName, s, tn) && s.db.script == []
    requires tn in s.db.tables ==> WithinSchema(schema, s.db.metadata[tn])
    requires forall e :: e in es ==> Follows(schema, e.attrs) && e.timeIndex.Some?
    ensures var (after, err) := AfterInsertOfType(s, config, tn, es, path, now);
      && err.None? && WentThrough(config, schema, s, after, tn, added)
      && forall e :: e in es ==> Covered(after.db.metadata[tn], e)
    ensures more == Map(TaggedWith(path), es) && |added| == |more|
    ensures forall i :: 0 <= i < |more| ==> Represents(config.codec, schema, added[i], more[i])
  {
    added, more := NewRows(config, es, path), Map(TaggedWith(path), es);
    SchemaHasNoInstanceId(schema, es);
    InsertGoesThrough(config, schema, s, tn, es, path, now);
    InferredCovers(es, AfterInsertOfType(s, config, tn, es, path, now).0.db.metadata[tn]);
    AddedRepresent(config, schema, es, path);
  }

  lemma RecordedStep(config: Config, schema: Metadata, s: Store, after: Store, tn: string, hist: seq<Addressed>,
                     added: seq<Row>, more: seq<Addressed>)
    requires Recorded(config, schema, s, tn, hist) && |added| == |more|
    requires WentThrough(config, schema, s, after, tn, added)
    requires forall i :: 0 <= i < |more| ==> Represents(config.codec, schema, added[i], more[i])
    requires forall i :: 0 <= i < |more| ==> Covered(after.db.metadata[tn], more[i].entity)
    ensures Recorded(config, schema, after, tn, hist + more)
  {
    forall i | 0 <= i < |hist| ensures Covered(after.db.metadata[tn], hist[i].entity) {
      assert Covered(s.db.metadata[tn], hist[i].entity);
    }
    RowsExtend(config.codec, schema, if tn in s.db.tables then s.db.tables[tn].rows else [], hist, added, more);
  }

  lemma InsertIsRecorded(config: Config, schema: Metadata, s: Store, tn: string, hist: seq<Addressed>,
                         es: seq<Entity>, path: Option<string>, now: int)
    requires Lists(config) && WellFormedSchema(schema) && Recorded(config, schema, s, tn, hist)
    requires forall e :: e in es ==> Follows(schema, e.attrs) && e.timeIndex.Some?
    ensures var (after, err) := AfterInsertOfType(s, config, tn, es, path, now);
      err.None? && tn in after.db.tables && Recorded(config, schema, after, tn, hist + Map(TaggedWith(path), es))
  {
    var added, more := InsertOutcome(config, schema, s, tn, es, path, now);
    var after := AfterInsertOfType(s, config, tn, es, path, now).0;
    forall i | 0 <= i < |more| ensures Covered(after.db.metadata[tn], more[i].entity) { assert es[i] in es; }
    RecordedStep(config, schema, s, after, tn, hist, added, more);
  }

  lemma CallIsRecorded(config: Config, schema: Metadata, s: Store, service: Option<string>, etype: string,
                       hist: seq<Addressed>, call: Call, now: int) returns (after: Store)
    requires Lists(config) && WellFormedSchema(schema) && FitsSchema(schema, etype, call)
    requires Recorded(config, schema, s, TableName(etype, service), hist)
    ensures AfterCall(s, config, service, call, now) == (after, None)
    ensures Recorded(config, schema, after, TableName(etype, service), hist + Posted(now)(call))
    ensures TableName(etype, service) in after.db.tables
  {
    var es := Map(StampedAt(now), call.entities);
    CheckedFits(etype, call.entities, now, schema);
    forall e | e in es ensures Follows(schema, e.attrs) && e.timeIndex.Some? {
      var i :| 0 <= i < |es| && es[i] == e;
      assert call.entities[i] in call.entities;
    }
    InsertIsRecorded(config, schema, s, TableName(etype, service), hist, es, call.path, now);
    after := AfterCall(s, config, service, call, now).0;
  }

  lemma PostedCons(hist: seq<Addressed>, calls: seq<Call>, now: int)
    requires calls != []
    ensures hist + Posted(now)(calls[0]) + CallsPosted(calls[1..], now) == hist + CallsPosted(calls, now)
  {
  }

  lemma {:induction false} CallsAreRecorded(config: Config, schema: Metadata, s: Store, service: Option<string>,
                                            etype: string, hist: seq<Addressed>, calls: seq<Call>, now: int,
                                            all: seq<Addressed>) returns (after: Store)
    requires Lists(config) && WellFormedSchema(schema)
    requires forall c :: c in calls ==> FitsSchema(schema, etype, c)
    requires Recorded(config, schema, s, TableName(etype, service), hist) && all == hist + CallsPosted(calls, now)
    ensures AfterCalls(s, config, service, calls, now) == (after, None)
    ensures Recorded(config, schema, after, TableName(etype, service), all)
    ensures calls != [] || TableName(etype, service) in s.db.tables ==> TableName(etype, service) in after.db.tables
    decreases |calls|
  {
    if calls == [] {
      assert hist + CallsPosted(calls, now) == hist;
      after := s;
    } else {
      var call, rest := calls[0], calls[1..];
      assert forall c :: c in rest ==> c in calls;
      var next := CallIsRecorded(config, schema, s, service, etype, hist, call, now);
      PostedCons(hist, calls, now);
      after := CallsAreRecorded(config, schema, next, service, etype, hist + Posted(now)(call), rest, now, all);
    }
  }

  // ---- The calls of an insert of one type -----------------------------------------------

  function CallFor(etype: string): Group<Option<string>, Addressed> -> Call {
    (g: Group<Option<string>, Addressed>) => Call(etype, g.key, Map(EntityOf(), g.members))
  }

  lemma OneTypeOneCall(path: Option<string>, es: seq<Entity>, etype: string)
    requires es != [] && forall e :: e in es ==> e.etype == etype
    ensures CallsAt(path, es) == [Call(etype, path, es)]
  {
    SingleGroup(TypeOf(), es, etype);
  }

  ghost predicate OneType(groups: seq<Group<Option<string>, Addressed>>, etype: string) {
    forall g :: g in groups ==>
      g.members != [] && forall a :: a in g.members ==> a.entity.etype == etype && a.path == g.key
  }

  lemma {:induction false} OneTypeCalls(groups: seq<Group<Option<string>, Addressed>>, etype: string)
    requires OneType(groups, etype)
    ensures CallsByPath(groups) == Map(CallFor(etype), groups)
  {
    if groups != [] {
      var g, es := groups[0], Map(EntityOf(), groups[0].members);
      assert g in groups;
      forall e | e in es ensures e.etype == etype {
        var i :| 0 <= i < |es| && es[i] == e;
        assert g.members[i] in g.members;
      }
      OneTypeOneCall(g.key, es, etype);
      OneTypeCalls(groups[1..], etype);
    }
  }

  lemma GroupsOfOneType(tagged: seq<Addressed>, etype: string)
    requires forall a :: a in tagged ==> a.entity.etype == etype
    ensures OneType(GroupBy(PathOf(), tagged), etype)
  {
    var keys, groups := FirstKeys(PathOf(), tagged), GroupBy(PathOf(), tagged);
    FirstKeysFacts(PathOf(), tagged);
    forall g | g in groups
      ensures g.members != [] && forall a :: a in g.members ==> a.entity.etype == etype && a.path == g.key
    {
      var i :| 0 <= i < |groups| && groups[i] == g;
      assert keys[i] in keys;
      FilterMembers(HasKey(PathOf(), keys[i]), tagged);
      var a :| a in tagged && PathOf()(a) == keys[i];
      assert a in g.members;
    }
  }

  lemma TaggedOneType(paths: seq<Option<string>>, es: seq<Entity>, etype: string)
    requires (|paths| == 1 || |paths| == |es|) && forall e :: e in es ==> e.etype == etype
    ensures OneType(GroupBy(PathOf(), Address(paths, es)), etype)
  {
    var tagged := Address(paths, es);
    forall a | a in tagged ensures a.entity.etype == etype {
      var i :| 0 <= i < |tagged| && tagged[i] == a;
      assert es[i] in es;
    }
    GroupsOfOneType(tagged, etype);
  }

  lemma OnePathOneCall(path: Option<string>, es: seq<Entity>, etype: string)
    requires forall e :: e in es ==> e.etype == etype
    ensures CallsAt(path, es) == Map(CallFor(etype), GroupBy(PathOf(), Address([path], es)))
  {
    var tagged := Address([path], es);
    if es != [] {
      SingleGroup(PathOf(), tagged, path);
      OneTypeOneCall(path, es, etype);
      AddressedEntities([path], es);
    }
  }

  /** An insert of entities of one type makes one call for each service path. */
  lemma CallsOfOneType(es: seq<Entity>, path: Option<string>, etype: string)
    requires |ServicePaths(path)| == 1 || |ServicePaths(path)| == |es|
    requires forall e :: e in es ==> e.etype == etype
    ensures var groups := GroupBy(PathOf(), Address(ServicePaths(path), es));
      OneType(groups, etype) && Calls(es, path) == Success(Map(CallFor(etype), groups))
  {
    var paths := ServicePaths(path);
    TaggedOneType(paths, es, etype);
    if |paths| == 1 {
      assert paths == [paths[0]];
      OnePathOneCall(paths[0], es, etype);
    } else {
      OneTypeCalls(GroupBy(PathOf(), Address(paths, es)), etype);
    }
  }

  lemma {:induction false} GroupsPosted(groups: seq<Group<Option<string>, Addressed>>, etype: string, now: int)
    requires OneType(groups, etype)
    ensures CallsPosted(Map(CallFor(etype), groups), now) == Map(Arrived(now), Flatten(Map(Members(), groups)))
  {
    if groups != [] {
      var g, rest := groups[0], Flatten(Map(Members(), groups[1..]));
      assert g in groups;
      GroupsPosted(groups[1..], etype, now);
      assert Map(Members(), groups) == [g.members] + Map(Members(), groups[1..]);
      MapConcat(Arrived(now), g.members, rest);
      GroupPosted(g, etype, now);
      assert Map(CallFor(etype), groups) == [CallFor(etype)(g)] + Map(CallFor(etype), groups[1..]);
    }
  }

  lemma GroupPosted(g: Group<Option<string>, Addressed>, etype: string, now: int)
    requires forall a :: a in g.members ==> a.path == g.key
    ensures Posted(now)(CallFor(etype)(g)) == Map(Arrived(now), g.members)
  {
    forall i | 0 <= i < |g.members| ensures Posted(now)(CallFor(etype)(g))[i] == Map(Arrived(now), g.members)[i] {
      assert g.members[i] in g.members;
    }
  }

  /** A whole insert of entities of one type is recorded. */
  lemma RequestIsRecorded(config: Config, schema: Metadata, s: Store, service: Option<string>, etype: string,
                          hist: seq<Addressed>, r: Request)
    requires Lists(config) && WellFormedSchema(schema) && FitsRequest(schema, etype, r)
    requires Recorded(config, schema, s, TableName(etype, service), hist)
    ensures var (after, err) := AfterInsert(s, config, r.entities, service, r.path, r.now);
      && err.None? && Recorded(config, schema, after, TableName(etype, service), hist + Received(r))
      && (r.entities != [] || TableName(etype, service) in s.db.tables ==> TableName(etype, service) in after.db.tables)
  {
    var calls := RequestCalls(schema, etype, r);
    var after := CallsAreRecorded(config, schema, s, service, etype, hist, calls, r.now, hist + Received(r));
  }

  /** The calls a request makes fit, and add what the request adds. */
  lemma RequestCalls(schema: Metadata, etype: string, r: Request) returns (calls: seq<Call>)
    requires FitsRequest(schema, etype, r)
    ensures Calls(r.entities, r.path) == Success(calls) && (r.entities != [] ==> calls != [])
    ensures CallsPosted(calls, r.now) == Received(r)
    ensures forall c :: c in calls ==> FitsSchema(schema, etype, c)
  {
    var tagged := Address(ServicePaths(r.path), r.entities);
    var groups := GroupBy(PathOf(), tagged);
    calls := Map(CallFor(etype), groups);
    CallsOfOneType(r.entities, r.path, etype);
    GroupsPosted(groups, etype, r.now);
    AddressedEntities(ServicePaths(r.path), r.entities);
    CallsFit(schema, groups, etype, tagged, r.entities);
    if r.entities != [] {
      FirstKeysFacts(PathOf(), tagged);
      assert tagged[0] in tagged;
    }
  }

  lemma CallsFit(schema: Metadata, groups: seq<Group<Option<string>, Addressed>>, etype: string,
                 tagged: seq<Addressed>, es: seq<Entity>)
    requires groups == GroupBy(PathOf(), tagged) && Map(EntityOf(), tagged) == es
    requires forall e :: e in es ==> Fits(schema, etype, e)
    ensures forall c :: c in Map(CallFor(etype), groups) ==> FitsSchema(schema, etype, c)
  {
    var calls := Map(CallFor(etype), groups);
    forall c | c in calls ensures FitsSchema(schema, etype, c) {
      var i :| 0 <= i < |calls| && calls[i] == c;
      var g := groups[i];
      FilterMembers(HasKey(PathOf(), g.key), tagged);
      forall e | e in c.entities ensures Fits(schema, etype, e) {
        var j :| 0 <= j < |c.entities| && c.entities[j] == e;
        assert g.members[j] in g.members;
        var k :| 0 <= k < |tagged| && tagged[k] == g.members[j];
        assert es[k] == e && es[k] in es;
      }
    }
  }

  // ---- Runs -----------------------------------------------------------------------------

  lemma {:induction false} BatchesLeaveScript(db: Db, tn: string, cols: seq<Column>, batches: seq<seq<seq<Cell>>>)
    requires AllShaped(batches, |cols|) && db.script == []
    ensures AfterBatches(db, tn, cols, batches).0.script == []
    decreases |batches|
  {
    if batches != [] {
      var (landed, status) := AfterExecuteMany(db, tn, cols, batches[0]);
      if status.Ok? { BatchesLeaveScript(landed, tn, cols, batches[1..]); }
    }
  }

  lemma RowsLeaveScript(db: Db, backend: Backend, tn: string, cols: seq<Column>, batches: seq<seq<seq<Cell>>>,
                        es: seq<Entity>, now: int)
    requires AllShaped(batches, |cols|) && db.script == []
    ensures AfterInsertRows(db, backend, tn, cols, batches, es, now).0.script == []
  {
    BatchesLeaveScript(db, tn, cols, batches);
  }

  lemma InsertLeavesScript(config: Config, s: Store, tn: string, es: seq<Entity>, path: Option<string>, now: int)
    requires CoherentCache(config.cacheName, s) && Lists(config) && s.db.script == []
    ensures AfterInsertOfType(s, config, tn, es, path, now).0.db.script == []
  {
    var (sorted, ok) := AfterSchema(s, config, tn, es);
    MetadataCatchesUp(config, s, tn, es);
    assert sorted.db.script == [];
    if ok {
      RowsLeaveScript(sorted.db, config.backend, tn, Map(InDatabase, config.sorted(TableKeys(es))),
                      TableBatches(config, es, path), es, now);
    }
  }

  lemma {:induction false} CallsLeaveScript(config: Config, s: Store, service: Option<string>, calls: seq<Call>,
                                            now: int)
    requires CoherentCache(config.cacheName, s) && Lists(config) && s.db.script == []
    ensures AfterCalls(s, config, service, calls, now).0.db.script == []
    decreases |calls|
  {
    if calls != [] {
      var call := calls[0];
      var checked := CheckedAll(call.etype, call.entities, now);
      if checked.Success? {
        InsertLeavesScript(config, s, TableName(call.etype, service), checked.value, call.path, now);
      }
      CallStaysCoherent(config, s, service, call, now, "");
      var (next, err) := AfterCall(s, config, service, call, now);
      if err.None? { CallsLeaveScript(config, next, service, calls[1..], now); }
    }
  }

  /** What happens elsewhere, whether it succeeds or not, leaves table, metadata and accepted statements alone. */
  lemma ElsewhereLeaves(config: Config, s: Store, op: Operation, tn: string)
    requires CoherentCache(config.cacheName, s) && Lists(config) && Elsewhere(op, tn)
    ensures var after := AfterOperation(config, s, op);
      && CoherentCache(config.cacheName, after) && SameAt(s.db, after.db, tn)
      && (s.db.script == [] ==> after.db.script == [])
  {
    OperationStaysCoherent(config, s, op, tn);
    OperationLeavesScript(config, s, op);
    if op.Insert? && Calls(op.entities, op.path).Success? {
      var calls := Calls(op.entities, op.path).value;
      forall c | c in calls ensures TableName(c.etype, op.service) != tn {
        CallTypes(op.entities, op.path, c);
      }
      CallsStayCoherent(config, s, op.service, calls, op.now, tn);
    }
  }

  lemma OperationLeavesScript(config: Config, s: Store, op: Operation)
    requires CoherentCache(config.cacheName, s) && Lists(config)
    ensures s.db.script == [] ==> AfterOperation(config, s, op).db.script == []
  {
    if s.db.script == [] && op.Insert? && Calls(op.entities, op.path).Success? {
      CallsLeaveScript(config, s, op.service, Calls(op.entities, op.path).value, op.now);
    }
  }

  lemma ElsewhereStaysRecorded(config: Config, schema: Metadata, s: Store, op: Operation, tn: string,
                               hist: seq<Addressed>)
    requires Recorded(config, schema, s, tn, hist) && Lists(config) && Elsewhere(op, tn)
    ensures Recorded(config, schema, AfterOperation(config, s, op), tn, hist)
    ensures tn in AfterOperation(config, s, op).db.tables <==> tn in s.db.tables
  {
    ElsewhereLeaves(config, s, op, tn);
  }

  lemma InsertOperationIsRecorded(config: Config, schema: Metadata, s: Store, op: Operation, etype: string, tn: string,
                                  hist: seq<Addressed>)
    requires Lists(config) && WellFormedSchema(schema) && Recorded(config, schema, s, tn, hist)
    requires FitsTable(schema, etype, tn, op)
    ensures Recorded(config, schema, AfterOperation(config, s, op), tn, hist + Received(RequestOf(op)))
    ensures op.entities != [] || tn in s.db.tables ==> tn in AfterOperation(config, s, op).db.tables
  {
    RequestIsRecorded(config, schema, s, op.service, etype, hist, RequestOf(op));
  }

  lemma OperationIsRecorded(config: Config, schema: Metadata, s: Store, op: Operation, etype: string, tn: string,
                            hist: seq<Addressed>)
    requires Lists(config) && WellFormedSchema(schema) && Recorded(config, schema, s, tn, hist)
    requires FitsTable(schema, etype, tn, op) || Elsewhere(op, tn)
    ensures Recorded(config, schema, AfterOperation(config, s, op), tn, hist + Added(tn, op))
    ensures !Elsewhere(op, tn) || tn in s.db.tables ==> tn in AfterOperation(config, s, op).db.tables
  {
    if Elsewhere(op, tn) {
      ElsewhereStaysRecorded(config, schema, s, op, tn, hist);
      assert hist + [] == hist;
    } else {
      InsertOperationIsRecorded(config, schema, s, op, etype, tn, hist);
    }
  }

  /** After any run whose operations each insert entities of one type into a table or go elsewhere, the rows of the
      table are the entities received, one for one and in order. */
  lemma {:induction false} InsertsAreRecorded(config: Config, schema: Metadata, s: Store, etype: string, tn: string,
                                              ops: seq<Operation>)
    requires Lists(config) && WellFormedSchema(schema)
    requires Coherent(config.cacheName, s, tn) && s.db.script == [] && tn !in s.db.tables
    requires forall op :: op in ops ==> FitsTable(schema, etype, tn, op) || Elsewhere(op, tn)
    ensures Recorded(config, schema, AfterRun(config, s, ops), tn, AllReceived(tn, ops))
    ensures (exists op :: op in ops && !Elsewhere(op, tn)) ==> tn in AfterRun(config, s, ops).db.tables
  {
    if ops != [] {
      var init, op := ops[..|ops| - 1], ops[|ops| - 1];
      assert op in ops && ops == init + [op] && forall o :: o in init ==> o in ops;
      InsertsAreRecorded(config, schema, s, etype, tn, init);
      OperationIsRecorded(config, schema, AfterRun(config, s, init), op, etype, tn, AllReceived(tn, init));
    }
  }

  lemma AllAtOne(tagged: seq<Addressed>, path: Option<string>)
    requires forall a :: a in tagged ==> a.path == path
    ensures Flatten(Map(Members(), GroupBy(PathOf(), tagged))) == tagged
  {
    if tagged != [] {
      SingleGroup(PathOf(), tagged, path);
      assert Map(Members(), [Group(path, tagged)]) == [tagged];
      assert Flatten([tagged]) == tagged;
    }
  }

  lemma GroupedIsPermutation(tagged: seq<Addressed>, now: int)
    ensures multiset(Map(Arrived(now), Flatten(Map(Members(), GroupBy(PathOf(), tagged)))))
         == multiset(Map(Arrived(now), tagged))
  {
    GroupsArePermutation(PathOf(), tagged);
    MapPermutation(Arrived(now), Flatten(Map(Members(), GroupBy(PathOf(), tagged))), tagged);
  }

  /** What a request adds is its entities, each once with its own path and a time index; with one path for all, in
      the order given. */
  lemma ReceivedIsAddressed(r: Request)
    requires |ServicePaths(r.path)| == 1 || |ServicePaths(r.path)| == |r.entities|
    ensures multiset(Received(r)) == multiset(Map(Arrived(r.now), Address(ServicePaths(r.path), r.entities)))
    ensures |ServicePaths(r.path)| == 1 ==>
      Received(r) == Map(Arrived(r.now), Address(ServicePaths(r.path), r.entities))
  {
    var paths := ServicePaths(r.path);
    var tagged := Address(paths, r.entities);
    var grouped := Flatten(Map(Members(), GroupBy(PathOf(), tagged)));
    assert Received(r) == Map(Arrived(r.now), grouped);
    GroupedIsPermutation(tagged, r.now);
    if |paths| == 1 {
      assert forall a :: a in tagged ==> a.path == paths[0];
      AllAtOne(tagged, paths[0]);
    }
  }
}
