/** What every sequential run of translator operations keeps: tables, stored metadata and cache agree. */
module Coherence {
  import opened Sequences
  import opened Ngsi
  import opened Database
  import opened RowInsert
  import opened Caching
  import opened Translator

  ghost predicate CoherentTable(table: Table, md: Metadata) {
    BASE_COLUMNS <= md.Keys && InstanceIdKey !in md && table.cols == md.Keys + INTERNAL_COLUMNS
  }

  /** A table is there just when its metadata is, and has the columns the metadata says. */
  ghost predicate CoherentDb(db: Db, tn: string) {
    && (tn in db.metadata <==> tn in db.tables)
    && (tn in db.tables ==> CoherentTable(db.tables[tn], db.metadata[tn]))
  }

  /** A cached metadata entry is the stored one. */
  ghost predicate CoherentCache(hash: string, s: Store) {
    s.caching ==> forall tn :: var hit := Lookup(s.hashes, hash, TableKey(tn));
      hit.Some? ==> tn in s.db.metadata && hit.value == Rows(s.db.metadata[tn])
  }

  ghost predicate Coherent(hash: string, s: Store, tn: string) {
    CoherentDb(s.db, tn) && CoherentCache(hash, s)
  }

  /** The metadata of a table, empty if there is none. */
  function Known(db: Db, tn: string): Metadata {
    if tn in db.metadata then db.metadata[tn] else map[]
  }

  // ---- One insert -----------------------------------------------------------------------

  lemma ReadIsTruthful(hash: string, s: Store, tn: string)
    requires CoherentCache(hash, s)
    ensures var (read, found) := AfterReadMetadata(s, hash, tn);
      && read.db == s.db && read.caching == s.caching && CoherentCache(hash, read)
      && found == if tn in s.db.metadata then Some(s.db.metadata[tn]) else None
  {
  }

  /** A cached entry is the answer, whatever the database has; what the database answers is cached. */
  lemma CachedAnswers(hash: string, s: Store, tn: string)
    requires s.caching
    ensures var (read, found) := AfterReadMetadata(s, hash, tn);
      match Lookup(s.hashes, hash, TableKey(tn))
      case Some(Rows(md)) => read == s && found == Some(md)
      case _ =>
        && found == (if tn in s.db.metadata then Some(s.db.metadata[tn]) else None)
        && (found.Some? ==> Lookup(read.hashes, hash, TableKey(tn)) == Some(Rows(found.value)))
  {
  }

  /** An update leaves the marker of the metadata table in the cache, and no other entry differs but that of the
      table. */
  lemma UpdateMarks(hash: string, s: Store, tn: string, md: Metadata)
    requires s.caching
    ensures var updated := AfterUpdateMetadata(s, hash, tn, md).0;
      && Lookup(updated.hashes, hash, MetadataTable)
           == (if Lookup(s.hashes, hash, MetadataTable).Some? then Lookup(s.hashes, hash, MetadataTable)
               else Some(Marker))
      && forall h, key :: h != hash || (key != MetadataTable && key != TableKey(tn)) ==>
           Lookup(updated.hashes, h, key) == Lookup(s.hashes, h, key)
  {
  }

  lemma UpdateStoresMerge(hash: string, s: Store, tn: string, md: Metadata)
    requires CoherentCache(hash, s)
    ensures var (updated, diff) := AfterUpdateMetadata(s, hash, tn, md);
      && diff == md.Keys - Known(s.db, tn).Keys
      && updated.db == (if diff == {} then s.db
           else s.db.(metadata := s.db.metadata[tn := Merged(Known(s.db, tn), md)]))
      && updated.caching == s.caching && CoherentCache(hash, updated)
  {
    var marked := WithMetadataTable(s, hash);
    assert CoherentCache(hash, marked);
    ReadIsTruthful(hash, marked, tn);
  }

  /** What an insert infers are database names. */
  lemma InferredNames(es: seq<Entity>)
    ensures BASE_COLUMNS <= OriginalAttrs(es).Keys && InstanceIdKey !in OriginalAttrs(es)
  {
    OriginalAttrsKeys(es);
    forall e | e in es ensures !Mentions(e.attrs, InstanceIdKey) { }
  }

  lemma LoweredNames(cols: set<Column>)
    requires InstanceIdKey !in cols
    ensures Lowered(cols) == cols
    ensures Lowered(cols + EXTRA_KEYS) == cols + INTERNAL_COLUMNS
    ensures NamesTwice(cols + EXTRA_KEYS) <==> InstanceIdCol in cols
  {
  }

  lemma NothingToMerge(known: Metadata, md: Metadata)
    requires md.Keys - known.Keys == {}
    ensures Merged(known, md) == known
  {
    assert forall c :: c in md ==> c in known by {
      forall c | c in md ensures c in known { assert c !in md.Keys - known.Keys; }
    }
  }

  lemma FreshMerge(md: Metadata)
    ensures Merged(map[], md) == md
  {
  }

  /** What data definition does to the database: columns are only ever added, to table `tn` alone, and no row
      changes. */
  ghost predicate Defines(db: Db, after: Db, tn: string) {
    && after.script == db.script
    && db.tables.Keys <= after.tables.Keys <= db.tables.Keys + {tn}
    && (forall t :: t in db.tables && t != tn ==> after.tables[t] == db.tables[t])
    && (tn in db.tables ==>
         after.tables[tn].rows == db.tables[tn].rows && db.tables[tn].cols <= after.tables[tn].cols)
    && (tn in after.tables && tn !in db.tables ==> after.tables[tn].rows == [])
  }

  lemma AddingDefines(db: Db, tn: string, cols: set<Column>)
    ensures var after := AfterAddColumns(db, tn, cols);
      Defines(db, after, tn) && after.metadata == db.metadata
  {
  }

  lemma {:induction false} AddingEachDefines(db: Db, tn: string, cols: seq<Column>)
    ensures var after := AfterAddEach(db, tn, cols).0;
      Defines(db, after, tn) && after.metadata == db.metadata
    decreases |cols|
  {
    if cols != [] && tn in db.tables && InDatabase(cols[0]) !in db.tables[tn].cols {
      AddingDefines(db, tn, {cols[0]});
      AddingEachDefines(AfterAddColumns(db, tn, {cols[0]}), tn, cols[1..]);
    }
  }

  lemma CreatingDefines(db: Db, backend: Backend, tn: string, keys: set<Column>)
    ensures var after := AfterCreate(db, backend, tn, keys).0;
      Defines(db, after, tn) && after.metadata == db.metadata
  {
    AddingDefines(db, tn, keys);
  }

  lemma UpdatingDefines(db: Db, backend: Backend, tn: string, cols: seq<Column>)
    ensures var after := AfterUpdateTable(db, backend, tn, cols).0;
      Defines(db, after, tn) && after.metadata == db.metadata
  {
    AddingDefines(db, tn, Elements(cols));
    AddingEachDefines(db, tn, cols);
  }

  lemma SortingOutDefines(s: Store, config: Config, tn: string, keys: set<Column>, md: Metadata, diff: set<Column>)
    ensures var after := AfterSortOutTable(s, config, tn, keys, md, diff).0;
      after == s.(db := after.db) && after.db.metadata == s.db.metadata && Defines(s.db, after.db, tn)
  {
    CreatingDefines(s.db, config.backend, tn, keys);
    UpdatingDefines(s.db, config.backend, tn, config.listed(diff));
  }

  lemma UpdateKeepsTables(s: Store, hash: string, tn: string, md: Metadata)
    ensures var updated := AfterUpdateMetadata(s, hash, tn, md).0;
      updated.db.tables == s.db.tables && updated.db.script == s.db.script && updated.caching == s.caching
  {
  }

  /** The schema of an insert touches the one table, and no row. */
  lemma SchemaDefines(config: Config, s: Store, tn: string, es: seq<Entity>)
    ensures Defines(s.db, AfterSchema(s, config, tn, es).0.db, tn)
  {
    var md := OriginalAttrs(es);
    var (updated, diff) := AfterUpdateMetadata(s, config.cacheName, tn, md);
    UpdateKeepsTables(s, config.cacheName, tn, md);
    SortingOutDefines(updated, config, tn, TableKeys(es), md, diff);
  }

  // ---- Columns added one by one ---------------------------------------------------------

  /** The columns before the first that every table has already. */
  function BeforeClash(cols: seq<Column>): (front: seq<Column>)
    ensures |front| <= |cols| && front == cols[..|front|]
    ensures forall c :: c in front ==> c !in INTERNAL_COLUMNS
    ensures |front| < |cols| <==> exists c :: c in cols && c in INTERNAL_COLUMNS
  {
    if cols == [] || cols[0] in INTERNAL_COLUMNS then [] else [cols[0]] + BeforeClash(cols[1..])
  }

  function WithColumns(db: Db, tn: string, cols: set<Column>): Db
    requires tn in db.tables
  {
    db.(tables := db.tables[tn := db.tables[tn].(cols := db.tables[tn].cols + cols)])
  }

  lemma OneColumn(db: Db, tn: string, c: Column, rest: set<Column>)
    requires tn in db.tables && !c.InstanceIdKey?
    ensures AfterAddColumns(db, tn, {c}) == WithColumns(db, tn, {c})
    ensures WithColumns(WithColumns(db, tn, {c}), tn, rest) == WithColumns(db, tn, {c} + rest)
  {
    LoweredNames({c});
    assert db.tables[tn].cols + {c} + rest == db.tables[tn].cols + ({c} + rest);
    assert WithColumns(WithColumns(db, tn, {c}), tn, rest).tables == WithColumns(db, tn, {c} + rest).tables;
  }

  lemma NothingAdded(db: Db, tn: string)
    requires tn in db.tables
    ensures WithColumns(db, tn, {}) == db
  {
    assert db.tables[tn].cols + {} == db.tables[tn].cols;
    assert WithColumns(db, tn, {}).tables == db.tables;
  }

  /** The table has the internal columns, and of those to add no others. */
  ghost predicate Addable(db: Db, tn: string, cols: seq<Column>) {
    && tn in db.tables && INTERNAL_COLUMNS <= db.tables[tn].cols && InstanceIdKey !in cols && Distinct(cols)
    && forall c :: c in cols && c in db.tables[tn].cols ==> c in INTERNAL_COLUMNS
  }

  lemma AddableRest(db: Db, tn: string, c: Column, rest: seq<Column>)
    requires Addable(db, tn, [c] + rest)
    ensures c !in rest && c != InstanceIdKey && Addable(WithColumns(db, tn, {c}), tn, rest)
  {
    var all := [c] + rest;
    assert c == all[0] && forall x :: x in rest ==> x in all;
    assert forall i :: 0 <= i < |rest| ==> rest[i] == all[i + 1];
  }

  lemma BeforeClashCons(c: Column, rest: seq<Column>)
    requires c !in INTERNAL_COLUMNS
    ensures BeforeClash([c] + rest) == [c] + BeforeClash(rest)
    ensures Elements(BeforeClash([c] + rest)) == {c} + Elements(BeforeClash(rest))
    ensures BeforeClash([c] + rest) == [c] + rest <==> BeforeClash(rest) == rest
  {
    assert ([c] + rest)[1..] == rest;
  }

  /** Adding columns one by one to a table that has of them just the internal ones: those before the first internal
      one are added, and the call returns when there is none. */
  lemma {:induction false} AddingEach(db: Db, tn: string, cols: seq<Column>)
    requires Addable(db, tn, cols)
    ensures AfterAddEach(db, tn, cols) == (WithColumns(db, tn, Elements(BeforeClash(cols))), BeforeClash(cols) == cols)
    decreases |cols|
  {
    if cols == [] || cols[0] in INTERNAL_COLUMNS {
      assert Elements(BeforeClash(cols)) == {};
      NothingAdded(db, tn);
    } else {
      var c, rest := cols[0], cols[1..];
      assert cols == [c] + rest;
      AddableRest(db, tn, c, rest);
      BeforeClashCons(c, rest);
      OneColumn(db, tn, c, Elements(BeforeClash(rest)));
      AddingEach(WithColumns(db, tn, {c}), tn, rest);
    }
  }

  // ---- The schema of an insert ----------------------------------------------------------

  /** An insert that infers `md` names a column twice when it creates its table, or adds one, on Crate, that the table
      has from the start. */
  ghost predicate Clashes(db: Db, backend: Backend, tn: string, md: Metadata) {
    if tn !in db.metadata then InstanceIdCol in md
    else backend.Crate? && exists c :: c in md && c !in db.metadata[tn] && c in INTERNAL_COLUMNS
  }

  /** `after` is `db` with the columns of `md` known on both sides of table `tn`. */
  ghost predicate CaughtUp(db: Db, after: Db, tn: string, md: Metadata) {
    && CoherentDb(after, tn) && tn in after.tables && Defines(db, after, tn)
    && after.metadata == db.metadata[tn := Merged(Known(db, tn), md)]
  }

  lemma SomethingKnown(db: Db, tn: string, md: Metadata)
    requires EntityIdCol in md && md.Keys - Known(db, tn).Keys == {}
    ensures tn in db.metadata && db.metadata[tn := Known(db, tn)] == db.metadata
  {
    assert EntityIdCol !in md.Keys - Known(db, tn).Keys;
  }

  /** Whatever becomes of the table, the metadata catches up and known entries are never overwritten. */
  lemma MetadataCatchesUp(config: Config, s: Store, tn: string, es: seq<Entity>)
    requires CoherentCache(config.cacheName, s)
    ensures var after := AfterSchema(s, config, tn, es).0;
      && CoherentCache(config.cacheName, after) && after.caching == s.caching && Defines(s.db, after.db, tn)
      && after.db.metadata == s.db.metadata[tn := Merged(Known(s.db, tn), OriginalAttrs(es))]
  {
    var md := OriginalAttrs(es);
    InferredNames(es);
    UpdateStoresMerge(config.cacheName, s, tn, md);
    var (updated, diff) := AfterUpdateMetadata(s, config.cacheName, tn, md);
    SortingOutDefines(updated, config, tn, TableKeys(es), md, diff);
    if diff == {} {
      NothingToMerge(Known(s.db, tn), md);
      SomethingKnown(s.db, tn, md);
    }
  }

  /** A new table gets its columns unless it has one twice; the call returns even then on Timescale. */
  lemma CreatedTable(db: Db, backend: Backend, tn: string, md: Metadata)
    requires tn !in db.tables && BASE_COLUMNS <= md.Keys && InstanceIdKey !in md
    requires tn in db.metadata && db.metadata[tn] == md
    ensures var (after, ok) := AfterCreate(db, backend, tn, md.Keys + EXTRA_KEYS);
      && (CoherentDb(after, tn) <==> InstanceIdCol !in md) && (ok <==> backend.Timescale? || InstanceIdCol !in md)
      && (tn in after.tables <==> InstanceIdCol !in md)
  {
    LoweredNames(md.Keys);
  }

  lemma ColumnsMatch(known: set<Column>, diff: set<Column>, front: set<Column>, internal: set<Column>)
    requires known !! diff && front <= diff && front !! internal
    ensures known + internal + front == known + diff + internal
       <==> forall c :: c in diff ==> c in front || c in internal
  {
    if forall c :: c in diff ==> c in front || c in internal {
      assert known + internal + front == known + diff + internal;
    } else {
      var c :| c in diff && c !in front && c !in internal;
      assert c in known + diff + internal && c !in known + internal + front;
    }
  }

  /** On Timescale a table that kept up with what was known gets all new columns. */
  lemma AlteredOnTimescale(db: Db, tn: string, known: Metadata, md: Metadata, cols: seq<Column>)
    requires tn in db.tables && CoherentTable(db.tables[tn], known) && InstanceIdKey !in md
    requires tn in db.metadata && db.metadata[tn] == Merged(known, md) && Elements(cols) == md.Keys - known.Keys
    ensures var (after, ok) := AfterUpdateTable(db, Timescale, tn, cols);
      ok && tn in after.tables && CoherentDb(after, tn)
  {
    var diff := Elements(cols);
    LoweredNames(diff);
    assert Merged(known, md).Keys == known.Keys + diff;
    assert db.tables[tn].cols + diff == known.Keys + diff + INTERNAL_COLUMNS;
  }

  lemma CoherentWith(db: Db, tn: string, known: Metadata, md: Metadata, front: set<Column>)
    requires tn in db.tables && CoherentTable(db.tables[tn], known) && InstanceIdKey !in md
    requires tn in db.metadata && db.metadata[tn] == Merged(known, md)
    requires front <= md.Keys - known.Keys && front !! INTERNAL_COLUMNS
    ensures CoherentDb(WithColumns(db, tn, front), tn)
       <==> forall c :: c in md.Keys - known.Keys ==> c in front || c in INTERNAL_COLUMNS
  {
    var diff := md.Keys - known.Keys;
    assert Merged(known, md).Keys == known.Keys + diff;
    ColumnsMatch(known.Keys, diff, front, INTERNAL_COLUMNS);
  }

  /** On Crate it gets those listed before the first clash. */
  lemma AlteredOnCrate(db: Db, tn: string, known: Metadata, md: Metadata, cols: seq<Column>)
    requires tn in db.tables && CoherentTable(db.tables[tn], known) && InstanceIdKey !in md
    requires tn in db.metadata && db.metadata[tn] == Merged(known, md)
    requires Distinct(cols) && Elements(cols) == md.Keys - known.Keys
    ensures var (after, ok) := AfterUpdateTable(db, Crate, tn, cols);
      && tn in after.tables && (ok <==> BeforeClash(cols) == cols)
      && (CoherentDb(after, tn) <==> forall c :: c in Elements(cols) ==>
           c in Elements(BeforeClash(cols)) || c in INTERNAL_COLUMNS)
  {
    var front := BeforeClash(cols);
    assert forall c :: c in cols ==> c in Elements(cols);
    assert forall c :: c in Elements(front) ==> c in front && c in cols;
    assert Addable(db, tn, cols);
    AddingEach(db, tn, cols);
    CoherentWith(db, tn, known, md, Elements(front));
  }

  lemma AlteredTable(config: Config, db: Db, tn: string, known: Metadata, md: Metadata)
    requires Lists(config) && tn in db.tables && CoherentTable(db.tables[tn], known) && InstanceIdKey !in md
    requires tn in db.metadata && db.metadata[tn] == Merged(known, md)
    ensures var diff := md.Keys - known.Keys;
      var (after, ok) := AfterUpdateTable(db, config.backend, tn, config.listed(diff));
      && tn in after.tables
      && (CoherentDb(after, tn) <==> AllListedInFront(config, diff))
      && (ok <==> config.backend.Timescale? || forall c :: c in diff ==> c !in INTERNAL_COLUMNS)
  {
    var diff := md.Keys - known.Keys;
    var listed := config.listed(diff);
    assert Elements(listed) == diff;
    if config.backend.Timescale? {
      AlteredOnTimescale(db, tn, known, md, listed);
    } else {
      AlteredOnCrate(db, tn, known, md, listed);
    }
  }

  /** On Timescale all columns are added; on Crate only what is listed before the first clash, and the clashing ones
      are there already. */
  ghost predicate AllListedInFront(config: Config, diff: set<Column>) {
    config.backend.Timescale?
    || forall c :: c in diff ==> c in BeforeClash(config.listed(diff)) || c in INTERNAL_COLUMNS
  }

  /** When the table keeps up: a new one unless it would have `instanceid` twice, an altered one unless a clash stops
      the alter too early. */
  ghost predicate SchemaFits(config: Config, db: Db, tn: string, md: Metadata) {
    if tn !in db.metadata then InstanceIdCol !in md else AllListedInFront(config, md.Keys - db.metadata[tn].Keys)
  }

  lemma CreatedSchema(config: Config, s: Store, tn: string, es: seq<Entity>)
    requires Coherent(config.cacheName, s, tn) && tn !in s.db.metadata
    ensures var md := OriginalAttrs(es);
      var (after, ok) := AfterSchema(s, config, tn, es);
      && AfterUpdateMetadata(s, config.cacheName, tn, md).1 == md.Keys != {}
      && (CoherentDb(after.db, tn) <==> InstanceIdCol !in md) && (tn in after.db.tables <==> InstanceIdCol !in md)
      && (ok <==> config.backend.Timescale? || InstanceIdCol !in md)
  {
    var md := OriginalAttrs(es);
    InferredNames(es);
    assert EntityIdCol in md;
    UpdateStoresMerge(config.cacheName, s, tn, md);
    FreshMerge(md);
    CreatedTable(AfterUpdateMetadata(s, config.cacheName, tn, md).0.db, config.backend, tn, md);
  }

  lemma AlteredSchema(config: Config, s: Store, tn: string, es: seq<Entity>)
    requires Coherent(config.cacheName, s, tn) && tn in s.db.metadata && Lists(config)
    ensures var md := OriginalAttrs(es);
      var diff := md.Keys - s.db.metadata[tn].Keys;
      var (after, ok) := AfterSchema(s, config, tn, es);
      && AfterUpdateMetadata(s, config.cacheName, tn, md).1 == diff != md.Keys
      && tn in after.db.tables && (CoherentDb(after.db, tn) <==> AllListedInFront(config, diff))
      && (ok <==> config.backend.Timescale? || forall c :: c in diff ==> c !in INTERNAL_COLUMNS)
  {
    var md, known := OriginalAttrs(es), s.db.metadata[tn];
    InferredNames(es);
    assert EntityIdCol in md && EntityIdCol in known && EntityIdCol !in md.Keys - known.Keys;
    UpdateStoresMerge(config.cacheName, s, tn, md);
    if md.Keys - known.Keys != {} {
      AlteredTable(config, AfterUpdateMetadata(s, config.cacheName, tn, md).0.db, tn, known, md);
    }
  }

  /** What an insert does to a table that kept up so far: it is created, not altered, exactly when it has no metadata,
      and without a clash the new columns are added to both sides. */
  lemma SchemaStaysCoherent(config: Config, s: Store, tn: string, es: seq<Entity>)
    requires Coherent(config.cacheName, s, tn) && Lists(config)
    ensures var md := OriginalAttrs(es);
      var diff := AfterUpdateMetadata(s, config.cacheName, tn, md).1;
      var (after, ok) := AfterSchema(s, config, tn, es);
      && CoherentCache(config.cacheName, after)
      && (CoherentDb(after.db, tn) <==> SchemaFits(config, s.db, tn, md))
      && (ok <==> config.backend.Timescale? || !Clashes(s.db, config.backend, tn, md))
      && (!Clashes(s.db, config.backend, tn, md) ==> ok && CaughtUp(s.db, after.db, tn, md))
      && (diff != {} && diff == md.Keys <==> tn !in s.db.metadata)
  {
    MetadataCatchesUp(config, s, tn, es);
    if tn !in s.db.metadata {
      CreatedSchema(config, s, tn, es);
    } else {
      AlteredSchema(config, s, tn, es);
      NoClashAllInFront(config, OriginalAttrs(es).Keys - s.db.metadata[tn].Keys);
    }
  }

  lemma NoClashAllInFront(config: Config, diff: set<Column>)
    requires Lists(config)
    ensures (forall c :: c in diff ==> c !in INTERNAL_COLUMNS) ==> AllListedInFront(config, diff)
  {
    var listed := config.listed(diff);
    if forall c :: c in diff ==> c !in INTERNAL_COLUMNS {
      assert forall c :: c in listed ==> c in diff;
      assert BeforeClash(listed) == listed;
    }
  }

  // ---- The rows of an insert ------------------------------------------------------------

  /** Table and metadata are the same. */
  ghost predicate SameAt(a: Db, b: Db, tn: string) {
    && (tn in a.tables <==> tn in b.tables) && (tn in a.tables ==> a.tables[tn] == b.tables[tn])
    && (tn in a.metadata <==> tn in b.metadata) && (tn in a.metadata ==> a.metadata[tn] == b.metadata[tn])
  }

  /** Bulk inserts touch neither columns nor metadata, and add rows behind those of their table. */
  ghost predicate AddsRows(a: Db, b: Db, tn: string) {
    && a.metadata == b.metadata && a.tables.Keys == b.tables.Keys
    && (forall t :: t in a.tables && t != tn ==> a.tables[t] == b.tables[t])
    && (tn in a.tables ==> a.tables[tn].cols == b.tables[tn].cols && a.tables[tn].rows <= b.tables[tn].rows)
  }

  lemma {:induction false} BatchesAddRows(db: Db, tn: string, cols: seq<Column>, batches: seq<seq<seq<Cell>>>)
    requires AllShaped(batches, |cols|)
    ensures AddsRows(db, AfterBatches(db, tn, cols, batches).0, tn)
    decreases |batches|
  {
    if batches != [] {
      var (landed, status) := AfterExecuteMany(db, tn, cols, batches[0]);
      assert AddsRows(db, landed, tn);
      if status.Ok? { BatchesAddRows(landed, tn, cols, batches[1..]); }
    }
  }

  lemma InsertRowsAddRows(db: Db, backend: Backend, tn: string, cols: seq<Column>,
                          batches: seq<seq<seq<Cell>>>, es: seq<Entity>, now: int)
    requires AllShaped(batches, |cols|)
    ensures AddsRows(db, AfterInsertRows(db, backend, tn, cols, batches, es, now).0, tn)
  {
    BatchesAddRows(db, tn, cols, batches);
    var (landed, err) := AfterBatches(db, tn, cols, batches);
    assert AddsRows(landed, AfterExecuteMany(landed, tn, RESCUE_COLS, RescueRows(es, now)).0, tn);
  }

  lemma InsertAddsRows(config: Config, s: Store, tn: string, es: seq<Entity>, path: Option<string>, now: int)
    requires Lists(config)
    ensures var after := AfterInsertOfType(s, config, tn, es, path, now).0;
      var sorted := AfterSchema(s, config, tn, es).0;
      after == sorted.(db := after.db) && AddsRows(sorted.db, after.db, tn)
  {
    var (sorted, ok) := AfterSchema(s, config, tn, es);
    if ok {
      var cols := Map(InDatabase, config.sorted(TableKeys(es)));
      InsertRowsAddRows(sorted.db, config.backend, tn, cols, TableBatches(config, es, path), es, now);
    }
  }

  /** `b` knows all that `a` knows, entry by entry. */
  ghost predicate Extends(a: Db, b: Db) {
    forall tn, c :: tn in a.metadata && c in a.metadata[tn] ==>
      tn in b.metadata && c in b.metadata[tn] && b.metadata[tn][c] == a.metadata[tn][c]
  }

  lemma MergeExtends(db: Db, tn: string, md: Metadata, after: Db)
    requires after.metadata == db.metadata[tn := Merged(Known(db, tn), md)]
    ensures Extends(db, after)
  {
  }

  lemma SameMetadataCache(hash: string, s: Store, db: Db)
    requires CoherentCache(hash, s) && db.metadata == s.db.metadata
    ensures CoherentCache(hash, s.(db := db))
  {
  }

  lemma OthersSame(db: Db, sorted: Db, after: Db, tn: string, md: Metadata)
    requires Defines(db, sorted, tn) && AddsRows(sorted, after, tn) && sorted.metadata == db.metadata[tn := md]
    ensures forall t :: t != tn ==> SameAt(db, after, t)
  {
  }

  /** Whatever happens to table and rows, an insert of one type overwrites no entry, leaves the cache coherent and
      touches no other table. */
  lemma InsertOfTypeExtends(config: Config, s: Store, tn: string, es: seq<Entity>, path: Option<string>, now: int)
    requires CoherentCache(config.cacheName, s) && Lists(config)
    ensures var after := AfterInsertOfType(s, config, tn, es, path, now).0;
      && CoherentCache(config.cacheName, after) && Extends(s.db, after.db)
      && forall t :: t != tn ==> SameAt(s.db, after.db, t)
  {
    var sorted, after := AfterSchema(s, config, tn, es).0, AfterInsertOfType(s, config, tn, es, path, now).0;
    InsertAddsRows(config, s, tn, es, path, now);
    MetadataCatchesUp(config, s, tn, es);
    SameMetadataCache(config.cacheName, sorted, after.db);
    MergeExtends(s.db, tn, OriginalAttrs(es), after.db);
    OthersSame(s.db, sorted.db, after.db, tn, Merged(Known(s.db, tn), OriginalAttrs(es)));
  }

  lemma AddedRowsCoherent(a: Db, b: Db, tn: string)
    requires AddsRows(a, b, tn)
    ensures CoherentDb(a, tn) <==> CoherentDb(b, tn)
  {
  }

  /** Whatever happens to the rows, an insert of one type leaves its table coherent exactly when the schema fits. */
  lemma InsertOfTypeStaysCoherent(config: Config, s: Store, tn: string, es: seq<Entity>, path: Option<string>, now: int)
    requires Coherent(config.cacheName, s, tn) && Lists(config)
    ensures var md := OriginalAttrs(es);
      var (after, err) := AfterInsertOfType(s, config, tn, es, path, now);
      && (CoherentDb(after.db, tn) <==> SchemaFits(config, s.db, tn, md))
      && (!Clashes(s.db, config.backend, tn, md) ==> CoherentDb(after.db, tn))
      && (config.backend.Crate? && Clashes(s.db, config.backend, tn, md) ==> err.Some?)
  {
    InsertAddsRows(config, s, tn, es, path, now);
    SchemaStaysCoherent(config, s, tn, es);
    AddedRowsCoherent(AfterSchema(s, config, tn, es).0.db, AfterInsertOfType(s, config, tn, es, path, now).0.db, tn);
  }

  // ---- Calls ----------------------------------------------------------------------------

  /** The call, should it insert into table `tn`, clashes with nothing. */
  ghost predicate CallClear(config: Config, s: Store, service: Option<string>, call: Call, now: int, tn: string) {
    var checked := CheckedAll(call.etype, call.entities, now);
    TableName(call.etype, service) == tn && checked.Success? ==>
      !Clashes(s.db, config.backend, tn, OriginalAttrs(checked.value))
  }

  ghost predicate CallsClear(config: Config, s: Store, service: Option<string>, calls: seq<Call>, now: int, tn: string)
    requires Lists(config)
    decreases |calls|
  {
    calls != [] ==>
      && CallClear(config, s, service, calls[0], now, tn)
      && var (next, err) := AfterCall(s, config, service, calls[0], now);
         err.None? ==> CallsClear(config, next, service, calls[1..], now, tn)
  }

  /** What operations keep however they end. */
  ghost predicate Keeps(hash: string, s: Store, after: Store) {
    CoherentCache(hash, after) && Extends(s.db, after.db)
  }

  lemma CallStaysCoherent(config: Config, s: Store, service: Option<string>, call: Call, now: int, tn: string)
    requires CoherentCache(config.cacheName, s) && Lists(config)
    ensures var after := AfterCall(s, config, service, call, now).0;
      && Keeps(config.cacheName, s, after)
      && (TableName(call.etype, service) != tn ==> SameAt(s.db, after.db, tn))
      && (CoherentDb(s.db, tn) && CallClear(config, s, service, call, now, tn) ==> CoherentDb(after.db, tn))
  {
    var t, checked := TableName(call.etype, service), CheckedAll(call.etype, call.entities, now);
    if checked.Success? {
      InsertOfTypeExtends(config, s, t, checked.value, call.path, now);
      if t == tn && CoherentDb(s.db, tn) {
        InsertOfTypeStaysCoherent(config, s, t, checked.value, call.path, now);
      }
    }
  }

  lemma {:induction false} CallsStayCoherent(config: Config, s: Store, service: Option<string>, calls: seq<Call>,
                                             now: int, tn: string)
    requires CoherentCache(config.cacheName, s) && Lists(config)
    ensures var after := AfterCalls(s, config, service, calls, now).0;
      && Keeps(config.cacheName, s, after)
      && ((forall c :: c in calls ==> TableName(c.etype, service) != tn) ==> SameAt(s.db, after.db, tn))
      && (CoherentDb(s.db, tn) && CallsClear(config, s, service, calls, now, tn) ==> CoherentDb(after.db, tn))
    decreases |calls|
  {
    if calls != [] {
      CallStaysCoherent(config, s, service, calls[0], now, tn);
      var (next, err) := AfterCall(s, config, service, calls[0], now);
      if err.None? { CallsStayCoherent(config, next, service, calls[1..], now, tn); }
    }
  }

  // ---- Runs -----------------------------------------------------------------------------

  datatype Operation =
    | Insert(entities: seq<Entity>, service: Option<string>, path: Option<string>, now: int)
    | Delete(etype: string, service: Option<string>, matching: Row -> bool)
    | Drop(etype: string, service: Option<string>)
    | Expire(hash: string)

  function AfterOperation(config: Config, s: Store, op: Operation): Store
    requires Lists(config)
  {
    match op
    case Insert(es, service, path, now) => AfterInsert(s, config, es, service, path, now).0
    case Delete(etype, service, matching) => AfterDelete(s, config.cacheName, TableName(etype, service), matching)
    case Drop(etype, service) => AfterDrop(s, config.cacheName, TableName(etype, service))
    case Expire(hash) => s.(hashes := s.hashes - {hash})
  }

  function AfterRun(config: Config, s: Store, ops: seq<Operation>): Store
    requires Lists(config)
  {
    if ops == [] then s else AfterOperation(config, AfterRun(config, s, ops[..|ops| - 1]), ops[|ops| - 1])
  }

  ghost predicate NotCached(hash: string, s: Store, tn: string) {
    s.caching ==> Lookup(s.hashes, hash, TableKey(tn)).None?
  }

  /** A delete touches the rows of its table only, keeps what it knows of the columns and forgets the cached entry. */
  lemma DeleteStaysCoherent(hash: string, s: Store, tn: string, matching: Row -> bool)
    requires CoherentCache(hash, s)
    ensures var after := AfterDelete(s, hash, tn, matching);
      && CoherentCache(hash, after) && after.db.metadata == s.db.metadata
      && after.db.tables.Keys == s.db.tables.Keys
      && (forall t :: t in s.db.tables && t != tn ==> after.db.tables[t] == s.db.tables[t])
      && (forall t :: CoherentDb(s.db, t) ==> CoherentDb(after.db, t))
      && (tn !in s.db.tables ==> after == s)
      && (tn in s.db.tables ==>
           && NotCached(hash, after, tn)
           && after.db.tables[tn].cols == s.db.tables[tn].cols
           && forall r :: r in after.db.tables[tn].rows <==> r in s.db.tables[tn].rows && !matching(r))
  {
    if tn in s.db.tables {
      FilterMembers((r: Row) => !matching(r), s.db.tables[tn].rows);
    }
  }

  /** A drop takes the table away, on all three sides; whatever state the table was in, it is coherent then. */
  lemma DropStaysCoherent(hash: string, s: Store, tn: string)
    requires CoherentCache(hash, s)
    ensures var after := AfterDrop(s, hash, tn);
      && CoherentCache(hash, after) && NotCached(hash, after, tn)
      && after.db.metadata == s.db.metadata - {tn} && after.db.tables == s.db.tables - {tn}
      && CoherentDb(after.db, tn) && forall t :: CoherentDb(s.db, t) ==> CoherentDb(after.db, t)
  {
  }

  /** The time limit forgets all entries of the hash, and nothing else. */
  lemma ExpiryStaysCoherent(config: Config, s: Store, expired: string)
    requires Lists(config) && CoherentCache(config.cacheName, s)
    ensures var after := AfterOperation(config, s, Expire(expired));
      && after.db == s.db && CoherentCache(config.cacheName, after)
      && forall h, key :: Lookup(after.hashes, h, key) == if h == expired then None else Lookup(s.hashes, h, key)
  {
  }

  /** No call the operation makes clashes in table `tn`. */
  ghost predicate Clear(config: Config, s: Store, op: Operation, tn: string)
    requires Lists(config)
  {
    op.Insert? && Calls(op.entities, op.path).Success? ==>
      CallsClear(config, s, op.service, Calls(op.entities, op.path).value, op.now, tn)
  }

  lemma OperationStaysCoherent(config: Config, s: Store, op: Operation, tn: string)
    requires CoherentCache(config.cacheName, s) && Lists(config)
    ensures var after := AfterOperation(config, s, op);
      && CoherentCache(config.cacheName, after) && (!op.Drop? ==> Extends(s.db, after.db))
      && (CoherentDb(s.db, tn) && Clear(config, s, op, tn) ==> CoherentDb(after.db, tn))
  {
    match op
    case Insert(es, service, path, now) =>
      var r := Calls(es, path);
      if r.Success? { CallsStayCoherent(config, s, service, r.value, now, tn); }
    case Delete(etype, service, matching) =>
      DeleteStaysCoherent(config.cacheName, s, TableName(etype, service), matching);
    case Drop(etype, service) =>
      DropStaysCoherent(config.cacheName, s, TableName(etype, service));
    case Expire(hash) =>
      ExpiryStaysCoherent(config, s, hash);
  }

  ghost predicate RunClear(config: Config, s: Store, ops: seq<Operation>, tn: string)
    requires Lists(config)
  {
    ops != [] ==>
      && RunClear(config, s, ops[..|ops| - 1], tn)
      && Clear(config, AfterRun(config, s, ops[..|ops| - 1]), ops[|ops| - 1], tn)
  }

  /** Over every run the cache agrees with the metadata, and every table no insert clashes with agrees with its
      metadata. */
  lemma {:induction false} RunStaysCoherent(config: Config, s: Store, ops: seq<Operation>, tn: string)
    requires CoherentCache(config.cacheName, s) && Lists(config)
    ensures CoherentCache(config.cacheName, AfterRun(config, s, ops))
    ensures CoherentDb(s.db, tn) && RunClear(config, s, ops, tn) ==> CoherentDb(AfterRun(config, s, ops).db, tn)
  {
    if ops != [] {
      RunStaysCoherent(config, s, ops[..|ops| - 1], tn);
      OperationStaysCoherent(config, AfterRun(config, s, ops[..|ops| - 1]), ops[|ops| - 1], tn);
    }
  }

  lemma EmptyIsCoherent(hash: string, script: seq<Fate>, hashes: Hashes, caching: bool, tn: string)
    requires hash !in hashes
    ensures Coherent(hash, Store(Db(map[], map[], script), hashes, caching), tn)
  {
  }

  ghost predicate DropsTable(op: Operation, tn: string) {
    op.Drop? && TableName(op.etype, op.service) == tn
  }

  /** As long as a table is not dropped, no metadata entry of it is lost or changed, and its column stays while the
      table is coherent. */
  lemma {:induction false} EntriesSurvive(config: Config, s: Store, ops: seq<Operation>, tn: string, c: Column)
    requires CoherentCache(config.cacheName, s) && Lists(config)
    requires tn in s.db.metadata && c in s.db.metadata[tn]
    requires forall op :: op in ops ==> !DropsTable(op, tn)
    ensures var db := AfterRun(config, s, ops).db;
      && tn in db.metadata && c in db.metadata[tn] && db.metadata[tn][c] == s.db.metadata[tn][c]
      && (CoherentDb(db, tn) ==> tn in db.tables && c in db.tables[tn].cols)
  {
    if ops != [] {
      var init, op := ops[..|ops| - 1], ops[|ops| - 1];
      assert op in ops && forall o :: o in init ==> o in ops;
      EntriesSurvive(config, s, init, tn, c);
      RunStaysCoherent(config, s, init, tn);
      var before := AfterRun(config, s, init);
      OperationStaysCoherent(config, before, op, tn);
      if op.Drop? { DropStaysCoherent(config.cacheName, before, TableName(op.etype, op.service)); }
    }
  }
}
