/** The stateful part of the SQL translator: src/translators/sql_translator.py. */
module Translator {
  import opened Sequences
  import opened Strings
  import opened Ngsi
  import opened Database
  import opened RowInsert
  import opened Caching
  import opened Grouping
  import CostSplitter
  import Response

  /** What a sequence of operations can observe: the database and, when caching is on, the cache. */
  datatype Store = Store(db: Db, hashes: Hashes, caching: bool)

  /** `_et2tn`. Types that differ only in case share a table. */
  function TableName(etype: string, service: Option<string>): string {
    var et := "\"et" + Lower(etype) + "\"";
    if service.Some? && service.value != "" then "\"mt" + Lower(service.value) + "\"." + et else et
  }

  /** A listing of any set of columns without repetition. */
  ghost predicate ListsSets(list: set<Column> -> seq<Column>) {
    forall s :: Distinct(list(s)) && forall c :: c in list(s) <==> c in s
  }

  /** `sorted` and the order in which Python goes through a set, each some such listing. */
  ghost predicate Lists(config: Config) {
    ListsSets(config.sorted) && ListsSets(config.listed)
  }

  // ---- Effects as functions on the store ------------------------------------------------

  function Cached(s: Store, hash: string, key: CacheKey, entry: CacheEntry): Store {
    if s.caching then s.(hashes := Stored(s.hashes, hash, key, entry)) else s
  }

  function Uncached(s: Store, hash: string, key: CacheKey): Store {
    if s.caching then s.(hashes := Removed(s.hashes, hash, key)) else s
  }

  /** `_execute_query_via_cache` for the metadata of one table. */
  function AfterReadMetadata(s: Store, hash: string, tn: string): (Store, Option<Metadata>) {
    match (if s.caching then Lookup(s.hashes, hash, TableKey(tn)) else None)
    case Some(Rows(md)) => (s, Some(md))
    case _ =>
      if tn in s.db.metadata
      then (Cached(s, hash, TableKey(tn), Rows(s.db.metadata[tn])), Some(s.db.metadata[tn]))
      else (s, None)
  }

  function WithMetadataTable(s: Store, hash: string): Store {
    if s.caching && Lookup(s.hashes, hash, MetadataTable).Some? then s else Cached(s, hash, MetadataTable, Marker)
  }

  function Merged(persisted: Metadata, md: Metadata): Metadata {
    persisted + map c | c in md.Keys - persisted.Keys :: md[c]
  }

  /** `_update_metadata_table`: the new store and the columns that were not known. */
  function AfterUpdateMetadata(s: Store, hash: string, tn: string, md: Metadata): (Store, set<Column>) {
    var (read, found) := AfterReadMetadata(WithMetadataTable(s, hash), hash, tn);
    var persisted: Metadata := if found.Some? then found.value else map[];
    var diff := md.Keys - persisted.Keys;
    if diff == {} then (read, diff)
    else
      var merged := Merged(persisted, md);
      var stored := read.(db := read.db.(metadata := read.db.metadata[tn := merged]));
      (Cached(stored, hash, TableKey(tn), Rows(merged)), diff)
  }

  /** Create when nothing was known, alter when something was, leave alone when all was. The second result says
      whether the call returns. */
  function AfterSortOutTable(s: Store, config: Config, tn: string, keys: set<Column>, md: Metadata,
                             diff: set<Column>): (Store, bool) {
    if diff == {} then (s, true)
    else
      var (db, ok) := if diff == md.Keys then AfterCreate(s.db, config.backend, tn, keys)
                      else AfterUpdateTable(s.db, config.backend, tn, config.listed(diff));
      (s.(db := db), ok)
  }

  function AfterSchema(s: Store, config: Config, tn: string, es: seq<Entity>): (Store, bool) {
    var md := OriginalAttrs(es);
    var (updated, diff) := AfterUpdateMetadata(s, config.cacheName, tn, md);
    AfterSortOutTable(updated, config, tn, TableKeys(es), md, diff)
  }

  lemma ListedKeys(config: Config, es: seq<Entity>)
    requires Lists(config)
    ensures var colNames := config.sorted(TableKeys(es));
      OriginalEntityCol in colNames && Distinct(colNames)
  {
  }

  function TableBatches(config: Config, es: seq<Entity>, path: Option<string>): (batches: seq<seq<seq<Cell>>>)
    requires Lists(config)
    ensures AllShaped(batches, |config.sorted(TableKeys(es))|)
    ensures CostSplitter.BatchesFor(config.rowSize, config.insertMaxSize, batches, Flatten(batches))
  {
    var colNames := config.sorted(TableKeys(es));
    ListedKeys(config, es);
    JoinedBatches(config, colNames, Matrix(config.codec, es, OriginalAttrs(es), colNames, path), es)
  }

  /** `_insert_entities_of_type` on entities that passed the checks. */
  function AfterInsertOfType(s: Store, config: Config, tn: string, es: seq<Entity>, path: Option<string>, now: int)
    : (Store, Option<InsertError>)
    requires Lists(config)
  {
    var (sorted, ok) := AfterSchema(s, config, tn, es);
    if !ok then (sorted, Some(InsertError.Database(true)))
    else
      var cols := Map(InDatabase, config.sorted(TableKeys(es)));
      var (db, err) := AfterInsertRows(sorted.db, config.backend, tn, cols, TableBatches(config, es, path), es, now);
      (sorted.(db := db), err)
  }

  // ---- `insert`: one call a type and service path ---------------------------------------

  datatype Call = Call(etype: string, path: Option<string>, entities: seq<Entity>)

  function ServicePaths(path: Option<string>): (paths: seq<Option<string>>)
    ensures |paths| >= 1
  {
    if path.Some? && path.value != ""
    then Map((p: string) => Some(p), Split(StripSpaces(path.value), ','))
    else [path]
  }

  function TypeOf(): Entity -> string { (e: Entity) => e.etype }

  function CallsAt(path: Option<string>, es: seq<Entity>): (calls: seq<Call>)
    ensures |calls| == |GroupBy(TypeOf(), es)|
    ensures forall i :: 0 <= i < |calls| ==>
      calls[i] == Call(GroupBy(TypeOf(), es)[i].key, path, GroupBy(TypeOf(), es)[i].members)
  {
    var groups := GroupBy(TypeOf(), es);
    seq(|groups|, i requires 0 <= i < |groups| => Call(groups[i].key, path, groups[i].members))
  }

  datatype Addressed = Addressed(path: Option<string>, entity: Entity)

  function PathOf(): Addressed -> Option<string> { (a: Addressed) => a.path }
  function EntityOf(): Addressed -> Entity { (a: Addressed) => a.entity }

  /** The entities with their service paths; a single path serves them all. */
  function Address(paths: seq<Option<string>>, es: seq<Entity>): (r: seq<Addressed>)
    requires |paths| == 1 || |paths| == |es|
    ensures |r| == |es|
  {
    seq(|es|, i requires 0 <= i < |es| => Addressed(if |paths| == 1 then paths[0] else paths[i], es[i]))
  }

  function CallsOf(): Group<Option<string>, Addressed> -> seq<Call> {
    (g: Group<Option<string>, Addressed>) => CallsAt(g.key, Map(EntityOf(), g.members))
  }

  function CallsByPath(groups: seq<Group<Option<string>, Addressed>>): seq<Call> {
    Flatten(Map(CallsOf(), groups))
  }

  function Calls(es: seq<Entity>, path: Option<string>): Result<seq<Call>, InsertError> {
    var paths := ServicePaths(path);
    if |paths| == 1 then Success(CallsAt(paths[0], es))
    else if |paths| == |es| then Success(CallsByPath(GroupBy(PathOf(), Address(paths, es))))
    else Failure(BadServicePaths)
  }

  function AfterCall(s: Store, config: Config, service: Option<string>, call: Call, now: int)
    : (Store, Option<InsertError>)
    requires Lists(config)
  {
    match CheckedAll(call.etype, call.entities, now)
    case Failure(err) => (s, Some(err))
    case Success(es) => AfterInsertOfType(s, config, TableName(call.etype, service), es, call.path, now)
  }

  /** Calls run one after the other until one raises. */
  function AfterCalls(s: Store, config: Config, service: Option<string>, calls: seq<Call>, now: int)
    : (Store, Option<InsertError>)
    requires Lists(config)
    decreases |calls|
  {
    if calls == [] then (s, None)
    else
      var (next, err) := AfterCall(s, config, service, calls[0], now);
      if err.Some? then (next, err) else AfterCalls(next, config, service, calls[1..], now)
  }

  /** Calls behind others run on what those leave, unless one of those raised: then they do not run, and the insert ends
      with its error. */
  lemma {:induction false} CallsInTurn(s: Store, config: Config, service: Option<string>, calls: seq<Call>,
                                       more: seq<Call>, now: int)
    requires Lists(config)
    ensures var (after, err) := AfterCalls(s, config, service, calls, now);
      AfterCalls(s, config, service, calls + more, now) ==
        if err.Some? then (after, err) else AfterCalls(after, config, service, more, now)
    ensures |calls| == 1 ==> AfterCalls(s, config, service, calls, now) == AfterCall(s, config, service, calls[0], now)
    decreases |calls|
  {
    if calls == [] {
      assert calls + more == more;
    } else {
      assert (calls + more)[0] == calls[0] && (calls + more)[1..] == calls[1..] + more;
      var (next, err) := AfterCall(s, config, service, calls[0], now);
      if err.None? { CallsInTurn(next, config, service, calls[1..], more, now); }
    }
  }

  function AfterInsert(s: Store, config: Config, es: seq<Entity>, service: Option<string>, path: Option<string>,
                       now: int): (Store, Option<InsertError>)
    requires Lists(config)
  {
    match Calls(es, path)
    case Failure(err) => (s, Some(err))
    case Success(calls) => AfterCalls(s, config, service, calls, now)
  }

  // ---- `delete_entities` and `drop_table` -----------------------------------------------

  /** A delete on a missing table fails and leaves the cache alone. */
  function AfterDelete(s: Store, hash: string, tn: string, matching: Row -> bool): Store {
    if tn !in s.db.tables then s
    else Uncached(s.(db := AfterDeleteRows(s.db, tn, matching)), hash, TableKey(tn))
  }

  /** A failed drop is only logged: the metadata entry goes in any case. */
  function AfterDrop(s: Store, hash: string, tn: string): Store {
    var dropped := s.db.(tables := s.db.tables - {tn}, metadata := s.db.metadata - {tn});
    Uncached(s.(db := dropped), hash, TableKey(tn))
  }

  // ---- What a query answers --------------------------------------------------------------

  function AttrColumn(): string -> Column {
    (attr: string) => ColumnOf(attr)
  }

  /** `*`, or the identifying columns and those of the attributes asked for. */
  function SelectList(config: Config, attrs: Option<seq<string>>, cols: set<Column>): seq<Column> {
    if attrs.None? || attrs.value == [] then config.sorted(cols)
    else [EntityTypeCol, EntityIdCol, TimeIndexCol] + Map(AttrColumn(), attrs.value)
  }

  ghost predicate AsksAll(attrs: Option<seq<string>>) {
    attrs.None? || attrs.value == []
  }

  function HasColumn(c: Column): string -> bool {
    (attr: string) => ColumnOf(attr) == c
  }

  function Is(c: Column): Column -> bool {
    (d: Column) => d == c
  }

  /** How often a query asks for a column: once for each when it asks for all, else as often as an attribute asked for
      has it, and once more for an identifying one. */
  ghost function TimesAsked(attrs: Option<seq<string>>, c: Column): nat {
    if AsksAll(attrs) then 1
    else |Filter(HasColumn(c), attrs.value)| + if c in BASE_COLUMNS then 1 else 0
  }

  /** The table has a column for every attribute asked for. */
  ghost predicate HasAsked(attrs: Option<seq<string>>, table: set<Column>) {
    AsksAll(attrs) || (BASE_COLUMNS <= table && forall a :: a in attrs.value ==> ColumnOf(a) in table)
  }

  /** `cols` are the columns of the table asked for, each as often as asked. */
  ghost predicate ColumnsAsked(attrs: Option<seq<string>>, table: set<Column>, cols: seq<Column>) {
    && (forall c :: c in cols <==> c in table && TimesAsked(attrs, c) > 0)
    && (forall c :: c in table ==> |Filter(Is(c), cols)| == TimesAsked(attrs, c))
  }

  lemma ColumnsOfAttrs(attrs: seq<string>, c: Column)
    ensures |Filter(Is(c), Map(AttrColumn(), attrs))| == |Filter(HasColumn(c), attrs)|
    ensures |Filter(HasColumn(c), attrs)| > 0 <==> exists a :: a in attrs && ColumnOf(a) == c
  {
    FilterMapped(Is(c), AttrColumn(), HasColumn(c), attrs);
    FilterMembers(HasColumn(c), attrs);
    var found := Filter(HasColumn(c), attrs);
    if found != [] { assert found[0] in found; }
  }

  lemma {:induction false} CountOnce(cols: seq<Column>, c: Column)
    requires Distinct(cols)
    ensures |Filter(Is(c), cols)| == if c in cols then 1 else 0
  {
    if cols != [] {
      CountOnce(cols[1..], c);
      assert cols[0] !in cols[1..] && cols == [cols[0]] + cols[1..];
    }
  }

  lemma BaseTimes(c: Column)
    ensures |Filter(Is(c), [EntityTypeCol, EntityIdCol, TimeIndexCol])| == if c in BASE_COLUMNS then 1 else 0
  {
    CountOnce([EntityTypeCol, EntityIdCol, TimeIndexCol], c);
  }

  lemma SelectedTimes(base: seq<Column>, attrs: seq<string>, c: Column)
    ensures var list := base + Map(AttrColumn(), attrs);
      && |Filter(Is(c), list)| == |Filter(Is(c), base)| + |Filter(HasColumn(c), attrs)|
      && (c in list <==> |Filter(Is(c), base)| > 0 || exists a :: a in attrs && ColumnOf(a) == c)
      && (c in list <==> |Filter(Is(c), list)| > 0)
  {
    ColumnsOfAttrs(attrs, c);
    FilterConcat(Is(c), base, Map(AttrColumn(), attrs));
    CountPositive(base + Map(AttrColumn(), attrs), c);
  }

  /** What a query selects are the columns asked for if the table has them, else one it lacks. */
  lemma SelectListAsks(config: Config, attrs: Option<seq<string>>, table: set<Column>)
    requires Lists(config)
    ensures HasAsked(attrs, table) <==> forall c :: c in SelectList(config, attrs, table) ==> c in table
    ensures HasAsked(attrs, table) ==> ColumnsAsked(attrs, table, SelectList(config, attrs, table))
  {
    var list := SelectList(config, attrs, table);
    if AsksAll(attrs) {
      forall c | c in table ensures |Filter(Is(c), list)| == 1 { CountOnce(list, c); }
    } else {
      forall c
        ensures |Filter(Is(c), list)| == TimesAsked(attrs, c) && (c in list <==> TimesAsked(attrs, c) > 0)
        ensures c in list <==> c in BASE_COLUMNS || exists a :: a in attrs.value && ColumnOf(a) == c
      {
        SelectedTimes([EntityTypeCol, EntityIdCol, TimeIndexCol], attrs.value, c);
        BaseTimes(c);
      }
      ListedHave(attrs.value, list, table);
    }
  }

  lemma ListedHave(attrs: seq<string>, list: seq<Column>, table: set<Column>)
    requires forall c :: c in list <==> c in BASE_COLUMNS || exists a :: a in attrs && ColumnOf(a) == c
    ensures BASE_COLUMNS <= table && (forall a :: a in attrs ==> ColumnOf(a) in table)
       <==> forall c :: c in list ==> c in table
  {
    if forall c :: c in list ==> c in table {
      forall a | a in attrs ensures ColumnOf(a) in table { assert ColumnOf(a) in list; }
      forall c | c in BASE_COLUMNS ensures c in table { assert c in list; }
    }
  }

  lemma {:induction false} CountPositive(cols: seq<Column>, c: Column)
    ensures c in cols <==> |Filter(Is(c), cols)| > 0
  {
    FilterMembers(Is(c), cols);
    var found := Filter(Is(c), cols);
    if found != [] { assert found[0] in found; }
  }

  ghost predicate IdentifiedRow(row: Row) {
    CellAt(row, EntityIdCol).Text? && CellAt(row, EntityTypeCol).Text?
  }

  /** The table has the base columns and every row names its entity and type. */
  ghost predicate Identifiable(tables: map<string, Table>, tn: string) {
    tn in tables ==>
      && BASE_COLUMNS <= tables[tn].cols
      && forall i :: 0 <= i < |tables[tn].rows| ==> IdentifiedRow(tables[tn].rows[i])
  }

  lemma ResultIdentified(rows: seq<Row>, cols: seq<Column>, picks: seq<nat>)
    requires forall i :: 0 <= i < |rows| ==> IdentifiedRow(rows[i])
    requires EntityIdCol in cols && EntityTypeCol in cols
    requires Response.InRange(rows, picks)
    ensures Response.AllIdentified(cols, Response.Project(rows, cols, picks))
  {
  }

  /** `response` is what the formatter makes of the page of an ordered selection of the table's rows. */
  ghost predicate ServesQuery(db: Db, config: Config, tn: string, attrs: Option<seq<string>>, keep: Row -> bool,
                              lastN: bool, limit: nat, offset: nat,
                              response: seq<Response.EntityResponse>, picks: seq<nat>) {
    if tn !in db.tables then response == []
    else
      var cols := SelectList(config, attrs, db.tables[tn].cols);
      if exists c :: c in cols && c !in db.tables[tn].cols
      then response == []
      else
        var rows := Response.Project(db.tables[tn].rows, cols, Response.Page(picks, limit, offset));
        && Response.IsSelection(db.tables[tn].rows, keep, lastN, picks)
        && Response.AllIdentified(cols, rows) && Response.AllIdentified(cols, Response.Reverse(rows))
        && Response.InIdOrder(response,
             if tn !in db.metadata then map[]
             else Response.AddRows(config.codec, cols, db.metadata[tn], tn,
                                   if lastN then Response.Reverse(rows) else rows))
  }

  /** The answer for one table. */
  ghost predicate Answers(db: Db, config: Config, tn: string, attrs: Option<seq<string>>, keep: Row -> bool,
                          lastN: bool, limit: nat, offset: nat, response: seq<Response.EntityResponse>) {
    exists picks :: ServesQuery(db, config, tn, attrs, keep, lastN, limit, offset, response, picks)
  }

  ghost predicate ServesAll(db: Db, config: Config, names: seq<string>, attrs: Option<seq<string>>, keep: Row -> bool,
                            lastN: bool, limit: nat, offset: nat, parts: seq<seq<Response.EntityResponse>>,
                            picks: seq<seq<nat>>) {
    && |parts| == |names| && |picks| == |names|
    && forall i :: 0 <= i < |names| ==>
         ServesQuery(db, config, names[i], attrs, keep, lastN, limit, offset, parts[i], picks[i])
  }

  /** The answers for all tables, joined. */
  ghost predicate AnswersAll(db: Db, config: Config, names: seq<string>, attrs: Option<seq<string>>, keep: Row -> bool,
                             lastN: bool, limit: nat, offset: nat, result: seq<Response.EntityResponse>) {
    exists parts, picks ::
      ServesAll(db, config, names, attrs, keep, lastN, limit, offset, parts, picks) && result == Flatten(parts)
  }

  lemma ServesOneMore(db: Db, config: Config, names: seq<string>, attrs: Option<seq<string>>, keep: Row -> bool,
                      lastN: bool, limit: nat, offset: nat, parts: seq<seq<Response.EntityResponse>>,
                      picks: seq<seq<nat>>, tn: string, part: seq<Response.EntityResponse>, found: seq<nat>)
    requires ServesAll(db, config, names, attrs, keep, lastN, limit, offset, parts, picks)
    requires ServesQuery(db, config, tn, attrs, keep, lastN, limit, offset, part, found)
    ensures ServesAll(db, config, names + [tn], attrs, keep, lastN, limit, offset, parts + [part], picks + [found])
  {
  }

  // ---- The translator -------------------------------------------------------------------

  class SqlTranslator {
    const config: Config
    const db: Connection
    const cache: QueryCache?

    constructor (config: Config, db: Connection, cache: QueryCache?)
      ensures this.config == config && this.db == db && this.cache == cache
    {
      this.config, this.db, this.cache := config, db, cache;
    }

    ghost function State(): Store
      reads this, db, cache
    {
      Store(db.State(), if cache == null then map[] else cache.hashes, cache != null)
    }

    method Cache(key: CacheKey, entry: CacheEntry)
      modifies cache
      ensures State() == Cached(old(State()), config.cacheName, key, entry)
    {
      if cache != null { cache.Put(config.cacheName, key, entry); }
    }

    method RemoveFromCache(key: CacheKey)
      modifies cache
      ensures State() == Uncached(old(State()), config.cacheName, key)
    {
      if cache != null { cache.Delete(config.cacheName, key); }
    }

    method ExecuteQueryViaCache(tn: string) returns (found: Option<Metadata>)
      modifies cache
      ensures (State(), found) == AfterReadMetadata(old(State()), config.cacheName, tn)
    {
      if cache != null {
        var hit := cache.Get(config.cacheName, TableKey(tn));
        if hit.Some? && hit.value.Rows? { return Some(hit.value.metadata); }
      }
      if tn !in db.metadata { return None; }
      found := Some(db.metadata[tn]);
      Cache(TableKey(tn), Rows(found.value));
    }

    method UpdateMetadataTable(tn: string, metadata: Metadata) returns (diff: set<Column>)
      modifies db, cache
      ensures (State(), diff) == AfterUpdateMetadata(old(State()), config.cacheName, tn, metadata)
    {
      var known := false;
      if cache != null { known := cache.Exists(config.cacheName, MetadataTable); }
      if !known { Cache(MetadataTable, Marker); }
      var found := ExecuteQueryViaCache(tn);
      var persisted: Metadata := if found.Some? then found.value else map[];
      diff := metadata.Keys - persisted.Keys;
      if diff != {} {
        persisted := persisted + map c | c in diff :: metadata[c];
        db.StoreMetadata(tn, persisted);
        Cache(TableKey(tn), Rows(persisted));
      }
    }

    method InsertEntitiesOfType(etype: string, entities: seq<Entity>, service: Option<string>,
                                path: Option<string>, now: int) returns (err: Option<InsertError>)
      requires Lists(config)
      modifies db, cache
      ensures (State(), err) == AfterCall(old(State()), config, service, Call(etype, path, entities), now)
    {
      var checked := CheckEntities(etype, entities, now);
      if checked.Failure? { return Some(checked.error); }
      var es := checked.value;
      var table, originals := InferColumns(es);
      var tn := TableName(etype, service);
      var ok := SortOutSchema(tn, table, originals, es);
      if !ok { return Some(InsertError.Database(true)); }
      err := InsertRowsOf(tn, es, table, originals, path, now);
    }

    /** The rows of the entities, raw ones if their batches fail. */
    method InsertRowsOf(tn: string, es: seq<Entity>, table: set<Column>, originals: Metadata, path: Option<string>,
                        now: int) returns (err: Option<InsertError>)
      requires Lists(config) && table == TableKeys(es) && originals == OriginalAttrs(es)
      modifies db
      ensures (db.State(), err) == AfterInsertRows(old(db.State()), config.backend, tn,
        Map(InDatabase, config.sorted(TableKeys(es))), TableBatches(config, es, path), es, now)
    {
      var colNames := config.sorted(table);
      ListedKeys(config, es);
      var entries := GatherValues(es, originals, colNames, path);
      err := InsertEntityRows(db, config, tn, colNames, entries, es, now);
    }

    /** Metadata and table catch up with the entities. */
    method SortOutSchema(tn: string, table: set<Column>, originals: Metadata, ghost es: seq<Entity>)
      returns (ok: bool)
      requires table == TableKeys(es) && originals == OriginalAttrs(es)
      modifies db, cache
      ensures (State(), ok) == AfterSchema(old(State()), config, tn, es)
    {
      var modified := UpdateMetadataTable(tn, originals);
      ok := SortOutDataTable(tn, table, originals, modified);
    }

    method SortOutDataTable(tn: string, table: set<Column>, originals: Metadata, modified: set<Column>)
      returns (ok: bool)
      modifies db
      ensures (State(), ok) == AfterSortOutTable(old(State()), config, tn, table, originals, modified)
    {
      ok := true;
      if modified != {} && modified == originals.Keys {
        ok := CreateDataTable(db, config.backend, tn, table);
      } else if modified != {} {
        ok := UpdateDataTable(db, config.backend, tn, config.listed(modified));
      }
    }

    method GatherValues(es: seq<Entity>, originals: Metadata, colNames: seq<Column>, path: Option<string>)
      returns (entries: seq<seq<Cell>>)
      ensures |entries| == |es| && Shaped(entries, |colNames|)
      ensures entries == Matrix(config.codec, es, originals, colNames, path)
    {
      ghost var matrix := Matrix(config.codec, es, originals, colNames, path);
      entries := [];
      for i := 0 to |es|
        invariant entries == matrix[..i]
      {
        var values := PreprocessValues(config.codec, es[i], originals, colNames, path);
        assert values == matrix[i];
        entries := entries + [values];
      }
    }

    method Partition(entities: seq<Entity>, path: Option<string>) returns (r: Result<seq<Call>, InsertError>)
      ensures r == Calls(entities, path)
    {
      var paths := ServicePaths(path);
      if |paths| == 1 {
        var calls := PartitionAt(paths[0], entities);
        return Success(calls);
      }
      if |paths| != |entities| { return Failure(BadServicePaths); }
      var byPath := CollectGroups(PathOf(), Address(paths, entities));
      var calls := PartitionByPath(byPath);
      r := Success(calls);
    }

    method PartitionByPath(byPath: seq<Group<Option<string>, Addressed>>) returns (calls: seq<Call>)
      ensures calls == CallsByPath(byPath)
    {
      calls := [];
      for i := 0 to |byPath|
        invariant calls == CallsByPath(byPath[..i])
      {
        FlatMapSnoc(CallsOf(), byPath, i);
        var more := PartitionAt(byPath[i].key, Map(EntityOf(), byPath[i].members));
        calls := calls + more;
      }
      assert byPath[..|byPath|] == byPath;
    }

    method PartitionAt(path: Option<string>, es: seq<Entity>) returns (calls: seq<Call>)
      ensures calls == CallsAt(path, es)
    {
      var groups := CollectGroups(TypeOf(), es);
      calls := seq(|groups|, i requires 0 <= i < |groups| => Call(groups[i].key, path, groups[i].members));
    }

    method Insert(entities: seq<Entity>, service: Option<string>, path: Option<string>, now: int)
      returns (err: Option<InsertError>)
      requires Lists(config)
      modifies db, cache
      ensures (State(), err) == AfterInsert(old(State()), config, entities, service, path, now)
    {
      var r := Partition(entities, path);
      if r.Failure? { return Some(r.error); }
      err := RunCalls(r.value, service, now);
    }

    method RunCalls(calls: seq<Call>, service: Option<string>, now: int) returns (err: Option<InsertError>)
      requires Lists(config)
      modifies db, cache
      ensures (State(), err) == AfterCalls(old(State()), config, service, calls, now)
    {
      ghost var goal := AfterCalls(State(), config, service, calls, now);
      assert calls[0..] == calls;
      for i := 0 to |calls|
        invariant goal == AfterCalls(State(), config, service, calls[i..], now)
      {
        var call := calls[i];
        assert calls[i..][0] == call && calls[i..][1..] == calls[i + 1..];
        var e := InsertEntitiesOfType(call.etype, call.entities, service, call.path, now);
        if e.Some? { return e; }
      }
      err := None;
    }

    method DeleteEntities(etype: string, matching: Row -> bool, service: Option<string>)
      modifies db, cache
      ensures State() == AfterDelete(old(State()), config.cacheName, TableName(etype, service), matching)
    {
      var tn := TableName(etype, service);
      var ok := db.DeleteRows(tn, matching);
      if ok { RemoveFromCache(TableKey(tn)); }
    }

    method DropTable(etype: string, service: Option<string>)
      modifies db, cache
      ensures State() == AfterDrop(old(State()), config.cacheName, TableName(etype, service))
    {
      var tn := TableName(etype, service);
      db.DropTable(tn);
      db.DeleteMetadata(tn);
      RemoveFromCache(TableKey(tn));
    }

    /** One table's part of `query`, without aggregation. A table or column the database does not know gives
        no entities, as a failed statement does. */
    method QueryTable(tn: string, attrs: Option<seq<string>>, keep: Row -> bool, lastN: bool, limit: nat, offset: nat)
      returns (response: seq<Response.EntityResponse>)
      requires Lists(config) && Identifiable(db.tables, tn)
      ensures Answers(db.State(), config, tn, attrs, keep, lastN, limit, offset, response)
      ensures tn !in db.tables || !HasAsked(attrs, db.tables[tn].cols) ==> response == []
    {
      if tn !in db.tables {
        assert ServesQuery(db.State(), config, tn, attrs, keep, lastN, limit, offset, [], []);
        return [];
      }
      var cols := SelectList(config, attrs, db.tables[tn].cols);
      SelectListAsks(config, attrs, db.tables[tn].cols);
      var rows := Response.SelectRows(db, tn, cols, keep, lastN, limit, offset);
      if rows.None? {
        assert ServesQuery(db.State(), config, tn, attrs, keep, lastN, limit, offset, [], []);
        return [];
      }
      ghost var picks :|
        Response.SelectionGives(db.tables[tn].rows, cols, keep, lastN, limit, offset, rows.value, picks);
      Response.PagePicks(db.tables[tn].rows, keep, lastN, picks, limit, offset);
      ResultIdentified(db.tables[tn].rows, cols, Response.Page(picks, limit, offset));
      var md := if tn in db.metadata then Some(db.metadata[tn]) else None;
      response := Response.FormatResponse(config.codec, rows.value, cols, md, tn, lastN);
      assert ServesQuery(db.State(), config, tn, attrs, keep, lastN, limit, offset, response, picks);
    }

    /** `query` over the given tables, without aggregation: the parts of the tables in name order.
        None is the invalid-parameter error. */
    method Query(tables: set<string>, attrs: Option<seq<string>>, keep: Row -> bool, lastN: Option<int>,
                 limit: Option<int>, offset: int)
      returns (r: Option<seq<Response.EntityResponse>>)
      requires Lists(config) && forall tn :: tn in tables ==> Identifiable(db.tables, tn)
      ensures lastN == Some(0) || limit == Some(0) ==> r == Some([])
      ensures lastN != Some(0) && limit != Some(0) ==>
        (r.None? <==> Response.GetLimit(config.defaultLimit, limit, lastN).None?)
      ensures r.Some? && lastN != Some(0) && limit != Some(0) ==>
        AnswersAll(db.State(), config, Sorted(tables), attrs, keep, lastN.Some?,
                   Response.GetLimit(config.defaultLimit, limit, lastN).value,
                   if offset < 0 then 0 else offset, r.value)
    {
      if lastN == Some(0) || limit == Some(0) { return Some([]); }
      var n := Response.GetLimit(config.defaultLimit, limit, lastN);
      if n.None? { return None; }
      var result := QueryTables(Sorted(tables), attrs, keep, lastN.Some?, n.value, if offset < 0 then 0 else offset);
      r := Some(result);
    }

    method QueryTables(names: seq<string>, attrs: Option<seq<string>>, keep: Row -> bool, lastN: bool,
                       limit: nat, offset: nat)
      returns (result: seq<Response.EntityResponse>)
      requires Lists(config) && forall tn :: tn in names ==> Identifiable(db.tables, tn)
      ensures AnswersAll(db.State(), config, names, attrs, keep, lastN, limit, offset, result)
    {
      result := [];
      ghost var parts: seq<seq<Response.EntityResponse>> := [];
      ghost var picks: seq<seq<nat>> := [];
      for i := 0 to |names|
        invariant result == Flatten(parts) && |parts| == |picks| == i
        invariant ServesAll(db.State(), config, names[..i], attrs, keep, lastN, limit, offset, parts, picks)
      {
        var entities := QueryTable(names[i], attrs, keep, lastN, limit, offset);
        ghost var found :|
          ServesQuery(db.State(), config, names[i], attrs, keep, lastN, limit, offset, entities, found);
        FlattenSnoc(parts, entities);
        ServesOneMore(db.State(), config, names[..i], attrs, keep, lastN, limit, offset, parts, picks,
                      names[i], entities, found);
        assert names[..i + 1] == names[..i] + [names[i]];
        parts, picks := parts + [entities], picks + [found];
        result := result + entities;
      }
      assert names[..|names|] == names;
    }
  }
}
