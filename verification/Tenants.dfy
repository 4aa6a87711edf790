/** Tenants: `_et2tn` of src/translators/sql_translator.py gives each tables of its own, which what others do leaves
    alone. */
module Tenants {
  import opened Sequences
  import opened Strings
  import opened Ngsi
  import opened Database
  import opened RowInsert
  import opened Caching
  import opened Grouping
  import opened Translator
  import opened Coherence
  import opened Queryable
  import opened History

  // ---- Table names ----------------------------------------------------------------------

  /** The tenant a service header names; none for an empty one. */
  function Tenant(service: Option<string>): string {
    if service.Some? then Lower(service.value) else ""
  }

  /** What stands between tenant and type in a table name. */
  const MARKER: string := "\".\"et"

  lemma SplitAtSameLength<T>(a: seq<T>, x: seq<T>, b: seq<T>, y: seq<T>)
    requires |a| == |b| || |x| == |y|
    ensures a + x == b + y <==> a == b && x == y
  {
    if a + x == b + y {
      assert |a| + |x| == |b| + |y|;
      assert a == (a + x)[..|a|] && b == (b + y)[..|b|] && x == (a + x)[|a|..] && y == (b + y)[|b|..];
    }
  }

  lemma NameWithTenant(etype: string, service: Option<string>)
    ensures TableName(etype, service) ==
      if Tenant(service) == "" then "\"et" + (Lower(etype) + "\"")
      else "\"mt" + (Tenant(service) + MARKER + Lower(etype) + "\"")
  {
  }

  /** The marker does not overlap itself. */
  lemma NoOverlap(x: string, i: nat, k: nat)
    requires 0 < k && i + k + |MARKER| <= |x|
    requires x[i..i + |MARKER|] == MARKER == x[i + k..i + k + |MARKER|]
    ensures k >= |MARKER|
  {
    var a, b := x[i..i + |MARKER|], x[i + k..i + k + |MARKER|];
    assert forall j :: 0 <= j && k + j < |MARKER| ==> b[j] == x[i + k + j] == a[k + j];
    assert b[0] == '"' && b[1] == '.' && a[1] == '.' && a[2] == '"' && a[3] == 'e' && a[4] == 't';
  }

  /** Where two names meet, the longer tenant goes on with the marker. */
  lemma MarkerEnds(u: string, t: string, v: string, w: string)
    requires u + MARKER + t == v + MARKER + w && |u| < |v|
    ensures u + MARKER <= v
    ensures t == v[|u + MARKER|..] + MARKER + w
  {
    var x, k := u + MARKER + t, |v| - |u|;
    assert x[|u|..|u| + |MARKER|] == MARKER == x[|v|..|v| + |MARKER|];
    NoOverlap(x, |u|, k);
    assert v == x[..|v|] && u + MARKER == x[..|u + MARKER|] && t == x[|u + MARKER|..];
  }

  /** One tenant is the other, the marker and more. */
  predicate RunsOn(u: string, v: string) {
    u != "" && u + MARKER <= v
  }

  /** The type makes up for the longer tenant. */
  predicate Fills(u: string, t: string, v: string, w: string) {
    RunsOn(u, v) && t == v[|u + MARKER|..] + MARKER + w
  }

  lemma NamesMeet(u: string, t: string, v: string, w: string)
    requires u != "" && |u| < |v|
    ensures u + MARKER + t == v + MARKER + w <==> Fills(u, t, v, w)
  {
    if u + MARKER + t == v + MARKER + w {
      MarkerEnds(u, t, v, w);
    } else if Fills(u, t, v, w) {
      assert false;
    }
  }

  /** Exactly when two table names are the same, for all types and services. */
  lemma NamesAgree(etype: string, service: Option<string>, otherType: string, other: Option<string>)
    ensures TableName(etype, service) == TableName(otherType, other) <==>
      var (t, u, w, v) := (Lower(etype), Tenant(service), Lower(otherType), Tenant(other));
      (t == w && u == v) || Fills(u, t, v, w) || Fills(v, w, u, t)
  {
    var t, u, w, v := Lower(etype), Tenant(service), Lower(otherType), Tenant(other);
    NameWithTenant(etype, service);
    NameWithTenant(otherType, other);
    if u == "" && v == "" {
      SplitAtSameLength("\"et", t + "\"", "\"et", w + "\"");
      SplitAtSameLength(t, "\"", w, "\"");
    } else if u == "" || v == "" {
      assert TableName(etype, service)[1] != TableName(otherType, other)[1];
    } else {
      var x, y := u + MARKER + t, v + MARKER + w;
      SplitAtSameLength("\"mt", x + "\"", "\"mt", y + "\"");
      SplitAtSameLength(x, "\"", y, "\"");
      if |u| == |v| {
        SplitAtSameLength(u + MARKER, t, v + MARKER, w);
        SplitAtSameLength(u, MARKER, v, MARKER);
      } else if |u| < |v| {
        NamesMeet(u, t, v, w);
      } else {
        NamesMeet(v, w, u, t);
      }
    }
  }

  /** Of different tenants, and neither runs on from the other. */
  predicate Apart(service: Option<string>, other: Option<string>) {
    var u, v := Tenant(service), Tenant(other);
    u != v && !RunsOn(u, v) && !RunsOn(v, u)
  }

  lemma SharedTable(service: Option<string>, other: Option<string>) returns (etype: string)
    requires RunsOn(Tenant(service), Tenant(other))
    ensures TableName(etype, service) == TableName("", other)
  {
    var u, v := Tenant(service), Tenant(other);
    var rest := v[|u + MARKER|..];
    etype := rest + MARKER;
    LowerTwice(other.value);
    assert v == u + MARKER + rest;
    LowerEnd(u + MARKER, rest);
    LowerJoined(rest, "");
    assert etype == rest + MARKER + "";
    assert Lower(etype) == v[|u + MARKER|..] + MARKER + Lower("");
    NamesAgree(etype, service, "", other);
  }

  lemma LowerEnd(a: string, b: string)
    requires Lower(a + b) == a + b
    ensures Lower(b) == b
  {
    LowerConcat(a, b);
    SplitAtSameLength(Lower(a), Lower(b), a, b);
  }

  /** Whatever the types, two services have different tables exactly when they are apart. */
  lemma TenantsApart(service: Option<string>, other: Option<string>)
    ensures (forall t, w :: TableName(t, service) != TableName(w, other)) <==> Apart(service, other)
  {
    if Apart(service, other) {
      forall t, w ensures TableName(t, service) != TableName(w, other) { NamesAgree(t, service, w, other); }
    } else if RunsOn(Tenant(service), Tenant(other)) {
      var t := SharedTable(service, other);
    } else if RunsOn(Tenant(other), Tenant(service)) {
      var w := SharedTable(other, service);
      assert TableName("", service) == TableName(w, other);
    } else {
      NamesAgree("", service, "", other);
    }
  }

  lemma PlainTenant(service: Option<string>)
    requires service.Some? ==> '"' !in service.value
    ensures '"' !in Tenant(service)
  {
    forall i | 0 <= i < |Tenant(service)| ensures Tenant(service)[i] != '"' { LowerAt(service.value, i); }
  }

  /** For services without a double quote a table is that of a type and a tenant, whatever their case. */
  lemma PlainNames(etype: string, service: Option<string>, otherType: string, other: Option<string>)
    requires service.Some? ==> '"' !in service.value
    requires other.Some? ==> '"' !in other.value
    ensures TableName(etype, service) == TableName(otherType, other) <==>
      Lower(etype) == Lower(otherType) && Tenant(service) == Tenant(other)
    ensures Apart(service, other) <==> Tenant(service) != Tenant(other)
  {
    NamesAgree(etype, service, otherType, other);
    NoRun(service, other);
    NoRun(other, service);
  }

  lemma StartHas(a: string, b: string, i: nat)
    requires a <= b && i < |a|
    ensures a[i] in b
  {
    assert b[i] == a[i];
  }

  lemma NoRun(service: Option<string>, other: Option<string>)
    requires other.Some? ==> '"' !in other.value
    ensures !RunsOn(Tenant(service), Tenant(other))
  {
    PlainTenant(other);
    var u, v := Tenant(service), Tenant(other);
    if RunsOn(u, v) { StartHas(u + MARKER, v, |u|); }
  }

  lemma LowerJoined(x: string, y: string)
    ensures Lower(x + MARKER + y) == Lower(x) + MARKER + Lower(y)
  {
    LowerConcat(x + MARKER, y);
    LowerConcat(x, MARKER);
    HasNoUpper(MARKER);
  }

  /** With one every service shares tables with others. */
  lemma QuotedServicesCollide(service: string, rest: string, etype: string)
    requires service != ""
    ensures TableName(rest + MARKER + etype, Some(service)) == TableName(etype, Some(service + MARKER + rest))
  {
    LowerJoined(rest, etype);
    LowerJoined(service, rest);
    var u, v := Tenant(Some(service)), Tenant(Some(service + MARKER + rest));
    assert v == u + MARKER + Lower(rest);
    assert v[|u + MARKER|..] == Lower(rest);
    NamesAgree(rest + MARKER + etype, Some(service), etype, Some(service + MARKER + rest));
  }

  // ---- What one tenant does is not seen by another ---------------------------------------

  /** The operation is that of a tenant apart, or the end of a cache entry. */
  predicate OtherTenant(op: Operation, service: Option<string>) {
    op.Expire? || Apart(op.service, service)
  }

  lemma OtherTenantIsElsewhere(op: Operation, service: Option<string>, etype: string)
    requires OtherTenant(op, service)
    ensures Elsewhere(op, TableName(etype, service))
  {
    if !op.Expire? { TenantsApart(op.service, service); }
  }

  /** The cached metadata entry of a table is as it was. */
  ghost predicate SameEntry(hash: string, s: Store, after: Store, tn: string) {
    Lookup(after.hashes, hash, TableKey(tn)) == Lookup(s.hashes, hash, TableKey(tn))
  }

  lemma SchemaLeavesEntry(config: Config, s: Store, t: string, es: seq<Entity>, tn: string)
    requires t != tn
    ensures SameEntry(config.cacheName, s, AfterSchema(s, config, t, es).0, tn)
  {
    var (updated, diff) := AfterUpdateMetadata(s, config.cacheName, t, OriginalAttrs(es));
    UpdateLeavesEntry(s, config.cacheName, t, OriginalAttrs(es), tn);
    SortingOutDefines(updated, config, t, TableKeys(es), OriginalAttrs(es), diff);
  }

  lemma UpdateLeavesEntry(s: Store, hash: string, t: string, md: Metadata, tn: string)
    requires t != tn
    ensures SameEntry(hash, s, AfterUpdateMetadata(s, hash, t, md).0, tn)
  {
  }

  lemma CallLeavesEntry(config: Config, s: Store, service: Option<string>, call: Call, now: int, tn: string)
    requires Lists(config) && TableName(call.etype, service) != tn
    ensures SameEntry(config.cacheName, s, AfterCall(s, config, service, call, now).0, tn)
  {
    var t, checked := TableName(call.etype, service), CheckedAll(call.etype, call.entities, now);
    if checked.Success? {
      SchemaLeavesEntry(config, s, t, checked.value, tn);
      InsertAddsRows(config, s, t, checked.value, call.path, now);
    }
  }

  lemma {:induction false} CallsLeaveEntry(config: Config, s: Store, service: Option<string>, calls: seq<Call>,
                                           now: int, tn: string)
    requires Lists(config) && forall c :: c in calls ==> TableName(c.etype, service) != tn
    ensures SameEntry(config.cacheName, s, AfterCalls(s, config, service, calls, now).0, tn)
    decreases |calls|
  {
    if calls != [] {
      assert calls[0] in calls && forall c :: c in calls[1..] ==> c in calls;
      CallLeavesEntry(config, s, service, calls[0], now, tn);
      var (next, err) := AfterCall(s, config, service, calls[0], now);
      if err.None? { CallsLeaveEntry(config, next, service, calls[1..], now, tn); }
    }
  }

  lemma ElsewhereLeavesEntry(config: Config, s: Store, op: Operation, tn: string)
    requires Lists(config) && Elsewhere(op, tn) && !op.Expire?
    ensures SameEntry(config.cacheName, s, AfterOperation(config, s, op), tn)
  {
    if op.Insert? && Calls(op.entities, op.path).Success? {
      var calls := Calls(op.entities, op.path).value;
      forall c | c in calls ensures TableName(c.etype, op.service) != tn {
        CallTypes(op.entities, op.path, c);
      }
      CallsLeaveEntry(config, s, op.service, calls, op.now, tn);
    }
  }

  /** An insert, delete or drop of another tenant, whether it succeeds or not, leaves every table of a tenant with its
      rows and columns, its metadata and its cached metadata as they were. */
  lemma OtherTenantLeaves(config: Config, s: Store, op: Operation, service: Option<string>, etype: string)
    requires CoherentCache(config.cacheName, s) && Lists(config) && (op.Expire? || Apart(op.service, service))
    ensures var after, tn := AfterOperation(config, s, op), TableName(etype, service);
      && CoherentCache(config.cacheName, after) && SameAt(s.db, after.db, tn)
      && (!op.Expire? ==> SameEntry(config.cacheName, s, after, tn))
  {
    OtherTenantIsElsewhere(op, service, etype);
    ElsewhereLeaves(config, s, op, TableName(etype, service));
    if !op.Expire? { ElsewhereLeavesEntry(config, s, op, TableName(etype, service)); }
  }

  // ---- Tenants do not interfere ----------------------------------------------------------

  lemma {:induction false} AddingEachAlike(a: Db, b: Db, tn: string, cols: seq<Column>)
    requires SameAt(a, b, tn)
    ensures SameAt(AfterAddEach(a, tn, cols).0, AfterAddEach(b, tn, cols).0, tn)
    ensures AfterAddEach(a, tn, cols).1 == AfterAddEach(b, tn, cols).1
    decreases |cols|
  {
    if cols != [] && tn in a.tables && InDatabase(cols[0]) !in a.tables[tn].cols {
      AddingEachAlike(AfterAddColumns(a, tn, {cols[0]}), AfterAddColumns(b, tn, {cols[0]}), tn, cols[1..]);
    }
  }

  lemma DefinedAlike(a: Db, b: Db, backend: Backend, tn: string, keys: set<Column>, cols: seq<Column>)
    requires SameAt(a, b, tn)
    ensures var x, y := AfterCreate(a, backend, tn, keys), AfterCreate(b, backend, tn, keys);
      SameAt(x.0, y.0, tn) && x.1 == y.1
    ensures var x, y := AfterUpdateTable(a, backend, tn, cols), AfterUpdateTable(b, backend, tn, cols);
      SameAt(x.0, y.0, tn) && x.1 == y.1
  {
    AddingEachAlike(a, b, tn, cols);
  }

  lemma SortingOutAlike(a: Store, b: Store, config: Config, tn: string, keys: set<Column>, md: Metadata,
                        diff: set<Column>)
    requires SameAt(a.db, b.db, tn)
    ensures var x := AfterSortOutTable(a, config, tn, keys, md, diff);
      var y := AfterSortOutTable(b, config, tn, keys, md, diff);
      SameAt(x.0.db, y.0.db, tn) && x.1 == y.1
  {
    DefinedAlike(a.db, b.db, config.backend, tn, keys, config.listed(diff));
  }

  /** What an insert does to a table depends on nothing but the table and its metadata. */
  lemma SchemaAlike(config: Config, a: Store, b: Store, tn: string, es: seq<Entity>)
    requires CoherentCache(config.cacheName, a) && CoherentCache(config.cacheName, b) && SameAt(a.db, b.db, tn)
    ensures var x, y := AfterSchema(a, config, tn, es), AfterSchema(b, config, tn, es);
      SameAt(x.0.db, y.0.db, tn) && x.1 == y.1 && x.0.db.script == a.db.script && y.0.db.script == b.db.script
  {
    var md := OriginalAttrs(es);
    UpdateStoresMerge(config.cacheName, a, tn, md);
    UpdateStoresMerge(config.cacheName, b, tn, md);
    var (x, diff) := AfterUpdateMetadata(a, config.cacheName, tn, md);
    SortingOutAlike(x, AfterUpdateMetadata(b, config.cacheName, tn, md).0, config, tn, TableKeys(es), md, diff);
    SchemaDefines(config, a, tn, es);
    SchemaDefines(config, b, tn, es);
  }

  ghost predicate SameFor(a: Db, b: Db, tn: string) {
    SameAt(a, b, tn) && a.script == b.script
  }

  lemma ExecutedAlike(a: Db, b: Db, tn: string, cols: seq<Column>, batch: seq<seq<Cell>>)
    requires Shaped(batch, |cols|) && SameFor(a, b, tn)
    ensures var x, y := AfterExecuteMany(a, tn, cols, batch), AfterExecuteMany(b, tn, cols, batch);
      SameFor(x.0, y.0, tn) && x.1 == y.1
  {
  }

  lemma {:induction false} BatchesAlike(a: Db, b: Db, tn: string, cols: seq<Column>, batches: seq<seq<seq<Cell>>>)
    requires AllShaped(batches, |cols|) && SameFor(a, b, tn)
    ensures var x, y := AfterBatches(a, tn, cols, batches), AfterBatches(b, tn, cols, batches);
      SameFor(x.0, y.0, tn) && x.1 == y.1
    decreases |batches|
  {
    if batches != [] {
      ExecutedAlike(a, b, tn, cols, batches[0]);
      BatchesAlike(AfterExecuteMany(a, tn, cols, batches[0]).0, AfterExecuteMany(b, tn, cols, batches[0]).0, tn, cols,
                   batches[1..]);
    }
  }

  lemma RowsAlike(a: Db, b: Db, backend: Backend, tn: string, cols: seq<Column>, batches: seq<seq<seq<Cell>>>,
                  es: seq<Entity>, now: int)
    requires AllShaped(batches, |cols|) && SameFor(a, b, tn)
    ensures var x := AfterInsertRows(a, backend, tn, cols, batches, es, now);
      var y := AfterInsertRows(b, backend, tn, cols, batches, es, now);
      SameFor(x.0, y.0, tn) && x.1 == y.1
  {
    BatchesAlike(a, b, tn, cols, batches);
    ExecutedAlike(AfterBatches(a, tn, cols, batches).0, AfterBatches(b, tn, cols, batches).0, tn, RESCUE_COLS,
                  RescueRows(es, now));
  }

  lemma InsertAlike(config: Config, a: Store, b: Store, tn: string, es: seq<Entity>, path: Option<string>, now: int)
    requires CoherentCache(config.cacheName, a) && CoherentCache(config.cacheName, b) && Lists(config)
    requires SameFor(a.db, b.db, tn)
    ensures var x := AfterInsertOfType(a, config, tn, es, path, now);
      var y := AfterInsertOfType(b, config, tn, es, path, now);
      SameFor(x.0.db, y.0.db, tn) && x.1 == y.1
  {
    var (x, ok) := AfterSchema(a, config, tn, es);
    var y := AfterSchema(b, config, tn, es).0;
    SchemaAlike(config, a, b, tn, es);
    if ok {
      RowsAlike(x.db, y.db, config.backend, tn, Map(InDatabase, config.sorted(TableKeys(es))),
                TableBatches(config, es, path), es, now);
    }
  }

  /** To the tenant both stores are the same. */
  ghost predicate Alike(hash: string, a: Store, b: Store, service: Option<string>) {
    && CoherentCache(hash, a) && CoherentCache(hash, b) && a.db.script == b.db.script
    && forall etype :: SameAt(a.db, b.db, TableName(etype, service))
  }

  lemma CallAlike(config: Config, a: Store, b: Store, service: Option<string>, call: Call, now: int)
    requires Lists(config) && Alike(config.cacheName, a, b, service)
    ensures var x, y := AfterCall(a, config, service, call, now), AfterCall(b, config, service, call, now);
      Alike(config.cacheName, x.0, y.0, service) && x.1 == y.1
  {
    var x, y := AfterCall(a, config, service, call, now).0, AfterCall(b, config, service, call, now).0;
    var tn, checked := TableName(call.etype, service), CheckedAll(call.etype, call.entities, now);
    assert SameAt(a.db, b.db, tn);
    if checked.Success? { InsertAlike(config, a, b, tn, checked.value, call.path, now); }
    CallStaysCoherent(config, a, service, call, now, "");
    CallStaysCoherent(config, b, service, call, now, "");
    forall etype ensures SameAt(x.db, y.db, TableName(etype, service)) {
      if TableName(etype, service) != tn {
        CallStaysCoherent(config, a, service, call, now, TableName(etype, service));
        CallStaysCoherent(config, b, service, call, now, TableName(etype, service));
        assert SameAt(a.db, b.db, TableName(etype, service));
      }
    }
  }

  lemma {:induction false} CallsAlike(config: Config, a: Store, b: Store, service: Option<string>, calls: seq<Call>,
                                      now: int)
    requires Lists(config) && Alike(config.cacheName, a, b, service)
    ensures var x, y := AfterCalls(a, config, service, calls, now), AfterCalls(b, config, service, calls, now);
      Alike(config.cacheName, x.0, y.0, service) && x.1 == y.1
    decreases |calls|
  {
    if calls != [] {
      CallAlike(config, a, b, service, calls[0], now);
      CallsAlike(config, AfterCall(a, config, service, calls[0], now).0, AfterCall(b, config, service, calls[0], now).0,
                 service, calls[1..], now);
    }
  }

  lemma DroppedAlike(hash: string, a: Store, b: Store, service: Option<string>, tn: string)
    requires Alike(hash, a, b, service)
    ensures Alike(hash, AfterDrop(a, hash, tn), AfterDrop(b, hash, tn), service)
  {
    DropStaysCoherent(hash, a, tn);
    DropStaysCoherent(hash, b, tn);
    forall etype
      ensures SameAt(AfterDrop(a, hash, tn).db, AfterDrop(b, hash, tn).db, TableName(etype, service))
    {
      assert SameAt(a.db, b.db, TableName(etype, service));
    }
  }

  lemma DeletedAlike(hash: string, a: Store, b: Store, service: Option<string>, tn: string, matching: Row -> bool)
    requires Alike(hash, a, b, service)
    ensures Alike(hash, AfterDelete(a, hash, tn, matching), AfterDelete(b, hash, tn, matching), service)
  {
    DeleteStaysCoherent(hash, a, tn, matching);
    DeleteStaysCoherent(hash, b, tn, matching);
    forall etype
      ensures SameAt(AfterDelete(a, hash, tn, matching).db, AfterDelete(b, hash, tn, matching).db,
                     TableName(etype, service))
    {
      assert SameAt(a.db, b.db, TableName(etype, service));
    }
  }

  /** What an operation of the tenant does, to its tables and to its caller, depends on its own tables only. */
  lemma OwnOperationAlike(config: Config, a: Store, b: Store, op: Operation, service: Option<string>)
    requires Lists(config) && Alike(config.cacheName, a, b, service)
    requires !op.Expire? ==> Tenant(op.service) == Tenant(service)
    ensures Alike(config.cacheName, AfterOperation(config, a, op), AfterOperation(config, b, op), service)
    ensures op.Insert? ==>
      AfterInsert(a, config, op.entities, op.service, op.path, op.now).1
        == AfterInsert(b, config, op.entities, op.service, op.path, op.now).1
  {
    match op
    case Insert(es, other, path, now) =>
      AlikeForAnyCase(config.cacheName, a, b, service, other);
      if Calls(es, path).Success? {
        CallsAlike(config, a, b, other, Calls(es, path).value, now);
        AlikeForAnyCase(config.cacheName, AfterOperation(config, a, op), AfterOperation(config, b, op), other, service);
      }
    case Delete(etype, other, matching) =>
      DeletedAlike(config.cacheName, a, b, service, TableName(etype, other), matching);
    case Drop(etype, other) =>
      DroppedAlike(config.cacheName, a, b, service, TableName(etype, other));
    case Expire(hash) =>
  }

  lemma AlikeForAnyCase(hash: string, a: Store, b: Store, service: Option<string>, other: Option<string>)
    requires Alike(hash, a, b, service) && Tenant(service) == Tenant(other)
    ensures Alike(hash, a, b, other)
  {
    forall etype ensures SameAt(a.db, b.db, TableName(etype, other)) {
      NamesAgree(etype, service, etype, other);
      assert SameAt(a.db, b.db, TableName(etype, service));
    }
  }

  function OfTenant(service: Option<string>): Operation -> bool {
    (op: Operation) => !op.Expire? && Tenant(op.service) == Tenant(service)
  }

  lemma OtherOperationAlike(config: Config, a: Store, b: Store, op: Operation, service: Option<string>)
    requires Lists(config) && Alike(config.cacheName, a, b, service) && a.db.script == [] && OtherTenant(op, service)
    ensures Alike(config.cacheName, AfterOperation(config, a, op), b, service)
    ensures AfterOperation(config, a, op).db.script == []
  {
    OtherTenantLeaves(config, a, op, service, "");
    ElsewhereLeaves(config, a, op, TableName("", service)) by { OtherTenantIsElsewhere(op, service, ""); }
    forall etype ensures SameAt(AfterOperation(config, a, op).db, b.db, TableName(etype, service)) {
      OtherTenantLeaves(config, a, op, service, etype);
      assert SameAt(a.db, b.db, TableName(etype, service));
    }
  }

  /** Whatever other tenants do in between, the tables of a tenant and their metadata are after every run what they
      would be had the tenant been alone, and so is the outcome of its next insert. */
  lemma {:induction false} TenantsDoNotInterfere(config: Config, s: Store, ops: seq<Operation>, service: Option<string>)
    requires CoherentCache(config.cacheName, s) && Lists(config) && s.db.script == []
    requires forall op :: op in ops ==> OfTenant(service)(op) || OtherTenant(op, service)
    ensures Alike(config.cacheName, AfterRun(config, s, ops), AfterRun(config, s, Filter(OfTenant(service), ops)),
                  service)
    ensures AfterRun(config, s, ops).db.script == []
  {
    if ops != [] {
      var init, op := ops[..|ops| - 1], ops[|ops| - 1];
      assert op in ops && ops == init + [op] && forall o :: o in init ==> o in ops;
      TenantsDoNotInterfere(config, s, init, service);
      var own := Filter(OfTenant(service), init);
      var a, b := AfterRun(config, s, init), AfterRun(config, s, own);
      FilterSnoc(OfTenant(service), init, op);
      if OfTenant(service)(op) {
        OwnOperationAlike(config, a, b, op, service);
        OperationLeavesScript(config, a, op);
        assert (own + [op])[..|own|] == own;
      } else {
        OtherOperationAlike(config, a, b, op, service);
        assert own + [] == own;
      }
    }
  }
}
