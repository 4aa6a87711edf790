/** Tables whose inserts spell their type in one way: after every run what a query finds in them is contiguous by
    type. */
module Spelling {
  import opened Sequences
  import opened Ngsi
  import opened Database
  import opened RowInsert
  import opened Translator
  import opened Coherence
  import opened Queryable
  import opened ByType
  import opened Reports
  import Response

  /** No attribute takes the column of the entity type. */
  ghost predicate LeavesType(attrs: seq<Attr>) {
    forall a :: a in attrs ==> ColumnOf(a.name) != EntityTypeCol
  }

  /** What is inserted into table `tn` is of type `etype`, and no attribute takes the column of the type. */
  ghost predicate SpellsType(op: Operation, tn: string, etype: string) {
    op.Insert? ==>
      forall e :: e in op.entities && TableName(e.etype, op.service) == tn ==> e.etype == etype && LeavesType(e.attrs)
  }

  // ---- The metadata keep the column of the type ------------------------------------------

  lemma {:induction false} AddAttrsTyped(md: Metadata, attrs: seq<Attr>)
    requires TypeSource(md) && LeavesType(attrs)
    ensures TypeSource(AddAttrs(md, attrs))
  {
    if attrs != [] {
      var init, a := attrs[..|attrs| - 1], attrs[|attrs| - 1];
      assert a in attrs && forall x :: x in init ==> x in attrs;
      AddAttrsTyped(md, init);
    }
  }

  lemma {:induction false} InferredTyped(es: seq<Entity>)
    requires forall e :: e in es ==> LeavesType(e.attrs)
    ensures TypeSource(OriginalAttrs(es))
  {
    if es != [] {
      var init, e := es[..|es| - 1], es[|es| - 1];
      assert e in es && forall x :: x in init ==> x in es;
      InferredTyped(init);
      AddAttrsTyped(OriginalAttrs(init), e.attrs);
    }
  }

  ghost predicate TypedMetadata(db: Db, tn: string) {
    tn in db.metadata ==> TypeSource(db.metadata[tn])
  }

  lemma MergeTyped(db: Db, tn: string, md: Metadata)
    requires TypedMetadata(db, tn) && TypeSource(md)
    ensures TypeSource(Merged(Known(db, tn), md))
  {
  }

  lemma CallStaysTyped(config: Config, s: Store, service: Option<string>, call: Call, now: int, tn: string)
    requires CoherentCache(config.cacheName, s) && Lists(config) && TypedMetadata(s.db, tn)
    requires TableName(call.etype, service) == tn ==> forall e :: e in call.entities ==> LeavesType(e.attrs)
    ensures TypedMetadata(AfterCall(s, config, service, call, now).0.db, tn)
  {
    CallStaysCoherent(config, s, service, call, now, tn);
    var checked := CheckedAll(call.etype, call.entities, now);
    if TableName(call.etype, service) == tn && checked.Success? {
      var es := checked.value;
      ChecksPass(call.etype, call.entities, now);
      forall e | e in es ensures LeavesType(e.attrs) {
        var i :| 0 <= i < |es| && es[i] == e;
        assert call.entities[i] in call.entities && IsStamped(call.entities[i], es[i], now);
      }
      InferredTyped(es);
      MergeTyped(s.db, tn, OriginalAttrs(es));
      MetadataCatchesUp(config, s, tn, es);
      InsertAddsRows(config, s, tn, es, call.path, now);
    }
  }

  lemma {:induction false} CallsStayTyped(config: Config, s: Store, service: Option<string>, calls: seq<Call>, now: int,
                                          tn: string)
    requires CoherentCache(config.cacheName, s) && Lists(config) && TypedMetadata(s.db, tn)
    requires forall c, e :: c in calls && TableName(c.etype, service) == tn && e in c.entities ==> LeavesType(e.attrs)
    ensures TypedMetadata(AfterCalls(s, config, service, calls, now).0.db, tn)
    decreases |calls|
  {
    if calls != [] {
      assert calls[0] in calls && forall c :: c in calls[1..] ==> c in calls;
      CallStaysTyped(config, s, service, calls[0], now, tn);
      CallStaysCoherent(config, s, service, calls[0], now, tn);
      var (next, err) := AfterCall(s, config, service, calls[0], now);
      if err.None? { CallsStayTyped(config, next, service, calls[1..], now, tn); }
    }
  }

  lemma OperationStaysTyped(config: Config, s: Store, op: Operation, tn: string, etype: string)
    requires CoherentCache(config.cacheName, s) && Lists(config) && TypedMetadata(s.db, tn) && SpellsType(op, tn, etype)
    ensures TypedMetadata(AfterOperation(config, s, op).db, tn)
  {
    match op
    case Insert(es, service, path, now) =>
      var r := Calls(es, path);
      if r.Success? {
        forall c, e | c in r.value && TableName(c.etype, service) == tn && e in c.entities ensures LeavesType(e.attrs) {
          CallTypes(es, path, c);
        }
        CallsStayTyped(config, s, service, r.value, now, tn);
      }
    case Delete(etype, service, matching) =>
    case Drop(etype, service) =>
    case Expire(hash) =>
  }

  // ---- Runs -----------------------------------------------------------------------------

  /** After every run from an empty database that inserts one spelling of a type into a table, the table has just that
      one. */
  lemma {:induction false} RunKeepsSpelling(config: Config, s: Store, ops: seq<Operation>, tn: string, etype: string)
    requires CoherentCache(config.cacheName, s) && Lists(config) && s.db.tables == map[] && s.db.metadata == map[]
    requires forall op :: op in ops ==> SpellsType(op, tn, etype)
    ensures OneSpelling(AfterRun(config, s, ops).db, tn, etype)
  {
    var spelled := (t: string) => t == etype;
    forall op | op in ops ensures Spelled(op, tn, spelled) { assert SpellsType(op, tn, etype); }
    RunStaysReady(config, s, ops, tn, spelled);
    RunStaysTyped(config, s, ops, tn, etype);
    var db := AfterRun(config, s, ops).db;
    if tn in db.tables {
      var rows := db.tables[tn].rows;
      forall i | 0 <= i < |rows| ensures CellAt(rows[i], EntityTypeCol) == Text(etype) {
        assert Tells(rows[i], spelled);
      }
    }
  }

  lemma {:induction false} RunStaysTyped(config: Config, s: Store, ops: seq<Operation>, tn: string, etype: string)
    requires CoherentCache(config.cacheName, s) && Lists(config) && TypedMetadata(s.db, tn)
    requires forall op :: op in ops ==> SpellsType(op, tn, etype)
    ensures TypedMetadata(AfterRun(config, s, ops).db, tn)
  {
    if ops != [] {
      var init, op := ops[..|ops| - 1], ops[|ops| - 1];
      assert op in ops && forall o :: o in init ==> o in ops;
      RunStaysTyped(config, s, init, tn, etype);
      RunStaysCoherent(config, s, init, tn);
      OperationStaysTyped(config, AfterRun(config, s, init), op, tn, etype);
    }
  }

  /** So what a query finds after such a run is contiguous by type, whatever became of the rows, and reports group it
      by type. */
  lemma QueryAfterRunIsContiguous(config: Config, s: Store, ops: seq<Operation>, names: seq<string>,
                                  attrs: Option<seq<string>>, keep: Row -> bool, lastN: bool, limit: nat, offset: nat,
                                  result: seq<Response.EntityResponse>, spelling: string -> string,
                                  service: Option<string>)
    requires CoherentCache(config.cacheName, s) && Lists(config) && s.db.tables == map[] && s.db.metadata == map[]
    requires Distinct(names) && forall tn :: tn in names ==> TableName(spelling(tn), service) == tn
    requires forall op, tn :: op in ops && tn in names ==> SpellsType(op, tn, spelling(tn))
    requires AnswersAll(AfterRun(config, s, ops).db, config, names, attrs, keep, lastN, limit, offset, result)
    ensures Contiguous(EntityType(), result)
  {
    forall tn | tn in names ensures OneSpelling(AfterRun(config, s, ops).db, tn, spelling(tn)) {
      RunKeepsSpelling(config, s, ops, tn, spelling(tn));
    }
    QueryIsContiguous(AfterRun(config, s, ops).db, config, names, attrs, keep, lastN, limit, offset, result, spelling,
                      service);
  }
}
