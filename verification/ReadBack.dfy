/** What was inserted comes back: series of a query against the history of inserts. */
module ReadBack {
  import opened Sequences
  import opened Strings
  import opened Ngsi
  import opened Database
  import opened RowInsert
  import opened Grouping
  import opened Translator
  import opened Coherence
  import opened Response
  import opened History

  // ---- The table's own rows pass the type filter ----------------------------------------

  lemma {:induction false} ContainsMiddle(a: string, part: string, b: string)
    ensures Contains(a + part + b, part)
  {
    var s := a + part + b;
    if a == "" {
      assert part <= s;
    } else {
      assert s[1..] == a[1..] + part + b;
      ContainsMiddle(a[1..], part, b);
    }
  }

  lemma {:induction false} ContainsBehind(a: string, b: string, part: string)
    requires Contains(b, part)
    ensures Contains(a + b, part)
  {
    if a == "" {
      assert a + b == b;
    } else {
      ContainsBehind(a[1..], b, part);
      assert (a + b)[1..] == a[1..] + b;
    }
  }

  lemma TableNameContainsType(etype: string, service: Option<string>)
    ensures Contains(TableName(etype, service), Lower(etype))
  {
    var et := "\"et" + Lower(etype) + "\"";
    ContainsMiddle("\"et", Lower(etype), "\"");
    if service.Some? && service.value != "" {
      ContainsBehind("\"mt" + Lower(service.value) + "\".", et, Lower(etype));
    }
  }

  // ---- Aligned sequences ----------------------------------------------------------------

  lemma {:induction false} FilterMapAligned<S, T, R>(keepS: S -> bool, f: S -> R, xs: seq<S>,
                                                     keepT: T -> bool, g: T -> R, ys: seq<T>)
    requires |xs| == |ys|
    requires forall i :: 0 <= i < |xs| ==> keepS(xs[i]) == keepT(ys[i])
    requires forall i :: 0 <= i < |xs| ==> f(xs[i]) == g(ys[i])
    ensures Map(f, Filter(keepS, xs)) == Map(g, Filter(keepT, ys))
  {
    if xs != [] {
      FilterMapAligned(keepS, f, xs[1..], keepT, g, ys[1..]);
    }
  }

  // ---- Series ---------------------------------------------------------------------------

  function OfEntity(id: string): Addressed -> bool {
    (a: Addressed) => a.entity.id == id
  }

  function TimeCell(): Addressed -> Cell {
    (a: Addressed) => if a.entity.timeIndex.Some? then Stamp(a.entity.timeIndex.value) else Null
  }

  /** What a query shows of an attribute: the inserted value, or null where the entity had none
      or where the back-end could not store it. */
  function Slot(codec: Codec, origin: Origin): Addressed -> Option<Datum> {
    (a: Addressed) =>
      if !origin.AttrOrigin? then None
      else
        var attr := FindAttr(a.entity.attrs, origin.name);
        if attr.None? || codec.toDb(attr.value.datum, origin.atype) == Null then None else Some(attr.value.datum)
  }

  function Picked(hist: seq<Addressed>, picks: seq<nat>): (r: seq<Addressed>)
    requires forall i :: 0 <= i < |picks| ==> picks[i] < |hist|
    ensures |r| == |picks| && forall i :: 0 <= i < |picks| ==> r[i] == hist[picks[i]]
  {
    seq(|picks|, i requires 0 <= i < |picks| => hist[picks[i]])
  }

  ghost predicate OfType(hist: seq<Addressed>, etype: string) {
    forall i :: 0 <= i < |hist| ==> hist[i].entity.etype == etype
  }

  function TimeKey(a: Addressed): int {
    if a.entity.timeIndex.Some? then a.entity.timeIndex.value else 0
  }

  ghost predicate InTimeOrder(seen: seq<Addressed>) {
    forall i, j :: 0 <= i < j < |seen| ==> TimeKey(seen[i]) <= TimeKey(seen[j])
  }

  ghost predicate Identifies(cols: seq<Column>) {
    EntityIdCol in cols && EntityTypeCol in cols
  }

  lemma OwnSources(schema: Metadata, md: Metadata, cols: seq<Column>)
    requires WellFormedSchema(schema) && WithinSchema(schema, md)
    ensures OwnColumns(cols, md)
  {
  }

  lemma ProjectReadsAlike(rows: seq<Row>, cols: seq<Column>, picks: seq<nat>)
    ensures AllReadAlike(cols, Project(rows, cols, picks))
  {
  }

  /** Where one column alone feeds a part of a response, the columns that feed it are its occurrences. */
  lemma {:induction false} FeedingCounts(cols: seq<Column>, md: Metadata, m: nat, source: Origin -> bool, c: Column)
    requires m <= |cols| && forall d :: d in md ==> (source(md[d]) <==> d == c)
    requires c in md
    ensures Feeding(cols, md, m, source) == |Filter(Is(c), cols[..m])|
  {
    if m > 0 {
      FeedingCounts(cols, md, m - 1, source, c);
      assert cols[..m] == cols[..m - 1] + [cols[m - 1]];
      FilterSnoc(Is(c), cols[..m - 1], cols[m - 1]);
    }
  }

  lemma TimeFeeds(schema: Metadata, md: Metadata, cols: seq<Column>)
    requires WellFormedSchema(schema) && WithinSchema(schema, md)
    ensures Feeding(cols, md, |cols|, TheTime()) == |Filter(Is(TimeIndexCol), cols)|
  {
    var base := BASE_COLUMNS;
    assert TimeIndexCol in base;
    FeedingCounts(cols, md, |cols|, TheTime(), TimeIndexCol);
    assert cols[..|cols|] == cols;
  }

  lemma AttrFeeds(schema: Metadata, md: Metadata, cols: seq<Column>, c: Column)
    requires WellFormedSchema(schema) && WithinSchema(schema, md) && c in md && c !in BASE_COLUMNS
    ensures c in schema && Feeding(cols, md, |cols|, NamedAttr(schema[c].name)) == |Filter(Is(c), cols)|
  {
    FeedingCounts(cols, md, |cols|, NamedAttr(schema[c].name), c);
    assert cols[..|cols|] == cols;
  }

  lemma RowShows(codec: Codec, schema: Metadata, row: Row, a: Addressed, cols: seq<Column>, tn: string, id: string)
    requires Represents(codec, schema, row, a) && Identifies(cols) && Contains(tn, Lower(a.entity.etype))
    ensures Identified(cols, Cells(row, cols))
    ensures RowsOf(cols, tn, id)(Cells(row, cols)) <==> OfEntity(id)(a)
  {
  }

  lemma RowReads(codec: Codec, schema: Metadata, row: Row, a: Addressed, cols: seq<Column>, j: nat)
    requires Represents(codec, schema, row, a) && j < |cols| && Inverse(codec)
    ensures cols[j] == TimeIndexCol ==> CellOf(j)(Cells(row, cols)) == TimeCell()(a)
    ensures cols[j] in schema && schema[cols[j]].AttrOrigin? ==>
      ReadCell(codec, j, schema[cols[j]].atype)(Cells(row, cols)) == Slot(codec, schema[cols[j]])(a)
  {
  }

  /** The rows at some positions of the table, seen as history. */
  lemma SelectionShows(config: Config, schema: Metadata, s: Store, etype: string, service: Option<string>,
                       hist: seq<Addressed>, cols: seq<Column>, picks: seq<nat>, id: string)
    requires var tn := TableName(etype, service);
      && Recorded(config, schema, s, tn, hist) && tn in s.db.tables && OfType(hist, etype)
      && InRange(s.db.tables[tn].rows, picks)
    requires Identifies(cols)
    ensures forall i :: 0 <= i < |picks| ==> picks[i] < |hist|
    ensures var tn := TableName(etype, service);
      var found := Project(s.db.tables[tn].rows, cols, picks);
      && AllIdentified(cols, found)
      && forall i :: 0 <= i < |picks| ==>
           RowsOf(cols, tn, id)(found[i]) == OfEntity(id)(Picked(hist, picks)[i])
  {
    var tn := TableName(etype, service);
    var rows := s.db.tables[tn].rows;
    TableNameContainsType(etype, service);
    forall i | 0 <= i < |picks|
      ensures Identified(cols, Cells(rows[picks[i]], cols))
      ensures RowsOf(cols, tn, id)(Cells(rows[picks[i]], cols)) == OfEntity(id)(hist[picks[i]])
    {
      RowShows(config.codec, schema, rows[picks[i]], hist[picks[i]], cols, tn, id);
    }
  }

  /** The index of an entity is the times of its selected entities, in order. */
  lemma IndexReadBack(config: Config, schema: Metadata, s: Store, etype: string, service: Option<string>,
                      hist: seq<Addressed>, cols: seq<Column>, picks: seq<nat>, id: string, j: nat)
    requires var tn := TableName(etype, service);
      && Recorded(config, schema, s, tn, hist) && tn in s.db.tables && OfType(hist, etype)
      && InRange(s.db.tables[tn].rows, picks)
    requires WellFormedSchema(schema) && Inverse(config.codec)
    requires Identifies(cols) && j < |cols| && cols[j] == TimeIndexCol
    ensures forall i :: 0 <= i < |picks| ==> picks[i] < |hist|
    ensures var tn := TableName(etype, service);
      var found := Project(s.db.tables[tn].rows, cols, picks);
      var mine := Filter(OfEntity(id), Picked(hist, picks));
      && AllIdentified(cols, found)
      && var es := AddRows(config.codec, cols, s.db.metadata[tn], tn, found);
      && IndexSeries(es, id) == Stutter(|Filter(Is(TimeIndexCol), cols)|, Map(TimeCell(), mine))
      && (id in es <==> mine != [])
  {
    var tn := TableName(etype, service);
    var md := s.db.metadata[tn];
    var found := Project(s.db.tables[tn].rows, cols, picks);
    SelectionShows(config, schema, s, etype, service, hist, cols, picks, id);
    OwnSources(schema, md, cols);
    ProjectReadsAlike(s.db.tables[tn].rows, cols, picks);
    TimeFeeds(schema, md, cols);
    RowsGiveIndex(config.codec, cols, md, tn, found, id, j);
    RowsGiveEntities(config.codec, cols, md, tn, found, id, j);
    var seen := Picked(hist, picks);
    forall i | 0 <= i < |found| ensures CellOf(j)(found[i]) == TimeCell()(seen[i]) {
      RowReads(config.codec, schema, s.db.tables[tn].rows[picks[i]], hist[picks[i]], cols, j);
    }
    FilterMapAligned(RowsOf(cols, tn, id), CellOf(j), found, OfEntity(id), TimeCell(), seen);
  }

  /** Every attribute series has one slot for each of the same entities: the value or null. */
  lemma ValuesReadBack(config: Config, schema: Metadata, s: Store, etype: string, service: Option<string>,
                       hist: seq<Addressed>, cols: seq<Column>, picks: seq<nat>, id: string, j: nat)
    requires var tn := TableName(etype, service);
      && Recorded(config, schema, s, tn, hist) && tn in s.db.tables && OfType(hist, etype)
      && InRange(s.db.tables[tn].rows, picks)
      && j < |cols| && cols[j] in s.db.metadata[tn] && cols[j] !in BASE_COLUMNS
    requires WellFormedSchema(schema) && Inverse(config.codec) && Identifies(cols)
    ensures forall i :: 0 <= i < |picks| ==> picks[i] < |hist|
    ensures var tn := TableName(etype, service);
      var found := Project(s.db.tables[tn].rows, cols, picks);
      && AllIdentified(cols, found) && cols[j] in schema
      && ValueSeries(AddRows(config.codec, cols, s.db.metadata[tn], tn, found), id, schema[cols[j]].name)
           == Stutter(|Filter(Is(cols[j]), cols)|,
                      Map(Slot(config.codec, schema[cols[j]]), Filter(OfEntity(id), Picked(hist, picks))))
  {
    var tn := TableName(etype, service);
    var md := s.db.metadata[tn];
    var found := Project(s.db.tables[tn].rows, cols, picks);
    SelectionShows(config, schema, s, etype, service, hist, cols, picks, id);
    OwnSources(schema, md, cols);
    ProjectReadsAlike(s.db.tables[tn].rows, cols, picks);
    AttrFeeds(schema, md, cols, cols[j]);
    RowsGiveValues(config.codec, cols, md, tn, found, id, j);
    var origin := schema[cols[j]];
    var seen := Picked(hist, picks);
    forall i | 0 <= i < |found|
      ensures ReadCell(config.codec, j, origin.atype)(found[i]) == Slot(config.codec, origin)(seen[i])
    {
      RowReads(config.codec, schema, s.db.tables[tn].rows[picks[i]], hist[picks[i]], cols, j);
    }
    FilterMapAligned(RowsOf(cols, tn, id), ReadCell(config.codec, j, origin.atype), found,
                     OfEntity(id), Slot(config.codec, origin), seen);
  }

  // ---- From the first insert to the response --------------------------------------------

  lemma ReceivedOfType(schema: Metadata, etype: string, r: Request)
    requires FitsRequest(schema, etype, r)
    ensures OfType(Received(r), etype)
  {
    var arrived := Map(Arrived(r.now), Address(ServicePaths(r.path), r.entities));
    ReceivedIsAddressed(r);
    SameMembers(Received(r), arrived);
    assert OfType(arrived, etype) by {
      forall k | 0 <= k < |arrived| ensures arrived[k].entity.etype == etype { assert r.entities[k] in r.entities; }
    }
    SubsetOfType(Received(r), arrived, etype);
  }

  lemma SubsetOfType(part: seq<Addressed>, whole: seq<Addressed>, etype: string)
    requires OfType(whole, etype) && forall a :: a in part ==> a in whole
    ensures OfType(part, etype)
  {
    forall i | 0 <= i < |part| ensures part[i].entity.etype == etype { assert part[i] in part; }
  }

  lemma {:induction false} AllOfType(schema: Metadata, etype: string, tn: string, ops: seq<Operation>)
    requires forall op :: op in ops ==> FitsTable(schema, etype, tn, op) || Elsewhere(op, tn)
    ensures OfType(AllReceived(tn, ops), etype)
  {
    if ops != [] {
      var init, op := ops[..|ops| - 1], ops[|ops| - 1];
      assert op in ops && forall o :: o in init ==> o in ops;
      AllOfType(schema, etype, tn, init);
      if op.Insert? && !Elsewhere(op, tn) { ReceivedOfType(schema, etype, RequestOf(op)); }
    }
  }

  /** Every entity of the answer has its id and type. */
  lemma LabelsReadBack(config: Config, schema: Metadata, s: Store, etype: string, service: Option<string>,
                       hist: seq<Addressed>, cols: seq<Column>, picks: seq<nat>, id: string)
    requires var tn := TableName(etype, service);
      && Recorded(config, schema, s, tn, hist) && tn in s.db.tables && OfType(hist, etype)
      && InRange(s.db.tables[tn].rows, picks)
    requires WellFormedSchema(schema) && Identifies(cols)
    ensures var tn := TableName(etype, service);
      var found := Project(s.db.tables[tn].rows, cols, picks);
      && AllIdentified(cols, found)
      && Labelled(AddRows(config.codec, cols, s.db.metadata[tn], tn, found), id, etype)
  {
    var tn := TableName(etype, service);
    var md, rows := s.db.metadata[tn], s.db.tables[tn].rows;
    var found := Project(rows, cols, picks);
    SelectionShows(config, schema, s, etype, service, hist, cols, picks, id);
    OwnSources(schema, md, cols);
    ProjectReadsAlike(rows, cols, picks);
    forall i | 0 <= i < |found| ensures Identified(cols, found[i]) && RowType(cols, found[i]) == etype {
      assert Represents(config.codec, schema, rows[picks[i]], hist[picks[i]]);
    }
    RowsLabel(config.codec, cols, md, tn, found, id, etype);
  }

  /** The answer lists the entities of `seen` under their ids and type: the index of each is the time indexes of its
      entries in order, and for every attribute asked for, and for no other, it has the type and a series, which shows
      for each entry the inserted value or null; each time and value as often as it is asked for. */
  ghost predicate Shows(codec: Codec, schema: Metadata, etype: string, md: Metadata, attrs: Option<seq<string>>,
                        es: Entities, seen: seq<Addressed>) {
    && (forall id :: id in es <==> Filter(OfEntity(id), seen) != [])
    && (forall id :: Labelled(es, id, etype))
    && (forall id :: IndexSeries(es, id)
          == Stutter(TimesAsked(attrs, TimeIndexCol), Map(TimeCell(), Filter(OfEntity(id), seen))))
    && (forall id, c :: c in schema && c in md && TimesAsked(attrs, c) > 0 ==>
          ShowsAttr(codec, schema[c], TimesAsked(attrs, c), es, id, Filter(OfEntity(id), seen)))
    && (forall id, name :: id in es && name in es[id].attrs ==>
          AsksFor(schema, md, attrs, name, es[id].attrs[name].atype))
  }

  /** The entity has a series for the attribute, with `n` slots for each of its entries. */
  ghost predicate ShowsAttr(codec: Codec, origin: Origin, n: nat, es: Entities, id: string, mine: seq<Addressed>) {
    origin.AttrOrigin? && (id in es ==> origin.name in es[id].attrs)
    && ValueSeries(es, id, origin.name) == Stutter(n, Map(Slot(codec, origin), mine))
  }

  /** The attribute is asked for, and known with this type. */
  ghost predicate AsksFor(schema: Metadata, md: Metadata, attrs: Option<seq<string>>, name: string,
                          atype: Option<string>) {
    exists c :: c in schema && c in md && TimesAsked(attrs, c) > 0 && schema[c] == AttrOrigin(name, atype)
  }

  lemma RecordedAttrs(config: Config, schema: Metadata, s: Store, etype: string, service: Option<string>,
                      hist: seq<Addressed>, attrs: Option<seq<string>>, cols: seq<Column>, picks: seq<nat>, id: string,
                      c: Column, found: seq<seq<Cell>>, mine: seq<Addressed>)
    requires var tn := TableName(etype, service);
      && Recorded(config, schema, s, tn, hist) && tn in s.db.tables && OfType(hist, etype)
      && InRange(s.db.tables[tn].rows, picks) && ColumnsAsked(attrs, s.db.tables[tn].cols, cols)
      && c in schema && c in s.db.metadata[tn] && TimesAsked(attrs, c) > 0
      && found == Project(s.db.tables[tn].rows, cols, picks)
    requires WellFormedSchema(schema) && Inverse(config.codec) && Identifies(cols) && AllIdentified(cols, found)
    requires forall i :: 0 <= i < |picks| ==> picks[i] < |hist|
    requires mine == Filter(OfEntity(id), Picked(hist, picks))
    requires var tn := TableName(etype, service);
      id in AddRows(config.codec, cols, s.db.metadata[tn], tn, found) ==> mine != []
    ensures var tn := TableName(etype, service);
      ShowsAttr(config.codec, schema[c], TimesAsked(attrs, c),
                AddRows(config.codec, cols, s.db.metadata[tn], tn, found), id, mine)
  {
    var tn := TableName(etype, service);
    AskedIsListed(s.db.tables[tn], s.db.metadata[tn], attrs, cols, c);
    SchemaOutsideBase(schema, c);
    ValuesReadBack(config, schema, s, etype, service, hist, cols, picks, id, IndexOf(cols, c));
    SlotsAreThere(config.codec, schema[c], TimesAsked(attrs, c),
                  AddRows(config.codec, cols, s.db.metadata[tn], tn, found), id, mine);
  }

  lemma SchemaOutsideBase(schema: Metadata, c: Column)
    requires WellFormedSchema(schema) && c in schema
    ensures schema[c].AttrOrigin? && c !in BASE_COLUMNS
  {
    var base := BASE_COLUMNS;
    assert c !in base;
  }

  lemma AttrOfSchema(schema: Metadata, md: Metadata, c: Column)
    requires WithinSchema(schema, md) && c in md && md[c].AttrOrigin?
    ensures c in schema && schema[c] == md[c]
  {
    assert forall d :: d in BASE_COLUMNS ==> md[d] == BASE_METADATA[d] && !BASE_METADATA[d].AttrOrigin?;
  }

  lemma AskedIsListed(table: Table, md: Metadata, attrs: Option<seq<string>>, cols: seq<Column>, c: Column)
    requires CoherentTable(table, md) && ColumnsAsked(attrs, table.cols, cols) && c in md && TimesAsked(attrs, c) > 0
    ensures c in cols && |Filter(Is(c), cols)| == TimesAsked(attrs, c)
  {
  }

  lemma SlotsAreThere(codec: Codec, origin: Origin, n: nat, es: Entities, id: string, mine: seq<Addressed>)
    requires origin.AttrOrigin? && n > 0 && (id in es ==> mine != [])
    requires ValueSeries(es, id, origin.name) == Stutter(n, Map(Slot(codec, origin), mine))
    ensures ShowsAttr(codec, origin, n, es, id, mine)
  {
    if mine != [] { StutterSome(n, Map(Slot(codec, origin), mine)); }
  }

  lemma NoOtherAttrs(codec: Codec, schema: Metadata, table: Table, md: Metadata, tn: string,
                     attrs: Option<seq<string>>, cols: seq<Column>, found: seq<seq<Cell>>, id: string, name: string)
    requires AllIdentified(cols, found) && WithinSchema(schema, md) && ColumnsAsked(attrs, table.cols, cols)
    requires var es := AddRows(codec, cols, md, tn, found); id in es && name in es[id].attrs
    ensures AsksFor(schema, md, attrs, name, AddRows(codec, cols, md, tn, found)[id].attrs[name].atype)
  {
    RowsOnlyFed(codec, cols, md, tn, found);
    var atype := AddRows(codec, cols, md, tn, found)[id].attrs[name].atype;
    assert Feeds(cols, md, name, atype);
    var c :| c in cols && c in md && md[c] == AttrOrigin(name, atype);
    AttrOfSchema(schema, md, c);
  }

  lemma RecordedShows(config: Config, schema: Metadata, s: Store, etype: string, service: Option<string>,
                      hist: seq<Addressed>, attrs: Option<seq<string>>, cols: seq<Column>, picks: seq<nat>)
    requires var tn := TableName(etype, service);
      && Recorded(config, schema, s, tn, hist) && tn in s.db.tables && OfType(hist, etype)
      && InRange(s.db.tables[tn].rows, picks) && ColumnsAsked(attrs, s.db.tables[tn].cols, cols)
    requires WellFormedSchema(schema) && Inverse(config.codec) && Identifies(cols) && TimeIndexCol in cols
    ensures forall i :: 0 <= i < |picks| ==> picks[i] < |hist|
    ensures var tn := TableName(etype, service);
      var found := Project(s.db.tables[tn].rows, cols, picks);
      && AllIdentified(cols, found)
      && Shows(config.codec, schema, etype, s.db.metadata[tn], attrs,
               AddRows(config.codec, cols, s.db.metadata[tn], tn, found), Picked(hist, picks))
  {
    var tn := TableName(etype, service);
    var md, found := s.db.metadata[tn], Project(s.db.tables[tn].rows, cols, picks);
    assert CoherentTable(s.db.tables[tn], md);
    SelectionShows(config, schema, s, etype, service, hist, cols, picks, "");
    var es := AddRows(config.codec, cols, md, tn, found);
    var seen := Picked(hist, picks);
    forall id
      ensures id in es <==> Filter(OfEntity(id), seen) != []
      ensures IndexSeries(es, id)
           == Stutter(TimesAsked(attrs, TimeIndexCol), Map(TimeCell(), Filter(OfEntity(id), seen)))
      ensures Labelled(es, id, etype)
    {
      IndexReadBack(config, schema, s, etype, service, hist, cols, picks, id, IndexOf(cols, TimeIndexCol));
      LabelsReadBack(config, schema, s, etype, service, hist, cols, picks, id);
    }
    forall id, c | c in schema && c in md && TimesAsked(attrs, c) > 0
      ensures ShowsAttr(config.codec, schema[c], TimesAsked(attrs, c), es, id, Filter(OfEntity(id), seen))
    {
      RecordedAttrs(config, schema, s, etype, service, hist, attrs, cols, picks, id, c, found,
                    Filter(OfEntity(id), seen));
    }
    forall id, name | id in es && name in es[id].attrs
      ensures AsksFor(schema, md, attrs, name, es[id].attrs[name].atype)
    {
      NoOtherAttrs(config.codec, schema, s.db.tables[tn], md, tn, attrs, cols, found, id, name);
    }
  }

  /** Row by row the table represents the history. */
  ghost predicate Mirrors(codec: Codec, schema: Metadata, rows: seq<Row>, hist: seq<Addressed>) {
    |rows| == |hist| && forall i :: 0 <= i < |hist| ==> Represents(codec, schema, rows[i], hist[i])
  }

  /** `result` shows, in ascending order, the page of the part of the history whose rows the filter keeps; `picks`
      are the positions it keeps. */
  ghost predicate AnswerShows(codec: Codec, schema: Metadata, etype: string, rows: seq<Row>, md: Metadata,
                              attrs: Option<seq<string>>, hist: seq<Addressed>, keep: Row -> bool, limit: nat,
                              offset: nat, result: seq<EntityResponse>, picks: seq<nat>, es: Entities) {
    var page := Page(picks, limit, offset);
    && Mirrors(codec, schema, rows, hist) && IsSelection(rows, keep, false, picks)
    && (forall i :: 0 <= i < |page| ==> page[i] < |hist|)
    && InTimeOrder(Picked(hist, page))
    && InIdOrder(result, es) && Shows(codec, schema, etype, md, attrs, es, Picked(hist, page))
  }

  /** The database has the table, its metadata and all columns asked for. */
  ghost predicate Answerable(db: Db, tn: string, attrs: Option<seq<string>>) {
    tn in db.tables && tn in db.metadata && HasAsked(attrs, db.tables[tn].cols)
  }

  /** Without the table, a column or the metadata a query has no entities. */
  lemma NothingServed(db: Db, config: Config, tn: string, attrs: Option<seq<string>>, keep: Row -> bool,
                      lastN: bool, limit: nat, offset: nat, result: seq<EntityResponse>, picks: seq<nat>)
    requires Lists(config) && ServesQuery(db, config, tn, attrs, keep, lastN, limit, offset, result, picks)
    requires !Answerable(db, tn, attrs)
    ensures result == []
  {
    if tn in db.tables { SelectListAsks(config, attrs, db.tables[tn].cols); }
    var none: Entities := map[];
    assert none.Keys == {};
  }

  lemma SelectedIdentify(config: Config, attrs: Option<seq<string>>, table: set<Column>)
    requires Lists(config) && BASE_COLUMNS <= table && HasAsked(attrs, table)
    ensures var list := SelectList(config, attrs, table); Identifies(list) && TimeIndexCol in list
  {
    var base := BASE_COLUMNS;
    SelectListAsks(config, attrs, table);
    assert EntityTypeCol in base && EntityIdCol in base && TimeIndexCol in base;
  }

  lemma QueryShows(config: Config, schema: Metadata, s: Store, etype: string, service: Option<string>,
                   hist: seq<Addressed>, attrs: Option<seq<string>>, keep: Row -> bool, limit: nat, offset: nat,
                   result: seq<EntityResponse>, picks: seq<nat>)
    requires Lists(config) && WellFormedSchema(schema) && Inverse(config.codec)
    requires Recorded(config, schema, s, TableName(etype, service), hist) && OfType(hist, etype)
    requires Answerable(s.db, TableName(etype, service), attrs)
    requires ServesQuery(s.db, config, TableName(etype, service), attrs, keep, false, limit, offset, result, picks)
    ensures var tn := TableName(etype, service);
      exists es ::
        AnswerShows(config.codec, schema, etype, s.db.tables[tn].rows, s.db.metadata[tn], attrs, hist, keep, limit,
                    offset, result, picks, es)
  {
    var tn := TableName(etype, service);
    var table, md := s.db.tables[tn], s.db.metadata[tn];
    assert CoherentTable(table, md);
    var page, cols := Page(picks, limit, offset), SelectList(config, attrs, table.cols);
    SelectListAsks(config, attrs, table.cols);
    SelectedIdentify(config, attrs, table.cols);
    PagePicks(table.rows, keep, false, picks, limit, offset);
    RecordedShows(config, schema, s, etype, service, hist, attrs, cols, page);
    PageInOrder(config, schema, s, tn, hist, keep, picks, limit, offset, page);
    assert Mirrors(config.codec, schema, table.rows, hist);
    assert AnswerShows(config.codec, schema, etype, table.rows, md, attrs, hist, keep, limit, offset, result, picks,
                       AddRows(config.codec, cols, md, tn, Project(table.rows, cols, page)));
  }

  lemma RowTime(codec: Codec, schema: Metadata, row: Row, a: Addressed)
    requires Represents(codec, schema, row, a)
    ensures TimeOf(row) == TimeKey(a)
  {
  }

  lemma PageInOrder(config: Config, schema: Metadata, s: Store, tn: string, hist: seq<Addressed>,
                    keep: Row -> bool, picks: seq<nat>, limit: nat, offset: nat, page: seq<nat>)
    requires Recorded(config, schema, s, tn, hist) && tn in s.db.tables
    requires IsSelection(s.db.tables[tn].rows, keep, false, picks) && page == Page(picks, limit, offset)
    requires forall i :: 0 <= i < |page| ==> page[i] < |hist|
    ensures InTimeOrder(Picked(hist, page))
  {
    var rows, seen := s.db.tables[tn].rows, Picked(hist, page);
    forall i, j | 0 <= i < j < |seen| ensures TimeKey(seen[i]) <= TimeKey(seen[j]) {
      assert page[i] == picks[offset + i] && page[j] == picks[offset + j];
      RowTime(config.codec, schema, rows[page[i]], hist[page[i]]);
      RowTime(config.codec, schema, rows[page[j]], hist[page[j]]);
      assert RankIn(rows, false)(page[i]) <= RankIn(rows, false)(page[j]);
    }
  }

  lemma RecordedIsIdentifiable(config: Config, schema: Metadata, s: Store, tn: string, hist: seq<Addressed>)
    requires Recorded(config, schema, s, tn, hist)
    ensures Identifiable(s.db.tables, tn)
  {
    if tn in s.db.tables {
      assert CoherentTable(s.db.tables[tn], s.db.metadata[tn]);
      var rows := s.db.tables[tn].rows;
      forall i | 0 <= i < |rows| ensures IdentifiedRow(rows[i]) {
        assert Represents(config.codec, schema, rows[i], hist[i]);
      }
    }
  }

  lemma OneTableAnswers(db: Db, config: Config, tn: string, attrs: Option<seq<string>>, keep: Row -> bool,
                        lastN: bool, limit: nat, offset: nat, result: seq<EntityResponse>)
    requires AnswersAll(db, config, Sorted({tn}), attrs, keep, lastN, limit, offset, result)
    ensures Answers(db, config, tn, attrs, keep, lastN, limit, offset, result)
  {
    var names := Sorted({tn});
    var parts, picks :|
      ServesAll(db, config, names, attrs, keep, lastN, limit, offset, parts, picks) && result == Flatten(parts);
    assert tn in names && names[0] in names && names[|names| - 1] in names;
    assert |names| == 1 && parts == [parts[0]];
    assert Flatten(parts) == parts[0];
  }

  /** Insert entities of one type any number of times into a store that does not know the type, with whatever happens
      elsewhere in between. `query` may then be called, and what it answers in ascending order shows the entities of the
      page, whatever the attributes asked for, the filter, limit and offset. */
  lemma InsertThenQuery(config: Config, schema: Metadata, s: Store, etype: string, service: Option<string>,
                        tn: string, ops: seq<Operation>, attrs: Option<seq<string>>, keep: Row -> bool, limit: nat,
                        offset: nat, result: seq<EntityResponse>)
    requires Lists(config) && WellFormedSchema(schema) && Inverse(config.codec)
    requires tn == TableName(etype, service)
    requires Coherent(config.cacheName, s, tn) && s.db.script == [] && tn !in s.db.tables
    requires forall op :: op in ops ==> FitsTable(schema, etype, tn, op) || Elsewhere(op, tn)
    requires exists op :: op in ops && !Elsewhere(op, tn)
    ensures var db, hist := AfterRun(config, s, ops).db, AllReceived(tn, ops);
      && tn in db.tables && tn in db.metadata && Identifiable(db.tables, tn)
      && Mirrors(config.codec, schema, db.tables[tn].rows, hist)
      && (forall i :: 0 <= i < |hist| ==> Covered(db.metadata[tn], hist[i].entity))
    ensures var db := AfterRun(config, s, ops).db;
      AnswersAll(db, config, Sorted({tn}), attrs, keep, false, limit, offset, result) ==>
        if Answerable(db, tn, attrs)
        then exists picks, es ::
          AnswerShows(config.codec, schema, etype, db.tables[tn].rows, db.metadata[tn], attrs, AllReceived(tn, ops),
                      keep, limit, offset, result, picks, es)
        else result == []
  {
    var after, hist := AfterRun(config, s, ops), AllReceived(tn, ops);
    InsertsAreRecorded(config, schema, s, etype, tn, ops);
    RecordedIsIdentifiable(config, schema, after, tn, hist);
    if AnswersAll(after.db, config, Sorted({tn}), attrs, keep, false, limit, offset, result) {
      AllOfType(schema, etype, tn, ops);
      OneTableAnswers(after.db, config, tn, attrs, keep, false, limit, offset, result);
      var picks :| ServesQuery(after.db, config, tn, attrs, keep, false, limit, offset, result, picks);
      if Answerable(after.db, tn, attrs) {
        QueryShows(config, schema, after, etype, service, hist, attrs, keep, limit, offset, result, picks);
      } else {
        NothingServed(after.db, config, tn, attrs, keep, false, limit, offset, result, picks);
      }
    }
  }

  /** Asked for all attributes, a table with metadata answers, and every column is asked for once. */
  lemma AllColumnsAnswerable(db: Db, tn: string, c: Column)
    requires tn in db.tables && tn in db.metadata
    ensures Answerable(db, tn, None) && Answerable(db, tn, Some([]))
    ensures TimesAsked(None, c) == TimesAsked(Some([]), c) == 1
  {
  }

  /** What is asked for once is shown once: the index is the times and a series the values, null for none. */
  lemma AskedOnceShows(codec: Codec, schema: Metadata, etype: string, md: Metadata, attrs: Option<seq<string>>,
                       es: Entities, seen: seq<Addressed>, id: string, c: Column)
    requires Shows(codec, schema, etype, md, attrs, es, seen)
    ensures var mine := Filter(OfEntity(id), seen);
      && (TimesAsked(attrs, TimeIndexCol) == 1 ==> IndexSeries(es, id) == Map(TimeCell(), mine))
      && (c in schema && c in md && schema[c].AttrOrigin? && TimesAsked(attrs, c) == 1 ==>
           ValueSeries(es, id, schema[c].name) == Map(Slot(codec, schema[c]), mine))
  {
    var mine := Filter(OfEntity(id), seen);
    StutterOnce(Map(TimeCell(), mine));
    if c in schema && c in md && schema[c].AttrOrigin? && TimesAsked(attrs, c) == 1 {
      assert ShowsAttr(codec, schema[c], TimesAsked(attrs, c), es, id, mine);
      StutterOnce(Map(Slot(codec, schema[c]), mine));
    }
  }

  lemma {:induction false} StutterLength<T>(n: nat, xs: seq<T>, m: nat)
    requires m == |xs|
    ensures |Stutter(n, xs)| == m * n
  {
    if m > 0 {
      StutterLength(n, xs[..m - 1], m - 1);
      assert (m - 1) * n + n == m * n;
    }
  }

  /** In particular the series of an attribute asked for as often as the time is as long as the index. */
  lemma SeriesAsLongAsIndex(codec: Codec, schema: Metadata, etype: string, md: Metadata, attrs: Option<seq<string>>,
                            es: Entities, seen: seq<Addressed>, id: string, c: Column)
    requires Shows(codec, schema, etype, md, attrs, es, seen)
    requires c in schema && c in md && schema[c].AttrOrigin?
    requires TimesAsked(attrs, c) == TimesAsked(attrs, TimeIndexCol) > 0
    ensures |ValueSeries(es, id, schema[c].name)| == |IndexSeries(es, id)|
  {
    var mine := Filter(OfEntity(id), seen);
    assert ShowsAttr(codec, schema[c], TimesAsked(attrs, c), es, id, mine);
    StutterLength(TimesAsked(attrs, c), Map(TimeCell(), mine), |mine|);
    StutterLength(TimesAsked(attrs, c), Map(Slot(codec, schema[c]), mine), |mine|);
  }

  // ---- The last n -----------------------------------------------------------------------

  /** A `last_n` query without offset answers, in ascending order, with the last `n` rows of the full
      ascending result. */
  lemma LastNQueryAnswersTail(db: Db, config: Config, tn: string, attrs: Option<seq<string>>, cols: seq<Column>,
                              keep: Row -> bool, n: nat, response: seq<EntityResponse>, desc: seq<nat>, asc: seq<nat>)
    requires tn in db.tables && tn in db.metadata && DistinctTimes(db.tables[tn].rows, keep)
    requires cols == SelectList(config, attrs, db.tables[tn].cols) && forall c :: c in cols ==> c in db.tables[tn].cols
    requires ServesQuery(db, config, tn, attrs, keep, true, n, 0, response, desc)
    requires IsSelection(db.tables[tn].rows, keep, false, asc)
    ensures var tail := LastOf(Project(db.tables[tn].rows, cols, asc), n);
      && AllIdentified(cols, tail)
      && Response.InIdOrder(response, AddRows(config.codec, cols, db.metadata[tn], tn, tail))
  {
    LastNIsTail(db.tables[tn].rows, keep, cols, asc, desc, n);
  }

  /** `asc` are the rows the filter keeps in ascending order: `full` is the answer for all of them, `result` that for
      the last `n`, and each of its series is the end of that series in `full`. */
  ghost predicate AnswersLast(codec: Codec, rows: seq<Row>, cols: seq<Column>, md: Metadata, tn: string,
                              keep: Row -> bool, n: nat, result: seq<EntityResponse>, full: seq<EntityResponse>,
                              asc: seq<nat>) {
    var found := Project(rows, cols, asc);
    && IsSelection(rows, keep, false, asc)
    && AllIdentified(cols, found) && AllIdentified(cols, LastOf(found, n))
    && InIdOrder(full, AddRows(codec, cols, md, tn, found))
    && InIdOrder(result, AddRows(codec, cols, md, tn, LastOf(found, n)))
    && EndsOf(AddRows(codec, cols, md, tn, LastOf(found, n)), AddRows(codec, cols, md, tn, found))
  }

  lemma AllOnOnePage(rows: seq<Row>, keep: Row -> bool, asc: seq<nat>, m: nat)
    requires IsSelection(rows, keep, false, asc) && |Filter(keep, rows)| <= m
    ensures Page(asc, m, 0) == asc
  {
    SelectionSize(rows, keep, false, asc);
  }

  lemma ServedEnds(db: Db, config: Config, tn: string, attrs: Option<seq<string>>, keep: Row -> bool,
                   n: nat, result: seq<EntityResponse>, desc: seq<nat>,
                   m: nat, full: seq<EntityResponse>, asc: seq<nat>) returns (cols: seq<Column>)
    requires Lists(config) && Answerable(db, tn, attrs) && DistinctTimes(db.tables[tn].rows, keep)
    requires ServesQuery(db, config, tn, attrs, keep, true, n, 0, result, desc)
    requires ServesQuery(db, config, tn, attrs, keep, false, m, 0, full, asc)
    requires |Filter(keep, db.tables[tn].rows)| <= m
    ensures ColumnsAsked(attrs, db.tables[tn].cols, cols)
    ensures AnswersLast(config.codec, db.tables[tn].rows, cols, db.metadata[tn], tn, keep, n, result, full, asc)
  {
    cols := SelectList(config, attrs, db.tables[tn].cols);
    SelectListAsks(config, attrs, db.tables[tn].cols);
    AllOnOnePage(db.tables[tn].rows, keep, asc, m);
    LastNQueryAnswersTail(db, config, tn, attrs, cols, keep, n, result, desc, asc);
    LastNSeriesAreSuffixes(config.codec, cols, db.metadata[tn], tn, Project(db.tables[tn].rows, cols, asc), n);
  }

  /** With `last_n` and no offset, the limit being the least of `last_n`, the limit asked for and the default, a query
      answers with the last rows of the full ascending answer, and every series, index and attributes, is the end of
      that series there. */
  lemma LastNQueryGivesEnds(db: Db, config: Config, tn: string, attrs: Option<seq<string>>, keep: Row -> bool,
                            lastN: Option<int>, limit: Option<int>, n: nat, result: seq<EntityResponse>,
                            m: nat, full: seq<EntityResponse>)
    requires Lists(config) && lastN.Some? && GetLimit(config.defaultLimit, limit, lastN) == Some(n)
    requires AnswersAll(db, config, Sorted({tn}), attrs, keep, lastN.Some?, n, 0, result)
    requires AnswersAll(db, config, Sorted({tn}), attrs, keep, false, m, 0, full)
    requires tn in db.tables ==> DistinctTimes(db.tables[tn].rows, keep) && |Filter(keep, db.tables[tn].rows)| <= m
    ensures if Answerable(db, tn, attrs)
      then exists cols, asc ::
        && ColumnsAsked(attrs, db.tables[tn].cols, cols)
        && AnswersLast(config.codec, db.tables[tn].rows, cols, db.metadata[tn], tn, keep, n, result, full, asc)
      else result == full == []
  {
    OneTableAnswers(db, config, tn, attrs, keep, true, n, 0, result);
    OneTableAnswers(db, config, tn, attrs, keep, false, m, 0, full);
    var desc :| ServesQuery(db, config, tn, attrs, keep, true, n, 0, result, desc);
    var asc :| ServesQuery(db, config, tn, attrs, keep, false, m, 0, full, asc);
    if Answerable(db, tn, attrs) {
      var cols := ServedEnds(db, config, tn, attrs, keep, n, result, desc, m, full, asc);
    } else {
      NothingServed(db, config, tn, attrs, keep, true, n, 0, result, desc);
      NothingServed(db, config, tn, attrs, keep, false, m, 0, full, asc);
    }
  }
}
