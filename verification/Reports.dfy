/** The answers of src/reporter/query_NTNE1A.py and src/reporter/query_NTNENA.py without aggregation: what a query
    found, by attribute and entity type. */
module Reports {
  import opened Sequences
  import opened Strings
  import opened Ngsi
  import opened Database
  import opened Grouping
  import opened ByType
  import Response
  import RowInsert
  import Translator

  /** What is reported of one entity. Its type is given once for its group. */
  datatype Entry = Entry(etype: Cell, id: Cell, index: seq<Cell>, values: seq<Option<Datum>>)

  datatype AttrReport = AttrReport(attrName: string, types: seq<Group<Cell, Entry>>)

  /** `lookup_string_match` of an entity and an attribute name. */
  type Lookup = (Response.EntityResponse, string) -> Option<Response.Series>

  function EntityType(): Response.EntityResponse -> Cell {
    (e: Response.EntityResponse) => e.etype
  }

  function EntryType(): Entry -> Cell {
    (e: Entry) => e.etype
  }

  function HasMatch(lookup: Lookup, at: string): Response.EntityResponse -> bool {
    (e: Response.EntityResponse) => lookup(e, at).Some?
  }

  function EntryFor(lookup: Lookup, at: string): Response.EntityResponse -> Entry {
    (e: Response.EntityResponse) =>
      var matched := lookup(e, at);
      Entry(e.etype, e.id, e.index, if matched.Some? then matched.value.values else [])
  }

  /** The entries of all groups, in order. */
  function AllEntries(groups: seq<Group<Cell, Entry>>): seq<Entry> {
    Flatten(Map(Members(), groups))
  }

  /** All entities found, an entity without the attribute with no values; None for nothing found. */
  method AttrByType(es: seq<Response.EntityResponse>, at: string, lookup: Lookup)
    returns (r: Option<seq<Group<Cell, Entry>>>)
    ensures r.None? <==> es == []
    ensures r.Some? ==> |AllEntries(r.value)| == |es|
    ensures r.Some? ==> forall i :: 0 <= i < |es| ==>
      var entry, matched := AllEntries(r.value)[i], lookup(es[i], at);
      && entry.etype == es[i].etype && entry.id == es[i].id && entry.index == es[i].index
      && entry.values == if matched.Some? then matched.value.values else []
    ensures r.Some? ==> r.value == Looped(EntryType(), Map(EntryFor(lookup, at), es))
  {
    if es == [] { return None; }
    LoopKeepsAll(EntryType(), Map(EntryFor(lookup, at), es));
    var groups := GroupInLoop(EntryType(), Map(EntryFor(lookup, at), es));
    r := Some(groups);
  }

  const IGNORED: set<string> := {"id", "index", "type"}

  function IsAttr(): string -> bool {
    (k: string) => k !in IGNORED
  }

  /** An entity's attribute names, sorted. */
  function NamesOf(): Response.EntityResponse -> seq<string> {
    (e: Response.EntityResponse) => Filter(IsAttr(), Sorted(e.attrs.Keys + IGNORED))
  }

  function Itself(): string -> string {
    (s: string) => s
  }

  /** Every name once, in the order first met. */
  function AttrNames(es: seq<Response.EntityResponse>): seq<string> {
    FirstKeys(Itself(), Flatten(Map(NamesOf(), es)))
  }

  /** The entity has the attribute, and it is none of the keys every entity has. */
  predicate HasName(e: Response.EntityResponse, name: string) {
    name in e.attrs && name != "id" && name != "index" && name != "type"
  }

  /** Some entity has `a` before any has `b`, or `a` is smaller in the first that has both. */
  ghost predicate MetBefore(es: seq<Response.EntityResponse>, a: string, b: string) {
    exists i :: 0 <= i < |es| && HasName(es[i], a) && (forall j :: 0 <= j < i ==> !HasName(es[j], b))
                && (HasName(es[i], b) ==> Leq(a, b))
  }

  /** Every attribute name once, in the order first met, those first met in one entity sorted. */
  ghost predicate NamesMet(es: seq<Response.EntityResponse>, names: seq<string>) {
    && Distinct(names) && (forall a :: a in names <==> exists e :: e in es && HasName(e, a))
    && forall p, q :: 0 <= p < q < |names| ==> MetBefore(es, names[p], names[q])
  }

  ghost predicate InNameOrder(names: seq<string>) {
    Distinct(names) && forall p, q :: 0 <= p < q < |names| ==> Leq(names[p], names[q])
  }

  lemma FilterInOrder(keep: string -> bool, names: seq<string>)
    requires InNameOrder(names)
    ensures InNameOrder(Filter(keep, names))
  {
    var picks := FilterPositions(keep, names);
    var found := Filter(keep, names);
    forall p, q | 0 <= p < q < |found| ensures found[p] != found[q] && Leq(found[p], found[q]) {
      assert picks[p] < picks[q];
    }
  }

  lemma AnAttr(name: string)
    ensures IsAttr()(name) <==> name != "id" && name != "index" && name != "type"
  {
  }

  lemma NamesOfEntity(e: Response.EntityResponse)
    ensures InNameOrder(NamesOf()(e)) && forall a :: a in NamesOf()(e) <==> HasName(e, a)
  {
    var sorted := Sorted(e.attrs.Keys + IGNORED);
    FilterInOrder(IsAttr(), sorted);
    FilterMembers(IsAttr(), sorted);
    forall a ensures a in NamesOf()(e) <==> HasName(e, a) {
      AnAttr(a);
      assert a in sorted <==> a in e.attrs.Keys || a in IGNORED;
    }
  }

  function NotIn(known: seq<string>): string -> bool {
    (a: string) => a !in known
  }

  lemma LastIsNew(init: seq<string>, a: string)
    requires Distinct(init + [a])
    ensures Distinct(init) && a !in init
  {
    var attrs := init + [a];
    assert forall i :: 0 <= i < |init| ==> attrs[i] == init[i] && attrs[i] != attrs[|init|];
  }

  lemma {:induction false} NewNames(before: seq<string>, attrs: seq<string>, known: seq<string>)
    requires Distinct(attrs) && known == FirstKeys(Itself(), before)
    ensures FirstKeys(Itself(), before + attrs) == known + Filter(NotIn(known), attrs)
  {
    if attrs == [] {
      assert before + attrs == before && known + [] == known;
    } else {
      var init, a := attrs[..|attrs| - 1], attrs[|attrs| - 1];
      assert attrs == init + [a] && before + attrs == before + init + [a];
      LastIsNew(init, a);
      NewNames(before, init, known);
      OneMoreName(before + init, known, Filter(NotIn(known), init), a, init);
      FilterSnoc(NotIn(known), init, a);
    }
  }

  lemma OneMoreName(before: seq<string>, known: seq<string>, more: seq<string>, a: string, init: seq<string>)
    requires FirstKeys(Itself(), before) == known + more && more == Filter(NotIn(known), init) && a !in init
    ensures FirstKeys(Itself(), before + [a]) == known + (more + if a in known then [] else [a])
  {
    FirstKeysSeen(Itself(), before, a);
    FilterMembers(NotIn(known), init);
    assert a in known + more <==> a in known;
    if a in known { assert more + [] == more; } else { assert known + more + [a] == known + (more + [a]); }
  }

  /** The same for lists of names. */
  ghost predicate ListedBefore(lists: seq<seq<string>>, a: string, b: string) {
    exists i :: 0 <= i < |lists| && a in lists[i] && (forall j :: 0 <= j < i ==> b !in lists[j])
                && (b in lists[i] ==> Leq(a, b))
  }

  ghost predicate Listed(lists: seq<seq<string>>, a: string) {
    exists l :: l in lists && a in l
  }

  lemma StillBefore(lists: seq<seq<string>>, last: seq<string>, a: string, b: string)
    requires ListedBefore(lists, a, b)
    ensures ListedBefore(lists + [last], a, b)
  {
    var i :| 0 <= i < |lists| && a in lists[i] && (forall j :: 0 <= j < i ==> b !in lists[j])
             && (b in lists[i] ==> Leq(a, b));
    assert (lists + [last])[i] == lists[i];
  }

  lemma KnownBefore(lists: seq<seq<string>>, last: seq<string>, a: string, b: string)
    requires Listed(lists, a) && !Listed(lists, b)
    ensures ListedBefore(lists + [last], a, b)
  {
    var l :| l in lists && a in l;
    var i :| 0 <= i < |lists| && lists[i] == l;
    assert (lists + [last])[i] == l && forall j :: 0 <= j <= i ==> (lists + [last])[j] in lists;
  }

  lemma SortedBefore(lists: seq<seq<string>>, last: seq<string>, a: string, b: string)
    requires a in last && !Listed(lists, b) && Leq(a, b)
    ensures ListedBefore(lists + [last], a, b)
  {
    var all := lists + [last];
    assert all[|lists|] == last && forall j :: 0 <= j < |lists| ==> all[j] in lists;
  }

  ghost predicate ListedOnce(lists: seq<seq<string>>, names: seq<string>) {
    && Distinct(names) && (forall a :: a in names <==> Listed(lists, a))
    && forall p, q :: 0 <= p < q < |names| ==> ListedBefore(lists, names[p], names[q])
  }

  lemma PairListed(lists: seq<seq<string>>, last: seq<string>, known: seq<string>, more: seq<string>, p: nat, q: nat)
    requires ListedOnce(lists, known) && InNameOrder(more) && forall a :: a in more ==> a in last && a !in known
    requires p < q < |known + more|
    ensures (known + more)[p] != (known + more)[q]
    ensures ListedBefore(lists + [last], (known + more)[p], (known + more)[q])
  {
    var a, b := (known + more)[p], (known + more)[q];
    if q < |known| {
      assert a == known[p] && b == known[q];
      StillBefore(lists, last, a, b);
    } else {
      assert b == more[q - |known|] && b in more;
      if p < |known| {
        assert a == known[p] && a in known;
        KnownBefore(lists, last, a, b);
      } else {
        assert a == more[p - |known|] && a in more;
        SortedBefore(lists, last, a, b);
      }
    }
  }

  lemma MoreListed(lists: seq<seq<string>>, last: seq<string>, known: seq<string>)
    requires ListedOnce(lists, known) && InNameOrder(last)
    ensures ListedOnce(lists + [last], known + Filter(NotIn(known), last))
  {
    var all, more := lists + [last], Filter(NotIn(known), last);
    FilterMembers(NotIn(known), last);
    FilterInOrder(NotIn(known), last);
    forall p, q | 0 <= p < q < |known + more|
      ensures (known + more)[p] != (known + more)[q] && ListedBefore(all, (known + more)[p], (known + more)[q])
    {
      PairListed(lists, last, known, more, p, q);
    }
    forall a ensures a in known + more <==> Listed(all, a) {
      assert last in all;
      if Listed(lists, a) {
        var l :| l in lists && a in l;
        assert l in all;
      }
    }
  }

  lemma {:induction false} AllListedOnce(lists: seq<seq<string>>)
    requires forall l :: l in lists ==> InNameOrder(l)
    ensures ListedOnce(lists, FirstKeys(Itself(), Flatten(lists)))
  {
    if lists != [] {
      var init, last := lists[..|lists| - 1], lists[|lists| - 1];
      assert lists == init + [last] && last in lists;
      AllListedOnce(init);
      FlattenSnoc(init, last);
      NewNames(Flatten(init), last, FirstKeys(Itself(), Flatten(init)));
      MoreListed(init, last, FirstKeys(Itself(), Flatten(init)));
    }
  }

  lemma ListedIsMet(es: seq<Response.EntityResponse>, lists: seq<seq<string>>, a: string)
    requires |lists| == |es| && forall i :: 0 <= i < |es| ==> (a in lists[i] <==> HasName(es[i], a))
    ensures Listed(lists, a) <==> exists e :: e in es && HasName(e, a)
  {
    if Listed(lists, a) {
      var l :| l in lists && a in l;
      var i :| 0 <= i < |lists| && lists[i] == l;
      assert es[i] in es && HasName(es[i], a);
    }
    if e :| e in es && HasName(e, a) {
      var i :| 0 <= i < |es| && es[i] == e;
      assert lists[i] in lists;
    }
  }

  lemma BeforeIsMet(es: seq<Response.EntityResponse>, lists: seq<seq<string>>, a: string, b: string)
    requires |lists| == |es| && ListedBefore(lists, a, b)
    requires forall i, n :: 0 <= i < |es| ==> (n in lists[i] <==> HasName(es[i], n))
    ensures MetBefore(es, a, b)
  {
    var i :| 0 <= i < |lists| && a in lists[i] && (forall j :: 0 <= j < i ==> b !in lists[j])
             && (b in lists[i] ==> Leq(a, b));
    assert HasName(es[i], a);
  }

  lemma OnceIsMet(es: seq<Response.EntityResponse>, lists: seq<seq<string>>, names: seq<string>)
    requires |lists| == |es| && ListedOnce(lists, names)
    requires forall i, n :: 0 <= i < |es| ==> (n in lists[i] <==> HasName(es[i], n))
    ensures NamesMet(es, names)
  {
    forall p, q | 0 <= p < q < |names| ensures MetBefore(es, names[p], names[q]) {
      BeforeIsMet(es, lists, names[p], names[q]);
    }
    forall a ensures a in names <==> exists e :: e in es && HasName(e, a) { ListedIsMet(es, lists, a); }
  }

  lemma AttrNamesMet(es: seq<Response.EntityResponse>)
    ensures NamesMet(es, AttrNames(es))
  {
    var lists := Map(NamesOf(), es);
    forall i | 0 <= i < |es| ensures InNameOrder(lists[i]) && forall a :: a in lists[i] <==> HasName(es[i], a) {
      NamesOfEntity(es[i]);
    }
    AllListedOnce(lists);
    OnceIsMet(es, lists, AttrNames(es));
  }

  method AddNames(names: seq<string>, attrs: seq<string>, before: seq<string>) returns (more: seq<string>)
    requires names == FirstKeys(Itself(), before)
    ensures more == FirstKeys(Itself(), before + attrs)
  {
    more := names;
    assert before + attrs[..0] == before;
    for i := 0 to |attrs|
      invariant more == FirstKeys(Itself(), before + attrs[..i])
    {
      assert before + attrs[..i + 1] == before + attrs[..i] + [attrs[i]];
      FirstKeysSeen(Itself(), before + attrs[..i], attrs[i]);
      if attrs[i] !in more {
        more := more + [attrs[i]];
      }
    }
    assert attrs[..|attrs|] == attrs;
  }

  method CollectNames(es: seq<Response.EntityResponse>) returns (names: seq<string>)
    ensures names == AttrNames(es) && NamesMet(es, names)
  {
    AttrNamesMet(es);
    names := [];
    for i := 0 to |es|
      invariant names == AttrNames(es[..i])
    {
      FlatMapSnoc(NamesOf(), es, i);
      names := AddNames(names, NamesOf()(es[i]), Flatten(Map(NamesOf(), es[..i])));
    }
    assert es[..|es|] == es;
  }

  function Entries(lookup: Lookup, at: string, es: seq<Response.EntityResponse>): seq<Entry> {
    Map(EntryFor(lookup, at), Filter(HasMatch(lookup, at), es))
  }

  function ReportFor(lookup: Lookup, es: seq<Response.EntityResponse>): string -> AttrReport {
    (at: string) => AttrReport(at, Looped(EntryType(), Entries(lookup, at, es)))
  }

  method ReportOne(es: seq<Response.EntityResponse>, lookup: Lookup, at: string) returns (report: AttrReport)
    ensures report == ReportFor(lookup, es)(at)
  {
    var types := GroupInLoop(EntryType(), Entries(lookup, at, es));
    report := AttrReport(at, types);
  }

  method ReportAll(es: seq<Response.EntityResponse>, lookup: Lookup, names: seq<string>) returns (r: seq<AttrReport>)
    ensures r == Map(ReportFor(lookup, es), names)
  {
    r := [];
    for i := 0 to |names|
      invariant r == Map(ReportFor(lookup, es), names[..i])
    {
      MapSnoc(ReportFor(lookup, es), names, i);
      var report := ReportOne(es, lookup, names[i]);
      r := r + [report];
    }
    assert names[..|names|] == names;
  }

  /** The report is about the entities at these positions, in order: their type, id, index and matched values. */
  ghost predicate ReportsOn(report: AttrReport, es: seq<Response.EntityResponse>, lookup: Lookup, picks: seq<nat>) {
    |AllEntries(report.types)| == |picks| && forall m :: 0 <= m < |picks| ==>
      && picks[m] < |es|
      && var entry, e := AllEntries(report.types)[m], es[picks[m]];
      && entry.etype == e.etype && entry.id == e.id && entry.index == e.index
      && lookup(e, report.attrName).Some? && entry.values == lookup(e, report.attrName).value.values
  }

  /** It is about exactly those entities for which looking up its attribute gives something. */
  ghost predicate ReportsMatches(report: AttrReport, es: seq<Response.EntityResponse>, lookup: Lookup) {
    exists picks :: Positions(HasMatch(lookup, report.attrName), es, picks) && ReportsOn(report, es, lookup, picks)
  }

  lemma ReportIsOnMatches(lookup: Lookup, es: seq<Response.EntityResponse>, at: string)
    ensures ReportFor(lookup, es)(at).attrName == at && ReportsMatches(ReportFor(lookup, es)(at), es, lookup)
  {
    var report := ReportFor(lookup, es)(at);
    LoopKeepsAll(EntryType(), Entries(lookup, at, es));
    var picks := FilterPositions(HasMatch(lookup, at), es);
    FilterMembers(HasMatch(lookup, at), es);
    assert forall m :: 0 <= m < |picks| ==> picks[m] in picks;
    assert ReportsOn(report, es, lookup, picks);
  }

  /** Every attribute found, with the entities that have it. */
  method ByAttr(es: seq<Response.EntityResponse>, lookup: Lookup) returns (r: seq<AttrReport>)
    ensures NamesMet(es, Map(ReportName(), r))
    ensures forall k :: 0 <= k < |r| ==> ReportsMatches(r[k], es, lookup)
    ensures r == Map(ReportFor(lookup, es), AttrNames(es))
  {
    var names := CollectNames(es);
    r := ReportAll(es, lookup, names);
    forall k | 0 <= k < |r| ensures r[k].attrName == names[k] && ReportsMatches(r[k], es, lookup) {
      ReportIsOnMatches(lookup, es, names[k]);
    }
    assert Map(ReportName(), r) == names;
  }

  function ReportName(): AttrReport -> string {
    (report: AttrReport) => report.attrName
  }

  // ---- One group a type -----------------------------------------------------------------

  lemma EntriesContiguous(lookup: Lookup, at: string, es: seq<Response.EntityResponse>)
    requires Contiguous(EntityType(), es)
    ensures Contiguous(EntryType(), Map(EntryFor(lookup, at), es))
  {
    var entries := Map(EntryFor(lookup, at), es);
    forall i, j, k | 0 <= i < j < k < |entries| && entries[i].etype == entries[k].etype
      ensures entries[j].etype == entries[i].etype
    {
      assert EntityType()(es[i]) == EntityType()(es[k]);
      assert EntityType()(es[j]) == EntityType()(es[i]);
    }
  }

  /** On entities contiguous by type both reports give one group a type, in first-occurrence order. */
  lemma ReportsGroupByType(lookup: Lookup, at: string, es: seq<Response.EntityResponse>)
    requires Contiguous(EntityType(), es)
    ensures Looped(EntryType(), Map(EntryFor(lookup, at), es)) == GroupBy(EntryType(), Map(EntryFor(lookup, at), es))
    ensures Looped(EntryType(), Entries(lookup, at, es)) == GroupBy(EntryType(), Entries(lookup, at, es))
  {
    EntriesContiguous(lookup, at, es);
    LoopGroupsIffContiguous(EntryType(), Map(EntryFor(lookup, at), es));
    FilterKeepsContiguity(EntityType(), HasMatch(lookup, at), es);
    EntriesContiguous(lookup, at, Filter(HasMatch(lookup, at), es));
    LoopGroupsIffContiguous(EntryType(), Entries(lookup, at, es));
  }

  // ---- What a query establishes ---------------------------------------------------------

  /** Only the entity type column is read as the entity type. */
  ghost predicate TypeSource(md: Metadata) {
    EntityTypeCol in md && forall c :: c in md ==> (md[c].TypeOrigin? <==> c == EntityTypeCol)
  }

  ghost predicate TypedRow(cols: seq<Column>, r: seq<Cell>, etype: string) {
    |r| == |cols| && forall j :: 0 <= j < |cols| && cols[j] == EntityTypeCol ==> r[j] == Text(etype)
  }

  ghost predicate AllTyped(es: Response.Entities, etype: string) {
    forall id :: id in es ==> es[id].etype == Text(etype)
  }

  /** All entities are typed, but for `own` as long as its type has not been read. */
  ghost predicate TypedBut(es: Response.Entities, own: string, read: bool, etype: string) {
    && (forall id :: id in es && id != own ==> es[id].etype == Text(etype))
    && (own in es && read ==> es[own].etype == Text(etype))
    && (read ==> own in es)
    && (own in es ==> es[own].etype == Text(etype) || es[own].etype == Null)
  }

  lemma CellIsTyped(codec: Codec, acc: Response.Entities, cols: seq<Column>, md: Metadata, r: seq<Cell>, m: nat,
                    etype: string, read: bool)
    requires Response.Identified(cols, r) && TypedRow(cols, r, etype) && TypeSource(md) && 0 < m <= |cols|
    requires TypedBut(Response.AddCells(codec, acc, cols, md, r, m - 1), Response.RowId(cols, r), read, etype)
    ensures TypedBut(Response.AddCells(codec, acc, cols, md, r, m), Response.RowId(cols, r),
                     read || cols[m - 1] == EntityTypeCol, etype)
  {
  }

  lemma {:induction false} CellsAreTyped(codec: Codec, acc: Response.Entities, cols: seq<Column>, md: Metadata,
                                         r: seq<Cell>, m: nat, etype: string)
    requires Response.Identified(cols, r) && TypedRow(cols, r, etype) && TypeSource(md) && AllTyped(acc, etype)
    requires m <= |cols|
    ensures TypedBut(Response.AddCells(codec, acc, cols, md, r, m), Response.RowId(cols, r),
                     EntityTypeCol in cols[..m], etype)
  {
    if m > 0 {
      CellsAreTyped(codec, acc, cols, md, r, m - 1, etype);
      CellIsTyped(codec, acc, cols, md, r, m, etype, EntityTypeCol in cols[..m - 1]);
      assert cols[..m] == cols[..m - 1] + [cols[m - 1]];
    }
  }

  lemma {:induction false} RowsAreTyped(codec: Codec, cols: seq<Column>, md: Metadata, tn: string,
                                        rows: seq<seq<Cell>>, etype: string)
    requires Response.AllIdentified(cols, rows) && TypeSource(md)
    requires forall i :: 0 <= i < |rows| ==> TypedRow(cols, rows[i], etype)
    ensures AllTyped(Response.AddRows(codec, cols, md, tn, rows), etype)
  {
    if rows != [] {
      var last := |rows| - 1;
      RowsAreTyped(codec, cols, md, tn, rows[..last], etype);
      CellsAreTyped(codec, Response.AddRows(codec, cols, md, tn, rows[..last]), cols, md, rows[last], |cols|, etype);
      assert EntityTypeCol in cols && cols[..|cols|] == cols by {
        assert Response.Identified(cols, rows[last]);
      }
    }
  }

  /** A table holds rows of one spelling of its type. */
  ghost predicate OneSpelling(db: Db, tn: string, etype: string) {
    && (tn in db.metadata ==> TypeSource(db.metadata[tn]))
    && (tn in db.tables ==>
        forall i :: 0 <= i < |db.tables[tn].rows| ==> CellAt(db.tables[tn].rows[i], EntityTypeCol) == Text(etype))
  }

  lemma PageIsTyped(rows: seq<Row>, cols: seq<Column>, page: seq<nat>, etype: string)
    requires forall i :: 0 <= i < |rows| ==> CellAt(rows[i], EntityTypeCol) == Text(etype)
    requires Response.InRange(rows, page)
    ensures var found := Response.Project(rows, cols, page);
      forall i :: 0 <= i < |found| ==> TypedRow(cols, found[i], etype)
  {
  }

  lemma PartIsTyped(db: Db, config: RowInsert.Config, tn: string, attrs: Option<seq<string>>, keep: Row -> bool,
                    lastN: bool, limit: nat, offset: nat, part: seq<Response.EntityResponse>, picks: seq<nat>,
                    etype: string)
    requires Translator.ServesQuery(db, config, tn, attrs, keep, lastN, limit, offset, part, picks)
    requires OneSpelling(db, tn, etype)
    ensures forall e :: e in part ==> e.etype == Text(etype)
  {
    if tn in db.tables && tn in db.metadata {
      var cols := Translator.SelectList(config, attrs, db.tables[tn].cols);
      if forall c :: c in cols ==> c in db.tables[tn].cols {
        Response.PagePicks(db.tables[tn].rows, keep, lastN, picks, limit, offset);
        var page := Response.Page(picks, limit, offset);
        var rows := Response.Project(db.tables[tn].rows, cols, page);
        PageIsTyped(db.tables[tn].rows, cols, page, etype);
        var turned := if lastN then Response.Reverse(rows) else rows;
        RowsAreTyped(config.codec, cols, db.metadata[tn], tn, turned, etype);
      }
    }
  }

  /** A query over tables that each hold one spelling of their own type finds entities contiguous by type, so that
      reports group them by type. */
  lemma QueryIsContiguous(db: Db, config: RowInsert.Config, names: seq<string>, attrs: Option<seq<string>>,
                          keep: Row -> bool, lastN: bool, limit: nat, offset: nat,
                          result: seq<Response.EntityResponse>, spelling: string -> string, service: Option<string>)
    requires Translator.AnswersAll(db, config, names, attrs, keep, lastN, limit, offset, result)
    requires Distinct(names)
    requires forall tn :: tn in names ==>
      OneSpelling(db, tn, spelling(tn)) && Translator.TableName(spelling(tn), service) == tn
    ensures Contiguous(EntityType(), result)
  {
    var parts, picks :|
      && Translator.ServesAll(db, config, names, attrs, keep, lastN, limit, offset, parts, picks)
      && result == Flatten(parts);
    var keys := seq(|names|, i requires 0 <= i < |names| => Text(spelling(names[i])));
    forall i, j | 0 <= i < j < |names| ensures keys[i] != keys[j] {
      assert names[i] in names && names[j] in names && names[i] != names[j];
    }
    forall i | 0 <= i < |parts| ensures forall e :: e in parts[i] ==> EntityType()(e) == keys[i] {
      assert names[i] in names;
      PartIsTyped(db, config, names[i], attrs, keep, lastN, limit, offset, parts[i], picks[i], spelling(names[i]));
    }
    BlocksAreContiguous(EntityType(), keys, parts);
  }
}
