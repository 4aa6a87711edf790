/** Reading series back: limits, ordered selection and `_format_response` of src/translators/sql_translator.py. */
module Response {
  import opened Sequences
  import opened Strings
  import opened Ngsi
  import opened Database

  // ---- Selection ------------------------------------------------------------------------

  /** The time index of a row, 0 for a row without one. */
  function TimeOf(row: Row): int {
    match CellAt(row, TimeIndexCol) case Stamp(t) => t case _ => 0
  }

  function RowAt(rows: seq<Row>, i: nat): Row {
    if i < |rows| then rows[i] else map[]
  }

  /** What the order clause sorts by: the time index, or its opposite for a descending order. */
  function RankIn(rows: seq<Row>, desc: bool): nat -> int {
    (i: nat) => if desc then -TimeOf(RowAt(rows, i)) else TimeOf(RowAt(rows, i))
  }

  ghost predicate Ascending(rank: nat -> int, picks: seq<nat>) {
    forall a, b :: 0 <= a < b < |picks| ==> rank(picks[a]) <= rank(picks[b])
  }

  /** `picks` lists the positions of the rows that satisfy `keep`, each once, in the order asked for;
      rows with equal time may come in any order. */
  ghost predicate IsSelection(rows: seq<Row>, keep: Row -> bool, desc: bool, picks: seq<nat>) {
    && Distinct(picks)
    && (forall i: nat :: i in picks <==> i < |rows| && keep(rows[i]))
    && Ascending(RankIn(rows, desc), picks)
  }

  /** `limit n offset k`. */
  function Page<T>(xs: seq<T>, limit: nat, offset: nat): (page: seq<T>)
    ensures |page| == if |xs| <= offset then 0 else if |xs| <= offset + limit then |xs| - offset else limit
    ensures forall i :: 0 <= i < |page| ==> page[i] == xs[offset + i]
  {
    var rest := if offset <= |xs| then xs[offset..] else [];
    if limit <= |rest| then rest[..limit] else rest
  }

  function Cells(row: Row, cols: seq<Column>): (r: seq<Cell>)
    ensures |r| == |cols| && forall j :: 0 <= j < |cols| ==> r[j] == CellAt(row, cols[j])
  {
    seq(|cols|, j requires 0 <= j < |cols| => CellAt(row, cols[j]))
  }

  function Project(rows: seq<Row>, cols: seq<Column>, picks: seq<nat>): (r: seq<seq<Cell>>)
    ensures |r| == |picks| && forall i :: 0 <= i < |picks| ==> r[i] == Cells(RowAt(rows, picks[i]), cols)
  {
    seq(|picks|, i requires 0 <= i < |picks| => Cells(RowAt(rows, picks[i]), cols))
  }

  function LastOf<T>(xs: seq<T>, n: nat): seq<T> {
    if n <= |xs| then xs[|xs| - n..] else xs
  }

  function Reverse<T>(xs: seq<T>): (r: seq<T>)
    ensures |r| == |xs| && forall i :: 0 <= i < |xs| ==> r[i] == xs[|xs| - 1 - i]
  {
    seq(|xs|, i requires 0 <= i < |xs| => xs[|xs| - 1 - i])
  }

  /** Puts position `i` behind all picks that may come before it. */
  function InsertPick(rank: nat -> int, picks: seq<nat>, i: nat): seq<nat> {
    if picks == [] then [i]
    else
      var last := picks[|picks| - 1];
      if rank(last) <= rank(i) then picks + [i] else InsertPick(rank, picks[..|picks| - 1], i) + [last]
  }

  lemma {:induction false} InsertPickMembers(rank: nat -> int, picks: seq<nat>, i: nat)
    ensures forall k: nat :: k in InsertPick(rank, picks, i) <==> k == i || k in picks
  {
    if picks != [] {
      InsertPickMembers(rank, picks[..|picks| - 1], i);
      assert picks == picks[..|picks| - 1] + [picks[|picks| - 1]];
    }
  }

  /** Each position once, in order. */
  ghost predicate Ordered(rank: nat -> int, picks: seq<nat>) {
    Distinct(picks) && Ascending(rank, picks)
  }

  lemma OrderedSnoc(rank: nat -> int, picks: seq<nat>, last: nat)
    requires Ordered(rank, picks) && forall p :: p in picks ==> p != last && rank(p) <= rank(last)
    ensures Ordered(rank, picks + [last])
  {
    assert forall x :: 0 <= x < |picks| ==> picks[x] in picks;
  }

  lemma OrderedInit(rank: nat -> int, init: seq<nat>, last: nat)
    requires Ordered(rank, init + [last])
    ensures Ordered(rank, init) && forall p :: p in init ==> p != last && rank(p) <= rank(last)
  {
    var picks := init + [last];
    assert forall x :: 0 <= x < |init| ==> picks[x] == init[x];
    forall p | p in init ensures p != last && rank(p) <= rank(last) {
      var x :| 0 <= x < |init| && init[x] == p;
      assert picks[x] == p && picks[|init|] == last;
    }
  }

  lemma {:induction false} InsertPickOrdered(rank: nat -> int, picks: seq<nat>, i: nat)
    requires i !in picks && Ordered(rank, picks)
    ensures Ordered(rank, InsertPick(rank, picks, i))
  {
    if picks != [] {
      var init, last := picks[..|picks| - 1], picks[|picks| - 1];
      assert picks == init + [last] && last in picks && forall p :: p in init ==> p in picks;
      OrderedInit(rank, init, last);
      if rank(last) > rank(i) {
        InsertPickOrdered(rank, init, i);
        InsertPickMembers(rank, init, i);
        OrderedSnoc(rank, InsertPick(rank, init, i), last);
      } else {
        assert forall p :: p in picks ==> p == last || p in init;
        OrderedSnoc(rank, picks, i);
      }
    }
  }

  ghost predicate SelectionGives(rows: seq<Row>, cols: seq<Column>, keep: Row -> bool, desc: bool, limit: nat,
                                 offset: nat, found: seq<seq<Cell>>, picks: seq<nat>) {
    IsSelection(rows, keep, desc, picks) && found == Project(rows, cols, Page(picks, limit, offset))
  }

  ghost predicate Selects(rows: seq<Row>, cols: seq<Column>, keep: Row -> bool, desc: bool, limit: nat, offset: nat,
                          found: seq<seq<Cell>>) {
    exists picks :: SelectionGives(rows, cols, keep, desc, limit, offset, found, picks)
  }

  /** The database's answer to `select cols from tn where keep order by time_index limit n offset k`;
      None when the table or a column is missing. */
  method SelectRows(db: Connection, tn: string, cols: seq<Column>, keep: Row -> bool, desc: bool,
                    limit: nat, offset: nat) returns (r: Option<seq<seq<Cell>>>)
    ensures r.None? <==> tn !in db.tables || exists c :: c in cols && c !in db.tables[tn].cols
    ensures r.Some? ==> Selects(db.tables[tn].rows, cols, keep, desc, limit, offset, r.value)
  {
    if tn !in db.tables || exists c | c in cols :: c !in db.tables[tn].cols { return None; }
    var rows := db.tables[tn].rows;
    var found: seq<nat> := [];
    for i := 0 to |rows|
      invariant Distinct(found)
      invariant forall k: nat :: k in found <==> k < i && keep(rows[k])
      invariant Ascending(RankIn(rows, desc), found)
    {
      if keep(rows[i]) {
        InsertPickMembers(RankIn(rows, desc), found, i);
        InsertPickOrdered(RankIn(rows, desc), found, i);
        found := InsertPick(RankIn(rows, desc), found, i);
      }
    }
    r := Some(Project(rows, cols, Page(found, limit, offset)));
    assert SelectionGives(rows, cols, keep, desc, limit, offset, r.value, found);
  }

  ghost predicate InRange(rows: seq<Row>, picks: seq<nat>) {
    forall k :: 0 <= k < |picks| ==> picks[k] < |rows|
  }

  lemma PagePicks(rows: seq<Row>, keep: Row -> bool, desc: bool, picks: seq<nat>, limit: nat, offset: nat)
    requires IsSelection(rows, keep, desc, picks)
    ensures InRange(rows, Page(picks, limit, offset))
  {
    var page := Page(picks, limit, offset);
    forall k | 0 <= k < |page| ensures page[k] < |rows| {
      assert page[k] == picks[offset + k] && picks[offset + k] in picks;
    }
  }

  ghost function KeptPositions(rows: seq<Row>, keep: Row -> bool, n: nat): set<nat>
    requires n <= |rows|
  {
    set i: nat | i < n && keep(rows[i])
  }

  lemma KeptSnoc(rows: seq<Row>, keep: Row -> bool, n: nat)
    requires n < |rows|
    ensures |KeptPositions(rows, keep, n + 1)| == |KeptPositions(rows, keep, n)| + if keep(rows[n]) then 1 else 0
  {
    var before := KeptPositions(rows, keep, n);
    assert n !in before;
    assert KeptPositions(rows, keep, n + 1) == if keep(rows[n]) then before + {n} else before;
  }

  lemma FilterOneMore(rows: seq<Row>, keep: Row -> bool, n: nat)
    requires n < |rows|
    ensures |Filter(keep, rows[..n + 1])| == |Filter(keep, rows[..n])| + if keep(rows[n]) then 1 else 0
  {
    assert rows[..n + 1] == rows[..n] + [rows[n]];
    FilterConcat(keep, rows[..n], [rows[n]]);
  }

  lemma {:induction false} KeptCount(rows: seq<Row>, keep: Row -> bool, n: nat)
    requires n <= |rows|
    ensures |KeptPositions(rows, keep, n)| == |Filter(keep, rows[..n])|
  {
    if n == 0 {
      assert KeptPositions(rows, keep, n) == {};
    } else {
      KeptCount(rows, keep, n - 1);
      KeptSnoc(rows, keep, n - 1);
      FilterOneMore(rows, keep, n - 1);
    }
  }

  /** A selection has as many rows as match. */
  lemma SelectionSize(rows: seq<Row>, keep: Row -> bool, desc: bool, picks: seq<nat>)
    requires IsSelection(rows, keep, desc, picks)
    ensures |picks| == |Filter(keep, rows)|
  {
    DistinctCardinality(picks);
    KeptCount(rows, keep, |rows|);
    assert rows[..|rows|] == rows;
    assert Elements(picks) == KeptPositions(rows, keep, |rows|);
  }

  // ---- Limits ---------------------------------------------------------------------------

  function EffectiveLimit(defaultLimit: int, limit: Option<int>): int {
    if limit.None? || limit.value > defaultLimit then defaultLimit else limit.value
  }

  /** `_get_limit`; None for the invalid-parameter error. */
  function GetLimit(defaultLimit: int, limit: Option<int>, lastN: Option<int>): (r: Option<nat>)
    ensures r.Some? ==> 1 <= r.value <= defaultLimit
    ensures r.Some? ==> (limit.Some? ==> r.value <= limit.value) && (lastN.Some? ==> r.value <= lastN.value)
    ensures r.Some? ==> r.value == defaultLimit || limit == Some(r.value) || lastN == Some(r.value)
    ensures r.None? <==> defaultLimit < 1 || (limit.Some? && limit.value < 1) || (lastN.Some? && lastN.value < 1)
  {
    var lim := EffectiveLimit(defaultLimit, limit);
    var last := if lastN.None? then lim else lastN.value;
    if lim < 1 || last < 1 then None else Some(if last < lim then last else lim)
  }

  // ---- From flat rows to series ---------------------------------------------------------

  datatype Series = Series(values: seq<Option<Datum>>, atype: Option<string>)

  datatype EntityResponse = EntityResponse(etype: Cell, id: Cell, index: seq<Cell>, attrs: map<string, Series>)

  type Entities = map<string, EntityResponse>

  const EMPTY_RESPONSE := EntityResponse(Null, Null, [], map[])

  function PutCell(codec: Codec, e: EntityResponse, origin: Origin, v: Cell): EntityResponse {
    match origin
    case TypeOrigin => e.(etype := v)
    case IdOrigin => e.(id := v)
    case TimeOrigin => e.(index := e.index + [v])
    case AttrOrigin(name, atype) =>
      var values := if name in e.attrs then e.attrs[name].values else [];
      e.(attrs := e.attrs[name := Series(values + [codec.toNgsi(v, atype)], atype)])
  }

  /** Puts a cell into the entity with id `key`, which is new if the answer has none. */
  function Put(codec: Codec, es: Entities, key: string, origin: Origin, v: Cell): Entities {
    es[key := PutCell(codec, if key in es then es[key] else EMPTY_RESPONSE, origin, v)]
  }

  predicate Identified(cols: seq<Column>, r: seq<Cell>) {
    && |r| == |cols| && EntityIdCol in cols && EntityTypeCol in cols
    && r[IndexOf(cols, EntityIdCol)].Text? && r[IndexOf(cols, EntityTypeCol)].Text?
  }

  function RowId(cols: seq<Column>, r: seq<Cell>): string
    requires Identified(cols, r)
  {
    r[IndexOf(cols, EntityIdCol)].text
  }

  function RowType(cols: seq<Column>, r: seq<Cell>): string
    requires Identified(cols, r)
  {
    r[IndexOf(cols, EntityTypeCol)].text
  }

  /** The row's type is the table's, by the substring test the code uses. */
  predicate OfTable(cols: seq<Column>, tn: string, r: seq<Cell>)
    requires Identified(cols, r)
  {
    Contains(tn, Lower(RowType(cols, r)))
  }

  /** The entities after the first `m` cells of row `r`. */
  function AddCells(codec: Codec, acc: Entities, cols: seq<Column>, md: Metadata, r: seq<Cell>, m: nat): Entities
    requires Identified(cols, r) && m <= |cols|
  {
    if m == 0 then acc
    else
      var before := AddCells(codec, acc, cols, md, r, m - 1);
      if cols[m - 1] !in md then before else Put(codec, before, RowId(cols, r), md[cols[m - 1]], r[m - 1])
  }

  ghost predicate AllIdentified(cols: seq<Column>, rows: seq<seq<Cell>>) {
    forall i :: 0 <= i < |rows| ==> Identified(cols, rows[i])
  }

  ghost function AddRows(codec: Codec, cols: seq<Column>, md: Metadata, tn: string, rows: seq<seq<Cell>>): Entities
    requires AllIdentified(cols, rows)
  {
    if rows == [] then map[]
    else
      var last := |rows| - 1;
      var before := AddRows(codec, cols, md, tn, rows[..last]);
      if OfTable(cols, tn, rows[last]) then AddCells(codec, before, cols, md, rows[last], |cols|) else before
  }

  /** The `_format_response` loops for one table; a result asked for with `last_n` comes in descending
      order and is turned round first. */
  method FormatResponse(codec: Codec, resultSet: seq<seq<Cell>>, cols: seq<Column>, metadata: Option<Metadata>,
                        tn: string, lastN: bool)
    returns (response: seq<EntityResponse>)
    requires AllIdentified(cols, resultSet)
    ensures AllIdentified(cols, Reverse(resultSet))
    ensures InIdOrder(response,
      if metadata.None? then map[]
      else AddRows(codec, cols, metadata.value, tn, if lastN then Reverse(resultSet) else resultSet))
  {
    var rows := if lastN then Reverse(resultSet) else resultSet;
    if metadata.None? { return []; }
    var md := metadata.value;
    var found: Entities := map[];
    for i := 0 to |rows|
      invariant AllIdentified(cols, rows[..i])
      invariant found == AddRows(codec, cols, md, tn, rows[..i])
    {
      assert rows[..i + 1][..i] == rows[..i];
      var r := rows[i];
      if OfTable(cols, tn, r) {
        var start := found;
        for j := 0 to |cols|
          invariant found == AddCells(codec, start, cols, md, r, j)
        {
          if cols[j] in md {
            var id := RowId(cols, r);
            var e := if id in found then found[id] else EMPTY_RESPONSE;
            found := found[id := PutCell(codec, e, md[cols[j]], r[j])];
          }
        }
      }
    }
    assert rows[..|rows|] == rows;
    var ids := Sorted(found.Keys);
    response := seq(|ids|, i requires 0 <= i < |ids| => found[ids[i]]);
  }

  /** `response` lists the entities of an answer in the order of their ids. */
  ghost predicate InIdOrder(response: seq<EntityResponse>, entities: Entities) {
    |response| == |Sorted(entities.Keys)| &&
    forall i :: 0 <= i < |response| ==> response[i] == entities[Sorted(entities.Keys)[i]]
  }

  // ---- What the series hold -------------------------------------------------------------

  ghost predicate SameSource(a: Origin, b: Origin) {
    a == b || (a.AttrOrigin? && b.AttrOrigin? && a.name == b.name)
  }

  /** Columns that feed the same part of a response are the same column. */
  ghost predicate OwnColumns(cols: seq<Column>, md: Metadata) {
    forall c, d :: c in cols && d in cols && c in md && d in md && SameSource(md[c], md[d]) ==> c == d
  }

  /** A column asked for several times reads the same each time. */
  ghost predicate ReadsAlike(cols: seq<Column>, r: seq<Cell>) {
    |r| == |cols| && forall i, j :: 0 <= i < |cols| && 0 <= j < |cols| && cols[i] == cols[j] ==> r[i] == r[j]
  }

  function NamedAttr(name: string): Origin -> bool {
    (o: Origin) => o.AttrOrigin? && o.name == name
  }

  function TheTime(): Origin -> bool {
    (o: Origin) => o.TimeOrigin?
  }

  /** How many of the first `m` columns come from there. */
  function Feeding(cols: seq<Column>, md: Metadata, m: nat, source: Origin -> bool): nat
    requires m <= |cols|
  {
    if m == 0 then 0
    else Feeding(cols, md, m - 1, source) + if cols[m - 1] in md && source(md[cols[m - 1]]) then 1 else 0
  }

  function IndexSeries(es: Entities, id: string): seq<Cell> {
    if id in es then es[id].index else []
  }

  function ValueSeries(es: Entities, id: string, name: string): seq<Option<Datum>> {
    if id in es && name in es[id].attrs then es[id].attrs[name].values else []
  }

  lemma PutExtends(codec: Codec, es: Entities, key: string, origin: Origin, v: Cell, id: string, name: string)
    ensures IndexSeries(Put(codec, es, key, origin, v), id)
         == IndexSeries(es, id) + if id == key && origin.TimeOrigin? then [v] else []
    ensures ValueSeries(Put(codec, es, key, origin, v), id, name)
         == ValueSeries(es, id, name)
              + if id == key && origin.AttrOrigin? && origin.name == name then [codec.toNgsi(v, origin.atype)] else []
  {
  }

  function ReadCell(codec: Codec, j: nat, atype: Option<string>): seq<Cell> -> Option<Datum> {
    (r: seq<Cell>) => if j < |r| then codec.toNgsi(r[j], atype) else None
  }

  function CellOf(j: nat): seq<Cell> -> Cell {
    (r: seq<Cell>) => if j < |r| then r[j] else Null
  }

  /** The rows of entity `id` that belong to table `tn`. */
  function RowsOf(cols: seq<Column>, tn: string, id: string): seq<Cell> -> bool {
    (r: seq<Cell>) => Identified(cols, r) && RowId(cols, r) == id && OfTable(cols, tn, r)
  }

  lemma {:induction false} CellsKnowEntity(codec: Codec, acc: Entities, cols: seq<Column>, md: Metadata,
                                           r: seq<Cell>, m: nat, id: string, j: nat)
    requires Identified(cols, r) && m <= |cols| && j < |cols| && cols[j] in md
    ensures var after := AddCells(codec, acc, cols, md, r, m);
      && (RowId(cols, r) == id && j < m ==> id in after)
      && (id in acc ==> id in after)
      && (id in after ==> id in acc || RowId(cols, r) == id)
  {
    if m > 0 { CellsKnowEntity(codec, acc, cols, md, r, m - 1, id, j); }
  }

  lemma RepeatMore<T>(n: nat, x: T)
    ensures Repeat(n + 1, x) == Repeat(n, x) + [x]
  {
  }

  lemma RepeatGrows<T>(base: seq<T>, before: seq<T>, after: seq<T>, own: bool, fed: bool, n: nat, x: T, v: T)
    requires before == base + if own then Repeat(n, v) else []
    requires after == before + if own && fed then [x] else []
    requires fed ==> x == v
    ensures after == base + if own then Repeat(n + if fed then 1 else 0, v) else []
  {
    RepeatMore(n, v);
  }

  /** What one cell adds to the index and to the series of an entity. */
  lemma CellExtendsIndex(codec: Codec, acc: Entities, cols: seq<Column>, md: Metadata, r: seq<Cell>, m: nat, id: string)
    requires Identified(cols, r) && 0 < m <= |cols|
    ensures var before, after := AddCells(codec, acc, cols, md, r, m - 1), AddCells(codec, acc, cols, md, r, m);
      var fed := cols[m - 1] in md && TheTime()(md[cols[m - 1]]);
      IndexSeries(after, id) == IndexSeries(before, id) + if RowId(cols, r) == id && fed then [r[m - 1]] else []
  {
    if cols[m - 1] in md {
      PutExtends(codec, AddCells(codec, acc, cols, md, r, m - 1), RowId(cols, r), md[cols[m - 1]], r[m - 1], id, "");
    }
  }

  lemma CellExtendsValues(codec: Codec, acc: Entities, cols: seq<Column>, md: Metadata, r: seq<Cell>, m: nat,
                          id: string, name: string)
    requires Identified(cols, r) && 0 < m <= |cols|
    ensures var before, after := AddCells(codec, acc, cols, md, r, m - 1), AddCells(codec, acc, cols, md, r, m);
      var c, fed := cols[m - 1], cols[m - 1] in md && NamedAttr(name)(md[cols[m - 1]]);
      ValueSeries(after, id, name) == ValueSeries(before, id, name)
        + if RowId(cols, r) == id && fed then [codec.toNgsi(r[m - 1], md[c].atype)] else []
  {
    if cols[m - 1] in md {
      PutExtends(codec, AddCells(codec, acc, cols, md, r, m - 1), RowId(cols, r), md[cols[m - 1]], r[m - 1], id, name);
    }
  }

  lemma SameCell(cols: seq<Column>, md: Metadata, r: seq<Cell>, a: nat, b: nat)
    requires OwnColumns(cols, md) && ReadsAlike(cols, r) && a < |cols| && b < |cols|
    requires cols[a] in md && cols[b] in md && SameSource(md[cols[a]], md[cols[b]])
    ensures cols[a] == cols[b] && r[a] == r[b]
  {
    assert cols[a] in cols && cols[b] in cols;
  }

  /** The index once the first `m` cells are added: the cell of column `j` as often as the time was among them. */
  ghost predicate IndexGrown(codec: Codec, acc: Entities, cols: seq<Column>, md: Metadata, r: seq<Cell>, m: nat,
                             id: string, v: Cell)
    requires Identified(cols, r) && m <= |cols|
  {
    IndexSeries(AddCells(codec, acc, cols, md, r, m), id)
      == IndexSeries(acc, id) + if RowId(cols, r) == id then Repeat(Feeding(cols, md, m, TheTime()), v) else []
  }

  lemma IndexGrowsOn(codec: Codec, acc: Entities, cols: seq<Column>, md: Metadata, r: seq<Cell>, m: nat, id: string,
                     j: nat)
    requires Identified(cols, r) && 0 < m <= |cols| && j < |cols| && ReadsAlike(cols, r)
    requires OwnColumns(cols, md) && cols[j] in md && md[cols[j]].TimeOrigin?
    requires IndexGrown(codec, acc, cols, md, r, m - 1, id, r[j])
    ensures IndexGrown(codec, acc, cols, md, r, m, id, r[j])
  {
    CellExtendsIndex(codec, acc, cols, md, r, m, id);
    var own, fed := RowId(cols, r) == id, cols[m - 1] in md && TheTime()(md[cols[m - 1]]);
    if fed { SameCell(cols, md, r, m - 1, j); }
    RepeatGrows(IndexSeries(acc, id), IndexSeries(AddCells(codec, acc, cols, md, r, m - 1), id),
                IndexSeries(AddCells(codec, acc, cols, md, r, m), id), own, fed,
                Feeding(cols, md, m - 1, TheTime()), r[m - 1], r[j]);
  }

  lemma {:induction false} CellsExtendIndex(codec: Codec, acc: Entities, cols: seq<Column>, md: Metadata,
                                            r: seq<Cell>, m: nat, id: string, j: nat)
    requires Identified(cols, r) && m <= |cols| && j < |cols| && ReadsAlike(cols, r)
    requires OwnColumns(cols, md) && cols[j] in md && md[cols[j]].TimeOrigin?
    ensures IndexGrown(codec, acc, cols, md, r, m, id, r[j])
  {
    if m > 0 {
      CellsExtendIndex(codec, acc, cols, md, r, m - 1, id, j);
      IndexGrowsOn(codec, acc, cols, md, r, m, id, j);
    }
  }

  /** The same for a series and the attribute's column. */
  ghost predicate ValuesGrown(codec: Codec, acc: Entities, cols: seq<Column>, md: Metadata, r: seq<Cell>, m: nat,
                              id: string, name: string, v: Option<Datum>)
    requires Identified(cols, r) && m <= |cols|
  {
    ValueSeries(AddCells(codec, acc, cols, md, r, m), id, name)
      == ValueSeries(acc, id, name)
           + if RowId(cols, r) == id then Repeat(Feeding(cols, md, m, NamedAttr(name)), v) else []
  }

  lemma ValuesGrowOn(codec: Codec, acc: Entities, cols: seq<Column>, md: Metadata, r: seq<Cell>, m: nat, id: string,
                     j: nat, name: string, v: Option<Datum>)
    requires Identified(cols, r) && 0 < m <= |cols| && j < |cols| && ReadsAlike(cols, r)
    requires OwnColumns(cols, md) && cols[j] in md && md[cols[j]].AttrOrigin? && md[cols[j]].name == name
    requires v == codec.toNgsi(r[j], md[cols[j]].atype)
    requires ValuesGrown(codec, acc, cols, md, r, m - 1, id, name, v)
    ensures ValuesGrown(codec, acc, cols, md, r, m, id, name, v)
  {
    CellExtendsValues(codec, acc, cols, md, r, m, id, name);
    var own, fed := RowId(cols, r) == id, cols[m - 1] in md && NamedAttr(name)(md[cols[m - 1]]);
    if fed { SameCell(cols, md, r, m - 1, j); }
    RepeatGrows(ValueSeries(acc, id, name), ValueSeries(AddCells(codec, acc, cols, md, r, m - 1), id, name),
                ValueSeries(AddCells(codec, acc, cols, md, r, m), id, name), own, fed,
                Feeding(cols, md, m - 1, NamedAttr(name)), v, v);
  }

  lemma {:induction false} CellsExtendValues(codec: Codec, acc: Entities, cols: seq<Column>, md: Metadata,
                                             r: seq<Cell>, m: nat, id: string, j: nat)
    requires Identified(cols, r) && m <= |cols| && j < |cols| && ReadsAlike(cols, r)
    requires OwnColumns(cols, md) && cols[j] in md && md[cols[j]].AttrOrigin?
    ensures var origin := md[cols[j]];
      ValuesGrown(codec, acc, cols, md, r, m, id, origin.name, codec.toNgsi(r[j], origin.atype))
  {
    if m > 0 {
      CellsExtendValues(codec, acc, cols, md, r, m - 1, id, j);
      ValuesGrowOn(codec, acc, cols, md, r, m, id, j, md[cols[j]].name, codec.toNgsi(r[j], md[cols[j]].atype));
    }
  }

  lemma RowsSnoc<T>(cols: seq<Column>, tn: string, id: string, f: seq<Cell> -> T, n: nat, init: seq<seq<Cell>>,
                    r: seq<Cell>)
    ensures var keep := RowsOf(cols, tn, id);
      Stutter(n, Map(f, Filter(keep, init + [r])))
        == Stutter(n, Map(f, Filter(keep, init))) + if keep(r) then Repeat(n, f(r)) else []
  {
    var keep := RowsOf(cols, tn, id);
    FilterConcat(keep, init, [r]);
    assert Filter(keep, [r]) == if keep(r) then [r] else [];
    MapConcat(f, Filter(keep, init), Filter(keep, [r]));
    if keep(r) {
      assert Map(f, [r]) == [f(r)];
      StutterSnoc(n, Map(f, Filter(keep, init)), f(r));
    } else {
      assert Map(f, Filter(keep, init)) + [] == Map(f, Filter(keep, init));
    }
  }

  ghost predicate AllReadAlike(cols: seq<Column>, rows: seq<seq<Cell>>) {
    forall i :: 0 <= i < |rows| ==> ReadsAlike(cols, rows[i])
  }

  /** The index of an entity: the times of its rows, in row order, each as often as the time is asked for. */
  lemma {:induction false} RowsGiveIndex(codec: Codec, cols: seq<Column>, md: Metadata, tn: string,
                                         rows: seq<seq<Cell>>, id: string, j: nat)
    requires AllIdentified(cols, rows) && AllReadAlike(cols, rows)
    requires j < |cols| && OwnColumns(cols, md) && cols[j] in md && md[cols[j]].TimeOrigin?
    ensures IndexSeries(AddRows(codec, cols, md, tn, rows), id)
         == Stutter(Feeding(cols, md, |cols|, TheTime()), Map(CellOf(j), Filter(RowsOf(cols, tn, id), rows)))
  {
    if rows != [] {
      var last := |rows| - 1;
      var init, r := rows[..last], rows[last];
      RowsGiveIndex(codec, cols, md, tn, init, id, j);
      assert rows == init + [r];
      RowsSnoc(cols, tn, id, CellOf(j), Feeding(cols, md, |cols|, TheTime()), init, r);
      if OfTable(cols, tn, r) {
        CellsExtendIndex(codec, AddRows(codec, cols, md, tn, init), cols, md, r, |cols|, id, j);
      }
    }
  }

  /** The values of an attribute of an entity: one a row of the entity, in row order, each as often as the attribute is
      asked for. */
  lemma {:induction false} RowsGiveValues(codec: Codec, cols: seq<Column>, md: Metadata, tn: string,
                                          rows: seq<seq<Cell>>, id: string, j: nat)
    requires AllIdentified(cols, rows) && AllReadAlike(cols, rows)
    requires j < |cols| && OwnColumns(cols, md) && cols[j] in md && md[cols[j]].AttrOrigin?
    ensures var name := md[cols[j]].name;
      ValueSeries(AddRows(codec, cols, md, tn, rows), id, name)
        == Stutter(Feeding(cols, md, |cols|, NamedAttr(name)),
                   Map(ReadCell(codec, j, md[cols[j]].atype), Filter(RowsOf(cols, tn, id), rows)))
  {
    if rows != [] {
      var last, name := |rows| - 1, md[cols[j]].name;
      var init, r := rows[..last], rows[last];
      RowsGiveValues(codec, cols, md, tn, init, id, j);
      assert rows == init + [r];
      RowsSnoc(cols, tn, id, ReadCell(codec, j, md[cols[j]].atype), Feeding(cols, md, |cols|, NamedAttr(name)), init,
               r);
      if OfTable(cols, tn, r) {
        CellsExtendValues(codec, AddRows(codec, cols, md, tn, init), cols, md, r, |cols|, id, j);
      }
    }
  }

  /** One of the columns feeds the attribute. */
  ghost predicate Feeds(cols: seq<Column>, md: Metadata, name: string, atype: Option<string>) {
    exists c :: c in cols && c in md && md[c] == AttrOrigin(name, atype)
  }

  /** The entities have no attribute but those the columns feed, with the types those have. */
  ghost predicate OnlyFed(es: Entities, cols: seq<Column>, md: Metadata) {
    forall id, name :: id in es && name in es[id].attrs ==> Feeds(cols, md, name, es[id].attrs[name].atype)
  }

  lemma {:induction false} CellsOnlyFed(codec: Codec, acc: Entities, cols: seq<Column>, md: Metadata, r: seq<Cell>,
                                        m: nat)
    requires Identified(cols, r) && m <= |cols| && OnlyFed(acc, cols, md)
    ensures OnlyFed(AddCells(codec, acc, cols, md, r, m), cols, md)
  {
    if m > 0 {
      CellsOnlyFed(codec, acc, cols, md, r, m - 1);
      var c := cols[m - 1];
      assert c in cols;
      if c in md && md[c].AttrOrigin? { assert Feeds(cols, md, md[c].name, md[c].atype); }
    }
  }

  /** An answer has no attribute that no column holds, and each has the type of its column. */
  lemma {:induction false} RowsOnlyFed(codec: Codec, cols: seq<Column>, md: Metadata, tn: string, rows: seq<seq<Cell>>)
    requires AllIdentified(cols, rows)
    ensures OnlyFed(AddRows(codec, cols, md, tn, rows), cols, md)
  {
    if rows != [] {
      var init, r := rows[..|rows| - 1], rows[|rows| - 1];
      RowsOnlyFed(codec, cols, md, tn, init);
      if OfTable(cols, tn, r) { CellsOnlyFed(codec, AddRows(codec, cols, md, tn, init), cols, md, r, |cols|); }
    }
  }

  /** The response has an entry for an entity just when the table has a row of it. */
  lemma {:induction false} RowsGiveEntities(codec: Codec, cols: seq<Column>, md: Metadata, tn: string,
                                            rows: seq<seq<Cell>>, id: string, j: nat)
    requires AllIdentified(cols, rows) && j < |cols| && cols[j] in md
    ensures id in AddRows(codec, cols, md, tn, rows) <==> Filter(RowsOf(cols, tn, id), rows) != []
  {
    if rows != [] {
      var last := |rows| - 1;
      var init, r := rows[..last], rows[last];
      RowsGiveEntities(codec, cols, md, tn, init, id, j);
      assert rows == init + [r];
      FilterConcat(RowsOf(cols, tn, id), init, [r]);
      assert Filter(RowsOf(cols, tn, id), [r]) == if RowsOf(cols, tn, id)(r) then [r] else [];
      if OfTable(cols, tn, r) {
        CellsKnowEntity(codec, AddRows(codec, cols, md, tn, init), cols, md, r, |cols|, id, j);
      }
    }
  }

  /** The entities of an answer are those of the rows whose type, in lower case, stands in the table's name. */
  lemma RowsOfTypeGiveEntities(codec: Codec, cols: seq<Column>, md: Metadata, tn: string, rows: seq<seq<Cell>>,
                               id: string, j: nat)
    requires AllIdentified(cols, rows) && j < |cols| && cols[j] in md
    ensures id in AddRows(codec, cols, md, tn, rows) <==>
      exists i :: 0 <= i < |rows| && RowId(cols, rows[i]) == id && Contains(tn, Lower(RowType(cols, rows[i])))
  {
    RowsGiveEntities(codec, cols, md, tn, rows, id, j);
    var picks := FilterPositions(RowsOf(cols, tn, id), rows);
    if picks != [] { assert picks[0] in picks; }
    if i: nat :| i < |rows| && RowId(cols, rows[i]) == id && Contains(tn, Lower(RowType(cols, rows[i]))) {
      assert RowsOf(cols, tn, id)(rows[i]);
      assert i in picks;
    }
  }

  /** The entry for an entity has the entity's id and the type given. */
  ghost predicate Labelled(es: Entities, id: string, etype: string) {
    id in es ==> es[id].id == Text(id) && es[id].etype == Text(etype)
  }

  ghost predicate LabelColumns(cols: seq<Column>, md: Metadata) {
    && OwnColumns(cols, md)
    && EntityIdCol in md && md[EntityIdCol] == IdOrigin && EntityTypeCol in md && md[EntityTypeCol] == TypeOrigin
  }

  lemma {:induction false} CellsLabel(codec: Codec, acc: Entities, cols: seq<Column>, md: Metadata, r: seq<Cell>,
                                      m: nat, id: string)
    requires Identified(cols, r) && m <= |cols| && LabelColumns(cols, md) && ReadsAlike(cols, r)
    requires Labelled(acc, id, RowType(cols, r))
    ensures var after := AddCells(codec, acc, cols, md, r, m);
      && (id in acc ==> id in after) && (id in after ==> id in acc || RowId(cols, r) == id)
      && (id in acc ==> Labelled(after, id, RowType(cols, r)))
      && (RowId(cols, r) == id && IndexOf(cols, EntityIdCol) < m ==> id in after && after[id].id == Text(id))
      && (RowId(cols, r) == id && IndexOf(cols, EntityTypeCol) < m ==>
           id in after && after[id].etype == Text(RowType(cols, r)))
  {
    if m > 0 {
      CellsLabel(codec, acc, cols, md, r, m - 1, id);
      var i, j := IndexOf(cols, EntityIdCol), IndexOf(cols, EntityTypeCol);
      if cols[m - 1] in md && cols[m - 1] != cols[i] { assert !SameSource(md[cols[m - 1]], md[cols[i]]); }
      if cols[m - 1] in md && cols[m - 1] != cols[j] { assert !SameSource(md[cols[m - 1]], md[cols[j]]); }
    }
  }

  /** Every entry of an answer has the id it is listed under, and the type of the rows. */
  lemma {:induction false} RowsLabel(codec: Codec, cols: seq<Column>, md: Metadata, tn: string, rows: seq<seq<Cell>>,
                                     id: string, etype: string)
    requires AllIdentified(cols, rows) && AllReadAlike(cols, rows) && LabelColumns(cols, md)
    requires forall i :: 0 <= i < |rows| ==> Identified(cols, rows[i]) && RowType(cols, rows[i]) == etype
    ensures Labelled(AddRows(codec, cols, md, tn, rows), id, etype)
  {
    if rows != [] {
      var init, r := rows[..|rows| - 1], rows[|rows| - 1];
      RowsLabel(codec, cols, md, tn, init, id, etype);
      if OfTable(cols, tn, r) {
        CellsLabel(codec, AddRows(codec, cols, md, tn, init), cols, md, r, |cols|, id);
      }
    }
  }

  // ---- The last n -----------------------------------------------------------------------

  ghost predicate DistinctTimes(rows: seq<Row>, keep: Row -> bool) {
    forall i, j :: 0 <= i < j < |rows| && keep(rows[i]) && keep(rows[j]) ==> TimeOf(rows[i]) != TimeOf(rows[j])
  }

  lemma FirstIsMember(xs: seq<nat>)
    ensures |xs| > 0 ==> exists i :: i in xs
  {
    if |xs| > 0 { assert xs[0] in xs; }
  }

  /** Strictly ascending listings of the same positions are equal. */
  lemma {:induction false} AscendingUnique(time: nat -> int, a: seq<nat>, b: seq<nat>)
    requires forall i :: i in a <==> i in b
    requires forall x, y :: 0 <= x < y < |a| ==> time(a[x]) < time(a[y])
    requires forall x, y :: 0 <= x < y < |b| ==> time(b[x]) < time(b[y])
    ensures a == b
  {
    FirstIsMember(b);
    if |a| > 0 {
      assert a[0] in b;
      assert b[0] in a;
      var x :| 0 <= x < |b| && b[x] == a[0];
      var y :| 0 <= y < |a| && a[y] == b[0];
      assert a == [a[0]] + a[1..] && b == [b[0]] + b[1..];
      forall i ensures i in a[1..] <==> i in b[1..] {
        assert i in a <==> i in b;
        assert a[0] !in a[1..] && b[0] !in b[1..];
      }
      AscendingUnique(time, a[1..], b[1..]);
    }
  }

  lemma ReverseMembers<T>(xs: seq<T>)
    ensures forall x :: x in Reverse(xs) <==> x in xs
  {
    var back := Reverse(xs);
    forall x | x in back ensures x in xs {
      var k :| 0 <= k < |back| && back[k] == x;
      assert xs[|xs| - 1 - k] in xs;
    }
    forall x | x in xs ensures x in back {
      var k :| 0 <= k < |xs| && xs[k] == x;
      assert back[|xs| - 1 - k] in back;
    }
  }

  lemma LaterRow(rows: seq<Row>, keep: Row -> bool, desc: seq<nat>, i: nat, j: nat)
    requires DistinctTimes(rows, keep) && IsSelection(rows, keep, true, desc) && i < j < |desc|
    ensures RankIn(rows, false)(desc[j]) < RankIn(rows, false)(desc[i])
  {
    var rank := RankIn(rows, true);
    assert desc[i] in desc && desc[j] in desc && desc[i] != desc[j];
    assert rank(desc[i]) <= rank(desc[j]);
  }

  /** Rows picked in descending order have, from the last to the first, ever later times. */
  lemma ReversedAscends(rows: seq<Row>, keep: Row -> bool, desc: seq<nat>)
    requires DistinctTimes(rows, keep) && IsSelection(rows, keep, true, desc)
    ensures var back, time := Reverse(desc), RankIn(rows, false);
      forall x, y :: 0 <= x < y < |back| ==> time(back[x]) < time(back[y])
  {
    var back, time := Reverse(desc), RankIn(rows, false);
    forall x, y | 0 <= x < y < |back| ensures time(back[x]) < time(back[y]) {
      LaterRow(rows, keep, desc, |desc| - 1 - y, |desc| - 1 - x);
    }
  }

  lemma StrictlyAscends(rows: seq<Row>, keep: Row -> bool, asc: seq<nat>)
    requires DistinctTimes(rows, keep) && IsSelection(rows, keep, false, asc)
    ensures var time := RankIn(rows, false);
      forall x, y :: 0 <= x < y < |asc| ==> time(asc[x]) < time(asc[y])
  {
    var time := RankIn(rows, false);
    forall x, y | 0 <= x < y < |asc| ensures time(asc[x]) < time(asc[y]) {
      assert asc[x] in asc && asc[y] in asc && asc[x] != asc[y];
    }
  }

  lemma DescendingReversed(rows: seq<Row>, keep: Row -> bool, asc: seq<nat>, desc: seq<nat>)
    requires DistinctTimes(rows, keep)
    requires IsSelection(rows, keep, false, asc) && IsSelection(rows, keep, true, desc)
    ensures Reverse(desc) == asc
  {
    ReversedAscends(rows, keep, desc);
    StrictlyAscends(rows, keep, asc);
    ReverseMembers(desc);
    forall i ensures i in Reverse(desc) <==> i in asc {
      assert i in asc <==> i in desc;
    }
    AscendingUnique(RankIn(rows, false), Reverse(desc), asc);
  }

  lemma ProjectReversed(rows: seq<Row>, cols: seq<Column>, picks: seq<nat>)
    ensures Reverse(Project(rows, cols, picks)) == Project(rows, cols, Reverse(picks))
  {
  }

  lemma ProjectTail(rows: seq<Row>, cols: seq<Column>, picks: seq<nat>, n: nat)
    ensures Project(rows, cols, LastOf(picks, n)) == LastOf(Project(rows, cols, picks), n)
  {
  }

  lemma PageReversed<T>(xs: seq<T>, limit: nat)
    ensures Reverse(Page(xs, limit, 0)) == LastOf(Reverse(xs), limit)
  {
    var page, back := Page(xs, limit, 0), Reverse(xs);
    var turned, last := Reverse(page), LastOf(back, limit);
    assert |turned| == |last|;
    forall i | 0 <= i < |turned| ensures turned[i] == last[i] {
      assert turned[i] == page[|page| - 1 - i] == xs[|page| - 1 - i];
      assert last[i] == back[|xs| - |page| + i];
    }
  }

  /** What a query with `last_n` and no offset hands to the formatter, once turned round, is the tail of the
      full ascending selection: its last `limit` rows. */
  lemma LastNIsTail(rows: seq<Row>, keep: Row -> bool, cols: seq<Column>, asc: seq<nat>, desc: seq<nat>, limit: nat)
    requires DistinctTimes(rows, keep)
    requires IsSelection(rows, keep, false, asc) && IsSelection(rows, keep, true, desc)
    ensures |asc| == |desc|
    ensures Reverse(Project(rows, cols, Page(desc, limit, 0))) == LastOf(Project(rows, cols, asc), limit)
  {
    DescendingReversed(rows, keep, asc, desc);
    PageReversed(desc, limit);
    ProjectReversed(rows, cols, Page(desc, limit, 0));
    ProjectTail(rows, cols, asc, limit);
  }

  ghost predicate IsSuffix<T>(part: seq<T>, whole: seq<T>) {
    |part| <= |whole| && part == whole[|whole| - |part|..]
  }

  lemma EndIsSuffix<T>(whole: seq<T>, front: seq<T>, part: seq<T>)
    requires whole == front + part
    ensures IsSuffix(part, whole)
  {
  }

  /** The series in `all` are those in `before` and then those in `alone`. */
  ghost predicate Continues(all: Entities, before: Entities, alone: Entities, id: string, name: string) {
    && IndexSeries(all, id) == IndexSeries(before, id) + IndexSeries(alone, id)
    && ValueSeries(all, id, name) == ValueSeries(before, id, name) + ValueSeries(alone, id, name)
  }

  lemma Regroup<T>(all: seq<T>, before: seq<T>, alone: seq<T>, more: seq<T>)
    requires all == before + alone
    ensures all + more == before + (alone + more)
  {
  }

  lemma PutContinues(codec: Codec, all: Entities, before: Entities, alone: Entities, key: string, origin: Origin,
                     v: Cell, id: string, name: string)
    requires Continues(all, before, alone, id, name)
    ensures Continues(Put(codec, all, key, origin, v), before, Put(codec, alone, key, origin, v), id, name)
  {
    PutExtends(codec, all, key, origin, v, id, name);
    PutExtends(codec, alone, key, origin, v, id, name);
    Regroup(IndexSeries(all, id), IndexSeries(before, id), IndexSeries(alone, id),
            if id == key && origin.TimeOrigin? then [v] else []);
    Regroup(ValueSeries(all, id, name), ValueSeries(before, id, name), ValueSeries(alone, id, name),
            if id == key && origin.AttrOrigin? && origin.name == name then [codec.toNgsi(v, origin.atype)] else []);
  }

  lemma {:induction false} CellsContinue(codec: Codec, all: Entities, before: Entities, alone: Entities,
                                         cols: seq<Column>, md: Metadata, r: seq<Cell>, m: nat, id: string,
                                         name: string)
    requires Identified(cols, r) && m <= |cols| && Continues(all, before, alone, id, name)
    ensures Continues(AddCells(codec, all, cols, md, r, m), before, AddCells(codec, alone, cols, md, r, m), id, name)
  {
    if m > 0 {
      CellsContinue(codec, all, before, alone, cols, md, r, m - 1, id, name);
      if cols[m - 1] in md {
        PutContinues(codec, AddCells(codec, all, cols, md, r, m - 1), before,
                     AddCells(codec, alone, cols, md, r, m - 1), RowId(cols, r), md[cols[m - 1]], r[m - 1], id, name);
      }
    }
  }

  lemma RowContinues(codec: Codec, cols: seq<Column>, md: Metadata, tn: string, joined: seq<seq<Cell>>,
                     before: Entities, rows: seq<seq<Cell>>, id: string, name: string)
    requires AllIdentified(cols, joined) && AllIdentified(cols, rows)
    requires joined != [] && rows != [] && joined[|joined| - 1] == rows[|rows| - 1]
    requires Continues(AddRows(codec, cols, md, tn, joined[..|joined| - 1]), before,
                       AddRows(codec, cols, md, tn, rows[..|rows| - 1]), id, name)
    ensures Continues(AddRows(codec, cols, md, tn, joined), before, AddRows(codec, cols, md, tn, rows), id, name)
  {
    var r := rows[|rows| - 1];
    if OfTable(cols, tn, r) {
      CellsContinue(codec, AddRows(codec, cols, md, tn, joined[..|joined| - 1]), before,
                    AddRows(codec, cols, md, tn, rows[..|rows| - 1]), cols, md, r, |cols|, id, name);
    }
  }

  lemma JoinedInit<T>(front: seq<T>, rows: seq<T>)
    requires rows != []
    ensures (front + rows)[..|front + rows| - 1] == front + rows[..|rows| - 1]
    ensures (front + rows)[|front + rows| - 1] == rows[|rows| - 1]
  {
  }

  /** The answer for rows behind others continues the series of the answer for those. */
  lemma {:induction false} RowsContinue(codec: Codec, cols: seq<Column>, md: Metadata, tn: string,
                                        front: seq<seq<Cell>>, rows: seq<seq<Cell>>, id: string, name: string)
    requires AllIdentified(cols, front) && AllIdentified(cols, rows) && AllIdentified(cols, front + rows)
    ensures Continues(AddRows(codec, cols, md, tn, front + rows), AddRows(codec, cols, md, tn, front),
                      AddRows(codec, cols, md, tn, rows), id, name)
  {
    if rows == [] {
      assert front + rows == front;
    } else {
      JoinedInit(front, rows);
      RowsContinue(codec, cols, md, tn, front, rows[..|rows| - 1], id, name);
      RowContinues(codec, cols, md, tn, front + rows, AddRows(codec, cols, md, tn, front), rows, id, name);
    }
  }

  // ---- How long series are --------------------------------------------------------------

  lemma {:induction false} CellsLengthenValues(codec: Codec, acc: Entities, cols: seq<Column>, md: Metadata,
                                               r: seq<Cell>, m: nat, id: string, name: string)
    requires Identified(cols, r) && m <= |cols|
    ensures |ValueSeries(AddCells(codec, acc, cols, md, r, m), id, name)|
         == |ValueSeries(acc, id, name)|
              + if RowId(cols, r) == id then Feeding(cols, md, m, NamedAttr(name)) else 0
  {
    if m > 0 {
      CellsLengthenValues(codec, acc, cols, md, r, m - 1, id, name);
      CellExtendsValues(codec, acc, cols, md, r, m, id, name);
    }
  }

  lemma {:induction false} CellsLengthenIndex(codec: Codec, acc: Entities, cols: seq<Column>, md: Metadata,
                                              r: seq<Cell>, m: nat, id: string)
    requires Identified(cols, r) && m <= |cols|
    ensures |IndexSeries(AddCells(codec, acc, cols, md, r, m), id)|
         == |IndexSeries(acc, id)| + if RowId(cols, r) == id then Feeding(cols, md, m, TheTime()) else 0
  {
    if m > 0 {
      CellsLengthenIndex(codec, acc, cols, md, r, m - 1, id);
      CellExtendsIndex(codec, acc, cols, md, r, m, id);
    }
  }

  lemma OneTimesMore(k: nat, n: nat)
    ensures k * (n + 1) == k * n + k
  {
  }

  lemma {:induction false} RowsLengthen(codec: Codec, cols: seq<Column>, md: Metadata, tn: string,
                                        rows: seq<seq<Cell>>, id: string, name: string)
    requires AllIdentified(cols, rows)
    ensures var es, n := AddRows(codec, cols, md, tn, rows), |Filter(RowsOf(cols, tn, id), rows)|;
      && |ValueSeries(es, id, name)| == Feeding(cols, md, |cols|, NamedAttr(name)) * n
      && |IndexSeries(es, id)| == Feeding(cols, md, |cols|, TheTime()) * n
  {
    if rows != [] {
      var init, r := rows[..|rows| - 1], rows[|rows| - 1];
      var n := |Filter(RowsOf(cols, tn, id), init)|;
      RowsLengthen(codec, cols, md, tn, init, id, name);
      assert rows == init + [r];
      FilterConcat(RowsOf(cols, tn, id), init, [r]);
      assert Filter(RowsOf(cols, tn, id), [r]) == if RowsOf(cols, tn, id)(r) then [r] else [];
      OneTimesMore(Feeding(cols, md, |cols|, NamedAttr(name)), n);
      OneTimesMore(Feeding(cols, md, |cols|, TheTime()), n);
      if OfTable(cols, tn, r) {
        CellsLengthenValues(codec, AddRows(codec, cols, md, tn, init), cols, md, r, |cols|, id, name);
        CellsLengthenIndex(codec, AddRows(codec, cols, md, tn, init), cols, md, r, |cols|, id);
      }
    }
  }

  lemma TimesAlike(a: nat, b: nat, n: nat)
    requires n > 0
    ensures a * n == b * n <==> a == b
  {
  }

  /** A series of an entity found is as long as its index exactly when as many of the columns asked for feed it as feed
      the index: the attribute is asked for once, as the time is. */
  lemma SeriesLengths(codec: Codec, cols: seq<Column>, md: Metadata, tn: string, rows: seq<seq<Cell>>, id: string,
                      name: string)
    requires AllIdentified(cols, rows) && Filter(RowsOf(cols, tn, id), rows) != []
    ensures var es := AddRows(codec, cols, md, tn, rows);
      |ValueSeries(es, id, name)| == |IndexSeries(es, id)| <==>
        Feeding(cols, md, |cols|, NamedAttr(name)) == Feeding(cols, md, |cols|, TheTime())
  {
    RowsLengthen(codec, cols, md, tn, rows, id, name);
    TimesAlike(Feeding(cols, md, |cols|, NamedAttr(name)), Feeding(cols, md, |cols|, TheTime()),
               |Filter(RowsOf(cols, tn, id), rows)|);
  }

  // ---- The ends of series ---------------------------------------------------------------

  /** Every series of one answer is the end of that of the other. */
  ghost predicate EndsOf(tail: Entities, full: Entities) {
    && (forall id :: IsSuffix(IndexSeries(tail, id), IndexSeries(full, id)))
    && (forall id, name :: IsSuffix(ValueSeries(tail, id, name), ValueSeries(full, id, name)))
  }

  lemma ContinuedEnds(full: Entities, before: Entities, tail: Entities)
    requires forall id, name :: Continues(full, before, tail, id, name)
    ensures EndsOf(tail, full)
  {
    forall id ensures IsSuffix(IndexSeries(tail, id), IndexSeries(full, id)) {
      assert Continues(full, before, tail, id, "");
      EndIsSuffix(IndexSeries(full, id), IndexSeries(before, id), IndexSeries(tail, id));
    }
    forall id, name ensures IsSuffix(ValueSeries(tail, id, name), ValueSeries(full, id, name)) {
      assert Continues(full, before, tail, id, name);
      EndIsSuffix(ValueSeries(full, id, name), ValueSeries(before, id, name), ValueSeries(tail, id, name));
    }
  }

  /** The answer for the last rows has the ends of the series of the answer for all. */
  lemma LastNSeriesAreSuffixes(codec: Codec, cols: seq<Column>, md: Metadata, tn: string, rows: seq<seq<Cell>>, n: nat)
    requires AllIdentified(cols, rows)
    ensures AllIdentified(cols, LastOf(rows, n))
    ensures EndsOf(AddRows(codec, cols, md, tn, LastOf(rows, n)), AddRows(codec, cols, md, tn, rows))
  {
    var k := if n <= |rows| then |rows| - n else 0;
    var front, last := rows[..k], rows[k..];
    assert rows == front + last && LastOf(rows, n) == last;
    var tail, full := AddRows(codec, cols, md, tn, last), AddRows(codec, cols, md, tn, rows);
    forall id, name ensures Continues(full, AddRows(codec, cols, md, tn, front), tail, id, name) {
      RowsContinue(codec, cols, md, tn, front, last, id, name);
    }
    ContinuedEnds(full, AddRows(codec, cols, md, tn, front), tail);
  }
}
