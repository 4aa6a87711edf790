/** NGSI entities, database cells and the columns an insert infers: src/translators/sql_translator.py. */
module Ngsi {
  import opened Sequences
  import opened Strings

  /** An attribute value as it travels in a notification; only its identity matters here. */
  datatype Datum = Datum(code: int)

  datatype Attr = Attr(name: string, atype: Option<string>, datum: Datum)

  /** An entity dictionary: its `id`, its `type`, its time index if it has one, and in `attrs` every
      other key an insert looks at, in dictionary order. */
  datatype Entity = Entity(id: string, etype: string, timeIndex: Option<int>, attrs: seq<Attr>)

  datatype Cell =
    | Null
    | Text(text: string)
    | Stamp(at: int)
    | Data(code: int)
    | FreshInstanceId
    | Original(data: Entity, inFailedBatch: bool)

  /** The value conversions of a back-end, `_ngsi_*_to_db` and `_db_value_to_ngsi`. */
  datatype Codec = Codec(
    toDb: (Datum, Option<string>) -> Cell,
    toNgsi: (Cell, Option<string>) -> Option<Datum>)

  /** Reading undoes writing wherever writing did not give up and store NULL. */
  ghost predicate Inverse(codec: Codec) {
    && (forall t :: codec.toNgsi(Null, t) == None)
    && forall d, t :: codec.toDb(d, t) != Null ==> codec.toNgsi(codec.toDb(d, t), t) == Some(d)
  }

  // ---- Columns --------------------------------------------------------------------------

  /** Column names. The translator's own have constructors; `InstanceIdKey` is the mixed-case key an
      insert uses for the column the database knows as `instanceid`. */
  datatype Column =
    | EntityTypeCol
    | EntityIdCol
    | TimeIndexCol
    | ServicePathCol
    | OriginalEntityCol
    | InstanceIdCol
    | InstanceIdKey
    | Named(name: string)

  /** The texts of the column names the translator uses itself. */
  const RESERVED_COLUMNS: map<string, Column> := map[
    "entity_type" := EntityTypeCol,
    "entity_id" := EntityIdCol,
    "time_index" := TimeIndexCol,
    "fiware_servicepath" := ServicePathCol,
    "__original_ngsi_entity__" := OriginalEntityCol,
    "instanceid" := InstanceIdCol]

  /** `_ea2cn`: an attribute's column has its lower-case name, even when that is a reserved one. */
  function ColumnOf(attr: string): (c: Column)
    ensures !c.InstanceIdKey?
  {
    var n := Lower(attr);
    if n in RESERVED_COLUMNS then RESERVED_COLUMNS[n] else Named(n)
  }

  /** Each of the translator's own columns has one text. */
  lemma ReservedTexts(text: string, other: string)
    requires text in RESERVED_COLUMNS && other in RESERVED_COLUMNS
    ensures RESERVED_COLUMNS[text] == RESERVED_COLUMNS[other] <==> text == other
    ensures !RESERVED_COLUMNS[text].Named?
  {
  }

  /** Attributes have the same column just when their names agree in lower case; those that agree with the text of one
      of the translator's own columns have that. */
  lemma SameColumn(a: string, b: string)
    ensures ColumnOf(a) == ColumnOf(b) <==> Lower(a) == Lower(b)
    ensures forall text :: text in RESERVED_COLUMNS ==> (ColumnOf(a) == RESERVED_COLUMNS[text] <==> Lower(a) == text)
  {
    forall x, y | x in RESERVED_COLUMNS && y in RESERVED_COLUMNS
      ensures RESERVED_COLUMNS[x] == RESERVED_COLUMNS[y] <==> x == y
      ensures !RESERVED_COLUMNS[x].Named?
    {
      ReservedTexts(x, y);
    }
  }

  /** Statements quote lower-case names. */
  function InDatabase(c: Column): Column {
    if c.InstanceIdKey? then InstanceIdCol else c
  }

  const BASE_COLUMNS: set<Column> := {EntityTypeCol, EntityIdCol, TimeIndexCol}

  /** The columns of every data table that stand for no attribute, as the database names them. */
  const INTERNAL_COLUMNS: set<Column> := {ServicePathCol, OriginalEntityCol, InstanceIdCol}

  /** ... and as the keys an insert starts from. */
  const EXTRA_KEYS: set<Column> := {ServicePathCol, OriginalEntityCol, InstanceIdKey}

  /** Where a column comes from: the original name and NGSI type of what it holds. */
  datatype Origin = TypeOrigin | IdOrigin | TimeOrigin | AttrOrigin(name: string, atype: Option<string>)

  type Metadata = map<Column, Origin>

  const BASE_METADATA: Metadata :=
    map[EntityTypeCol := TypeOrigin, EntityIdCol := IdOrigin, TimeIndexCol := TimeOrigin]

  function FindAttr(attrs: seq<Attr>, name: string): Option<Attr> {
    if attrs == [] then None
    else if attrs[0].name == name then Some(attrs[0])
    else FindAttr(attrs[1..], name)
  }

  lemma {:induction false} FindAttrFound(attrs: seq<Attr>, name: string)
    ensures FindAttr(attrs, name).Some? <==> exists a :: a in attrs && a.name == name
    ensures FindAttr(attrs, name).Some? ==>
      FindAttr(attrs, name).value in attrs && FindAttr(attrs, name).value.name == name
  {
    if attrs != [] { FindAttrFound(attrs[1..], name); }
  }

  // ---- Validation of the entities of one insert -----------------------------------------

  datatype InsertError =
    | WrongType(id: string)
    | ReservedName(id: string)
    | BadServicePaths
    | Database(programming: bool)

  const RESERVED_NAME := "__original_ngsi_entity__"

  function WithTimeIndex(e: Entity, now: int): Entity {
    if e.timeIndex.Some? then e else e.(timeIndex := Some(now))
  }

  predicate Reserved(e: Entity) {
    FindAttr(e.attrs, RESERVED_NAME).Some?
  }

  function Checked(etype: string, e: Entity, now: int): Result<Entity, InsertError> {
    if e.etype != etype then Failure(WrongType(e.id))
    else if Reserved(e) then Failure(ReservedName(e.id))
    else Success(WithTimeIndex(e, now))
  }

  function Prefixed<T>(xs: seq<T>, r: Result<seq<T>, InsertError>): Result<seq<T>, InsertError> {
    match r
    case Failure(err) => r
    case Success(rest) => Success(xs + rest)
  }

  /** The first entity that fails its check decides the outcome. */
  function CheckedAll(etype: string, es: seq<Entity>, now: int): Result<seq<Entity>, InsertError> {
    if es == [] then Success([])
    else match Checked(etype, es[0], now)
      case Failure(err) => Failure(err)
      case Success(e) => Prefixed([e], CheckedAll(etype, es[1..], now))
  }

  /** The right type, and no attribute of the reserved name. */
  predicate Passes(etype: string, e: Entity) {
    e.etype == etype && forall a :: a in e.attrs ==> a.name != RESERVED_NAME
  }

  lemma PassesWhen(etype: string, e: Entity)
    ensures Passes(etype, e) <==> e.etype == etype && !Reserved(e)
  {
    FindAttrFound(e.attrs, RESERVED_NAME);
  }

  /** As it was, with the current time where it had no time index. */
  predicate IsStamped(e: Entity, checked: Entity, now: int) {
    && checked.(timeIndex := e.timeIndex) == e
    && checked.timeIndex == Some(if e.timeIndex.Some? then e.timeIndex.value else now)
  }

  /** An insert goes on exactly when every entity has its type and none a reserved attribute. */
  lemma {:induction false} ChecksPass(etype: string, es: seq<Entity>, now: int)
    ensures CheckedAll(etype, es, now).Success? <==> forall e :: e in es ==> Passes(etype, e)
    ensures CheckedAll(etype, es, now).Success? ==>
      var checked := CheckedAll(etype, es, now).value;
      |checked| == |es| && forall i :: 0 <= i < |es| ==> IsStamped(es[i], checked[i], now)
  {
    if es != [] {
      ChecksPass(etype, es[1..], now);
      PassesWhen(etype, es[0]);
      assert es == [es[0]] + es[1..];
      assert CheckedAll(etype, es, now).Success? <==>
        Passes(etype, es[0]) && CheckedAll(etype, es[1..], now).Success?;
      if Passes(etype, es[0]) && forall e :: e in es[1..] ==> Passes(etype, e) {
        assert forall e :: e in es ==> e == es[0] || e in es[1..];
      } else if Passes(etype, es[0]) {
        var e :| e in es[1..] && !Passes(etype, e);
        assert e in es;
      } else {
        assert es[0] in es;
      }
    }
  }

  /** Otherwise the first entity that does not pass gives the error: for its type if that is wrong, else for the
      reserved name. */
  lemma {:induction false} FirstOffenderDecides(etype: string, es: seq<Entity>, now: int) returns (i: nat)
    requires CheckedAll(etype, es, now).Failure?
    ensures i < |es| && !Passes(etype, es[i]) && forall j :: 0 <= j < i ==> Passes(etype, es[j])
    ensures CheckedAll(etype, es, now)
         == Failure(if es[i].etype != etype then WrongType(es[i].id) else ReservedName(es[i].id))
  {
    PassesWhen(etype, es[0]);
    if Passes(etype, es[0]) {
      var k := FirstOffenderDecides(etype, es[1..], now);
      i := k + 1;
    } else {
      i := 0;
    }
  }

  method CheckEntities(etype: string, entities: seq<Entity>, now: int)
    returns (r: Result<seq<Entity>, InsertError>)
    ensures r == CheckedAll(etype, entities, now)
  {
    ghost var whole := CheckedAll(etype, entities, now);
    var checked := [];
    assert entities[0..] == entities && (whole.Success? ==> [] + whole.value == whole.value);
    for i := 0 to |entities|
      invariant whole == Prefixed(checked, CheckedAll(etype, entities[i..], now))
    {
      var e := entities[i];
      ghost var tail := CheckedAll(etype, entities[i + 1..], now);
      assert entities[i..][1..] == entities[i + 1..] && entities[i..][0] == e;
      if e.etype != etype { return Failure(WrongType(e.id)); }
      var stamped := if e.timeIndex.None? then e.(timeIndex := Some(now)) else e;
      if Reserved(e) { return Failure(ReservedName(e.id)); }
      assert tail.Success? ==> checked + ([stamped] + tail.value) == (checked + [stamped]) + tail.value;
      checked := checked + [stamped];
    }
    assert checked + [] == checked;
    r := Success(checked);
  }

  // ---- Column inference -----------------------------------------------------------------

  function AddAttrs(md: Metadata, attrs: seq<Attr>): Metadata {
    if attrs == [] then md
    else
      var a := attrs[|attrs| - 1];
      AddAttrs(md, attrs[..|attrs| - 1])[ColumnOf(a.name) := AttrOrigin(a.name, a.atype)]
  }

  /** The metadata an insert of `es` would leave on a new table; the last mention of a column wins. */
  function OriginalAttrs(es: seq<Entity>): Metadata {
    if es == [] then BASE_METADATA
    else AddAttrs(OriginalAttrs(es[..|es| - 1]), es[|es| - 1].attrs)
  }

  function TableKeys(es: seq<Entity>): set<Column> {
    OriginalAttrs(es).Keys + EXTRA_KEYS
  }

  method InferColumns(entities: seq<Entity>) returns (table: set<Column>, originals: Metadata)
    ensures originals == OriginalAttrs(entities) && table == TableKeys(entities)
  {
    originals := BASE_METADATA;
    table := originals.Keys + EXTRA_KEYS;
    for i := 0 to |entities|
      invariant originals == OriginalAttrs(entities[..i])
      invariant table == originals.Keys + EXTRA_KEYS
    {
      var attrs := entities[i].attrs;
      for j := 0 to |attrs|
        invariant originals == AddAttrs(OriginalAttrs(entities[..i]), attrs[..j])
        invariant table == originals.Keys + EXTRA_KEYS
      {
        var a := attrs[j];
        assert attrs[..j + 1][..j] == attrs[..j];
        var col := ColumnOf(a.name);
        originals := originals[col := AttrOrigin(a.name, a.atype)];
        table := table + {col};
      }
      assert attrs[..|attrs|] == attrs;
      assert entities[..i + 1][..i] == entities[..i];
    }
    assert entities[..|entities|] == entities;
  }

  /** Column `col` comes from one of these attributes. */
  ghost predicate Mentions(attrs: seq<Attr>, col: Column) {
    exists a :: a in attrs && ColumnOf(a.name) == col
  }

  lemma {:induction false} AddAttrsKeys(md: Metadata, attrs: seq<Attr>)
    ensures forall c :: c in AddAttrs(md, attrs) <==> c in md || Mentions(attrs, c)
  {
    if attrs != [] {
      var init, a := attrs[..|attrs| - 1], attrs[|attrs| - 1];
      AddAttrsKeys(md, init);
      assert attrs == init + [a];
      var r := AddAttrs(md, attrs);
      forall c ensures c in r <==> c in md || Mentions(attrs, c) {
        if Mentions(init, c) {
          var b :| b in init && ColumnOf(b.name) == c;
          assert b in attrs;
        }
        if c == ColumnOf(a.name) { assert a in attrs; }
      }
    }
  }

  /** An insert infers the base columns and those its attributes mention. */
  lemma {:induction false} OriginalAttrsKeys(es: seq<Entity>)
    ensures forall c :: c in OriginalAttrs(es) <==>
      c in BASE_COLUMNS || exists e :: e in es && Mentions(e.attrs, c)
  {
    if es != [] {
      var init, e := es[..|es| - 1], es[|es| - 1];
      OriginalAttrsKeys(init);
      AddAttrsKeys(OriginalAttrs(init), e.attrs);
      assert es == init + [e];
    }
  }

  // ---- One spelling and one type per attribute ------------------------------------------

  /** `schema` gives each column its one attribute. */
  ghost predicate Follows(schema: Metadata, attrs: seq<Attr>) {
    forall a :: a in attrs ==>
      ColumnOf(a.name) in schema && schema[ColumnOf(a.name)] == AttrOrigin(a.name, a.atype)
  }

  /** No attribute takes a column the translator adds itself, none is called `index`. */
  ghost predicate WellFormedSchema(schema: Metadata) {
    forall c :: c in schema ==>
      c.Named? && schema[c].AttrOrigin? && ColumnOf(schema[c].name) == c && schema[c].name != "index"
  }

  /** `md` is the base metadata plus entries of the schema. */
  ghost predicate WithinSchema(schema: Metadata, md: Metadata) {
    && (forall c :: c in md && c !in BASE_COLUMNS ==> c in schema && md[c] == schema[c])
    && (forall c :: c in BASE_COLUMNS ==> c in md && md[c] == BASE_METADATA[c])
  }

  lemma {:induction false} AddAttrsFollows(schema: Metadata, md: Metadata, attrs: seq<Attr>)
    requires WellFormedSchema(schema) && Follows(schema, attrs) && WithinSchema(schema, md)
    ensures WithinSchema(schema, AddAttrs(md, attrs))
  {
    if attrs != [] {
      var init, a := attrs[..|attrs| - 1], attrs[|attrs| - 1];
      assert attrs == init + [a];
      assert a in attrs;
      AddAttrsFollows(schema, md, init);
    }
  }

  /** Under a schema an insert infers nothing but base metadata and schema entries. */
  lemma {:induction false} OriginalAttrsFollow(schema: Metadata, es: seq<Entity>)
    requires WellFormedSchema(schema) && forall e :: e in es ==> Follows(schema, e.attrs)
    ensures WithinSchema(schema, OriginalAttrs(es))
  {
    if es != [] {
      var init, e := es[..|es| - 1], es[|es| - 1];
      assert es == init + [e];
      OriginalAttrsFollow(schema, init);
      AddAttrsFollows(schema, OriginalAttrs(init), e.attrs);
    }
  }
}
