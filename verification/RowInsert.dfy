/** From entities to rows, and from rows to the table: the tail of the insert workflow
    in src/translators/sql_translator.py. */
module RowInsert {
  import opened Sequences
  import opened Ngsi
  import opened Database
  import CostSplitter

  datatype Config = Config(
    backend: Backend,
    codec: Codec,
    keepRawEntity: bool,
    rowSize: seq<Cell> -> int,
    insertMaxSize: Option<int>,
    sorted: set<Column> -> seq<Column>,
    listed: set<Column> -> seq<Column>,
    defaultLimit: int,
    cacheName: string)

  // ---- Cells ----------------------------------------------------------------------------

  function PathCell(path: Option<string>): Cell {
    Text(if path.Some? && path.value != "" then path.value else "/")
  }

  /** The value of column `cn` in the row of entity `e`; NULL when the entity lacks the attribute. */
  function CellFor(codec: Codec, e: Entity, originals: Metadata, cn: Column, path: Option<string>): Cell {
    if cn == EntityTypeCol then Text(e.etype)
    else if cn == EntityIdCol then Text(e.id)
    else if cn == TimeIndexCol then (if e.timeIndex.Some? then Stamp(e.timeIndex.value) else Null)
    else if cn == ServicePathCol then PathCell(path)
    else if cn == InstanceIdKey then FreshInstanceId
    else if cn !in originals || !originals[cn].AttrOrigin? then Null
    else
      var attr := FindAttr(e.attrs, originals[cn].name);
      if attr.None? then Null else codec.toDb(attr.value.datum, originals[cn].atype)
  }

  method PreprocessValues(codec: Codec, e: Entity, originals: Metadata, colNames: seq<Column>, path: Option<string>)
    returns (values: seq<Cell>)
    ensures |values| == |colNames|
    ensures forall j :: 0 <= j < |colNames| ==> values[j] == CellFor(codec, e, originals, colNames[j], path)
  {
    values := [];
    for j := 0 to |colNames|
      invariant |values| == j
      invariant forall k :: 0 <= k < j ==> values[k] == CellFor(codec, e, originals, colNames[k], path)
    {
      values := values + [CellFor(codec, e, originals, colNames[j], path)];
    }
  }

  /** The whole matrix of values, entity by entity. */
  function Matrix(codec: Codec, es: seq<Entity>, originals: Metadata, colNames: seq<Column>, path: Option<string>)
    : (rows: seq<seq<Cell>>)
    ensures |rows| == |es|
    ensures Shaped(rows, |colNames|)
    ensures forall i, j :: 0 <= i < |es| && 0 <= j < |colNames| ==>
      rows[i][j] == CellFor(codec, es[i], originals, colNames[j], path)
  {
    seq(|es|, i requires 0 <= i < |es| =>
      seq(|colNames|, j requires 0 <= j < |colNames| => CellFor(codec, es[i], originals, colNames[j], path)))
  }

  /** A row whose original-entity cell wraps the entity, when raw entities are kept. */
  function WithRawEntity(keep: bool, k: nat, row: seq<Cell>, e: Entity): (r: seq<Cell>)
    requires k < |row|
    ensures |r| == |row|
  {
    if keep then row[k := Original(e, false)] else row
  }

  function WithRawEntities(keep: bool, colNames: seq<Column>, rows: seq<seq<Cell>>, es: seq<Entity>)
    : (r: seq<seq<Cell>>)
    requires |rows| == |es| && OriginalEntityCol in colNames && Shaped(rows, |colNames|)
    ensures |r| == |rows| && Shaped(r, |colNames|)
  {
    var k := IndexOf(colNames, OriginalEntityCol);
    seq(|rows|, i requires 0 <= i < |rows| => WithRawEntity(keep, k, rows[i], es[i]))
  }

  method KeepRawEntities(k: nat, rows: seq<seq<Cell>>, entities: seq<Entity>) returns (values: seq<seq<Cell>>)
    requires |rows| == |entities| && forall i :: 0 <= i < |rows| ==> k < |rows[i]|
    ensures |values| == |rows|
    ensures forall i :: 0 <= i < |rows| ==> values[i] == WithRawEntity(true, k, rows[i], entities[i])
  {
    values := rows;
    for i := 0 to |rows|
      invariant |values| == |rows|
      invariant forall m :: 0 <= m < i ==> values[m] == WithRawEntity(true, k, rows[m], entities[m])
      invariant forall m :: i <= m < |rows| ==> values[m] == rows[m]
    {
      var wrapper := Original(entities[i], false);
      values := values[i := values[i][k := wrapper]];
    }
  }

  method BuildInsertParamsAndValues(keep: bool, colNames: seq<Column>, rows: seq<seq<Cell>>, entities: seq<Entity>)
    returns (colList: seq<Column>, values: seq<seq<Cell>>)
    requires |rows| == |entities| && OriginalEntityCol in colNames && Shaped(rows, |colNames|)
    ensures colList == Map(InDatabase, colNames)
    ensures values == WithRawEntities(keep, colNames, rows, entities)
  {
    colList, values := Map(InDatabase, colNames), rows;
    if keep {
      values := KeepRawEntities(IndexOf(colNames, OriginalEntityCol), rows, entities);
    }
  }

  // ---- Batches --------------------------------------------------------------------------

  predicate AllShaped(batches: seq<seq<seq<Cell>>>, n: nat) {
    forall k :: 0 <= k < |batches| ==> Shaped(batches[k], n)
  }

  function AfterBatches(db: Db, tn: string, cols: seq<Column>, batches: seq<seq<seq<Cell>>>): (Db, Option<InsertError>)
    requires AllShaped(batches, |cols|)
    decreases |batches|
  {
    if batches == [] then (db, None)
    else
      var (landed, status) := AfterExecuteMany(db, tn, cols, batches[0]);
      match status
      case Ok => AfterBatches(landed, tn, cols, batches[1..])
      case NegativeRowCount => (landed, Some(InsertError.Database(false)))
      case Exception(p) => (landed, Some(InsertError.Database(p)))
  }

  const RESCUE_COLS := [EntityIdCol, EntityTypeCol, TimeIndexCol, OriginalEntityCol]

  function RescueRow(e: Entity, now: int): seq<Cell> {
    [Text(e.id), Text(e.etype), Stamp(now), Original(e, true)]
  }

  function RescueRows(es: seq<Entity>, now: int): (rows: seq<seq<Cell>>)
    ensures |rows| == |es| && forall i :: 0 <= i < |rows| ==> rows[i] == RescueRow(es[i], now)
  {
    seq(|es|, i requires 0 <= i < |es| => RescueRow(es[i], now))
  }

  /** `_should_insert_original_entities`. */
  predicate Rescues(backend: Backend, err: InsertError) {
    backend.Crate? || (err.Database? && err.programming)
  }

  function InsertBatches(config: Config, rows: seq<seq<Cell>>): seq<seq<seq<Cell>>> {
    CostSplitter.InsertBatches(config.rowSize, config.insertMaxSize, rows)
  }

  lemma {:induction false} ShapedParts(batches: seq<seq<seq<Cell>>>, n: nat)
    ensures AllShaped(batches, n) <==> Shaped(Flatten(batches), n)
  {
    if batches != [] {
      var first, rest := batches[0], Flatten(batches[1..]);
      ShapedParts(batches[1..], n);
      assert Flatten(batches) == first + rest;
      if AllShaped(batches, n) {
        assert forall k :: 0 <= k < |batches[1..]| ==> batches[1..][k] == batches[k + 1];
      }
      if Shaped(first + rest, n) {
        assert forall i :: 0 <= i < |first| ==> (first + rest)[i] == first[i];
        assert forall i :: 0 <= i < |rest| ==> (first + rest)[|first| + i] == rest[i];
        forall k | 0 <= k < |batches| ensures Shaped(batches[k], n) {
          if k > 0 { assert batches[1..][k - 1] == batches[k]; }
        }
      }
    }
  }

  lemma BatchShapes(config: Config, rows: seq<seq<Cell>>, n: nat)
    requires Shaped(rows, n)
    ensures Flatten(InsertBatches(config, rows)) == rows
    ensures AllShaped(InsertBatches(config, rows), n)
  {
    CostSplitter.InsertBatchesJoin(config.rowSize, config.insertMaxSize, rows);
    ShapedParts(InsertBatches(config, rows), n);
  }

  /** The batches first; if one fails, possibly the raw entities of the whole lot. */
  function AfterInsertRows(db: Db, backend: Backend, tn: string, cols: seq<Column>, batches: seq<seq<seq<Cell>>>,
                           es: seq<Entity>, now: int): (Db, Option<InsertError>)
    requires AllShaped(batches, |cols|)
  {
    var (landed, err) := AfterBatches(db, tn, cols, batches);
    if err.None? || !Rescues(backend, err.value) then (landed, err)
    else
      var (rescued, status) := AfterExecuteMany(landed, tn, RESCUE_COLS, RescueRows(es, now));
      (rescued, if status.Exception? then Some(InsertError.Database(status.programming)) else None)
  }

  method ExecuteBatches(db: Connection, tn: string, cols: seq<Column>, batches: seq<seq<seq<Cell>>>)
    returns (err: Option<InsertError>)
    requires AllShaped(batches, |cols|)
    modifies db
    ensures (db.State(), err) == AfterBatches(old(db.State()), tn, cols, batches)
  {
    for i := 0 to |batches|
      invariant AfterBatches(old(db.State()), tn, cols, batches)
             == AfterBatches(db.State(), tn, cols, batches[i..])
    {
      assert batches[i..][0] == batches[i] && batches[i..][1..] == batches[i + 1..];
      var status := db.ExecuteMany(tn, cols, batches[i]);
      match status {
        case Ok =>
        case NegativeRowCount => return Some(InsertError.Database(false));
        case Exception(p) => return Some(InsertError.Database(p));
      }
    }
    err := None;
  }

  method InsertOrRescue(db: Connection, backend: Backend, tn: string, cols: seq<Column>,
                        batches: seq<seq<seq<Cell>>>, entities: seq<Entity>, now: int)
    returns (err: Option<InsertError>)
    requires AllShaped(batches, |cols|)
    modifies db
    ensures (db.State(), err) == AfterInsertRows(old(db.State()), backend, tn, cols, batches, entities, now)
  {
    err := ExecuteBatches(db, tn, cols, batches);
    if err.Some? && Rescues(backend, err.value) {
      var status := db.ExecuteMany(tn, RESCUE_COLS, RescueRows(entities, now));
      err := if status.Exception? then Some(InsertError.Database(status.programming)) else None;
    }
  }

  function JoinedBatches(config: Config, colNames: seq<Column>, rows: seq<seq<Cell>>, es: seq<Entity>)
    : (batches: seq<seq<seq<Cell>>>)
    requires |rows| == |es| && OriginalEntityCol in colNames && Shaped(rows, |colNames|)
    ensures AllShaped(batches, |colNames|)
    ensures Flatten(batches) == WithRawEntities(config.keepRawEntity, colNames, rows, es)
    ensures CostSplitter.BatchesFor(config.rowSize, config.insertMaxSize, batches, Flatten(batches))
  {
    var values := WithRawEntities(config.keepRawEntity, colNames, rows, es);
    BatchShapes(config, values, |colNames|);
    CostSplitter.InsertBatchesSplit(config.rowSize, config.insertMaxSize, values);
    InsertBatches(config, values)
  }

  method InsertEntityRows(db: Connection, config: Config, tn: string, colNames: seq<Column>,
                          rows: seq<seq<Cell>>, entities: seq<Entity>, now: int)
    returns (err: Option<InsertError>)
    requires |rows| == |entities| && OriginalEntityCol in colNames && Shaped(rows, |colNames|)
    modifies db
    ensures (db.State(), err) == AfterInsertRows(old(db.State()), config.backend, tn, Map(InDatabase, colNames),
      JoinedBatches(config, colNames, rows, entities), entities, now)
  {
    var cols, values := BuildInsertParamsAndValues(config.keepRawEntity, colNames, rows, entities);
    var batches := CostSplitter.ToInsertBatches(config.rowSize, config.insertMaxSize, values);
    assert batches == JoinedBatches(config, colNames, rows, entities);
    err := InsertOrRescue(db, config.backend, tn, cols, batches, entities, now);
  }

  // ---- The assumption the workflow never checks -----------------------------------------

  /** In the joined batches row i, column j is the value of entity i for column j, every row is as long
      as the placeholder list, and with raw entities kept the original-entity cell of row i wraps entity i. */
  lemma RowsStayAligned(config: Config, es: seq<Entity>, originals: Metadata, colNames: seq<Column>,
                        path: Option<string>, i: nat, j: nat)
    requires OriginalEntityCol in colNames && Distinct(colNames) && i < |es| && j < |colNames|
    ensures var joined := Flatten(JoinedBatches(config, colNames,
                            Matrix(config.codec, es, originals, colNames, path), es));
      && |joined| == |es| && |joined[i]| == |Map(InDatabase, colNames)|
      && joined[i][j] ==
           if config.keepRawEntity && colNames[j] == OriginalEntityCol then Original(es[i], false)
           else CellFor(config.codec, es[i], originals, colNames[j], path)
  {
  }

  // ---- What lands when batches fail -----------------------------------------------------

  /** Which of the joined rows the batches store. */
  function BatchMask<T>(script: seq<Fate>, batches: seq<seq<T>>): (mask: seq<bool>)
    ensures |mask| == |Flatten(batches)|
  {
    if batches == [] then []
    else
      var fate := NextFate(script);
      Mask(fate, |batches[0]|) +
        if fate.Accepted? then BatchMask(LaterFates(script), batches[1..])
        else Uniform(|Flatten(batches[1..])|, false)
  }

  function BatchError<T>(script: seq<Fate>, batches: seq<seq<T>>): Option<InsertError> {
    if batches == [] then None
    else match NextFate(script)
      case Accepted => BatchError(LaterFates(script), batches[1..])
      case Refused(_) => Some(InsertError.Database(false))
      case Raised(_, p) => Some(InsertError.Database(p))
  }

  /** The fates left over once the batches have run. */
  function BatchLater<T>(script: seq<Fate>, batches: seq<seq<T>>): seq<Fate> {
    if batches == [] then script
    else if NextFate(script).Accepted? then BatchLater(LaterFates(script), batches[1..])
    else LaterFates(script)
  }

  lemma ToRowsConcat(cols: seq<Column>, a: seq<seq<Cell>>, b: seq<seq<Cell>>)
    requires Shaped(a, |cols|) && Shaped(b, |cols|)
    ensures Shaped(a + b, |cols|)
    ensures ToRows(cols, a + b) == ToRows(cols, a) + ToRows(cols, b)
  {
  }

  lemma AppendTwice(db: Db, tn: string, a: seq<Row>, b: seq<Row>, script: seq<Fate>)
    requires tn in db.tables
    ensures Append(Append(db, tn, a).(script := script), tn, b) == Append(db, tn, a + b).(script := script)
  {
    assert db.tables[tn].rows + a + b == db.tables[tn].rows + (a + b);
    assert Append(Append(db, tn, a).(script := script), tn, b).tables == Append(db, tn, a + b).tables;
  }

  lemma {:induction false} BatchesLand(db: Db, tn: string, cols: seq<Column>, batches: seq<seq<seq<Cell>>>)
    requires Executable(db, tn, cols)
    requires AllShaped(batches, |cols|) && Shaped(Flatten(batches), |cols|)
    ensures AfterBatches(db, tn, cols, batches) ==
      (Append(db, tn, Select(ToRows(cols, Flatten(batches)), BatchMask(db.script, batches)))
         .(script := BatchLater(db.script, batches)),
       BatchError(db.script, batches))
    decreases |batches|
  {
    if batches == [] {
      assert Append(db, tn, []).tables == db.tables by { assert db.tables[tn].rows + [] == db.tables[tn].rows; }
    } else {
      var first, rest := batches[0], Flatten(batches[1..]);
      var fate := NextFate(db.script);
      var stored := Select(ToRows(cols, first), Mask(fate, |first|));
      var landed := Append(db, tn, stored).(script := LaterFates(db.script));
      ShapedParts(batches[1..], |cols|);
      ToRowsConcat(cols, first, rest);
      if fate.Accepted? {
        BatchesLand(landed, tn, cols, batches[1..]);
        var mask := BatchMask(landed.script, batches[1..]);
        SelectConcat(ToRows(cols, first), Mask(fate, |first|), ToRows(cols, rest), mask);
        AppendTwice(db, tn, stored, Select(ToRows(cols, rest), mask), landed.script);
      } else {
        SelectConcat(ToRows(cols, first), Mask(fate, |first|), ToRows(cols, rest), Uniform(|rest|, false));
        SelectUniform(ToRows(cols, rest), false);
        assert stored + [] == stored;
      }
    }
  }

  lemma {:induction false} BatchMaskWithoutError<T>(script: seq<Fate>, batches: seq<seq<T>>)
    requires BatchError(script, batches).None?
    ensures BatchMask(script, batches) == Uniform(|Flatten(batches)|, true)
  {
    if batches != [] { BatchMaskWithoutError(LaterFates(script), batches[1..]); }
  }

  /** A batch fails by its fate, or because the table cannot take the statement at all. */
  predicate BatchesFail(db: Db, tn: string, cols: seq<Column>, batches: seq<seq<seq<Cell>>>) {
    if Executable(db, tn, cols) then BatchError(db.script, batches).Some? else batches != []
  }

  /** Which entities have their normal row. */
  function NormalMask(db: Db, tn: string, cols: seq<Column>, batches: seq<seq<seq<Cell>>>): (mask: seq<bool>)
    ensures |mask| == |Flatten(batches)|
  {
    if Executable(db, tn, cols) then BatchMask(db.script, batches) else Uniform(|Flatten(batches)|, false)
  }

  /** The fates left for the raw insert. */
  function RescueScript(db: Db, tn: string, cols: seq<Column>, batches: seq<seq<seq<Cell>>>): seq<Fate> {
    if Executable(db, tn, cols) then BatchLater(db.script, batches) else db.script
  }

  function RescueFate(db: Db, tn: string, cols: seq<Column>, batches: seq<seq<seq<Cell>>>): Fate {
    if Executable(db, tn, RESCUE_COLS) then NextFate(RescueScript(db, tn, cols, batches)) else Raised(_ => false, true)
  }

  /** Which entities also get a raw row: none unless a batch failed. */
  function RawMask(db: Db, tn: string, cols: seq<Column>, batches: seq<seq<seq<Cell>>>, n: nat): (mask: seq<bool>)
    ensures |mask| == n
  {
    if BatchesFail(db, tn, cols, batches) then Mask(RescueFate(db, tn, cols, batches), n) else Uniform(n, false)
  }

  function WithRows(tables: map<string, Table>, tn: string, rows: seq<Row>): map<string, Table> {
    if tn in tables then tables[tn := tables[tn].(rows := tables[tn].rows + rows)] else tables
  }

  lemma WithRowsTwice(tables: map<string, Table>, tn: string, a: seq<Row>, b: seq<Row>)
    ensures WithRows(WithRows(tables, tn, a), tn, b) == WithRows(tables, tn, a + b)
    ensures WithRows(tables, tn, []) == tables
  {
    if tn in tables {
      assert tables[tn].rows + a + b == tables[tn].rows + (a + b) && tables[tn].rows + [] == tables[tn].rows;
    }
  }

  /** The batches store the marked normal rows, whether or not the table can take the statement. */
  lemma BatchesStore(db: Db, tn: string, cols: seq<Column>, batches: seq<seq<seq<Cell>>>)
    requires AllShaped(batches, |cols|) && Shaped(Flatten(batches), |cols|)
    ensures var (landed, err) := AfterBatches(db, tn, cols, batches);
      && landed.tables == WithRows(db.tables, tn,
           Select(ToRows(cols, Flatten(batches)), NormalMask(db, tn, cols, batches)))
      && landed.metadata == db.metadata && landed.script == RescueScript(db, tn, cols, batches)
      && (err.Some? <==> BatchesFail(db, tn, cols, batches))
      && (Executable(landed, tn, RESCUE_COLS) <==> Executable(db, tn, RESCUE_COLS))
  {
    if Executable(db, tn, cols) {
      BatchesLand(db, tn, cols, batches);
    } else {
      SelectUniform(ToRows(cols, Flatten(batches)), false);
      WithRowsTwice(db.tables, tn, [], []);
    }
  }

  /** The raw insert stores the marked raw rows. */
  lemma RescueStores(db: Db, tn: string, es: seq<Entity>, now: int)
    ensures var fate := if Executable(db, tn, RESCUE_COLS) then NextFate(db.script) else Raised(_ => false, true);
      var (after, status) := AfterExecuteMany(db, tn, RESCUE_COLS, RescueRows(es, now));
      && after.tables ==
           WithRows(db.tables, tn, Select(ToRows(RESCUE_COLS, RescueRows(es, now)), Mask(fate, |es|)))
      && (status.Exception? <==> fate.Raised?)
      && (status.Exception? ==> status.programming == fate.programming)
  {
    if !Executable(db, tn, RESCUE_COLS) {
      var none: nat -> bool := _ => false;
      assert Mask(Raised(none, true), |es|) == Uniform(|es|, false);
      SelectUniform(ToRows(RESCUE_COLS, RescueRows(es, now)), false);
      WithRowsTwice(db.tables, tn, [], []);
    }
  }

  // ---- What a failure leads to, by the fates alone ----------------------------------------

  /** The fate of the bulk insert behind `k` others; those behind the script are accepted. */
  function FateAt(script: seq<Fate>, k: nat): Fate {
    if k < |script| then script[k] else Accepted
  }

  /** Of `n` batches the one behind `k` others is the first that is not accepted. */
  ghost predicate FirstFailure(script: seq<Fate>, n: nat, k: nat) {
    k < n && !FateAt(script, k).Accepted? && forall i: nat :: i < k ==> FateAt(script, i).Accepted?
  }

  predicate Programming(fate: Fate) {
    fate.Raised? && fate.programming
  }

  lemma FatesBehind(script: seq<Fate>, k: nat)
    ensures FateAt(script, k + 1) == FateAt(LaterFates(script), k) && FateAt(script, 0) == NextFate(script)
  {
  }

  lemma FailureBehind(script: seq<Fate>, n: nat, k: nat)
    requires FirstFailure(script, n, k) && k > 0
    ensures NextFate(script).Accepted? && FirstFailure(LaterFates(script), n - 1, k - 1)
    ensures FateAt(LaterFates(script), k - 1) == FateAt(script, k)
    ensures FateAt(LaterFates(script), k) == FateAt(script, k + 1)
  {
    assert FateAt(script, 0).Accepted?;
    FatesBehind(script, k - 1);
    FatesBehind(script, k);
    forall i: nat | i < k - 1 ensures FateAt(LaterFates(script), i).Accepted? {
      FatesBehind(script, i);
      assert FateAt(script, i + 1).Accepted?;
    }
  }

  lemma {:induction false} FailsFirst<T>(script: seq<Fate>, batches: seq<seq<T>>, k: nat)
    requires FirstFailure(script, |batches|, k)
    ensures BatchError(script, batches) == Some(InsertError.Database(Programming(FateAt(script, k))))
    ensures NextFate(BatchLater(script, batches)) == FateAt(script, k + 1)
    decreases k
  {
    if k == 0 {
      FatesBehind(script, 0);
    } else {
      FailureBehind(script, |batches|, k);
      FailsFirst(LaterFates(script), batches[1..], k - 1);
    }
  }

  /** The marks when the batch behind `k` others fails. */
  function FailureMask<T>(batches: seq<seq<T>>, k: nat, fate: Fate): seq<bool>
    requires k < |batches|
  {
    Uniform(|Flatten(batches[..k])|, true) + Mask(fate, |batches[k]|) + Uniform(|Flatten(batches[k + 1..])|, false)
  }

  lemma FailureMaskCons<T>(first: seq<T>, rest: seq<seq<T>>, k: nat, fate: Fate)
    requires k < |rest|
    ensures FailureMask([first] + rest, k + 1, fate) == Uniform(|first|, true) + FailureMask(rest, k, fate)
  {
    var all := [first] + rest;
    assert all[..k + 1] == [first] + rest[..k] && all[k + 1] == rest[k] && all[k + 2..] == rest[k + 1..];
    assert ([first] + rest[..k])[1..] == rest[..k];
    var a, b := |first|, |Flatten(rest[..k])|;
    assert Uniform(a + b, true) == Uniform(a, true) + Uniform(b, true);
  }

  lemma {:induction false} MarksOfFailure<T>(script: seq<Fate>, batches: seq<seq<T>>, k: nat)
    requires FirstFailure(script, |batches|, k)
    ensures BatchMask(script, batches) == FailureMask(batches, k, FateAt(script, k))
    decreases k
  {
    if k == 0 {
      FatesBehind(script, 0);
      assert Flatten(batches[..0]) == [] && Uniform(0, true) == [];
    } else {
      FailureBehind(script, |batches|, k);
      MarksOfFailure(LaterFates(script), batches[1..], k - 1);
      FailureMaskCons(batches[0], batches[1..], k - 1, FateAt(script, k));
      assert batches == [batches[0]] + batches[1..];
    }
  }

  lemma {:induction false} FailsNowhere<T>(script: seq<Fate>, batches: seq<seq<T>>)
    requires forall i: nat :: i < |batches| ==> FateAt(script, i).Accepted?
    ensures BatchError(script, batches).None?
  {
    if batches != [] {
      assert FateAt(script, 0).Accepted?;
      forall i: nat | i < |batches| - 1 ensures FateAt(LaterFates(script), i).Accepted? { FatesBehind(script, i); }
      FailsNowhere(LaterFates(script), batches[1..]);
    }
  }

  /** The rows the first batches store when the one behind `k` others fails: all of those before it, and of that one
      those its fate keeps. */
  function StoredRows(cols: seq<Column>, batches: seq<seq<seq<Cell>>>, k: nat, fate: Fate): seq<Row>
    requires k < |batches| && Shaped(Flatten(batches[..k]), |cols|) && Shaped(batches[k], |cols|)
  {
    ToRows(cols, Flatten(batches[..k])) + Select(ToRows(cols, batches[k]), Mask(fate, |batches[k]|))
  }

  /** The raw rows an insert with this fate stores. */
  function RawRows(es: seq<Entity>, now: int, fate: Fate): seq<Row> {
    Select(ToRows(RESCUE_COLS, RescueRows(es, now)), Mask(fate, |es|))
  }

  lemma ThreeParts(batches: seq<seq<seq<Cell>>>, n: nat, k: nat)
    requires AllShaped(batches, n) && k < |batches|
    ensures Flatten(batches) == Flatten(batches[..k]) + batches[k] + Flatten(batches[k + 1..])
    ensures Shaped(Flatten(batches[..k]), n) && Shaped(batches[k], n) && Shaped(Flatten(batches[k + 1..]), n)
  {
    FlattenThree(batches, k);
    var behind := batches[k + 1..];
    forall i | 0 <= i < |behind| ensures Shaped(behind[i], n) { assert behind[i] == batches[k + 1 + i]; }
    ShapedParts(batches[..k], n);
    ShapedParts(batches[k + 1..], n);
  }

  lemma StoredParts(cols: seq<Column>, a: seq<seq<Cell>>, b: seq<seq<Cell>>, c: seq<seq<Cell>>, mask: seq<bool>)
    requires Shaped(a, |cols|) && Shaped(b, |cols|) && Shaped(c, |cols|) && |mask| == |b| && Shaped(a + b + c, |cols|)
    ensures Select(ToRows(cols, a + b + c), Uniform(|a|, true) + mask + Uniform(|c|, false))
         == ToRows(cols, a) + Select(ToRows(cols, b), mask)
  {
    ToRowsConcat(cols, a + b, c);
    ToRowsConcat(cols, a, b);
    SelectConcat(ToRows(cols, a + b), Uniform(|a|, true) + mask, ToRows(cols, c), Uniform(|c|, false));
    SelectConcat(ToRows(cols, a), Uniform(|a|, true), ToRows(cols, b), mask);
    SelectUniform(ToRows(cols, a), true);
    SelectUniform(ToRows(cols, c), false);
  }

  /** The fate of a raw insert into a table that may not take it. */
  function RawFate(db: Db, tn: string, fate: Fate): Fate {
    if Executable(db, tn, RESCUE_COLS) then fate else Raised(_ => false, true)
  }

  function ErrorOf(fate: Fate): Option<InsertError> {
    if fate.Raised? then Some(InsertError.Database(fate.programming)) else None
  }

  lemma AcceptedBatchesLand(db: Db, tn: string, cols: seq<Column>, batches: seq<seq<seq<Cell>>>)
    requires AllShaped(batches, |cols|) && Shaped(Flatten(batches), |cols|) && Executable(db, tn, cols)
    requires forall i: nat :: i < |batches| ==> FateAt(db.script, i).Accepted?
    ensures var (landed, err) := AfterBatches(db, tn, cols, batches);
      err.None? && landed.tables == WithRows(db.tables, tn, ToRows(cols, Flatten(batches)))
  {
    BatchesLand(db, tn, cols, batches);
    FailsNowhere(db.script, batches);
    BatchMaskWithoutError(db.script, batches);
    SelectUniform(ToRows(cols, Flatten(batches)), true);
  }

  /** With every batch accepted all rows are stored, no raw one, and the call returns. */
  lemma AllBatchesLand(db: Db, backend: Backend, tn: string, cols: seq<Column>, batches: seq<seq<seq<Cell>>>,
                       es: seq<Entity>, now: int)
    requires AllShaped(batches, |cols|) && Shaped(Flatten(batches), |cols|)
    requires batches != [] ==> Executable(db, tn, cols)
    requires forall i: nat :: i < |batches| ==> FateAt(db.script, i).Accepted?
    ensures var (after, err) := AfterInsertRows(db, backend, tn, cols, batches, es, now);
      err.None? && after.tables == WithRows(db.tables, tn, ToRows(cols, Flatten(batches)))
  {
    if batches == [] {
      WithRowsTwice(db.tables, tn, [], []);
    } else {
      AcceptedBatchesLand(db, tn, cols, batches);
    }
  }

  /** A table that cannot take the statement gets raw rows alone, on either back-end. */
  lemma StatementFails(db: Db, backend: Backend, tn: string, cols: seq<Column>, batches: seq<seq<seq<Cell>>>,
                       es: seq<Entity>, now: int)
    requires AllShaped(batches, |cols|) && batches != [] && !Executable(db, tn, cols)
    ensures var (after, err) := AfterInsertRows(db, backend, tn, cols, batches, es, now);
      var raw := RawFate(db, tn, FateAt(db.script, 0));
      err == ErrorOf(raw) && after.tables == WithRows(db.tables, tn, RawRows(es, now, raw))
  {
    FatesBehind(db.script, 0);
    RescueStores(db, tn, es, now);
  }

  /** The first batch that fails decides. On Crate, and on Timescale when it raised a programming error, the raw rows
      come behind the rows stored, and the call raises just when the raw insert does; on any other failure the call on
      Timescale raises that error and adds no raw row. */
  lemma BatchFails(db: Db, backend: Backend, tn: string, cols: seq<Column>, batches: seq<seq<seq<Cell>>>,
                   es: seq<Entity>, now: int, k: nat)
    requires AllShaped(batches, |cols|) && Executable(db, tn, cols) && FirstFailure(db.script, |batches|, k)
    ensures Shaped(Flatten(batches[..k]), |cols|)
    ensures var (after, err) := AfterInsertRows(db, backend, tn, cols, batches, es, now);
      var fate, raw := FateAt(db.script, k), RawFate(db, tn, FateAt(db.script, k + 1));
      if backend.Crate? || Programming(fate)
      then && err == ErrorOf(raw)
           && after.tables == WithRows(db.tables, tn, StoredRows(cols, batches, k, fate) + RawRows(es, now, raw))
      else && err == Some(InsertError.Database(false))
           && after.tables == WithRows(db.tables, tn, StoredRows(cols, batches, k, fate))
  {
    var fate := FateAt(db.script, k);
    ThreeParts(batches, |cols|, k);
    ShapedParts(batches, |cols|);
    BatchesLand(db, tn, cols, batches);
    FailsFirst(db.script, batches, k);
    MarksOfFailure(db.script, batches, k);
    StoredParts(cols, Flatten(batches[..k]), batches[k], Flatten(batches[k + 1..]), Mask(fate, |batches[k]|));
    var landed := AfterBatches(db, tn, cols, batches).0;
    var stored := StoredRows(cols, batches, k, fate);
    assert landed.tables == WithRows(db.tables, tn, stored);
    if backend.Crate? || Programming(fate) {
      RescueStores(landed, tn, es, now);
      WithRowsTwice(db.tables, tn, stored, RawRows(es, now, RawFate(db, tn, FateAt(db.script, k + 1))));
    }
  }

  /** On Crate the new rows are the marked normal rows followed by the marked raw rows: at most two an entity.
      With no failed batch every entity has its normal row and no raw one. After a failure the call returns unless the
      raw insert raises, and then every entity has a raw row unless the raw insert came back with refused rows. */
  lemma CrateKeepsEntities(db: Db, tn: string, cols: seq<Column>, batches: seq<seq<seq<Cell>>>,
                           es: seq<Entity>, now: int)
    requires AllShaped(batches, |cols|) && Shaped(Flatten(batches), |cols|) && |Flatten(batches)| == |es|
    ensures var (after, err) := AfterInsertRows(db, Crate, tn, cols, batches, es, now);
      var failed, rescue := BatchesFail(db, tn, cols, batches), RescueFate(db, tn, cols, batches);
      var normal, raw := NormalMask(db, tn, cols, batches), RawMask(db, tn, cols, batches, |es|);
      && after.tables == WithRows(db.tables, tn,
           Select(ToRows(cols, Flatten(batches)), normal) + Select(ToRows(RESCUE_COLS, RescueRows(es, now)), raw))
      && (!failed ==> err.None? && forall i :: 0 <= i < |es| ==> normal[i] && !raw[i])
      && (failed ==> (err.Some? <==> rescue.Raised?))
      && (failed && err.None? && !rescue.Refused? ==> forall i :: 0 <= i < |es| ==> raw[i])
  {
    BatchesStore(db, tn, cols, batches);
    var landed := AfterBatches(db, tn, cols, batches).0;
    var normal, raw := NormalMask(db, tn, cols, batches), RawMask(db, tn, cols, batches, |es|);
    var rawRows := ToRows(RESCUE_COLS, RescueRows(es, now));
    WithRowsTwice(db.tables, tn, Select(ToRows(cols, Flatten(batches)), normal), Select(rawRows, raw));
    if BatchesFail(db, tn, cols, batches) {
      RescueStores(landed, tn, es, now);
    } else {
      SelectUniform(rawRows, false);
      WithRowsTwice(landed.tables, tn, [], []);
      if Executable(db, tn, cols) { BatchMaskWithoutError(db.script, batches); }
    }
  }

  /** If the call returns, every entity has a row. */
  ghost predicate EntitiesSafe(db: Db, tn: string, cols: seq<Column>, batches: seq<seq<seq<Cell>>>, n: nat)
    requires |Flatten(batches)| == n
  {
    (BatchesFail(db, tn, cols, batches) && RescueFate(db, tn, cols, batches).Raised?) ||
    forall i :: 0 <= i < n ==> NormalMask(db, tn, cols, batches)[i] || RawMask(db, tn, cols, batches, n)[i]
  }

  /** The same batches and fates, but for the rows the raw insert keeps when it refuses some. */
  function KeepingOthers(db: Db, tn: string, cols: seq<Column>, batches: seq<seq<seq<Cell>>>, kept: nat -> bool): Db {
    var later := RescueScript(db, tn, cols, batches);
    if BatchesFail(db, tn, cols, batches) && RescueFate(db, tn, cols, batches).Refused? && 0 < |later| <= |db.script|
    then db.(script := db.script[..|db.script| - |later|] + [Refused(kept)] + later[1..])
    else db
  }

  /** The fates left over are the last ones; a failure uses one up. */
  lemma {:induction false} LaterIsEnd<T>(script: seq<Fate>, batches: seq<seq<T>>) returns (front: seq<Fate>)
    ensures script == front + BatchLater(script, batches)
    ensures BatchError(script, batches).Some? ==> front != []
    decreases |batches|
  {
    if batches == [] || script == [] {
      front := [];
      if script == [] { NoFateLeft(batches); }
    } else if NextFate(script).Accepted? {
      var more := LaterIsEnd(script[1..], batches[1..]);
      front := [script[0]] + more;
      assert script == [script[0]] + script[1..];
    } else {
      front := [script[0]];
    }
  }

  lemma {:induction false} NoFateLeft<T>(batches: seq<seq<T>>)
    ensures BatchLater([], batches) == [] && BatchError([], batches).None?
  {
    if batches != [] { NoFateLeft(batches[1..]); }
  }

  /** The fates behind a failure do not matter to the batches. */
  lemma {:induction false} SameUpToFailure<T>(front: seq<Fate>, later: seq<Fate>, other: seq<Fate>,
                                              batches: seq<seq<T>>)
    requires BatchError(front + later, batches).Some? && BatchLater(front + later, batches) == later && front != []
    ensures BatchMask(front + other, batches) == BatchMask(front + later, batches)
    ensures BatchError(front + other, batches) == BatchError(front + later, batches)
    ensures BatchLater(front + other, batches) == other
    decreases |batches|
  {
    var rest := front[1..];
    assert (front + later)[1..] == rest + later && (front + other)[1..] == rest + other;
    assert (front + later)[0] == front[0] == (front + other)[0];
    if front[0].Accepted? {
      var more := LaterIsEnd(rest + later, batches[1..]);
      assert |more| == |rest|;
      SameUpToFailure(rest, later, other, batches[1..]);
    } else {
      assert rest + later == later;
      assert |rest| == 0;
    }
  }

  lemma OthersFailAlike(db: Db, tn: string, cols: seq<Column>, batches: seq<seq<seq<Cell>>>, kept: nat -> bool)
    requires BatchesFail(db, tn, cols, batches) && RescueFate(db, tn, cols, batches).Refused?
    ensures var other := KeepingOthers(db, tn, cols, batches, kept);
      && BatchesFail(other, tn, cols, batches) && RescueFate(other, tn, cols, batches) == Refused(kept)
      && NormalMask(other, tn, cols, batches) == NormalMask(db, tn, cols, batches)
  {
    if Executable(db, tn, cols) {
      var later := BatchLater(db.script, batches);
      var front := LaterIsEnd(db.script, batches);
      assert db.script[..|db.script| - |later|] == front;
      assert front + ([Refused(kept)] + later[1..]) == front + [Refused(kept)] + later[1..];
      SameUpToFailure(front, later, [Refused(kept)] + later[1..], batches);
    }
  }

  lemma SafeWhenKeeping(db: Db, tn: string, cols: seq<Column>, batches: seq<seq<seq<Cell>>>, n: nat, kept: nat -> bool)
    requires |Flatten(batches)| == n
    requires BatchesFail(db, tn, cols, batches) && RescueFate(db, tn, cols, batches).Refused?
    ensures EntitiesSafe(KeepingOthers(db, tn, cols, batches, kept), tn, cols, batches, n) <==>
      forall i: nat :: i < n ==> NormalMask(db, tn, cols, batches)[i] || kept(i)
  {
    var other := KeepingOthers(db, tn, cols, batches, kept);
    OthersFailAlike(db, tn, cols, batches, kept);
    assert forall i: nat :: i < n ==> RawMask(other, tn, cols, batches, n)[i] == kept(i);
  }

  ghost predicate SafeWhatever(db: Db, tn: string, cols: seq<Column>, batches: seq<seq<seq<Cell>>>, n: nat)
    requires |Flatten(batches)| == n
  {
    forall kept: nat -> bool :: EntitiesSafe(KeepingOthers(db, tn, cols, batches, kept), tn, cols, batches, n)
  }

  /** Whichever rows a refusing raw insert keeps, no entity is lost exactly when no batch failed, the raw insert
      refuses nothing, or all normal rows are in. */
  lemma NoEntityLost(db: Db, tn: string, cols: seq<Column>, batches: seq<seq<seq<Cell>>>, n: nat)
    requires |Flatten(batches)| == n
    ensures SafeWhatever(db, tn, cols, batches, n) <==>
      || !BatchesFail(db, tn, cols, batches) || !RescueFate(db, tn, cols, batches).Refused?
      || NormalMask(db, tn, cols, batches) == Uniform(n, true)
  {
    if BatchesFail(db, tn, cols, batches) && RescueFate(db, tn, cols, batches).Refused? {
      var normal := NormalMask(db, tn, cols, batches);
      var none: nat -> bool := _ => false;
      SafeWhenKeeping(db, tn, cols, batches, n, none);
      if SafeWhatever(db, tn, cols, batches, n) {
        assert EntitiesSafe(KeepingOthers(db, tn, cols, batches, none), tn, cols, batches, n);
        assert forall i: nat :: i < n ==> normal[i] || none(i);
      } else {
        var kept :| !EntitiesSafe(KeepingOthers(db, tn, cols, batches, kept), tn, cols, batches, n);
        SafeWhenKeeping(db, tn, cols, batches, n, kept);
      }
    } else {
      SafeWithoutRefusal(db, tn, cols, batches, n);
      assert forall kept :: KeepingOthers(db, tn, cols, batches, kept) == db;
    }
  }

  lemma SafeWithoutRefusal(db: Db, tn: string, cols: seq<Column>, batches: seq<seq<seq<Cell>>>, n: nat)
    requires |Flatten(batches)| == n
    requires !BatchesFail(db, tn, cols, batches) || !RescueFate(db, tn, cols, batches).Refused?
    ensures EntitiesSafe(db, tn, cols, batches, n)
  {
    if !BatchesFail(db, tn, cols, batches) && Executable(db, tn, cols) {
      BatchMaskWithoutError(db.script, batches);
    }
  }

  /** The exception: a raw insert answered with negative row counts is taken for a success. */
  lemma RefusedRescueLosesEntity(db: Db, tn: string, cols: seq<Column>, row: seq<Cell>, e: Entity, now: int)
    requires |row| == |cols|
    requires Executable(db, tn, cols) && Executable(db, tn, RESCUE_COLS)
    requires db.script == [Refused(i => false), Refused(i => false)]
    ensures var (after, err) := AfterInsertRows(db, Crate, tn, cols, [[row]], [e], now);
      err.None? && after.tables == db.tables
  {
    var batches := [[row]];
    assert Flatten(batches) == [row];
    CrateKeepsEntities(db, tn, cols, batches, [e], now);
    assert NormalMask(db, tn, cols, batches) == [false];
    assert RawMask(db, tn, cols, batches, 1) == [false];
    assert Select(ToRows(cols, [row]), [false]) == [];
    assert Select(ToRows(RESCUE_COLS, RescueRows([e], now)), [false]) == [];
    WithRowsTwice(db.tables, tn, [], []);
  }
}
