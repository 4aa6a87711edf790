/** The database behind a translator: tables, stored metadata and what each statement does to them. */
module Database {
  import opened Sequences
  import opened Ngsi

  type Row = map<Column, Cell>

  datatype Table = Table(cols: set<Column>, rows: seq<Row>)

  /** How the next bulk insert will end: all rows stored, some refused with a negative row count,
      or an error raised after some rows were stored. */
  datatype Fate =
    | Accepted
    | Refused(kept: nat -> bool)
    | Raised(kept: nat -> bool, programming: bool)

  datatype Status = Ok | NegativeRowCount | Exception(programming: bool)

  /** `script` lists the fates of the bulk inserts to come; all later ones are accepted. */
  datatype Db = Db(tables: map<string, Table>, metadata: map<string, Metadata>, script: seq<Fate>)

  datatype Backend = Crate | Timescale

  function ToRow(cols: seq<Column>, cells: seq<Cell>): Row
    requires |cols| == |cells|
  {
    if cols == [] then map[] else ToRow(cols[1..], cells[1..])[cols[0] := cells[0]]
  }

  lemma {:induction false} ToRowCells(cols: seq<Column>, cells: seq<Cell>)
    requires |cols| == |cells|
    ensures forall c :: c in ToRow(cols, cells) <==> c in cols
    ensures Distinct(cols) ==> forall j :: 0 <= j < |cols| ==> ToRow(cols, cells)[cols[j]] == cells[j]
  {
    if cols != [] { ToRowCells(cols[1..], cells[1..]); }
  }

  /** Every row is as long as the placeholder list. */
  predicate Shaped(rows: seq<seq<Cell>>, n: nat) {
    forall i :: 0 <= i < |rows| ==> |rows[i]| == n
  }

  function ToRows(cols: seq<Column>, batch: seq<seq<Cell>>): (rows: seq<Row>)
    requires Shaped(batch, |cols|)
    ensures |rows| == |batch|
    ensures forall i :: 0 <= i < |rows| ==> rows[i] == ToRow(cols, batch[i])
  {
    seq(|batch|, i requires 0 <= i < |batch| => ToRow(cols, batch[i]))
  }

  function CellAt(row: Row, col: Column): Cell {
    if col in row then row[col] else Null
  }

  /** The elements of `xs` that `mask` marks, in order. */
  function Select<T>(xs: seq<T>, mask: seq<bool>): seq<T>
    requires |xs| == |mask|
  {
    if xs == [] then [] else (if mask[0] then [xs[0]] else []) + Select(xs[1..], mask[1..])
  }

  lemma {:induction false} SelectConcat<T>(a: seq<T>, m: seq<bool>, b: seq<T>, n: seq<bool>)
    requires |a| == |m| && |b| == |n|
    ensures Select(a + b, m + n) == Select(a, m) + Select(b, n)
  {
    if a == [] {
      assert a + b == b && m + n == n;
    } else {
      SelectConcat(a[1..], m[1..], b, n);
      assert (a + b)[1..] == a[1..] + b && (m + n)[1..] == m[1..] + n;
      assert (a + b)[0] == a[0] && (m + n)[0] == m[0];
    }
  }

  function Uniform(n: nat, b: bool): (mask: seq<bool>)
    ensures |mask| == n && forall i :: 0 <= i < n ==> mask[i] == b
  {
    seq(n, i => b)
  }

  lemma {:induction false} SelectUniform<T>(xs: seq<T>, b: bool)
    ensures Select(xs, Uniform(|xs|, b)) == if b then xs else []
  {
    if xs != [] {
      SelectUniform(xs[1..], b);
      assert Uniform(|xs|, b)[1..] == Uniform(|xs| - 1, b);
    }
  }

  // ---- Bulk inserts ---------------------------------------------------------------------

  predicate Executable(db: Db, tn: string, cols: seq<Column>) {
    && tn in db.tables
    && (forall c :: c in cols ==> c in db.tables[tn].cols)
    && |cols| == |Elements(cols)|
  }

  function NextFate(script: seq<Fate>): Fate {
    if script == [] then Accepted else script[0]
  }

  function LaterFates(script: seq<Fate>): seq<Fate> {
    if script == [] then [] else script[1..]
  }

  function Mask(fate: Fate, n: nat): (mask: seq<bool>)
    ensures |mask| == n && forall i: nat :: i < n ==> (mask[i] <==> fate.Accepted? || fate.kept(i))
  {
    match fate
    case Accepted => Uniform(n, true)
    case Refused(kept) => seq(n, i requires 0 <= i < n => kept(i))
    case Raised(kept, _) => seq(n, i requires 0 <= i < n => kept(i))
  }

  function StatusOf(fate: Fate): Status {
    match fate
    case Accepted => Ok
    case Refused(_) => NegativeRowCount
    case Raised(_, p) => Exception(p)
  }

  function Append(db: Db, tn: string, rows: seq<Row>): Db
    requires tn in db.tables
  {
    db.(tables := db.tables[tn := db.tables[tn].(rows := db.tables[tn].rows + rows)])
  }

  /** The effect of one bulk insert; statements on missing tables or columns store nothing. */
  function AfterExecuteMany(db: Db, tn: string, cols: seq<Column>, batch: seq<seq<Cell>>): (Db, Status)
    requires Shaped(batch, |cols|)
  {
    if !Executable(db, tn, cols) then (db, Exception(true))
    else
      var fate := NextFate(db.script);
      var landed := Append(db, tn, Select(ToRows(cols, batch), Mask(fate, |batch|)));
      (landed.(script := LaterFates(db.script)), StatusOf(fate))
  }

  // ---- Data definition, metadata, deletion ----------------------------------------------

  /** The columns a statement that quotes `cols` in lower case names. */
  function Lowered(cols: set<Column>): set<Column> {
    if InstanceIdKey in cols then cols - {InstanceIdKey} + {InstanceIdCol} else cols
  }

  /** The attribute `instanceId` has a key of its own, yet the name of an internal column: a statement that quotes both
      names one column twice. */
  predicate NamesTwice(cols: set<Column>) {
    InstanceIdKey in cols && InstanceIdCol in cols
  }

  /** `create table if not exists`; Timescale then adds whatever columns an existing table lacks. A table cannot be
      created with a column twice: Crate raises, in Timescale's guard the failure is only logged. The second result
      says whether the call returns. */
  function AfterCreate(db: Db, backend: Backend, tn: string, cols: set<Column>): (Db, bool) {
    if tn in db.tables then (if backend.Crate? then db else AfterAddColumns(db, tn, cols), true)
    else if NamesTwice(cols) then (db, backend.Timescale?)
    else (db.(tables := db.tables[tn := Table(Lowered(cols), [])]), true)
  }

  /** `add column if not exists`, which fails without the table. */
  function AfterAddColumns(db: Db, tn: string, cols: set<Column>): Db {
    if tn !in db.tables then db
    else db.(tables := db.tables[tn := db.tables[tn].(cols := db.tables[tn].cols + Lowered(cols))])
  }

  /** `add column`, one statement a column, until one fails: for want of the table, or because it has the column. */
  function AfterAddEach(db: Db, tn: string, cols: seq<Column>): (Db, bool)
    decreases |cols|
  {
    if cols == [] then (db, true)
    else if tn !in db.tables || InDatabase(cols[0]) in db.tables[tn].cols then (db, false)
    else AfterAddEach(AfterAddColumns(db, tn, {cols[0]}), tn, cols[1..])
  }

  /** `_update_data_table`: Timescale adds all columns in one guarded statement, Crate one by one. */
  function AfterUpdateTable(db: Db, backend: Backend, tn: string, cols: seq<Column>): (Db, bool) {
    if backend.Timescale? then (AfterAddColumns(db, tn, Elements(cols)), true) else AfterAddEach(db, tn, cols)
  }

  function AfterDeleteRows(db: Db, tn: string, matching: Row -> bool): Db {
    if tn !in db.tables then db
    else db.(tables := db.tables[tn := db.tables[tn].(rows := Filter(r => !matching(r), db.tables[tn].rows))])
  }

  class Connection {
    var tables: map<string, Table>
    var metadata: map<string, Metadata>
    var script: seq<Fate>

    ghost function State(): Db
      reads this
    {
      Db(tables, metadata, script)
    }

    constructor (script: seq<Fate>)
      ensures State() == Db(map[], map[], script)
    {
      tables, metadata, this.script := map[], map[], script;
    }

    method ExecuteMany(tn: string, cols: seq<Column>, batch: seq<seq<Cell>>) returns (status: Status)
      requires Shaped(batch, |cols|)
      modifies this
      ensures (State(), status) == AfterExecuteMany(old(State()), tn, cols, batch)
    {
      if tn !in tables || !(forall c | c in cols :: c in tables[tn].cols) || |cols| != |Elements(cols)| {
        return Exception(true);
      }
      var fate := NextFate(script);
      var stored := Select(ToRows(cols, batch), Mask(fate, |batch|));
      tables := tables[tn := tables[tn].(rows := tables[tn].rows + stored)];
      script := LaterFates(script);
      status := StatusOf(fate);
    }

    method CreateTable(tn: string, cols: set<Column>) returns (ok: bool)
      modifies this
      ensures ok <==> tn in old(tables) || !NamesTwice(cols)
      ensures State() == if tn in old(tables) || !ok then old(State())
        else old(State()).(tables := old(tables)[tn := Table(Lowered(cols), [])])
    {
      ok := tn in tables || !NamesTwice(cols);
      if ok && tn !in tables {
        tables := tables[tn := Table(Lowered(cols), [])];
      }
    }

    /** `add column if not exists` for each column, in one statement. */
    method AddColumns(tn: string, cols: set<Column>) returns (ok: bool)
      modifies this
      ensures ok <==> tn in old(tables)
      ensures State() == AfterAddColumns(old(State()), tn, cols)
    {
      ok := tn in tables;
      if ok {
        tables := tables[tn := tables[tn].(cols := tables[tn].cols + Lowered(cols))];
      }
    }

    /** `add column`. */
    method AddColumn(tn: string, col: Column) returns (ok: bool)
      modifies this
      ensures ok <==> tn in old(tables) && InDatabase(col) !in old(tables)[tn].cols
      ensures State() == if ok then AfterAddColumns(old(State()), tn, {col}) else old(State())
    {
      ok := tn in tables && InDatabase(col) !in tables[tn].cols;
      if ok {
        tables := tables[tn := tables[tn].(cols := tables[tn].cols + Lowered({col}))];
      }
    }

    method StoreMetadata(tn: string, md: Metadata)
      modifies this
      ensures State() == old(State()).(metadata := old(metadata)[tn := md])
    {
      metadata := metadata[tn := md];
    }

    method DeleteMetadata(tn: string)
      modifies this
      ensures State() == old(State()).(metadata := old(metadata) - {tn})
    {
      metadata := metadata - {tn};
    }

    method DeleteRows(tn: string, matching: Row -> bool) returns (ok: bool)
      modifies this
      ensures ok <==> tn in old(tables)
      ensures State() == AfterDeleteRows(old(State()), tn, matching)
    {
      ok := tn in tables;
      if ok {
        tables := tables[tn := tables[tn].(rows := Filter(r => !matching(r), tables[tn].rows))];
      }
    }

    method DropTable(tn: string)
      modifies this
      ensures State() == old(State()).(tables := old(tables) - {tn})
    {
      tables := tables - {tn};
    }
  }

  /** src/translators/timescale.py and src/translators/crate.py, `_create_data_table`. */
  method CreateDataTable(db: Connection, backend: Backend, tn: string, table: set<Column>) returns (ok: bool)
    modifies db
    ensures (db.State(), ok) == AfterCreate(old(db.State()), backend, tn, table)
  {
    ghost var before := db.State();
    ok := db.CreateTable(tn, table);
    if backend.Timescale? {
      if ok {
        if tn !in before.tables { AddNothingNew(db.State(), tn, table); }
        var added := db.AddColumns(tn, table);
      }
      ok := true;
    }
  }

  /** The columns of the statement under their database names. */
  ghost predicate NamesOf(names: set<Column>, cols: set<Column>) {
    forall d :: d in names <==> exists c :: c in cols && InDatabase(c) == d
  }

  lemma LoweredNamesOf(cols: set<Column>)
    ensures NamesOf(Lowered(cols), cols)
  {
    forall d | d in Lowered(cols) ensures exists c :: c in cols && InDatabase(c) == d {
      if d !in cols { assert InDatabase(InstanceIdKey) == d; } else { assert InDatabase(d) == d; }
    }
  }

  /** What a create leaves. A table that is there keeps its rows and gets, on Timescale only, the columns it lacks; a
      new one has the columns named and no rows, but is not created when two keys have the same name. */
  lemma CreateOutcome(db: Db, backend: Backend, tn: string, cols: set<Column>)
    ensures var (after, ok) := AfterCreate(db, backend, tn, cols);
      var twice := exists c, d :: c in cols && d in cols && c != d && InDatabase(c) == InDatabase(d);
      && (forall t :: t != tn ==> (t in after.tables <==> t in db.tables))
      && (forall t :: t != tn && t in db.tables ==> after.tables[t] == db.tables[t])
      && after.metadata == db.metadata && after.script == db.script
      && (tn in db.tables ==>
           && ok && tn in after.tables && after.tables[tn].rows == db.tables[tn].rows
           && if backend.Crate? then after.tables[tn].cols == db.tables[tn].cols
              else exists names :: NamesOf(names, cols) && after.tables[tn].cols == db.tables[tn].cols + names)
      && (tn !in db.tables ==>
           if twice then tn !in after.tables && (ok <==> backend.Timescale?)
           else ok && tn in after.tables && NamesOf(after.tables[tn].cols, cols) && after.tables[tn].rows == [])
  {
    LoweredNamesOf(cols);
    assert NamesTwice(cols) <==> exists c, d :: c in cols && d in cols && c != d && InDatabase(c) == InDatabase(d) by {
      if NamesTwice(cols) { assert InDatabase(InstanceIdKey) == InDatabase(InstanceIdCol); }
    }
  }

  /** A bulk insert into a missing table, into a column the table lacks or twice into one raises a programming error
      and stores nothing; any other stores the rows its fate keeps, and ends as its fate says. */
  lemma StatementOutcome(db: Db, tn: string, cols: seq<Column>, batch: seq<seq<Cell>>)
    requires Shaped(batch, |cols|)
    ensures var (after, status) := AfterExecuteMany(db, tn, cols, batch);
      if tn !in db.tables || (exists c :: c in cols && c !in db.tables[tn].cols) || !Distinct(cols)
      then after == db && status == Exception(true)
      else && (status.Ok? <==> NextFate(db.script).Accepted?)
           && (status.NegativeRowCount? <==> NextFate(db.script).Refused?)
           && after.script == LaterFates(db.script) && tn in after.tables
           && after.tables[tn].rows
                == db.tables[tn].rows + Select(ToRows(cols, batch), Mask(NextFate(db.script), |batch|))
  {
    NoRepetition(cols);
  }

  lemma {:induction false} NoRepetition<T>(xs: seq<T>)
    ensures Distinct(xs) <==> |xs| == |Elements(xs)|
    ensures |Elements(xs)| <= |xs|
  {
    if xs != [] {
      var init, x := xs[..|xs| - 1], xs[|xs| - 1];
      NoRepetition(init);
      assert xs == init + [x];
      assert Elements(xs) == Elements(init) + {x};
      if x in init {
        assert Elements(xs) == Elements(init);
        var i :| 0 <= i < |init| && init[i] == x;
        assert xs[i] == xs[|init|];
      } else {
        assert forall i, j :: 0 <= i < j < |xs| ==> xs[i] == init[i] && (j < |init| ==> xs[j] == init[j]);
      }
    }
  }

  lemma AddNothingNew(db: Db, tn: string, cols: set<Column>)
    requires tn in db.tables && Lowered(cols) <= db.tables[tn].cols
    ensures AfterAddColumns(db, tn, cols) == db
  {
    assert db.tables[tn].cols + Lowered(cols) == db.tables[tn].cols;
    assert AfterAddColumns(db, tn, cols).tables == db.tables;
  }

  /** `_update_data_table`; the new columns come as their dictionary lists them. */
  method UpdateDataTable(db: Connection, backend: Backend, tn: string, newColumns: seq<Column>) returns (ok: bool)
    modifies db
    ensures (db.State(), ok) == AfterUpdateTable(old(db.State()), backend, tn, newColumns)
  {
    if backend.Timescale? {
      var added := db.AddColumns(tn, Elements(newColumns));
      return true;
    }
    ghost var goal := AfterAddEach(db.State(), tn, newColumns);
    for i := 0 to |newColumns|
      invariant AfterAddEach(db.State(), tn, newColumns[i..]) == goal
    {
      assert newColumns[i..][0] == newColumns[i] && newColumns[i..][1..] == newColumns[i + 1..];
      ok := db.AddColumn(tn, newColumns[i]);
      if !ok { return; }
    }
    ok := true;
  }
}
