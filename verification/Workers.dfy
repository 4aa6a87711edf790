/** Timescale workers inserting into one existing table at the same time, query caching off: the reads, stores
    and alters of src/translators/sql_translator.py and src/translators/timescale.py in any interleaving. */
module Workers {
  import opened Sequences
  import opened Ngsi
  import opened Database
  import opened Translator
  import opened Coherence
  import opened RowInsert

  /** Where a worker is: about to store what it merged into the metadata it read, about to alter the table
      by the columns it stored, or about to insert its rows. */
  datatype Phase =
    | Idle
    | HasRead(md: Metadata, persisted: Metadata)
    | HasSaved(md: Metadata, diff: set<Column>)
    | Ready(md: Metadata)

  datatype System = System(db: Db, workers: map<nat, Phase>)

  datatype Action = Begin(w: nat, md: Metadata) | Save(w: nat) | Alter(w: nat) | Finish(w: nat)

  function PhaseOf(s: System, w: nat): Phase {
    if w in s.workers then s.workers[w] else Idle
  }

  /** An action that does not fit its worker's phase does nothing. */
  function Next(tn: string, s: System, a: Action): System {
    match (a, PhaseOf(s, a.w))
    case (Begin(w, md), Idle) => s.(workers := s.workers[w := HasRead(md, Known(s.db, tn))])
    case (Save(w), HasRead(md, persisted)) =>
      var diff := md.Keys - persisted.Keys;
      if diff == {} then s.(workers := s.workers[w := Ready(md)])
      else System(s.db.(metadata := s.db.metadata[tn := Merged(persisted, md)]), s.workers[w := HasSaved(md, diff)])
    case (Alter(w), HasSaved(md, diff)) =>
      var db := if diff == md.Keys then AfterCreate(s.db, Timescale, tn, md.Keys + EXTRA_KEYS).0
                else AfterAddColumns(s.db, tn, diff);
      System(db, s.workers[w := Ready(md)])
    case (Finish(w), Ready(_)) => s.(workers := s.workers[w := Idle])
    case _ => s
  }

  function Run(tn: string, s: System, actions: seq<Action>): System {
    if actions == [] then s else Next(tn, Run(tn, s, actions[..|actions| - 1]), actions[|actions| - 1])
  }

  /** What an insert infers: base columns and database names only. */
  ghost predicate Inferred(md: Metadata) {
    BASE_COLUMNS <= md.Keys && InstanceIdKey !in md
  }

  ghost predicate Sensible(a: Action) {
    a.Begin? ==> Inferred(a.md)
  }

  // ---- The invariant --------------------------------------------------------------------

  /** The table has the column or some worker has stored it and not added it yet. */
  ghost predicate Accounted(s: System, tn: string, c: Column) {
    (tn in s.db.tables && c in s.db.tables[tn].cols)
    || exists w :: w in s.workers && s.workers[w].HasSaved? && c in s.workers[w].diff
  }

  ghost predicate PhaseOk(s: System, tn: string, p: Phase) {
    match p
    case Idle => true
    case HasRead(md, persisted) =>
      Inferred(md) && Inferred(persisted) && forall c :: c in persisted ==> Accounted(s, tn, c)
    case HasSaved(md, diff) =>
      && Inferred(md) && diff <= md.Keys && diff !! BASE_COLUMNS
      && forall c :: c in md ==> Accounted(s, tn, c)
    case Ready(md) => forall c :: c in md ==> Accounted(s, tn, c)
  }

  ghost predicate Inv(s: System, tn: string) {
    && tn in s.db.tables && tn in s.db.metadata && Inferred(s.db.metadata[tn])
    && (forall c :: c in s.db.metadata[tn] ==> Accounted(s, tn, c))
    && forall w :: w in s.workers ==> PhaseOk(s, tn, s.workers[w])
  }

  /** A coherent store with no insert under way. */
  lemma QuietIsInvariant(db: Db, tn: string)
    requires CoherentDb(db, tn) && tn in db.tables
    ensures Inv(System(db, map[]), tn)
  {
  }

  /** What is accounted for stays so. */
  lemma AccountedStays(tn: string, s: System, a: Action, c: Column)
    requires Inv(s, tn) && Accounted(s, tn, c)
    ensures Accounted(Next(tn, s, a), tn, c)
  {
    var after := Next(tn, s, a);
    if c in s.db.tables[tn].cols {
      ColumnsStay(tn, s, a);
    } else {
      var w :| w in s.workers && s.workers[w].HasSaved? && c in s.workers[w].diff;
      if a.Alter? && a.w == w {
        AlterAddsColumns(tn, s, w);
      } else {
        assert after.workers[w] == s.workers[w];
      }
    }
  }

  /** Table columns never shrink. */
  lemma ColumnsStay(tn: string, s: System, a: Action)
    requires Inv(s, tn)
    ensures var after := Next(tn, s, a);
      tn in after.db.tables && s.db.tables[tn].cols <= after.db.tables[tn].cols
  {
  }

  /** On an existing table the stored columns are added by altering it: a create is never asked for. */
  lemma AlterAddsColumns(tn: string, s: System, w: nat)
    requires Inv(s, tn) && PhaseOf(s, w).HasSaved?
    ensures var after := Next(tn, s, Alter(w));
      && PhaseOf(s, w).diff != PhaseOf(s, w).md.Keys
      && tn in after.db.tables && after.db.metadata == s.db.metadata
      && after.db.tables[tn].cols == s.db.tables[tn].cols + PhaseOf(s, w).diff
  {
  }

  lemma SaveAccounts(tn: string, s: System, w: nat, c: Column)
    requires Inv(s, tn) && PhaseOf(s, w).HasRead?
    ensures c in PhaseOf(s, w).persisted || c in PhaseOf(s, w).md ==> Accounted(Next(tn, s, Save(w)), tn, c)
  {
    var after := Next(tn, s, Save(w));
    var p := PhaseOf(s, w);
    assert PhaseOk(s, tn, p);
    if c in p.persisted {
      AccountedStays(tn, s, Save(w), c);
    } else if c in p.md {
      assert after.workers[w] == HasSaved(p.md, p.md.Keys - p.persisted.Keys);
    }
  }

  lemma PhaseStays(tn: string, s: System, a: Action, p: Phase)
    requires Inv(s, tn) && PhaseOk(s, tn, p)
    ensures PhaseOk(Next(tn, s, a), tn, p)
  {
    forall c | Accounted(s, tn, c) ensures Accounted(Next(tn, s, a), tn, c) { AccountedStays(tn, s, a, c); }
  }

  lemma MetadataStaysAccounted(tn: string, s: System, a: Action)
    requires Inv(s, tn) && Sensible(a)
    ensures var after := Next(tn, s, a);
      && tn in after.db.metadata && Inferred(after.db.metadata[tn])
      && forall c :: c in after.db.metadata[tn] ==> Accounted(after, tn, c)
  {
    var after := Next(tn, s, a);
    if a.Save? && PhaseOf(s, a.w).HasRead? {
      var p := PhaseOf(s, a.w);
      assert PhaseOk(s, tn, p);
      forall c | c in after.db.metadata[tn] ensures Accounted(after, tn, c) {
        if p.md.Keys - p.persisted.Keys == {} {
          AccountedStays(tn, s, a, c);
        } else {
          SaveAccounts(tn, s, a.w, c);
        }
      }
    } else {
      if a.Alter? && PhaseOf(s, a.w).HasSaved? { AlterAddsColumns(tn, s, a.w); }
      assert after.db.metadata == s.db.metadata;
      forall c | c in s.db.metadata[tn] ensures Accounted(after, tn, c) { AccountedStays(tn, s, a, c); }
    }
  }

  lemma ActorStaysOk(tn: string, s: System, a: Action)
    requires Inv(s, tn) && Sensible(a)
    ensures PhaseOk(Next(tn, s, a), tn, PhaseOf(Next(tn, s, a), a.w))
  {
    var before, after := PhaseOf(s, a.w), Next(tn, s, a);
    assert PhaseOk(s, tn, before);
    match a {
      case Begin(w, md) =>
        forall c | Accounted(s, tn, c) ensures Accounted(after, tn, c) { AccountedStays(tn, s, a, c); }
      case Save(w) =>
        if before.HasRead? {
          forall c | c in before.md ensures Accounted(after, tn, c) { SaveAccounts(tn, s, w, c); }
        } else {
          PhaseStays(tn, s, a, before);
        }
      case Alter(w) =>
        forall c | Accounted(s, tn, c) ensures Accounted(after, tn, c) { AccountedStays(tn, s, a, c); }
      case Finish(w) =>
        PhaseStays(tn, s, a, before);
    }
  }

  lemma InvStays(tn: string, s: System, a: Action)
    requires Inv(s, tn) && Sensible(a)
    ensures Inv(Next(tn, s, a), tn)
  {
    var after := Next(tn, s, a);
    ColumnsStay(tn, s, a);
    MetadataStaysAccounted(tn, s, a);
    forall w | w in after.workers ensures PhaseOk(after, tn, after.workers[w]) {
      if w == a.w {
        ActorStaysOk(tn, s, a);
      } else {
        assert after.workers[w] == s.workers[w];
        PhaseStays(tn, s, a, s.workers[w]);
      }
    }
  }

  /** Under any interleaving: every metadata column is in the table or stored by a worker that has yet to add
      it, and the table never loses a column. */
  lemma {:induction false} InterleavingsStayAccounted(tn: string, s: System, actions: seq<Action>)
    requires Inv(s, tn) && forall a :: a in actions ==> Sensible(a)
    ensures Inv(Run(tn, s, actions), tn)
    ensures s.db.tables[tn].cols <= Run(tn, s, actions).db.tables[tn].cols
  {
    if actions != [] {
      var init, last := actions[..|actions| - 1], actions[|actions| - 1];
      assert last in actions && forall a :: a in init ==> a in actions;
      InterleavingsStayAccounted(tn, s, init);
      InvStays(tn, Run(tn, s, init), last);
      ColumnsStay(tn, Run(tn, s, init), last);
    }
  }

  /** The table has every column of `md` that some worker has stored and not added yet. */
  ghost predicate NonePending(s: System, tn: string, md: Metadata)
    requires tn in s.db.tables
  {
    forall v, c :: v in s.workers && s.workers[v].HasSaved? && c in s.workers[v].diff && c in md ==>
      c in s.db.tables[tn].cols
  }

  /** An insert that is ready finds its columns exactly when none of them is stored by a worker and missing from the
      table; in particular when no worker is between its store and its alter. */
  lemma ReadyInsertFindsColumns(tn: string, s: System, w: nat)
    requires Inv(s, tn) && PhaseOf(s, w).Ready?
    ensures (forall c :: c in PhaseOf(s, w).md ==> c in s.db.tables[tn].cols) <==> NonePending(s, tn, PhaseOf(s, w).md)
    ensures (forall v :: v in s.workers ==> !s.workers[v].HasSaved?) ==>
      forall c :: c in PhaseOf(s, w).md ==> c in s.db.tables[tn].cols
  {
    var md := PhaseOf(s, w).md;
    assert PhaseOk(s, tn, PhaseOf(s, w));
    if NonePending(s, tn, md) {
      forall c | c in md ensures c in s.db.tables[tn].cols {
        assert Accounted(s, tn, c);
      }
    }
  }

  /** It can fail to: an insert that reads between another one's save and alter takes the new column for an old one,
      and is ready while the table lacks it. */
  lemma EarlyInsertMissesColumn(db: Db, tn: string, md: Metadata, c: Column)
    requires CoherentDb(db, tn) && tn in db.tables && Inferred(md)
    requires c in md && c !in db.metadata[tn] && c !in db.tables[tn].cols
    ensures var s := Run(tn, System(db, map[]), [Begin(0, md), Save(0), Begin(1, md), Save(1)]);
      && Inv(s, tn) && PhaseOf(s, 1) == Ready(md) && tn in s.db.tables && c !in s.db.tables[tn].cols
  {
    var acts := [Begin(0, md), Save(0), Begin(1, md), Save(1)];
    QuietIsInvariant(db, tn);
    RunFour(tn, System(db, map[]), acts);
    InterleavingsStayAccounted(tn, System(db, map[]), acts);
    var saved := Next(tn, Next(tn, System(db, map[]), Begin(0, md)), Save(0));
    assert c in md.Keys - db.metadata[tn].Keys;
    NothingNewToSave(tn, saved, md);
  }

  /** A worker that finds all its columns in the metadata is ready at once. */
  lemma NothingNewToSave(tn: string, s: System, md: Metadata)
    requires PhaseOf(s, 1).Idle? && md.Keys <= Known(s.db, tn).Keys
    ensures var after := Next(tn, Next(tn, s, Begin(1, md)), Save(1));
      after.db == s.db && PhaseOf(after, 1) == Ready(md)
  {
    assert md.Keys - Known(s.db, tn).Keys == {};
  }

  /** What an insert by itself makes of an existing table. */
  function Altered(db: Db, tn: string, md: Metadata): Db {
    var known := Known(db, tn);
    var diff := md.Keys - known.Keys;
    if diff == {} then db
    else AfterAddColumns(db.(metadata := db.metadata[tn := Merged(known, md)]), tn, diff)
  }

  lemma WorkerAlters(tn: string, db: Db, md: Metadata)
    requires CoherentDb(db, tn) && tn in db.tables && Inferred(md)
    ensures Next(tn, Next(tn, Next(tn, System(db, map[]), Begin(0, md)), Save(0)), Alter(0))
         == System(Altered(db, tn, md), map[0 := Ready(md)])
  {
    var known := db.metadata[tn];
    var read := Next(tn, System(db, map[]), Begin(0, md));
    assert PhaseOf(read, 0) == HasRead(md, known) && read.db == db;
    var diff, saved := md.Keys - known.Keys, Next(tn, read, Save(0));
    if diff == {} {
      assert PhaseOf(saved, 0) == Ready(md);
    } else {
      assert PhaseOf(saved, 0) == HasSaved(md, diff);
      assert EntityIdCol in known && EntityIdCol in md && EntityIdCol !in diff;
    }
  }

  lemma FinishesIdle(tn: string, db: Db, md: Metadata)
    ensures var s := System(db, map[0 := Ready(md)]);
      Next(tn, s, Finish(0)).db == db && PhaseOf(Next(tn, s, Finish(0)), 0) == Idle
  {
  }

  lemma InsertAlters(config: Config, db: Db, tn: string, es: seq<Entity>)
    requires config.backend.Timescale? && Lists(config) && CoherentDb(db, tn) && tn in db.tables
    ensures AfterSchema(Translator.Store(db, map[], false), config, tn, es).0.db == Altered(db, tn, OriginalAttrs(es))
  {
    var md, known := OriginalAttrs(es), db.metadata[tn];
    InferredNames(es);
    UpdateStoresMerge(config.cacheName, Translator.Store(db, map[], false), tn, md);
    assert EntityIdCol in known && EntityIdCol in md && EntityIdCol !in md.Keys - known.Keys;
    assert Elements(config.listed(md.Keys - known.Keys)) == md.Keys - known.Keys;
  }

  /** A worker left alone does what a sequential insert does to tables and metadata. */
  lemma AloneIsSequential(config: Config, db: Db, tn: string, es: seq<Entity>)
    requires config.backend.Timescale? && Lists(config) && CoherentDb(db, tn) && tn in db.tables
    ensures Inferred(OriginalAttrs(es))
    ensures var s := System(db, map[]);
      var end := Next(tn, Next(tn, Next(tn, s, Begin(0, OriginalAttrs(es))), Save(0)), Alter(0));
      && end.db == AfterSchema(Translator.Store(db, map[], false), config, tn, es).0.db
      && PhaseOf(end, 0) == Ready(OriginalAttrs(es))
      && Next(tn, end, Finish(0)).db == end.db && PhaseOf(Next(tn, end, Finish(0)), 0) == Idle
  {
    InferredNames(es);
    WorkerAlters(tn, db, OriginalAttrs(es));
    InsertAlters(config, db, tn, es);
    FinishesIdle(tn, Altered(db, tn, OriginalAttrs(es)), OriginalAttrs(es));
  }

  // ---- Lost and restored columns --------------------------------------------------------

  /** A worker whose read is still what is stored. */
  ghost predicate ReadCurrent(s: System, tn: string, w: nat, md: Metadata, known: Metadata) {
    PhaseOf(s, w) == HasRead(md, known) && Known(s.db, tn) == known
  }

  lemma {:induction false} OthersKeepReadCurrent(tn: string, s: System, w: nat, md: Metadata, known: Metadata,
                                                 actions: seq<Action>)
    requires Inv(s, tn) && ReadCurrent(s, tn, w, md, known)
    requires forall a :: a in actions ==> Sensible(a) && a.w != w && !a.Save?
    ensures ReadCurrent(Run(tn, s, actions), tn, w, md, known) && Inv(Run(tn, s, actions), tn)
  {
    if actions != [] {
      var init, last := actions[..|actions| - 1], actions[|actions| - 1];
      assert last in actions && forall a :: a in init ==> a in actions;
      OthersKeepReadCurrent(tn, s, w, md, known, init);
      var before := Run(tn, s, init);
      InvStays(tn, before, last);
      if last.Alter? && PhaseOf(before, last.w).HasSaved? { AlterAddsColumns(tn, before, last.w); }
    }
  }

  /** An insert no other worker's store overlaps keeps every entry and adds all its columns, among them any that
      an earlier overlap lost. */
  lemma NonOverlappingInsertRestores(tn: string, s: System, w: nat, md: Metadata, others: seq<Action>)
    requires Inv(s, tn) && PhaseOf(s, w).Idle? && Inferred(md)
    requires forall a :: a in others ==> Sensible(a) && a.w != w && !a.Save?
    ensures var read := Next(tn, s, Begin(w, md));
      var after := Next(tn, Run(tn, read, others), Save(w));
      && tn in after.db.metadata && after.db.metadata[tn] == Merged(s.db.metadata[tn], md)
      && md.Keys <= after.db.metadata[tn].Keys
      && forall c :: c in s.db.metadata[tn] ==>
           c in after.db.metadata[tn] && after.db.metadata[tn][c] == s.db.metadata[tn][c]
  {
    var known := s.db.metadata[tn];
    var read := Next(tn, s, Begin(w, md));
    InvStays(tn, s, Begin(w, md));
    OthersKeepReadCurrent(tn, read, w, md, known, others);
    InterleavingsStayAccounted(tn, read, others);
    if md.Keys - known.Keys == {} { NothingToMerge(known, md); }
  }

  /** What a save forgets: the columns stored since the worker read that it does not carry itself. */
  lemma SaveForgetsExactly(tn: string, s: System, w: nat, c: Column)
    requires Inv(s, tn) && PhaseOf(s, w).HasRead? && c in s.db.metadata[tn]
    ensures var p := PhaseOf(s, w);
      var after := Next(tn, s, Save(w)).db.metadata;
      tn in after && (c !in after[tn] <==> !(p.md.Keys <= p.persisted.Keys) && c !in p.persisted && c !in p.md)
  {
  }

  lemma BothRead(db: Db, tn: string, mdA: Metadata, mdB: Metadata)
    requires CoherentDb(db, tn) && tn in db.tables && Inferred(mdA) && Inferred(mdB)
    ensures var s := Next(tn, Next(tn, System(db, map[]), Begin(0, mdA)), Begin(1, mdB));
      && Inv(s, tn) && s.db == db
      && PhaseOf(s, 0) == HasRead(mdA, db.metadata[tn]) && PhaseOf(s, 1) == HasRead(mdB, db.metadata[tn])
  {
  }

  /** One of two workers saves and alters; the other still holds what it read. */
  lemma FirstSaves(s: System, tn: string, known: Metadata, mdA: Metadata, other: Phase, c: Column)
    requires Inv(s, tn) && PhaseOf(s, 0) == HasRead(mdA, known) && PhaseOf(s, 1) == other && c in mdA && c !in known
    ensures var after := Next(tn, Next(tn, s, Save(0)), Alter(0));
      && Inv(after, tn) && PhaseOf(after, 1) == other
      && c in after.db.tables[tn].cols && c in after.db.metadata[tn]
  {
    var saved := Next(tn, s, Save(0));
    InvStays(tn, s, Save(0));
    assert c in mdA.Keys - known.Keys;
    AlterAddsColumns(tn, saved, 0);
    InvStays(tn, saved, Alter(0));
  }

  /** Overlap does lose columns: when the second of two workers saves a new column of its own, the new column of
      the first is gone from the metadata, though the table has it. */
  lemma OverlapLosesColumn(db: Db, tn: string, known: Metadata, mdA: Metadata, mdB: Metadata, c: Column, d: Column)
    requires CoherentDb(db, tn) && tn in db.tables && db.metadata[tn] == known
    requires Inferred(mdA) && Inferred(mdB) && c in mdA && c !in known && c !in mdB && d in mdB && d !in known
    ensures var end := Run(tn, System(db, map[]), [Begin(0, mdA), Begin(1, mdB), Save(0), Alter(0), Save(1)]);
      && tn in end.db.metadata && c !in end.db.metadata[tn]
      && tn in end.db.tables && c in end.db.tables[tn].cols
  {
    var acts := [Begin(0, mdA), Begin(1, mdB), Save(0), Alter(0), Save(1)];
    var s := Run(tn, System(db, map[]), acts[..4]);
    RunFour(tn, System(db, map[]), acts[..4]);
    BothRead(db, tn, mdA, mdB);
    var both := Next(tn, Next(tn, System(db, map[]), Begin(0, mdA)), Begin(1, mdB));
    FirstSaves(both, tn, known, mdA, HasRead(mdB, known), c);
    assert d in mdB.Keys - known.Keys;
    SaveForgetsExactly(tn, s, 1, c);
  }

  lemma RunFour(tn: string, s: System, acts: seq<Action>)
    requires |acts| == 4
    ensures Run(tn, s, acts) == Next(tn, Next(tn, Next(tn, Next(tn, s, acts[0]), acts[1]), acts[2]), acts[3])
  {
    assert acts[..3][..2] == acts[..2] && acts[..2][..1] == acts[..1] && acts[..1][..0] == [];
    assert Run(tn, s, acts[..1]) == Next(tn, s, acts[0]);
    assert Run(tn, s, acts[..2]) == Next(tn, Run(tn, s, acts[..1]), acts[1]);
    assert Run(tn, s, acts[..3]) == Next(tn, Run(tn, s, acts[..2]), acts[2]);
  }
}
