/** Threads calling put and empty on one observation bucket, in any interleaving of their steps:
    src/server/telemetry/observation.py. The empty action of put runs after the lock is released. */
module BucketThreads {
  import opened Sequences
  import opened Observations

  /** A store taken out of the buffer, and its place in the order of flushes. */
  datatype Flush<!L> = Flush(place: nat, store: ObservationStore<L>)

  /** Where a thread is. All but `Idle` and `Delivering` hold the lock. */
  datatype Phase<!L> =
    | Idle
    | Inserting(rest: seq<LabelledObservation<L>>, size: nat)
    | Counted
    | Leaving(flushed: Option<Flush<L>>)
    | Delivering(flush: Flush<L>)
    | Emptying(flush: Flush<L>)
    | Emptied

  /** The bucket, its threads, and what happened so far: the puts in the order they got the lock, the observations
      inserted, how many of them were flushed, the stores flushed, and those handed to the action, in order. */
  datatype System<!L> = System(
    buffer: ObservationStore<L>, memoryLowerBound: nat, owner: Option<nat>, threads: map<nat, Phase<L>>,
    puts: seq<seq<LabelledObservation<L>>>, inserted: seq<LabelledObservation<L>>, cut: nat,
    flushes: seq<ObservationStore<L>>, delivered: seq<Flush<L>>)

  datatype Action<L> =
    | BeginPut(t: nat, ts: seq<LabelledObservation<L>>)
    | InsertOne(t: nat)
    | Count(t: nat)
    | Check(t: nat)
    | Leave(t: nat)
    | Deliver(t: nat)
    | BeginEmpty(t: nat)
    | DeliverEmpty(t: nat)
    | EndEmpty(t: nat)

  datatype Config = Config(minSize: nat, memoryThreshold: int)

  function Initial<L(==)>(): System<L> {
    System(map[], 0, None, map[], [], [], 0, [], [])
  }

  function PhaseOf<L>(s: System<L>, t: nat): Phase<L> {
    if t in s.threads then s.threads[t] else Idle
  }

  function At<L>(s: System<L>, t: nat, p: Phase<L>): System<L> {
    s.(threads := s.threads[t := p])
  }

  function NextFlush<L>(s: System<L>): Flush<L> {
    Flush(|s.flushes|, s.buffer)
  }

  function Flushed<L>(s: System<L>): System<L> {
    s.(buffer := map[], cut := |s.inserted|, flushes := s.flushes + [s.buffer])
  }

  /** An action that its thread cannot take, because of its phase or because the lock is taken, does nothing. */
  function Next<L(==)>(c: Config, s: System<L>, a: Action<L>): System<L> {
    match (a, PhaseOf(s, a.t))
    case (BeginPut(t, ts), Idle) =>
      if s.owner.Some? then s
      else At(s.(owner := Some(t), puts := s.puts + [ts]), t, Inserting(ts, |ts|))
    case (InsertOne(t), Inserting(rest, size)) =>
      if rest == [] then s
      else At(s.(buffer := Extended(s.buffer, rest[0].tag, [Unlabelled(rest[0])]), inserted := s.inserted + [rest[0]]),
              t, Inserting(rest[1..], size))
    case (Count(t), Inserting(rest, size)) =>
      if rest != [] then s
      else At(s.(memoryLowerBound := s.memoryLowerBound + c.minSize * size), t, Counted)
    case (Check(t), Counted) =>
      if s.memoryLowerBound > c.memoryThreshold then At(Flushed(s), t, Leaving(Some(NextFlush(s))))
      else At(s, t, Leaving(None))
    case (Leave(t), Leaving(flushed)) =>
      At(s.(owner := None), t,
         if flushed.Some? && flushed.value.store != map[] then Delivering(flushed.value) else Idle)
    case (Deliver(t), Delivering(flush)) => At(s.(delivered := s.delivered + [flush]), t, Idle)
    case (BeginEmpty(t), Idle) =>
      if s.owner.Some? then s else At(Flushed(s).(owner := Some(t)), t, Emptying(NextFlush(s)))
    case (DeliverEmpty(t), Emptying(flush)) => At(s.(delivered := s.delivered + [flush]), t, Emptied)
    case (EndEmpty(t), Emptied) => At(s.(owner := None), t, Idle)
    case _ => s
  }

  function Run<L(==)>(c: Config, s: System<L>, actions: seq<Action<L>>): System<L> {
    if actions == [] then s else Next(c, Run(c, s, actions[..|actions| - 1]), actions[|actions| - 1])
  }

  // ---- Invariants -----------------------------------------------------------------------

  predicate HoldsLock<L>(p: Phase<L>) {
    !p.Idle? && !p.Delivering?
  }

  ghost predicate LockInv<L>(s: System<L>) {
    forall t: nat :: HoldsLock(PhaseOf(s, t)) <==> s.owner == Some(t)
  }

  /** What the thread inside put has still to insert. */
  function Pending<L>(s: System<L>): seq<LabelledObservation<L>> {
    if s.owner.Some? && PhaseOf(s, s.owner.value).Inserting? then PhaseOf(s, s.owner.value).rest else []
  }

  /** What was inserted and not yet counted. */
  function Uncounted<L>(s: System<L>): int {
    if s.owner.Some? && PhaseOf(s, s.owner.value).Inserting?
    then PhaseOf(s, s.owner.value).size - |PhaseOf(s, s.owner.value).rest| else 0
  }

  ghost predicate Conserved<L>(s: System<L>) {
    && s.cut <= |s.inserted|
    && s.buffer == StoreOf(s.inserted[s.cut..])
    && MergeAll(s.flushes) == StoreOf(s.inserted[..s.cut])
    && s.inserted + Pending(s) == Flatten(s.puts)
  }

  /** The counter is the size of all ever inserted, flushed or not. */
  ghost predicate CountInv<L>(c: Config, s: System<L>) {
    0 <= Uncounted(s) && s.memoryLowerBound == c.minSize * (|s.inserted| - Uncounted(s))
  }

  /** Between puts nothing is buffered or the counter is within the threshold. */
  ghost predicate BoundInv<L>(c: Config, s: System<L>) {
    (s.owner.Some? && (PhaseOf(s, s.owner.value).Inserting? || PhaseOf(s, s.owner.value).Counted?))
    || s.cut == |s.inserted| || s.memoryLowerBound <= c.memoryThreshold
  }

  /** What a thread in this phase will hand to the action. */
  function Debt<L(==)>(p: Phase<L>): Option<Flush<L>> {
    match p
    case Leaving(flushed) => if flushed.Some? && flushed.value.store != map[] then flushed else None
    case Delivering(flush) => Some(flush)
    case Emptying(flush) => Some(flush)
    case _ => None
  }

  ghost predicate IsFlush<L>(s: System<L>, f: Flush<L>) {
    f.place < |s.flushes| && s.flushes[f.place] == f.store
  }

  ghost predicate Owed<L>(s: System<L>, f: Flush<L>) {
    exists t: nat :: Debt(PhaseOf(s, t)) == Some(f)
  }

  /** Deliveries are of flushes, none twice; a flush still to be delivered is one thread's, and no flush with data
      is forgotten. */
  ghost predicate DeliveryInv<L>(s: System<L>) {
    && Distinct(s.delivered)
    && (forall f :: f in s.delivered ==> IsFlush(s, f))
    && (forall t: nat :: Debt(PhaseOf(s, t)).Some? ==>
         IsFlush(s, Debt(PhaseOf(s, t)).value) && Debt(PhaseOf(s, t)).value !in s.delivered)
    && (forall t: nat, u: nat :: Debt(PhaseOf(s, t)).Some? && Debt(PhaseOf(s, t)) == Debt(PhaseOf(s, u)) ==> t == u)
    && forall i :: 0 <= i < |s.flushes| && s.flushes[i] != map[] ==>
      var f := Flush(i, s.flushes[i]);
      f in s.delivered || Owed(s, f)
  }

  ghost predicate Inv<L(!new)>(c: Config, s: System<L>) {
    LockInv(s) && Conserved(s) && CountInv(c, s) && BoundInv(c, s) && DeliveryInv(s)
  }

  lemma InitialConserved<L(!new)>()
    ensures LockInv(Initial<L>()) && Conserved(Initial<L>())
  {
  }

  lemma InitialDelivery<L(!new)>()
    ensures DeliveryInv(Initial<L>())
  {
  }

  lemma InitialInv<L(!new)>(c: Config)
    ensures Inv(c, Initial<L>())
  {
    InitialConserved<L>();
    InitialDelivery<L>();
  }

  lemma LockStays<L(!new)>(c: Config, s: System<L>, a: Action<L>)
    requires LockInv(s)
    ensures LockInv(Next(c, s, a))
  {
  }

  lemma StoreSplit<L(!new)>(ts: seq<LabelledObservation<L>>, k: nat)
    requires k <= |ts|
    ensures Plus(StoreOf(ts[..k]), StoreOf(ts[k..])) == StoreOf(ts)
    ensures ts[..|ts|] == ts && ts[|ts|..] == []
  {
    StoreOfConcat(ts[..k], ts[k..]);
    assert ts[..k] + ts[k..] == ts;
  }

  lemma FlushConserves<L(!new)>(s: System<L>, after: System<L>)
    requires Conserved(s) && Pending(s) == [] && Pending(after) == []
    requires after.inserted == s.inserted && after.puts == s.puts && after.cut == |s.inserted|
    requires after.buffer == map[] && after.flushes == s.flushes + [s.buffer]
    ensures Conserved(after)
  {
    MergeSnoc(s.flushes, s.buffer);
    StoreSplit(s.inserted, s.cut);
  }

  lemma InsertConserves<L(!new)>(s: System<L>, after: System<L>, t: LabelledObservation<L>)
    requires Conserved(s) && Pending(s) == [t] + Pending(after)
    requires after.inserted == s.inserted + [t] && after.puts == s.puts && after.cut == s.cut
    requires after.buffer == Extended(s.buffer, t.tag, [Unlabelled(t)]) && after.flushes == s.flushes
    ensures Conserved(after)
  {
    assert after.inserted[..s.cut] == s.inserted[..s.cut];
    assert after.inserted[s.cut..] == s.inserted[s.cut..] + [t];
    StoreOfSnoc(s.inserted[s.cut..], t);
    Joined(s.inserted, [t], Pending(after));
  }

  lemma BeginConserves<L(!new)>(s: System<L>, after: System<L>, ts: seq<LabelledObservation<L>>)
    requires Conserved(s) && Pending(s) == [] && Pending(after) == ts
    requires after.inserted == s.inserted && after.puts == s.puts + [ts] && after.cut == s.cut
    requires after.buffer == s.buffer && after.flushes == s.flushes
    ensures Conserved(after)
  {
    FlattenSnoc(s.puts, ts);
    assert s.inserted + [] == s.inserted;
  }

  lemma OtherConserves<L(!new)>(s: System<L>, after: System<L>)
    requires Conserved(s) && Pending(s) == Pending(after)
    requires after.inserted == s.inserted && after.puts == s.puts && after.cut == s.cut
    requires after.buffer == s.buffer && after.flushes == s.flushes
    ensures Conserved(after)
  {
  }

  lemma BeginPending<L(!new)>(c: Config, s: System<L>, a: Action<L>)
    requires LockInv(s) && a.BeginPut? && Next(c, s, a) != s
    ensures Pending(s) == [] && Pending(Next(c, s, a)) == a.ts
  {
  }

  lemma InsertPending<L(!new)>(c: Config, s: System<L>, a: Action<L>)
    requires LockInv(s) && a.InsertOne? && Next(c, s, a) != s
    ensures var p := PhaseOf(s, a.t);
      p.Inserting? && p.rest != [] && Pending(s) == [p.rest[0]] + Pending(Next(c, s, a))
  {
  }

  lemma FlushPending<L(!new)>(c: Config, s: System<L>, a: Action<L>)
    requires LockInv(s) && Next(c, s, a).flushes != s.flushes
    ensures Pending(s) == [] && Pending(Next(c, s, a)) == []
  {
  }

  lemma ConservedStays<L(!new)>(c: Config, s: System<L>, a: Action<L>)
    requires LockInv(s) && Conserved(s)
    ensures Conserved(Next(c, s, a))
  {
    var after := Next(c, s, a);
    if a.BeginPut? && after != s {
      BeginPending(c, s, a);
      BeginConserves(s, after, a.ts);
    } else if a.InsertOne? && after != s {
      InsertPending(c, s, a);
      InsertConserves(s, after, PhaseOf(s, a.t).rest[0]);
    } else if after.flushes != s.flushes {
      FlushPending(c, s, a);
      FlushConserves(s, after);
    } else {
      PendingKept(c, s, a);
      OtherConserves(s, after);
    }
  }

  lemma PendingKept<L(!new)>(c: Config, s: System<L>, a: Action<L>)
    requires LockInv(s) && (a.BeginPut? || a.InsertOne? ==> Next(c, s, a) == s)
    ensures Pending(Next(c, s, a)) == Pending(s)
  {
  }

  lemma CountStays<L(!new)>(c: Config, s: System<L>, a: Action<L>)
    requires LockInv(s) && CountInv(c, s) && BoundInv(c, s)
    ensures CountInv(c, Next(c, s, a)) && BoundInv(c, Next(c, s, a))
  {
  }

  lemma DebtTaken<L(!new)>(s: System<L>, after: System<L>, t: nat)
    requires DeliveryInv(s) && Debt(PhaseOf(s, t)).None?
    requires after.delivered == s.delivered && after.flushes == s.flushes + [s.buffer]
    requires forall u: nat :: u != t ==> PhaseOf(after, u) == PhaseOf(s, u)
    requires Debt(PhaseOf(after, t)) == Some(NextFlush(s)) || (s.buffer == map[] && Debt(PhaseOf(after, t)).None?)
    ensures DeliveryInv(after)
  {
  }

  lemma DebtPaid<L(!new)>(s: System<L>, after: System<L>, t: nat, f: Flush<L>)
    requires DeliveryInv(s) && Debt(PhaseOf(s, t)) == Some(f)
    requires after.delivered == s.delivered + [f] && after.flushes == s.flushes
    requires forall u: nat :: u != t ==> PhaseOf(after, u) == PhaseOf(s, u)
    requires Debt(PhaseOf(after, t)).None?
    ensures DeliveryInv(after)
  {
  }

  lemma DebtKept<L(!new)>(s: System<L>, after: System<L>)
    requires DeliveryInv(s) && after.delivered == s.delivered && after.flushes == s.flushes
    requires forall u: nat :: Debt(PhaseOf(after, u)) == Debt(PhaseOf(s, u))
    ensures DeliveryInv(after)
  {
  }

  lemma OthersKeepPhase<L(!new)>(c: Config, s: System<L>, a: Action<L>)
    ensures forall u: nat :: u != a.t ==> PhaseOf(Next(c, s, a), u) == PhaseOf(s, u)
  {
  }

  lemma DeliveryStays<L(!new)>(c: Config, s: System<L>, a: Action<L>)
    requires DeliveryInv(s)
    ensures DeliveryInv(Next(c, s, a))
  {
    var after, p := Next(c, s, a), PhaseOf(s, a.t);
    OthersKeepPhase(c, s, a);
    if after.flushes != s.flushes {
      DebtTaken(s, after, a.t);
    } else if after.delivered != s.delivered {
      DebtPaid(s, after, a.t, p.flush);
    } else {
      DebtKept(s, after);
    }
  }

  lemma InvStays<L(!new)>(c: Config, s: System<L>, a: Action<L>)
    requires Inv(c, s)
    ensures Inv(c, Next(c, s, a))
  {
    LockStays(c, s, a);
    ConservedStays(c, s, a);
    CountStays(c, s, a);
    DeliveryStays(c, s, a);
  }

  lemma {:induction false} RunsKeepInv<L(!new)>(c: Config, s: System<L>, actions: seq<Action<L>>)
    requires Inv(c, s)
    ensures Inv(c, Run(c, s, actions))
  {
    if actions != [] {
      var init, a := actions[..|actions| - 1], actions[|actions| - 1];
      RunsKeepInv(c, s, init);
      InvStays(c, Run(c, s, init), a);
    }
  }

  // ---- What holds of every run ----------------------------------------------------------

  /** Whatever the interleaving, the flushed stores merged in flush order, and then the buffer, are the store of all
      puts in the order they got the lock, up to what the put now inside the lock has still to insert. */
  lemma NothingIsLost<L(!new)>(c: Config, actions: seq<Action<L>>)
    ensures var s := Run(c, Initial(), actions);
      && Plus(MergeAll(s.flushes), s.buffer) == StoreOf(s.inserted)
      && s.inserted + Pending(s) == Flatten(s.puts)
      && (s.owner.None? ==> Plus(MergeAll(s.flushes), s.buffer) == StoreOf(Flatten(s.puts)))
  {
    InitialInv<L>(c);
    RunsKeepInv(c, Initial(), actions);
    MergeConserved(Run(c, Initial(), actions));
  }

  lemma MergeConserved<L(!new)>(s: System<L>)
    requires Conserved(s)
    ensures Plus(MergeAll(s.flushes), s.buffer) == StoreOf(s.inserted)
    ensures s.owner.None? ==> s.inserted == Flatten(s.puts)
  {
    StoreOfConcat(s.inserted[..s.cut], s.inserted[s.cut..]);
    assert s.inserted[..s.cut] + s.inserted[s.cut..] == s.inserted;
    assert s.inserted + [] == s.inserted;
  }

  /** Each delivery is of one of the flushes, no flush is delivered twice, and once all threads are done every flush
      that took data has been delivered. */
  lemma FlushesAreDelivered<L(!new)>(c: Config, actions: seq<Action<L>>)
    ensures var s := Run(c, Initial(), actions);
      && (forall i, j :: 0 <= i < j < |s.delivered| ==> s.delivered[i].place != s.delivered[j].place)
      && (forall f :: f in s.delivered ==> f.place < |s.flushes| && f.store == s.flushes[f.place])
      && ((forall t: nat :: PhaseOf(s, t).Idle?) ==>
          forall i :: 0 <= i < |s.flushes| && s.flushes[i] != map[] ==> Flush(i, s.flushes[i]) in s.delivered)
  {
    InitialInv<L>(c);
    RunsKeepInv(c, Initial(), actions);
    var s := Run(c, Initial(), actions);
    assert forall f :: f in s.delivered ==> IsFlush(s, f);
    forall i, j | 0 <= i < j < |s.delivered| ensures s.delivered[i].place != s.delivered[j].place {
      assert IsFlush(s, s.delivered[i]) && IsFlush(s, s.delivered[j]);
    }
  }

  /** Whenever the lock is free the buffer is the store of the newest observations, few enough to fit a non-negative
      threshold; and since flushing leaves the counter alone, once the puts so far exceed the threshold in all,
      nothing stays in the buffer between calls. */
  lemma BufferStaysBounded<L(!new)>(c: Config, actions: seq<Action<L>>)
    ensures var s := Run(c, Initial(), actions);
      && s.cut <= |s.inserted| && s.buffer == StoreOf(s.inserted[s.cut..])
      && (s.owner.None? ==>
          && s.memoryLowerBound == c.minSize * |Flatten(s.puts)|
          && (c.memoryThreshold >= 0 ==> c.minSize * |s.inserted[s.cut..]| <= c.memoryThreshold)
          && (c.minSize * |Flatten(s.puts)| > c.memoryThreshold ==> s.buffer == map[]))
  {
    InitialInv<L>(c);
    RunsKeepInv(c, Initial(), actions);
    var s := Run(c, Initial(), actions);
    if s.owner.None? { FreeLockBounds(c, s); }
  }

  lemma FreeLockBounds<L(!new)>(c: Config, s: System<L>)
    requires Conserved(s) && CountInv(c, s) && BoundInv(c, s) && s.owner.None?
    ensures s.memoryLowerBound == c.minSize * |Flatten(s.puts)|
    ensures c.memoryThreshold >= 0 ==> c.minSize * |s.inserted[s.cut..]| <= c.memoryThreshold
    ensures c.minSize * |Flatten(s.puts)| > c.memoryThreshold ==> s.buffer == map[]
  {
    assert s.inserted + [] == s.inserted;
    if s.cut == |s.inserted| {
      assert s.inserted[s.cut..] == [];
    } else {
      MorePaysMore(c.minSize, |s.inserted[s.cut..]|, |s.inserted|);
    }
  }

  lemma MorePaysMore(cost: nat, some: nat, all: nat)
    requires some <= all
    ensures cost * some <= cost * all
  {
  }

  // ---- When delivery follows flush order ------------------------------------------------

  ghost predicate InFlushOrder<L>(delivered: seq<Flush<L>>) {
    forall i, j :: 0 <= i < j < |delivered| ==> delivered[i].place < delivered[j].place
  }

  predicate Delivers<L>(s: System<L>, a: Action<L>) {
    (a.Deliver? && PhaseOf(s, a.t).Delivering?) || (a.DeliverEmpty? && PhaseOf(s, a.t).Emptying?)
  }

  ghost predicate OwedBefore<L>(s: System<L>, place: nat) {
    exists u: nat :: Debt(PhaseOf(s, u)).Some? && Debt(PhaseOf(s, u)).value.place < place
  }

  /** The step hands a store to the action while some thread has yet to hand on one flushed earlier. */
  ghost predicate Overtakes<L>(s: System<L>, a: Action<L>) {
    Delivers(s, a) && OwedBefore(s, PhaseOf(s, a.t).flush.place)
  }

  ghost predicate NoneOvertakes<L>(c: Config, s: System<L>, actions: seq<Action<L>>) {
    actions == [] ||
    (NoneOvertakes(c, s, actions[..|actions| - 1])
     && !Overtakes(Run(c, s, actions[..|actions| - 1]), actions[|actions| - 1]))
  }

  /** In flush order so far, and everything handed on comes before everything owed. */
  ghost predicate Ordered<L(!new)>(s: System<L>) {
    && InFlushOrder(s.delivered)
    && forall f, t: nat :: f in s.delivered && Debt(PhaseOf(s, t)).Some? ==> f.place < Debt(PhaseOf(s, t)).value.place
  }

  lemma OrderAfterFlush<L(!new)>(s: System<L>, after: System<L>, t: nat)
    requires DeliveryInv(s) && Debt(PhaseOf(s, t)).None?
    requires after.delivered == s.delivered
    requires forall u: nat :: u != t ==> PhaseOf(after, u) == PhaseOf(s, u)
    requires Debt(PhaseOf(after, t)) == Some(NextFlush(s)) || Debt(PhaseOf(after, t)).None?
    ensures Ordered(after) <==> Ordered(s)
  {
    assert forall f :: f in s.delivered ==> IsFlush(s, f);
    if !Ordered(s) && InFlushOrder(s.delivered) {
      var f, u: nat :| f in s.delivered && Debt(PhaseOf(s, u)).Some? && f.place >= Debt(PhaseOf(s, u)).value.place;
      assert PhaseOf(after, u) == PhaseOf(s, u);
    }
  }

  lemma OrderAfterDelivery<L(!new)>(s: System<L>, after: System<L>, t: nat, f: Flush<L>)
    requires DeliveryInv(s) && Debt(PhaseOf(s, t)) == Some(f)
    requires after.delivered == s.delivered + [f] && Debt(PhaseOf(after, t)).None?
    requires forall u: nat :: u != t ==> PhaseOf(after, u) == PhaseOf(s, u)
    ensures Ordered(after) <==> Ordered(s) && !OwedBefore(s, f.place)
  {
    if Ordered(s) && !OwedBefore(s, f.place) {
      forall u: nat | Debt(PhaseOf(after, u)).Some? ensures f.place < Debt(PhaseOf(after, u)).value.place {
        OtherPlace(s, t, u);
      }
    } else if Ordered(s) {
      var u: nat :| Debt(PhaseOf(s, u)).Some? && Debt(PhaseOf(s, u)).value.place < f.place;
      assert f in after.delivered && PhaseOf(after, u) == PhaseOf(s, u);
    } else {
      DisorderPersists(s, after, t, f);
    }
  }

  lemma OtherPlace<L(!new)>(s: System<L>, t: nat, u: nat)
    requires DeliveryInv(s) && t != u && Debt(PhaseOf(s, t)).Some? && Debt(PhaseOf(s, u)).Some?
    ensures Debt(PhaseOf(s, t)).value.place != Debt(PhaseOf(s, u)).value.place
  {
    assert IsFlush(s, Debt(PhaseOf(s, t)).value) && IsFlush(s, Debt(PhaseOf(s, u)).value);
  }

  lemma DisorderPersists<L(!new)>(s: System<L>, after: System<L>, t: nat, f: Flush<L>)
    requires !Ordered(s) && Debt(PhaseOf(s, t)) == Some(f) && after.delivered == s.delivered + [f]
    requires forall u: nat :: u != t ==> PhaseOf(after, u) == PhaseOf(s, u)
    ensures !Ordered(after)
  {
    var n := |s.delivered|;
    if !InFlushOrder(s.delivered) {
      var i, j :| 0 <= i < j < n && s.delivered[i].place >= s.delivered[j].place;
      assert after.delivered[i] == s.delivered[i] && after.delivered[j] == s.delivered[j];
    } else {
      var d, u: nat :| d in s.delivered && Debt(PhaseOf(s, u)).Some? && d.place >= Debt(PhaseOf(s, u)).value.place;
      if u == t {
        var i :| 0 <= i < n && s.delivered[i] == d;
        assert after.delivered[i] == d && after.delivered[n] == f;
      } else {
        assert d in after.delivered && PhaseOf(after, u) == PhaseOf(s, u);
      }
    }
  }

  lemma OrderStep<L(!new)>(c: Config, s: System<L>, a: Action<L>)
    requires DeliveryInv(s)
    ensures Ordered(Next(c, s, a)) <==> Ordered(s) && !Overtakes(s, a)
  {
    var after, p := Next(c, s, a), PhaseOf(s, a.t);
    OthersKeepPhase(c, s, a);
    if Delivers(s, a) {
      OrderAfterDelivery(s, after, a.t, p.flush);
    } else if after.flushes != s.flushes {
      OrderAfterFlush(s, after, a.t);
    } else {
      assert forall u: nat :: Debt(PhaseOf(after, u)) == Debt(PhaseOf(s, u));
      assert after.delivered == s.delivered;
    }
  }

  lemma {:induction false} OrderOfRun<L(!new)>(c: Config, s: System<L>, actions: seq<Action<L>>)
    requires Inv(c, s) && Ordered(s)
    ensures Ordered(Run(c, s, actions)) <==> NoneOvertakes(c, s, actions)
  {
    if actions != [] {
      var init := actions[..|actions| - 1];
      OrderOfRun(c, s, init);
      RunsKeepInv(c, s, init);
      OrderStep(c, Run(c, s, init), actions[|actions| - 1]);
    }
  }

  /** Once all threads are done, the stores were handed on in flush order exactly when no step handed one on while
      another thread still owed an earlier one. */
  lemma DeliveredInFlushOrder<L(!new)>(c: Config, actions: seq<Action<L>>)
    requires forall t: nat :: PhaseOf(Run(c, Initial<L>(), actions), t).Idle?
    ensures InFlushOrder(Run(c, Initial<L>(), actions).delivered) <==> NoneOvertakes(c, Initial<L>(), actions)
  {
    InitialInv<L>(c);
    OrderOfRun(c, Initial<L>(), actions);
  }

  // ---- One put by itself ----------------------------------------------------------------

  lemma {:induction false} RunConcat<L(!new)>(c: Config, s: System<L>, a: seq<Action<L>>, b: seq<Action<L>>)
    ensures Run(c, s, a + b) == Run(c, Run(c, s, a), b)
  {
    if b == [] {
      assert a + b == a;
    } else {
      RunConcat(c, s, a, b[..|b| - 1]);
      assert (a + b)[..|a + b| - 1] == a + b[..|b| - 1];
    }
  }

  lemma RunSnoc<L(!new)>(c: Config, s: System<L>, actions: seq<Action<L>>, a: Action<L>)
    ensures Run(c, s, actions + [a]) == Next(c, Run(c, s, actions), a)
  {
  }

  function Insertions<L>(t: nat, n: nat): seq<Action<L>> {
    if n == 0 then [] else Insertions(t, n - 1) + [InsertOne(t)]
  }

  /** With the first `n` observations of a put in the buffer. */
  function SoFar<L>(s: System<L>, ts: seq<LabelledObservation<L>>, n: nat): System<L>
    requires n <= |ts|
  {
    s.(buffer := Plus(s.buffer, StoreOf(ts[..n])), inserted := s.inserted + ts[..n])
  }

  /** The system after thread `t` inserted the first `n` observations of its put. */
  function AfterInserts<L>(s: System<L>, t: nat, ts: seq<LabelledObservation<L>>, n: nat): System<L>
    requires n <= |ts|
  {
    At(SoFar(s, ts, n), t, Inserting(ts[n..], |ts|))
  }

  lemma AtTwice<L(!new)>(s: System<L>, t: nat, p: Phase<L>, q: Phase<L>)
    ensures At(At(s, t, p), t, q) == At(s, t, q)
  {
  }

  /** One observation more is in. */
  function Grown<L>(s: System<L>, o: LabelledObservation<L>): System<L> {
    s.(buffer := Extended(s.buffer, o.tag, [Unlabelled(o)]), inserted := s.inserted + [o])
  }

  lemma InsertNext<L(!new)>(c: Config, s: System<L>, t: nat, o: LabelledObservation<L>,
                            rest: seq<LabelledObservation<L>>, size: nat)
    ensures Next(c, At(s, t, Inserting([o] + rest, size)), InsertOne(t)) == At(Grown(s, o), t, Inserting(rest, size))
  {
    var before := At(s, t, Inserting([o] + rest, size));
    assert PhaseOf(before, t) == Inserting([o] + rest, size) && ([o] + rest)[1..] == rest;
    AtTwice(Grown(s, o), t, Inserting([o] + rest, size), Inserting(rest, size));
  }

  lemma PrefixNext<T>(x: seq<T>, ts: seq<T>, n: nat)
    requires n < |ts|
    ensures x + ts[..n] + [ts[n]] == x + ts[..n + 1]
    ensures ts[n..] == [ts[n]] + ts[n + 1..]
  {
  }

  lemma GrownWith<L(!new)>(s: System<L>, buffer: ObservationStore<L>, inserted: seq<LabelledObservation<L>>,
                           o: LabelledObservation<L>)
    ensures Grown(s.(buffer := buffer, inserted := inserted), o)
         == s.(buffer := Extended(buffer, o.tag, [Unlabelled(o)]), inserted := inserted + [o])
  {
  }

  lemma GrownSoFar<L(!new)>(s: System<L>, ts: seq<LabelledObservation<L>>, n: nat)
    requires n < |ts|
    ensures Grown(SoFar(s, ts, n), ts[n]) == SoFar(s, ts, n + 1)
  {
    PlusSnoc(s.buffer, ts, n);
    PrefixNext(s.inserted, ts, n);
    GrownWith(s, Plus(s.buffer, StoreOf(ts[..n])), s.inserted + ts[..n], ts[n]);
  }

  lemma InsertStep<L(!new)>(c: Config, s: System<L>, t: nat, ts: seq<LabelledObservation<L>>, n: nat)
    requires n < |ts|
    ensures Next(c, AfterInserts(s, t, ts, n), InsertOne(t)) == AfterInserts(s, t, ts, n + 1)
  {
    GrownSoFar(s, ts, n);
    PrefixNext(s.inserted, ts, n);
    InsertNext(c, SoFar(s, ts, n), t, ts[n], ts[n + 1..], |ts|);
  }

  lemma {:induction false} InsertsOneByOne<L(!new)>(c: Config, states: seq<System<L>>, t: nat, n: nat)
    requires n < |states| && forall k :: 0 <= k < n ==> Next(c, states[k], InsertOne(t)) == states[k + 1]
    ensures Run(c, states[0], Insertions(t, n)) == states[n]
  {
    if n > 0 {
      InsertsOneByOne(c, states, t, n - 1);
      RunSnoc(c, states[0], Insertions(t, n - 1), InsertOne(t));
    }
  }

  lemma InsertsInOrder<L(!new)>(c: Config, s: System<L>, t: nat, ts: seq<LabelledObservation<L>>)
    ensures Run(c, AfterInserts(s, t, ts, 0), Insertions(t, |ts|)) == AfterInserts(s, t, ts, |ts|)
  {
    var states := seq(|ts| + 1, (n: nat) requires n <= |ts| => AfterInserts(s, t, ts, n));
    forall k | 0 <= k < |ts| ensures Next(c, states[k], InsertOne(t)) == states[k + 1] {
      InsertStep(c, s, t, ts, k);
    }
    InsertsOneByOne(c, states, t, |ts|);
  }

  /** The steps of a put up to releasing the lock. */
  function LockedPut<L>(t: nat, ts: seq<LabelledObservation<L>>): seq<Action<L>> {
    [BeginPut(t, ts)] + Insertions(t, |ts|) + [Count(t), Check(t), Leave(t)]
  }

  lemma RunThree<L(!new)>(c: Config, s: System<L>, a: Action<L>, b: Action<L>, d: Action<L>)
    ensures Run(c, s, [a, b, d]) == Next(c, Next(c, Next(c, s, a), b), d)
  {
    assert [a, b, d][..2] == [a, b] && [a, b][..1] == [a] && [a][..0] == [];
    assert Run(c, s, [a]) == Next(c, s, a);
    assert Run(c, s, [a, b]) == Next(c, Next(c, s, a), b);
  }

  lemma PutEnds<L(!new)>(c: Config, s: System<L>, t: nat, size: nat)
    requires PhaseOf(s, t) == Inserting([], size)
    ensures var end := Next(c, Next(c, Next(c, s, Count(t)), Check(t)), Leave(t));
      && end.owner.None? && end.memoryLowerBound == s.memoryLowerBound + c.minSize * size
      && end.inserted == s.inserted && end.puts == s.puts && end.delivered == s.delivered
      && (forall u: nat :: u != t ==> PhaseOf(end, u) == PhaseOf(s, u))
      && if end.memoryLowerBound > c.memoryThreshold
         then && end.buffer == map[] && end.flushes == s.flushes + [s.buffer]
              && PhaseOf(end, t) == if s.buffer == map[] then Idle else Delivering(NextFlush(s))
         else end.buffer == s.buffer && end.flushes == s.flushes && PhaseOf(end, t) == Idle
  {
  }

  lemma PutBegins<L(!new)>(c: Config, s: System<L>, t: nat, ts: seq<LabelledObservation<L>>)
    requires s.owner.None? && PhaseOf(s, t).Idle?
    ensures Next(c, s, BeginPut(t, ts)) == AfterInserts(s.(owner := Some(t), puts := s.puts + [ts]), t, ts, 0)
  {
    PlusEmpty(s.buffer);
    Joined(s.inserted, [], []);
    assert ts[..0] == [] && ts[0..] == ts;
  }

  lemma LockedPutRuns<L(!new)>(c: Config, s: System<L>, t: nat, ts: seq<LabelledObservation<L>>)
    requires s.owner.None? && PhaseOf(s, t).Idle?
    ensures var filled := AfterInserts(s.(owner := Some(t), puts := s.puts + [ts]), t, ts, |ts|);
      Run(c, s, LockedPut(t, ts)) == Next(c, Next(c, Next(c, filled, Count(t)), Check(t)), Leave(t))
  {
    PutBegins(c, s, t, ts);
    var acts := [BeginPut(t, ts)];
    assert acts[..0] == [] && Run(c, s, acts) == Next(c, s, acts[0]);
    RunConcat(c, s, acts, Insertions(t, |ts|));
    InsertsInOrder(c, s.(owner := Some(t), puts := s.puts + [ts]), t, ts);
    RunConcat(c, s, acts + Insertions(t, |ts|), [Count(t), Check(t), Leave(t)]);
    RunThree(c, Run(c, s, acts + Insertions(t, |ts|)), Count(t), Check(t), Leave(t));
  }

  /** What one put does to the bucket, up to releasing the lock: as in `ObservationBucket.Put`, the thread being
      left to deliver exactly when a store with data was flushed. */
  ghost predicate PutDone<L>(c: Config, s: System<L>, end: System<L>, t: nat, ts: seq<LabelledObservation<L>>) {
    var held := Plus(s.buffer, StoreOf(ts));
    && end.owner.None? && end.memoryLowerBound == s.memoryLowerBound + c.minSize * |ts|
    && end.inserted == s.inserted + ts && end.puts == s.puts + [ts] && end.delivered == s.delivered
    && (forall u: nat :: u != t ==> PhaseOf(end, u) == PhaseOf(s, u))
    && if end.memoryLowerBound > c.memoryThreshold
       then && end.buffer == map[] && end.flushes == s.flushes + [held]
            && PhaseOf(end, t) == if held == map[] then Idle else Delivering(Flush(|s.flushes|, held))
       else end.buffer == held && end.flushes == s.flushes && PhaseOf(end, t) == Idle
  }

  lemma PutAlone<L(!new)>(c: Config, s: System<L>, t: nat, ts: seq<LabelledObservation<L>>)
    requires s.owner.None? && PhaseOf(s, t).Idle?
    ensures PutDone(c, s, Run(c, s, LockedPut(t, ts)), t, ts)
  {
    LockedPutRuns(c, s, t, ts);
    var filled := AfterInserts(s.(owner := Some(t), puts := s.puts + [ts]), t, ts, |ts|);
    assert ts[..|ts|] == ts && ts[|ts|..] == [];
    PutEnds(c, filled, t, |ts|);
  }

  /** An empty nobody interleaves hands on what is buffered, as `ObservationBucket.Empty` does, and nothing else
      changes. */
  lemma EmptyAlone<L(!new)>(c: Config, s: System<L>, t: nat)
    requires s.owner.None? && PhaseOf(s, t).Idle?
    ensures var end := Run(c, s, [BeginEmpty(t), DeliverEmpty(t), EndEmpty(t)]);
      && end.owner.None? && end.buffer == map[] && end.memoryLowerBound == s.memoryLowerBound
      && end.flushes == s.flushes + [s.buffer] && end.delivered == s.delivered + [Flush(|s.flushes|, s.buffer)]
      && end.inserted == s.inserted && end.puts == s.puts && forall u: nat :: PhaseOf(end, u) == PhaseOf(s, u)
  {
    RunThree(c, s, BeginEmpty(t), DeliverEmpty(t), EndEmpty(t));
  }

  lemma Overtaken<L(!new)>(c: Config, s: System<L>, f: Flush<L>, g: Flush<L>)
    requires PhaseOf(s, 0) == Delivering(f) && PhaseOf(s, 1) == Delivering(g)
    ensures var end := Run(c, s, [Deliver(1), Deliver(0)]);
      end.delivered == s.delivered + [g, f] && end.flushes == s.flushes
  {
    var last: seq<Action<L>> := [Deliver(1), Deliver(0)];
    assert last[..1] == [Deliver(1)] && last[..1][..0] == [];
    assert Run(c, s, last[..1]) == Next(c, s, Deliver(1));
  }

  /** Flush order is not delivery order: a thread may be overtaken between releasing the lock and running the
      action, and the second put's data then reaches the sink first. */
  lemma LaterFlushMayArriveFirst<L(!new)>(a: LabelledObservation<L>, b: LabelledObservation<L>)
    ensures var end := Run(Config(1, 0), Initial(), LockedPut(0, [a]) + LockedPut(1, [b]) + [Deliver(1), Deliver(0)]);
      && end.flushes == [StoreOf([a]), StoreOf([b])]
      && end.delivered == [Flush(1, StoreOf([b])), Flush(0, StoreOf([a]))]
  {
    var c, s := Config(1, 0), Initial<L>();
    var first := Run(c, s, LockedPut(0, [a]));
    var second := Run(c, first, LockedPut(1, [b]));
    OnePutOver(c, s, first, 0, a);
    OnePutOver(c, first, second, 1, b);
    RunConcat(c, s, LockedPut(0, [a]), LockedPut(1, [b]));
    RunConcat(c, s, LockedPut(0, [a]) + LockedPut(1, [b]), [Deliver(1), Deliver(0)]);
    Overtaken(c, second, Flush(0, StoreOf([a])), Flush(1, StoreOf([b])));
  }

  lemma OnePutOver<L(!new)>(c: Config, s: System<L>, end: System<L>, t: nat, o: LabelledObservation<L>)
    requires c == Config(1, 0) && s.owner.None? && PhaseOf(s, t).Idle? && s.buffer == map[]
    requires end == Run(c, s, LockedPut(t, [o]))
    ensures end.owner.None? && end.buffer == map[] && end.delivered == s.delivered
    ensures end.flushes == s.flushes + [StoreOf([o])] && PhaseOf(end, t) == Delivering(Flush(|s.flushes|, StoreOf([o])))
    ensures forall u: nat :: u != t ==> PhaseOf(end, u) == PhaseOf(s, u)
  {
    PutAlone(c, s, t, [o]);
    PlusEmpty(StoreOf([o]));
    assert o.tag in StoreOf([o]);
  }
}
