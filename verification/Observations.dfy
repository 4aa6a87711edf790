/** Observation stores and the buffer behind the telemetry bucket: src/server/telemetry/observation.py. */
module Observations {
  import opened Sequences

  datatype Observation = Observation(time: int, measurement: real)

  /** A labelled observation; the kind of label does not matter to any of what follows. */
  datatype LabelledObservation<L> = Labelled(time: int, measurement: real, tag: L)

  type Store<!K, V> = map<K, seq<V>>

  type ObservationStore<!L> = Store<L, Observation>

  function Unlabelled<L>(t: LabelledObservation<L>): Observation {
    Observation(t.time, t.measurement)
  }

  function Series<K(==), V>(s: Store<K, V>, k: K): seq<V> {
    if k in s then s[k] else []
  }

  function Extended<K(==), V>(s: Store<K, V>, k: K, obs: seq<V>): Store<K, V> {
    s[k := Series(s, k) + obs]
  }

  /** The store a list of observations builds, one after the other. */
  function StoreOf<L(==)>(ts: seq<LabelledObservation<L>>): ObservationStore<L> {
    if ts == [] then map[]
    else
      var t := ts[|ts| - 1];
      Extended(StoreOf(ts[..|ts| - 1]), t.tag, [Unlabelled(t)])
  }

  /** The documented sum of two stores: all keys, series joined. */
  function Plus<K(==), V>(a: Store<K, V>, b: Store<K, V>): (c: Store<K, V>)
    ensures c.Keys == a.Keys + b.Keys
  {
    map k | k in a.Keys + b.Keys :: Series(a, k) + Series(b, k)
  }

  function MergeAll<L(==)>(ts: seq<ObservationStore<L>>): ObservationStore<L> {
    if ts == [] then map[] else Plus(MergeAll(ts[..|ts| - 1]), ts[|ts| - 1])
  }

  // ---- Laws -----------------------------------------------------------------------------

  lemma PlusAssociates<K, V>(a: Store<K, V>, b: Store<K, V>, c: Store<K, V>)
    ensures Plus(Plus(a, b), c) == Plus(a, Plus(b, c))
  {
    var left, right := Plus(Plus(a, b), c), Plus(a, Plus(b, c));
    forall k | k in left ensures left[k] == right[k] {
      Joined(Series(a, k), Series(b, k), Series(c, k));
    }
  }

  lemma Joined<V>(x: seq<V>, y: seq<V>, z: seq<V>)
    ensures x + y + z == x + (y + z) && [] + x == x && x + [] == x
  {
  }

  lemma PlusEmpty<K, V>(a: Store<K, V>)
    ensures Plus(map[], a) == a && Plus(a, map[]) == a
  {
    forall k | k in a ensures [] + a[k] == a[k] && a[k] + [] == a[k] {
    }
  }

  lemma PlusOne<K, V>(a: Store<K, V>, b: Store<K, V>, k: K, obs: seq<V>)
    ensures Plus(a, Extended(b, k, obs)) == Extended(Plus(a, b), k, obs)
  {
    var left, right := Plus(a, Extended(b, k, obs)), Extended(Plus(a, b), k, obs);
    forall j | j in left ensures left[j] == right[j] {
      if j == k {
        Joined(Series(a, k), Series(b, k), obs);
      }
    }
  }

  /** Building a store from joined lists is summing the stores of the lists. */
  lemma {:induction false} StoreOfConcat<L>(a: seq<LabelledObservation<L>>, b: seq<LabelledObservation<L>>)
    ensures StoreOf(a + b) == Plus(StoreOf(a), StoreOf(b))
  {
    if b == [] {
      assert a + b == a;
      PlusEmpty(StoreOf(a));
    } else {
      var init, t := b[..|b| - 1], b[|b| - 1];
      StoreOfConcat(a, init);
      assert (a + b)[..|a + b| - 1] == a + init && (a + b)[|a + b| - 1] == t;
      PlusOne(StoreOf(a), StoreOf(init), t.tag, [Unlabelled(t)]);
    }
  }

  lemma MergeOneMore<L>(init: seq<seq<LabelledObservation<L>>>, last: seq<LabelledObservation<L>>)
    requires MergeAll(Map(Stores(), init)) == StoreOf(Flatten(init))
    ensures MergeAll(Map(Stores(), init + [last])) == StoreOf(Flatten(init + [last]))
  {
    MapAppend(Stores<L>(), init, last);
    MergeSnoc(Map(Stores<L>(), init), StoreOf(last));
    FlattenSnoc(init, last);
    StoreOfConcat(Flatten(init), last);
  }

  /** Merging the stores of the parts gives the store of the whole: order within each series is kept. */
  lemma {:induction false} MergeOfParts<L>(parts: seq<seq<LabelledObservation<L>>>)
    ensures MergeAll(Map(Stores(), parts)) == StoreOf(Flatten(parts))
  {
    if parts != [] {
      var init, last := parts[..|parts| - 1], parts[|parts| - 1];
      MergeOfParts(init);
      MergeOneMore(init, last);
      assert parts == init + [last];
    }
  }

  lemma MergeSnoc<L>(ts: seq<ObservationStore<L>>, t: ObservationStore<L>)
    ensures MergeAll(ts + [t]) == Plus(MergeAll(ts), t)
  {
  }

  function Stores<L(==)>(): seq<LabelledObservation<L>> -> ObservationStore<L> {
    (ts: seq<LabelledObservation<L>>) => StoreOf(ts)
  }

  /** The measurements under one label, in list order. */
  lemma {:induction false} SeriesOfStore<L>(ts: seq<LabelledObservation<L>>, tag: L)
    ensures Series(StoreOf(ts), tag)
         == Map(Unlabel(), Filter((t: LabelledObservation<L>) => t.tag == tag, ts))
    ensures tag in StoreOf(ts) <==> Filter((t: LabelledObservation<L>) => t.tag == tag, ts) != []
  {
    var has := (t: LabelledObservation<L>) => t.tag == tag;
    if ts != [] {
      var init, t := ts[..|ts| - 1], ts[|ts| - 1];
      SeriesOfStore(init, tag);
      assert ts == init + [t];
      FilterConcat(has, init, [t]);
      assert Filter(has, [t]) == if has(t) then [t] else [];
      MapConcat(Unlabel(), Filter(has, init), Filter(has, [t]));
    }
  }

  lemma PlusSnoc<L>(a: ObservationStore<L>, ts: seq<LabelledObservation<L>>, i: nat)
    requires i < |ts|
    ensures Plus(a, StoreOf(ts[..i + 1]))
         == Extended(Plus(a, StoreOf(ts[..i])), ts[i].tag, [Unlabelled(ts[i])])
  {
    assert ts[..i + 1][..i] == ts[..i];
    PlusOne(a, StoreOf(ts[..i]), ts[i].tag, [Unlabelled(ts[i])]);
  }

  function Unlabel<L>(): LabelledObservation<L> -> Observation {
    (t: LabelledObservation<L>) => Unlabelled(t)
  }

  // ---- The loops ------------------------------------------------------------------------

  method BuildStore<L(==)>(ts: seq<LabelledObservation<L>>) returns (store: ObservationStore<L>)
    ensures store == StoreOf(ts)
  {
    store := map[];
    for i := 0 to |ts|
      invariant store == StoreOf(ts[..i])
    {
      assert ts[..i + 1][..i] == ts[..i];
      store := Extended(store, ts[i].tag, [Unlabelled(ts[i])]);
    }
    assert ts[..|ts|] == ts;
  }

  /** The part of a store with the given labels. */
  ghost function Part<K, V>(s: Store<K, V>, keys: set<K>): Store<K, V> {
    map k | k in s && k in keys :: s[k]
  }

  lemma PlusPart<K, V>(a: Store<K, V>, b: Store<K, V>, keys: set<K>, k: K)
    requires k in b && k !in keys
    ensures Extended(Plus(a, Part(b, keys)), k, b[k]) == Plus(a, Part(b, keys + {k}))
  {
    assert [] + b[k] == b[k];
    assert Part(b, keys + {k}) == Extended(Part(b, keys), k, b[k]);
    PlusOne(a, Part(b, keys), k, b[k]);
  }

  lemma PartEnds<K, V>(a: Store<K, V>, b: Store<K, V>)
    ensures Plus(a, Part(b, {})) == a && Part(b, b.Keys) == b
  {
    assert Part(b, {}) == map[];
    PlusEmpty(a);
  }

  method MergeStore<L(==)>(store: ObservationStore<L>, t: ObservationStore<L>) returns (merged: ObservationStore<L>)
    ensures merged == Plus(store, t)
  {
    merged := store;
    var todo := t.Keys;
    PartEnds(store, t);
    assert t.Keys - todo == {};
    while todo != {}
      invariant todo <= t.Keys
      invariant merged == Plus(store, Part(t, t.Keys - todo))
    {
      var k :| k in todo;
      PlusPart(store, t, t.Keys - todo, k);
      assert t.Keys - (todo - {k}) == t.Keys - todo + {k};
      merged := Extended(merged, k, t[k]);
      todo := todo - {k};
    }
    assert t.Keys - {} == t.Keys;
  }

  method MergeStores<L(==)>(ts: seq<ObservationStore<L>>) returns (merged: ObservationStore<L>)
    ensures merged == MergeAll(ts)
  {
    merged := map[];
    for i := 0 to |ts|
      invariant merged == MergeAll(ts[..i])
    {
      assert ts[..i + 1][..i] == ts[..i];
      merged := MergeStore(merged, ts[i]);
    }
    assert ts[..|ts|] == ts;
  }

  /** A series as rows under one label. */
  function Tagged<L>(tag: L, obs: seq<Observation>): seq<LabelledObservation<L>> {
    if obs == [] then []
    else
      var o := obs[|obs| - 1];
      Tagged(tag, obs[..|obs| - 1]) + [Labelled(o.time, o.measurement, tag)]
  }

  /** The rows of a store whose dictionary lists its labels as in `keys`. */
  function Rows<L(==)>(store: ObservationStore<L>, keys: seq<L>): seq<LabelledObservation<L>> {
    if keys == [] then []
    else
      var k := keys[|keys| - 1];
      Rows(store, keys[..|keys| - 1]) + Tagged(k, Series(store, k))
  }

  lemma TaggedAt<L>(tag: L, obs: seq<Observation>, j: nat)
    requires j < |obs|
    ensures Tagged(tag, obs[..j + 1])
         == Tagged(tag, obs[..j]) + [Labelled(obs[j].time, obs[j].measurement, tag)]
  {
    assert obs[..j + 1][..j] == obs[..j];
  }

  lemma RowsAt<L>(store: ObservationStore<L>, keys: seq<L>, i: nat)
    requires i < |keys|
    ensures Rows(store, keys[..i + 1]) == Rows(store, keys[..i]) + Tagged(keys[i], Series(store, keys[i]))
  {
    assert keys[..i + 1][..i] == keys[..i];
  }

  method TabulateSeries<L(==)>(tag: L, obs: seq<Observation>, start: seq<LabelledObservation<L>>)
    returns (rows: seq<LabelledObservation<L>>)
    ensures rows == start + Tagged(tag, obs)
  {
    rows := start;
    for j := 0 to |obs|
      invariant rows == start + Tagged(tag, obs[..j])
    {
      TaggedAt(tag, obs, j);
      var row := Labelled(obs[j].time, obs[j].measurement, tag);
      Joined(start, Tagged(tag, obs[..j]), [row]);
      rows := rows + [row];
    }
    assert obs[..|obs|] == obs;
  }

  method Tabulate<L(==)>(store: ObservationStore<L>, keys: seq<L>) returns (rows: seq<LabelledObservation<L>>)
    ensures rows == Rows(store, keys)
  {
    rows := [];
    for i := 0 to |keys|
      invariant rows == Rows(store, keys[..i])
    {
      RowsAt(store, keys, i);
      rows := TabulateSeries(keys[i], Series(store, keys[i]), rows);
    }
    assert keys[..|keys|] == keys;
  }

  lemma StoreOfSnoc<L>(ts: seq<LabelledObservation<L>>, t: LabelledObservation<L>)
    ensures StoreOf(ts + [t]) == Extended(StoreOf(ts), t.tag, [Unlabelled(t)])
  {
  }

  /** The store with one series, none if it is empty. */
  function Alone<L(==)>(tag: L, obs: seq<Observation>): ObservationStore<L> {
    if obs == [] then map[] else map[tag := obs]
  }

  lemma AloneGrows<L>(tag: L, obs: seq<Observation>, o: Observation)
    ensures Extended(Alone(tag, obs), tag, [o]) == Alone(tag, obs + [o])
  {
  }

  lemma {:induction false} StoreOfSeries<L>(tag: L, obs: seq<Observation>)
    ensures StoreOf(Tagged(tag, obs)) == Alone(tag, obs)
  {
    if obs != [] {
      var init, o := obs[..|obs| - 1], obs[|obs| - 1];
      assert obs == init + [o];
      StoreOfSeries(tag, init);
      SeriesOneMore(tag, init, o, obs);
    }
  }

  lemma SeriesOneMore<L>(tag: L, init: seq<Observation>, o: Observation, obs: seq<Observation>)
    requires obs == init + [o] && StoreOf(Tagged(tag, init)) == Alone(tag, init)
    ensures StoreOf(Tagged(tag, obs)) == Alone(tag, obs)
  {
    var row := Labelled(o.time, o.measurement, tag);
    calc {
      StoreOf(Tagged(tag, obs));
    == { assert obs[..|obs| - 1] == init; }
      StoreOf(Tagged(tag, init) + [row]);
    == { StoreOfSnoc(Tagged(tag, init), row); }
      Extended(Alone(tag, init), tag, [o]);
    == { AloneGrows(tag, init, o); }
      Alone(tag, obs);
    }
  }

  /** The non-empty series of a store under the given labels. */
  function Kept<L(==)>(store: ObservationStore<L>, keys: seq<L>): ObservationStore<L> {
    map k | k in keys && Series(store, k) != [] :: Series(store, k)
  }

  lemma RowsSnoc<L>(store: ObservationStore<L>, init: seq<L>, k: L)
    ensures Rows(store, init + [k]) == Rows(store, init) + Tagged(k, Series(store, k))
  {
    assert (init + [k])[..|init|] == init;
  }

  lemma KeptSnoc<L>(store: ObservationStore<L>, init: seq<L>, k: L)
    requires k !in init
    ensures Kept(store, init + [k]) == Plus(Kept(store, init), Alone(k, Series(store, k)))
  {
    var before, obs := Kept(store, init), Series(store, k);
    if obs == [] {
      PlusEmpty(before);
    } else {
      JoinOne(before, k, obs);
    }
  }

  /** Tabulating a store and building it again gives the same store, whatever order the labels come in;
      a label with an empty series is the one thing lost. */
  lemma {:induction false} TabulateRoundTrip<L>(store: ObservationStore<L>, keys: seq<L>)
    requires Distinct(keys)
    ensures StoreOf(Rows(store, keys)) == Kept(store, keys)
  {
    if keys == [] {
      assert Kept(store, keys) == map[];
    } else {
      var init, k := keys[..|keys| - 1], keys[|keys| - 1];
      assert keys == init + [k] && k !in init;
      TabulateRoundTrip(store, init);
      TabulateOneMore(store, init, k, keys);
    }
  }

  lemma TabulateOneMore<L>(store: ObservationStore<L>, init: seq<L>, k: L, keys: seq<L>)
    requires keys == init + [k] && k !in init && StoreOf(Rows(store, init)) == Kept(store, init)
    ensures StoreOf(Rows(store, keys)) == Kept(store, keys)
  {
    var before, mine := Rows(store, init), Tagged(k, Series(store, k));
    calc {
      StoreOf(Rows(store, keys));
    == { RowsSnoc(store, init, k); }
      StoreOf(before + mine);
    == { StoreOfConcat(before, mine); }
      Plus(StoreOf(before), StoreOf(mine));
    == { StoreOfSeries(k, Series(store, k)); }
      Plus(Kept(store, init), Alone(k, Series(store, k)));
    == { KeptSnoc(store, init, k); }
      Kept(store, keys);
    }
  }

  lemma JoinOne<L>(a: ObservationStore<L>, k: L, obs: seq<Observation>)
    requires k !in a
    ensures Plus(a, map[k := obs]) == a[k := obs]
  {
    assert forall j :: j in a ==> a[j] + [] == a[j];
    assert [] + obs == obs;
  }

  // ---- ObservationBuffer and ObservationBucket ------------------------------------------

  class ObservationBuffer<L(==)> {
    const minSize: nat
    var store: ObservationStore<L>
    var memoryLowerBound: nat

    constructor (minSize: nat)
      ensures this.minSize == minSize && store == map[] && memoryLowerBound == 0
    {
      this.minSize := minSize;
      store, memoryLowerBound := map[], 0;
    }

    method Insert(ts: seq<LabelledObservation<L>>)
      modifies this
      ensures store == Plus(old(store), StoreOf(ts))
      ensures memoryLowerBound == old(memoryLowerBound) + minSize * |ts|
    {
      ghost var before := store;
      PlusEmpty(before);
      for i := 0 to |ts|
        invariant store == Plus(before, StoreOf(ts[..i])) && memoryLowerBound == old(memoryLowerBound)
      {
        PlusSnoc(before, ts, i);
        store := Extended(store, ts[i].tag, [Unlabelled(ts[i])]);
      }
      assert ts[..|ts|] == ts;
      memoryLowerBound := memoryLowerBound + minSize * |ts|;
    }

    /** Hands the store over; the memory estimate is left as it is. */
    method Flush() returns (s: ObservationStore<L>)
      modifies this
      ensures s == old(store) && store == map[] && memoryLowerBound == old(memoryLowerBound)
    {
      s := store;
      store := map[];
    }
  }

  /** The bucket as one thread sees it; `sink` is what the empty action was called with. */
  class ObservationBucket<L(==)> {
    const buffer: ObservationBuffer<L>
    const memoryThreshold: int
    var sink: seq<ObservationStore<L>>

    constructor (minSize: nat, memoryThreshold: int)
      ensures fresh(buffer) && buffer.minSize == minSize && this.memoryThreshold == memoryThreshold
      ensures buffer.store == map[] && buffer.memoryLowerBound == 0 && sink == []
    {
      buffer := new ObservationBuffer(minSize);
      this.memoryThreshold := memoryThreshold;
      sink := [];
    }

    method Put(ts: seq<LabelledObservation<L>>)
      modifies this, buffer
      ensures buffer.memoryLowerBound == old(buffer.memoryLowerBound) + buffer.minSize * |ts|
      ensures var held := Plus(old(buffer.store), StoreOf(ts));
        if buffer.memoryLowerBound > memoryThreshold
        then buffer.store == map[] && sink == (if held == map[] then old(sink) else old(sink) + [held])
        else buffer.store == held && sink == old(sink)
    {
      var flushed: ObservationStore<L> := map[];
      buffer.Insert(ts);
      if buffer.memoryLowerBound > memoryThreshold {
        flushed := buffer.Flush();
      }
      if flushed != map[] {
        sink := sink + [flushed];
      }
    }

    method Empty()
      modifies this, buffer
      ensures buffer.store == map[] && buffer.memoryLowerBound == old(buffer.memoryLowerBound)
      ensures sink == old(sink) + [old(buffer.store)]
    {
      var store := buffer.Flush();
      sink := sink + [store];
    }
  }
}
