/** Grouping query results by entity type with one shared list: src/reporter/query_NTNE1A.py and
    src/reporter/query_NTNENA.py. */
module ByType {
  import opened Sequences
  import opened Grouping

  // ---- The loop -------------------------------------------------------------------------

  /** A Python list, shared by reference. */
  class EntityList<T> {
    var items: seq<T>

    constructor (item: T)
      ensures items == [item]
    {
      items := [item];
    }

    method Append(item: T)
      modifies this
      ensures items == old(items) + [item]
    {
      items := items + [item];
    }
  }

  /** A list of dictionaries, each with a type and a list of entities: the types, and the lists. */
  function Contents<K, T>(types: seq<K>, lists: seq<EntityList<T>>): (groups: seq<Group<K, T>>)
    requires |types| == |lists|
    reads lists
    ensures |groups| == |lists|
    ensures forall i :: 0 <= i < |lists| ==> groups[i] == Group(types[i], lists[i].items)
  {
    if lists == [] then []
    else
      var last := |lists| - 1;
      Contents(types[..last], lists[..last]) + [Group(types[last], lists[last].items)]
  }

  /** What the loop makes of a list: an element of a type seen before goes to the newest group, and the group then
      takes that type. */
  function Looped<K(==), T>(key: T -> K, es: seq<T>): (groups: seq<Group<K, T>>)
    ensures |groups| == |FirstKeys(key, es)|
  {
    if es == [] then []
    else
      var init, e := es[..|es| - 1], es[|es| - 1];
      var before, k := Looped(key, init), key(e);
      if k in FirstKeys(key, init)
      then before[..|before| - 1] + [Group(k, before[|before| - 1].members + [e])]
      else before + [Group(k, [e])]
  }

  /** Adding the next element to what the loop made so far. */
  function Joined<K(==), T>(before: seq<Group<K, T>>, seen: seq<K>, k: K, e: T): seq<Group<K, T>> {
    if k in seen && before != []
    then before[..|before| - 1] + [Group(k, before[|before| - 1].members + [e])]
    else before + [Group(k, [e])]
  }

  lemma LoopedSnoc<K, T>(key: T -> K, es: seq<T>, i: nat)
    requires i < |es|
    ensures Looped(key, es[..i + 1]) == Joined(Looped(key, es[..i]), FirstKeys(key, es[..i]), key(es[i]), es[i])
    ensures FirstKeys(key, es[..i + 1])
         == FirstKeys(key, es[..i]) + if key(es[i]) in FirstKeys(key, es[..i]) then [] else [key(es[i])]
  {
    assert es[..i + 1][..i] == es[..i];
  }

  method StartGroup<K, T>(types: seq<K>, lists: seq<EntityList<T>>, k: K, e: T) returns (list: EntityList<T>)
    requires |types| == |lists|
    ensures fresh(list) && Contents(types + [k], lists + [list]) == Contents(types, lists) + [Group(k, [e])]
  {
    list := new EntityList<T>(e);
    var after := Contents(types + [k], lists + [list]);
    assert forall i :: 0 <= i < |lists| ==> after[i] == Contents(types, lists)[i];
  }

  /** The newest group gets the element and its type. */
  method GrowLast<K, T>(types: seq<K>, lists: seq<EntityList<T>>, k: K, e: T)
    requires |types| == |lists| > 0
    requires forall i :: 0 <= i < |lists| - 1 ==> lists[i] != lists[|lists| - 1]
    modifies lists[|lists| - 1]
    ensures var last := |lists| - 1;
      Contents(types[..last] + [k], lists) == old(Contents(types, lists))[..last]
        + [Group(k, old(lists[last].items) + [e])]
  {
    var last := |lists| - 1;
    lists[last].Append(e);
  }

  lemma DistinctAppend<T>(xs: seq<T>, x: T)
    requires Distinct(xs) && x !in xs
    ensures Distinct(xs + [x])
  {
    assert forall i :: 0 <= i < |xs| ==> xs[i] in xs;
  }

  method AddEntity<K(==), T>(types: seq<K>, lists: seq<EntityList<T>>, seen: seq<K>, k: K, e: T)
    returns (moreTypes: seq<K>, moreLists: seq<EntityList<T>>)
    requires |types| == |lists| == |seen| && Distinct(lists)
    modifies lists
    ensures |moreTypes| == |moreLists| && Distinct(moreLists)
    ensures |moreLists| == |seen| + if k in seen then 0 else 1
    ensures forall i :: 0 <= i < |moreLists| ==> moreLists[i] in lists || fresh(moreLists[i])
    ensures Contents(moreTypes, moreLists) == Joined(old(Contents(types, lists)), seen, k, e)
  {
    if k !in seen {
      var entityValue := StartGroup(types, lists, k, e);
      DistinctAppend(lists, entityValue);
      moreTypes, moreLists := types + [k], lists + [entityValue];
    } else {
      GrowLast(types, lists, k, e);
      moreTypes, moreLists := types[..|types| - 1] + [k], lists;
    }
  }

  ghost predicate Made<K, T>(key: T -> K, es: seq<T>, types: seq<K>, lists: seq<EntityList<T>>, seen: seq<K>)
    reads lists
  {
    && |types| == |lists| == |seen| && Distinct(lists) && seen == FirstKeys(key, es)
    && Contents(types, lists) == Looped(key, es)
  }

  method AddNext<K(==), T>(key: T -> K, es: seq<T>, types: seq<K>, lists: seq<EntityList<T>>, seen: seq<K>)
    returns (moreTypes: seq<K>, moreLists: seq<EntityList<T>>, nowSeen: seq<K>)
    requires es != [] && Made(key, es[..|es| - 1], types, lists, seen)
    modifies lists
    ensures Made(key, es, moreTypes, moreLists, nowSeen)
    ensures forall i :: 0 <= i < |moreLists| ==> moreLists[i] in lists || fresh(moreLists[i])
  {
    var k := key(es[|es| - 1]);
    assert es[..|es|] == es;
    LoopedSnoc(key, es, |es| - 1);
    moreTypes, moreLists := AddEntity(types, lists, seen, k, es[|es| - 1]);
    nowSeen := if k in seen then seen else seen + [k];
  }

  method GroupInLoop<K(==), T>(key: T -> K, es: seq<T>) returns (groups: seq<Group<K, T>>)
    ensures groups == Looped(key, es)
  {
    var types: seq<K> := [];
    var lists: seq<EntityList<T>> := [];
    var entityTypes: seq<K> := [];
    for i := 0 to |es|
      invariant Made(key, es[..i], types, lists, entityTypes)
      invariant forall a :: 0 <= a < |lists| ==> fresh(lists[a])
    {
      assert es[..i + 1][..i] == es[..i];
      types, lists, entityTypes := AddNext(key, es[..i + 1], types, lists, entityTypes);
    }
    assert es[..|es|] == es;
    groups := Contents(types, lists);
  }

  // ---- When the loop groups by type -----------------------------------------------------

  /** Equal keys stand together. */
  ghost predicate Contiguous<K, T>(key: T -> K, xs: seq<T>) {
    forall i, j, k :: 0 <= i < j < k < |xs| && key(xs[i]) == key(xs[k]) ==> key(xs[j]) == key(xs[i])
  }

  lemma MembersSnoc<K, T>(groups: seq<Group<K, T>>, g: Group<K, T>)
    ensures Flatten(Map(Members(), groups + [g])) == Flatten(Map(Members(), groups)) + g.members
  {
    var m := Members<K, T>();
    MapConcat(m, groups, [g]);
    assert Map(m, [g]) == [g.members];
    FlattenSnoc(Map(m, groups), g.members);
  }

  lemma JoinedFlat<K, T>(before: seq<Group<K, T>>, seen: seq<K>, k: K, e: T)
    ensures Flatten(Map(Members(), Joined(before, seen, k, e))) == Flatten(Map(Members(), before)) + [e]
  {
    if k in seen && before != [] {
      var init, last := before[..|before| - 1], before[|before| - 1];
      assert before == init + [last];
      MembersSnoc(init, last);
      MembersSnoc(init, Group(k, last.members + [e]));
    } else {
      MembersSnoc(before, Group(k, [e]));
    }
  }

  lemma LoopedAppend<K, T>(key: T -> K, es: seq<T>, e: T)
    ensures Looped(key, es + [e]) == Joined(Looped(key, es), FirstKeys(key, es), key(e), e)
  {
    assert (es + [e])[..|es|] == es && (es + [e])[..|es| + 1] == es + [e];
    LoopedSnoc(key, es + [e], |es|);
  }

  lemma LoopKeepsOneMore<K, T>(key: T -> K, es: seq<T>, e: T)
    requires Flatten(Map(Members(), Looped(key, es))) == es
    ensures Flatten(Map(Members(), Looped(key, es + [e]))) == es + [e]
  {
    LoopedAppend(key, es, e);
    JoinedFlat(Looped(key, es), FirstKeys(key, es), key(e), e);
  }

  /** Whatever the order of the types, the groups joined are the elements in order. */
  lemma {:induction false} LoopKeepsAll<K, T>(key: T -> K, es: seq<T>)
    ensures Flatten(Map(Members(), Looped(key, es))) == es
  {
    if es != [] {
      var init, e := es[..|es| - 1], es[|es| - 1];
      LoopKeepsAll(key, init);
      LoopKeepsOneMore(key, init, e);
      assert es == init + [e];
    }
  }

  /** A group starts with the first element of a type, goes on to the first of the next, and has the type of its last
      element. */
  ghost predicate RunOfElements<K, T>(key: T -> K, g: Group<K, T>, first: K) {
    g.members != [] && key(g.members[0]) == first && key(g.members[|g.members| - 1]) == g.key
  }

  lemma {:induction false} GroupsOfLoop<K, T>(key: T -> K, es: seq<T>, i: nat)
    requires i < |FirstKeys(key, es)|
    ensures RunOfElements(key, Looped(key, es)[i], FirstKeys(key, es)[i])
    ensures forall x :: x in Looped(key, es)[i].members ==> key(x) in FirstKeys(key, es)[..i + 1]
  {
    var init, e := es[..|es| - 1], es[|es| - 1];
    assert es == init + [e];
    LoopedAppend(key, init, e);
    FirstKeysSeen(key, init, e);
    var keys := FirstKeys(key, init);
    if i < |keys| {
      GroupsOfLoop(key, init, i);
      assert FirstKeys(key, es)[..i + 1] == keys[..i + 1];
      if i == |keys| - 1 { assert keys[..i + 1] == keys; }
    }
  }

  lemma ContiguousInit<K, T>(key: T -> K, xs: seq<T>, x: T)
    requires Contiguous(key, xs + [x])
    ensures Contiguous(key, xs)
    ensures forall y :: y in xs && key(y) == key(x) ==> key(xs[|xs| - 1]) == key(x)
  {
    var all := xs + [x];
    forall i, j, k | 0 <= i < j < k < |xs| && key(xs[i]) == key(xs[k]) ensures key(xs[j]) == key(xs[i]) {
      assert key(all[i]) == key(all[k]);
      assert key(all[j]) == key(all[i]);
    }
    forall y | y in xs && key(y) == key(x) ensures key(xs[|xs| - 1]) == key(x) {
      var i :| 0 <= i < |xs| && xs[i] == y;
      if i < |xs| - 1 {
        assert key(all[i]) == key(all[|xs|]);
        assert key(all[|xs| - 1]) == key(all[i]);
      }
    }
  }

  /** On contiguous elements the newest group is that of the last element. */
  lemma {:induction false} NewestKey<K, T>(key: T -> K, xs: seq<T>)
    requires Contiguous(key, xs) && xs != []
    ensures FirstKeys(key, xs) != [] && FirstKeys(key, xs)[|FirstKeys(key, xs)| - 1] == key(xs[|xs| - 1])
  {
    var init, x := xs[..|xs| - 1], xs[|xs| - 1];
    assert xs == init + [x];
    FirstKeysSeen(key, init, x);
    if key(x) in FirstKeys(key, init) {
      NewestSeen(key, init, x);
      NewestKey(key, init);
    }
  }

  lemma NewestSeen<K, T>(key: T -> K, xs: seq<T>, x: T)
    requires Contiguous(key, xs + [x]) && key(x) in FirstKeys(key, xs)
    ensures xs != [] && Contiguous(key, xs) && key(xs[|xs| - 1]) == key(x)
  {
    ContiguousInit(key, xs, x);
    FirstKeysFacts(key, xs);
    var y :| y in xs && key(y) == key(x);
  }

  lemma MembersOfSnoc<K, T>(key: T -> K, xs: seq<T>, x: T, k: K)
    ensures MembersOf(key, xs + [x], k) ==
            Group(k, MembersOf(key, xs, k).members + if key(x) == k then [x] else [])
  {
    FilterSnoc(HasKey(key, k), xs, x);
  }

  lemma GroupBySeen<K, T>(key: T -> K, xs: seq<T>, x: T)
    requires FirstKeys(key, xs) != [] && FirstKeys(key, xs)[|FirstKeys(key, xs)| - 1] == key(x)
    ensures GroupBy(key, xs + [x]) == Joined(GroupBy(key, xs), FirstKeys(key, xs), key(x), x)
  {
    var keys, last := FirstKeys(key, xs), |FirstKeys(key, xs)| - 1;
    FirstKeysSeen(key, xs, x);
    FirstKeysFacts(key, xs);
    var g, h := GroupBy(key, xs), GroupBy(key, xs + [x]);
    forall i | 0 <= i < last ensures h[i] == g[i] {
      MembersOfSnoc(key, xs, x, keys[i]);
    }
    MembersOfSnoc(key, xs, x, keys[last]);
    assert h[last] == Group(key(x), g[last].members + [x]);
    AllButLast(g, h);
  }

  lemma AllButLast<T>(g: seq<T>, h: seq<T>)
    requires |g| == |h| > 0 && forall i :: 0 <= i < |g| - 1 ==> h[i] == g[i]
    ensures h == g[..|g| - 1] + [h[|h| - 1]]
  {
  }

  lemma OneMore<T>(g: seq<T>, h: seq<T>)
    requires |h| == |g| + 1 && forall i :: 0 <= i < |g| ==> h[i] == g[i]
    ensures h == g + [h[|g|]]
  {
  }

  lemma GroupByFresh<K, T>(key: T -> K, xs: seq<T>, x: T)
    requires key(x) !in FirstKeys(key, xs)
    ensures GroupBy(key, xs + [x]) == GroupBy(key, xs) + [Group(key(x), [x])]
  {
    var keys := FirstKeys(key, xs);
    FirstKeysSeen(key, xs, x);
    NoMembers(key, xs, key(x));
    var g, h := GroupBy(key, xs), GroupBy(key, xs + [x]);
    forall i | 0 <= i < |keys| ensures h[i] == g[i] {
      MembersOfSnoc(key, xs, x, keys[i]);
    }
    MembersOfSnoc(key, xs, x, key(x));
    assert [] + [x] == [x] && h[|keys|] == Group(key(x), [x]);
    OneMore(g, h);
  }

  /** On contiguous elements a step of the loop is a step of grouping. */
  lemma GroupStep<K, T>(key: T -> K, xs: seq<T>, x: T)
    requires Contiguous(key, xs + [x])
    ensures GroupBy(key, xs + [x]) == Joined(GroupBy(key, xs), FirstKeys(key, xs), key(x), x)
  {
    if key(x) in FirstKeys(key, xs) {
      NewestSeen(key, xs, x);
      NewestKey(key, xs);
      GroupBySeen(key, xs, x);
    } else {
      GroupByFresh(key, xs, x);
    }
  }

  lemma {:induction false} LoopOnContiguous<K, T>(key: T -> K, es: seq<T>)
    requires Contiguous(key, es)
    ensures Looped(key, es) == GroupBy(key, es)
  {
    if es != [] {
      var init, e := es[..|es| - 1], es[|es| - 1];
      assert es == init + [e] && es[..|es|] == es;
      ContiguousInit(key, init, e);
      LoopOnContiguous(key, init);
      LoopedSnoc(key, es, |init|);
      GroupStep(key, init, e);
    }
  }

  lemma ContiguousAppend<K, T>(key: T -> K, a: seq<T>, b: seq<T>, k: K)
    requires Contiguous(key, a)
    requires forall x :: x in a ==> key(x) != k
    requires forall x :: x in b ==> key(x) == k
    ensures Contiguous(key, a + b)
  {
  }

  /** Blocks of one key each, no key twice, make a contiguous whole. */
  lemma {:induction false} BlocksAreContiguous<K, T>(key: T -> K, keys: seq<K>, blocks: seq<seq<T>>)
    requires |keys| == |blocks| && Distinct(keys)
    requires forall i :: 0 <= i < |blocks| ==> forall x :: x in blocks[i] ==> key(x) == keys[i]
    ensures Contiguous(key, Flatten(blocks))
    ensures forall x :: x in Flatten(blocks) ==> key(x) in keys
  {
    if blocks != [] {
      var last := |blocks| - 1;
      BlocksAreContiguous(key, keys[..last], blocks[..last]);
      assert blocks == blocks[..last] + [blocks[last]] && keys == keys[..last] + [keys[last]];
      FlattenSnoc(blocks[..last], blocks[last]);
      assert keys[last] !in keys[..last];
      ContiguousAppend(key, Flatten(blocks[..last]), blocks[last], keys[last]);
    }
  }

  /** The loop gives one group a type, types in first-occurrence order, exactly when the elements come contiguous by
      type. */
  lemma LoopGroupsIffContiguous<K, T>(key: T -> K, es: seq<T>)
    ensures Looped(key, es) == GroupBy(key, es) <==> Contiguous(key, es)
  {
    if Looped(key, es) == GroupBy(key, es) {
      LoopKeepsAll(key, es);
      FirstKeysFacts(key, es);
      var keys, groups := FirstKeys(key, es), GroupBy(key, es);
      forall i | 0 <= i < |groups| ensures forall x :: x in groups[i].members ==> key(x) == keys[i] {
        FilterMembers(HasKey(key, keys[i]), es);
      }
      BlocksAreContiguous(key, keys, Map(Members(), groups));
    }
    if Contiguous(key, es) {
      LoopOnContiguous(key, es);
    }
  }

  lemma {:induction false} FirstWithKey<K, T>(key: T -> K, xs: seq<T>, k: K) returns (m: nat)
    requires exists x :: x in xs && key(x) == k
    ensures m < |xs| && key(xs[m]) == k && forall i :: 0 <= i < m ==> key(xs[i]) != k
  {
    if key(xs[0]) == k {
      m := 0;
    } else {
      assert xs == [xs[0]] + xs[1..];
      m := FirstWithKey(key, xs[1..], k);
      m := m + 1;
    }
  }

  lemma ContiguousTake<K, T>(key: T -> K, xs: seq<T>, m: nat)
    requires Contiguous(key, xs) && m <= |xs|
    ensures Contiguous(key, xs[..m])
  {
  }

  /** Filtering keeps equal keys together. */
  lemma {:induction false} FilterKeepsContiguity<K, T>(key: T -> K, keep: T -> bool, xs: seq<T>)
    requires Contiguous(key, xs)
    ensures Contiguous(key, Filter(keep, xs))
    decreases |xs|
  {
    if xs != [] {
      var k, last := key(xs[|xs| - 1]), |xs| - 1;
      assert xs[last] in xs;
      var m := FirstWithKey(key, xs, k);
      var a, b := xs[..m], xs[m..];
      forall j | m <= j < |xs| ensures key(xs[j]) == k {
        if m < j < last { assert key(xs[m]) == key(xs[last]); }
      }
      ContiguousTake(key, xs, m);
      FilterKeepsContiguity(key, keep, a);
      assert xs == a + b;
      FilterConcat(keep, a, b);
      FilterMembers(keep, a);
      FilterMembers(keep, b);
      ContiguousAppend(key, Filter(keep, a), Filter(keep, b), k);
    }
  }
}
