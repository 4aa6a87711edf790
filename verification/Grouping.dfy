/** Grouping a sequence by a key, the way Python's insertion-ordered dictionaries do. */
module Grouping {
  import opened Sequences

  datatype Group<K, T> = Group(key: K, members: seq<T>)

  function HasKey<K(==), T>(key: T -> K, k: K): T -> bool {
    x => key(x) == k
  }

  /** The keys of `xs` in the order they first occur. */
  function FirstKeys<K(==), T>(key: T -> K, xs: seq<T>): seq<K> {
    if xs == [] then []
    else
      var keys := FirstKeys(key, xs[..|xs| - 1]);
      var k := key(xs[|xs| - 1]);
      if k in keys then keys else keys + [k]
  }

  lemma {:induction false} FirstKeysFacts<K, T>(key: T -> K, xs: seq<T>)
    ensures Distinct(FirstKeys(key, xs))
    ensures forall x :: x in xs ==> key(x) in FirstKeys(key, xs)
    ensures forall k :: k in FirstKeys(key, xs) ==> exists x :: x in xs && key(x) == k
  {
    if xs != [] {
      var init, last := xs[..|xs| - 1], xs[|xs| - 1];
      FirstKeysFacts(key, init);
      assert xs == init + [last];
      forall k | k in FirstKeys(key, xs) ensures exists x :: x in xs && key(x) == k {
        if k in FirstKeys(key, init) {
          var x :| x in init && key(x) == k;
          assert x in xs;
        } else {
          assert last in xs && key(last) == k;
        }
      }
    }
  }

  /** The keys come in the order they first occur: each occurs before any of the later ones does. */
  lemma {:induction false} FirstKeysInOrder<K, T>(key: T -> K, xs: seq<T>, p: nat, q: nat) returns (i: nat)
    requires p < q < |FirstKeys(key, xs)|
    ensures i < |xs| && key(xs[i]) == FirstKeys(key, xs)[p]
    ensures forall j :: 0 <= j <= i ==> key(xs[j]) != FirstKeys(key, xs)[q]
  {
    var init := xs[..|xs| - 1];
    var keys := FirstKeys(key, init);
    if q < |keys| {
      i := FirstKeysInOrder(key, init, p, q);
    } else {
      FirstKeysFacts(key, init);
      assert keys[p] in keys;
      var x :| x in init && key(x) == keys[p];
      i :| 0 <= i < |init| && init[i] == x;
      assert forall j :: 0 <= j <= i ==> init[j] in init;
    }
  }

  function MembersOf<K(==), T>(key: T -> K, xs: seq<T>, k: K): Group<K, T> {
    Group(k, Filter(HasKey(key, k), xs))
  }

  /** One group a key, keys in first-occurrence order, members in input order. */
  function GroupBy<K(==), T>(key: T -> K, xs: seq<T>): (groups: seq<Group<K, T>>)
    ensures |groups| == |FirstKeys(key, xs)|
    ensures forall i :: 0 <= i < |groups| ==> groups[i] == MembersOf(key, xs, FirstKeys(key, xs)[i])
  {
    var keys := FirstKeys(key, xs);
    seq(|keys|, i requires 0 <= i < |keys| => MembersOf(key, xs, keys[i]))
  }

  lemma FilterSnoc<T>(keep: T -> bool, xs: seq<T>, x: T)
    ensures Filter(keep, xs + [x]) == Filter(keep, xs) + if keep(x) then [x] else []
  {
    FilterConcat(keep, xs, [x]);
    assert Filter(keep, [x]) == if keep(x) then [x] else [];
  }

  lemma NoMembers<K, T>(key: T -> K, xs: seq<T>, k: K)
    requires k !in FirstKeys(key, xs)
    ensures Filter(HasKey(key, k), xs) == []
  {
    var ys := Filter(HasKey(key, k), xs);
    if ys != [] {
      var y := ys[0];
      assert y in ys;
      FirstKeysFacts(key, xs);
      FilterMembers(HasKey(key, k), xs);
      assert false;
    }
  }

  /** The dictionary after the first `i` elements. */
  ghost predicate Collected<K(!new), T>(key: T -> K, xs: seq<T>, keys: seq<K>, members: map<K, seq<T>>) {
    && keys == FirstKeys(key, xs)
    && (forall k :: k in members <==> k in keys)
    && (forall k :: k in members ==> members[k] == Filter(HasKey(key, k), xs))
  }

  lemma CollectedSnoc<K(!new), T>(key: T -> K, xs: seq<T>, x: T, keys: seq<K>, members: map<K, seq<T>>)
    requires Collected(key, xs, keys, members)
    ensures var k := key(x);
      Collected(key, xs + [x], if k in keys then keys else keys + [k],
                members[k := (if k in members then members[k] else []) + [x]])
  {
    assert (xs + [x])[..|xs|] == xs;
    forall k ensures Filter(HasKey(key, k), xs + [x])
                  == Filter(HasKey(key, k), xs) + if key(x) == k then [x] else [] {
      FilterSnoc(HasKey(key, k), xs, x);
    }
    if key(x) !in keys { NoMembers(key, xs, key(x)); }
  }

  /** `setdefault(key(x), []).append(x)` for every `x`. */
  method CollectGroups<K(==, !new), T>(key: T -> K, xs: seq<T>) returns (groups: seq<Group<K, T>>)
    ensures groups == GroupBy(key, xs)
  {
    var keys: seq<K> := [];
    var members: map<K, seq<T>> := map[];
    for i := 0 to |xs|
      invariant Collected(key, xs[..i], keys, members)
    {
      var x := xs[i];
      var k := key(x);
      CollectedSnoc(key, xs[..i], x, keys, members);
      assert xs[..i + 1] == xs[..i] + [x];
      if k !in members {
        keys, members := keys + [k], members[k := []];
      }
      members := members[k := members[k] + [x]];
    }
    assert xs[..|xs|] == xs;
    groups := seq(|keys|, i requires 0 <= i < |keys| => Group(keys[i], members[keys[i]]));
  }

  lemma FirstKeysSeen<K, T>(key: T -> K, xs: seq<T>, x: T)
    ensures FirstKeys(key, xs + [x]) == FirstKeys(key, xs) + if key(x) in FirstKeys(key, xs) then [] else [key(x)]
  {
  }

  function Members<K, T>(): Group<K, T> -> seq<T> {
    (g: Group<K, T>) => g.members
  }

  lemma {:induction false} FilterAll<T>(keep: T -> bool, xs: seq<T>)
    requires forall x :: x in xs ==> keep(x)
    ensures Filter(keep, xs) == xs
  {
    if xs != [] {
      assert xs[0] in xs && forall x :: x in xs[1..] ==> x in xs;
      FilterAll(keep, xs[1..]);
    }
  }

  lemma {:induction false} OneFirstKey<K, T>(key: T -> K, xs: seq<T>, k: K)
    requires xs != [] && forall x :: x in xs ==> key(x) == k
    ensures FirstKeys(key, xs) == [k]
  {
    var init := xs[..|xs| - 1];
    if init != [] {
      OneFirstKey(key, init, k);
    }
    assert xs[|xs| - 1] in xs;
  }

  lemma SingleGroup<K, T>(key: T -> K, xs: seq<T>, k: K)
    requires xs != [] && forall x :: x in xs ==> key(x) == k
    ensures GroupBy(key, xs) == [Group(k, xs)]
  {
    OneFirstKey(key, xs, k);
    FilterAll(HasKey(key, k), xs);
  }

  // ---- Grouping loses and adds nothing --------------------------------------------------

  function KeyIn<K(==), T>(key: T -> K, ks: seq<K>): T -> bool {
    x => key(x) in ks
  }

  function MembersFor<K(==), T>(key: T -> K, xs: seq<T>, ks: seq<K>): seq<T> {
    if ks == [] then [] else MembersFor(key, xs, ks[..|ks| - 1]) + Filter(HasKey(key, ks[|ks| - 1]), xs)
  }

  lemma {:induction false} FilterUnion<T>(p: T -> bool, q: T -> bool, r: T -> bool, xs: seq<T>)
    requires forall x :: x in xs ==> (r(x) <==> p(x) || q(x)) && !(p(x) && q(x))
    ensures multiset(Filter(r, xs)) == multiset(Filter(p, xs)) + multiset(Filter(q, xs))
  {
    if xs != [] {
      assert xs[0] in xs && forall x :: x in xs[1..] ==> x in xs;
      FilterUnion(p, q, r, xs[1..]);
    }
  }

  lemma {:induction false} MembersForAll<K, T>(key: T -> K, xs: seq<T>, ks: seq<K>)
    requires Distinct(ks)
    ensures multiset(MembersFor(key, xs, ks)) == multiset(Filter(KeyIn(key, ks), xs))
  {
    if ks == [] {
      NothingKept(KeyIn(key, ks), xs);
    } else {
      var init, k := ks[..|ks| - 1], ks[|ks| - 1];
      assert ks == init + [k] && k !in init;
      MembersForAll(key, xs, init);
      FilterUnion(KeyIn(key, init), HasKey(key, k), KeyIn(key, ks), xs);
    }
  }

  lemma {:induction false} NothingKept<T>(keep: T -> bool, xs: seq<T>)
    requires forall x :: x in xs ==> !keep(x)
    ensures Filter(keep, xs) == []
  {
    if xs != [] {
      assert xs[0] in xs && forall x :: x in xs[1..] ==> x in xs;
      NothingKept(keep, xs[1..]);
    }
  }

  lemma {:induction false} MembersOfGroups<K, T>(key: T -> K, xs: seq<T>, ks: seq<K>, groups: seq<Group<K, T>>)
    requires |groups| == |ks| && forall i :: 0 <= i < |ks| ==> groups[i] == MembersOf(key, xs, ks[i])
    ensures Flatten(Map(Members(), groups)) == MembersFor(key, xs, ks)
  {
    if ks != [] {
      var last := |ks| - 1;
      MembersOfGroups(key, xs, ks[..last], groups[..last]);
      assert groups == groups[..last] + [groups[last]];
      MapConcat(Members<K, T>(), groups[..last], [groups[last]]);
      assert Map(Members<K, T>(), [groups[last]]) == [groups[last].members];
      FlattenSnoc(Map(Members<K, T>(), groups[..last]), groups[last].members);
    }
  }

  /** The groups joined are the elements in another order. */
  lemma GroupsArePermutation<K, T>(key: T -> K, xs: seq<T>)
    ensures multiset(Flatten(Map(Members(), GroupBy(key, xs)))) == multiset(xs)
  {
    var ks := FirstKeys(key, xs);
    FirstKeysFacts(key, xs);
    MembersOfGroups(key, xs, ks, GroupBy(key, xs));
    MembersForAll(key, xs, ks);
    FilterAll(KeyIn(key, ks), xs);
  }
}
