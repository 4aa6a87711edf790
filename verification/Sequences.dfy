/** Sequences, options and results shared by the modules of this project. */
module Sequences {

  datatype Option<+T> = None | Some(value: T)

  datatype Result<+T, +E> = Success(value: T) | Failure(error: E)

  /** Concatenation of a sequence of sequences. */
  function Flatten<T>(bs: seq<seq<T>>): seq<T> {
    if bs == [] then [] else bs[0] + Flatten(bs[1..])
  }

  lemma {:induction false} FlattenConcat<T>(a: seq<seq<T>>, b: seq<seq<T>>)
    ensures Flatten(a + b) == Flatten(a) + Flatten(b)
  {
    if a == [] {
      assert a + b == b;
    } else {
      FlattenConcat(a[1..], b);
      assert (a + b)[1..] == a[1..] + b && (a + b)[0] == a[0];
      assert a[0] + (Flatten(a[1..]) + Flatten(b)) == Flatten(a) + Flatten(b);
    }
  }

  lemma FlattenAround<T>(a: seq<seq<T>>, b: seq<T>, c: seq<seq<T>>)
    ensures Flatten(a + [b] + c) == Flatten(a) + b + Flatten(c)
  {
    FlattenConcat(a + [b], c);
    FlattenSnoc(a, b);
  }

  lemma FlattenThree<T>(bs: seq<seq<T>>, k: nat)
    requires k < |bs|
    ensures Flatten(bs) == Flatten(bs[..k]) + bs[k] + Flatten(bs[k + 1..])
  {
    FlattenAround(bs[..k], bs[k], bs[k + 1..]);
    assert bs == bs[..k] + [bs[k]] + bs[k + 1..];
  }

  lemma FlattenSnoc<T>(bs: seq<seq<T>>, b: seq<T>)
    ensures Flatten(bs + [b]) == Flatten(bs) + b
  {
    FlattenConcat(bs, [b]);
    assert Flatten([b]) == b;
  }

  lemma {:induction false} FlattenMembers<T>(bs: seq<seq<T>>)
    ensures forall b, x :: b in bs && x in b ==> x in Flatten(bs)
  {
    if bs != [] { FlattenMembers(bs[1..]); }
  }

  /** The elements of `xs` that satisfy `keep`, in order. */
  function Filter<T>(keep: T -> bool, xs: seq<T>): seq<T> {
    if xs == [] then []
    else if keep(xs[0]) then [xs[0]] + Filter(keep, xs[1..])
    else Filter(keep, xs[1..])
  }

  lemma {:induction false} FilterMembers<T>(keep: T -> bool, xs: seq<T>)
    ensures forall y :: y in Filter(keep, xs) ==> y in xs && keep(y)
    ensures forall x :: x in xs && keep(x) ==> x in Filter(keep, xs)
  {
    if xs != [] { FilterMembers(keep, xs[1..]); }
  }

  lemma {:induction false} FilterConcat<T>(keep: T -> bool, a: seq<T>, b: seq<T>)
    ensures Filter(keep, a + b) == Filter(keep, a) + Filter(keep, b)
  {
    if a == [] {
      assert a + b == b;
    } else {
      FilterConcat(keep, a[1..], b);
      assert (a + b)[1..] == a[1..] + b && (a + b)[0] == a[0];
      if keep(a[0]) {
        assert [a[0]] + (Filter(keep, a[1..]) + Filter(keep, b)) == Filter(keep, a) + Filter(keep, b);
      }
    }
  }

  /** `picks` are the positions of the elements to keep, in order. */
  ghost predicate Positions<T>(keep: T -> bool, xs: seq<T>, picks: seq<nat>) {
    && (forall a, b :: 0 <= a < b < |picks| ==> picks[a] < picks[b])
    && (forall i: nat :: i in picks <==> i < |xs| && keep(xs[i]))
  }

  /** The elements at the positions. */
  ghost predicate ElementsAt<T>(xs: seq<T>, picks: seq<nat>, found: seq<T>) {
    |found| == |picks| && forall m :: 0 <= m < |picks| ==> picks[m] < |xs| && found[m] == xs[picks[m]]
  }

  lemma PositionsSnoc<T>(keep: T -> bool, xs: seq<T>, x: T, picks: seq<nat>)
    requires Positions(keep, xs, picks)
    ensures Positions(keep, xs + [x], if keep(x) then picks + [|xs|] else picks)
  {
    var n, more := |xs|, if keep(x) then picks + [|xs|] else picks;
    forall a | 0 <= a < |picks| ensures picks[a] < n { assert picks[a] in picks; }
    forall i: nat ensures i in more <==> i <= n && keep((xs + [x])[i]) {
      assert i in more <==> i in picks || (keep(x) && i == n);
      if i < n { assert (xs + [x])[i] == xs[i]; }
    }
  }

  lemma ElementsAtSnoc<T>(xs: seq<T>, x: T, picks: seq<nat>, found: seq<T>)
    requires ElementsAt(xs, picks, found)
    ensures ElementsAt(xs + [x], picks, found) && ElementsAt(xs + [x], picks + [|xs|], found + [x])
  {
  }

  lemma {:induction false} FilterPositions<T>(keep: T -> bool, xs: seq<T>) returns (picks: seq<nat>)
    ensures Positions(keep, xs, picks) && ElementsAt(xs, picks, Filter(keep, xs))
  {
    if xs == [] {
      picks := [];
    } else {
      var init, x := xs[..|xs| - 1], xs[|xs| - 1];
      assert xs == init + [x];
      var found := FilterPositions(keep, init);
      PositionsSnoc(keep, init, x, found);
      ElementsAtSnoc(init, x, found, Filter(keep, init));
      FilterLast(keep, init, x);
      picks := if keep(x) then found + [|init|] else found;
    }
  }

  lemma FilterLast<T>(keep: T -> bool, xs: seq<T>, x: T)
    ensures Filter(keep, xs + [x]) == if keep(x) then Filter(keep, xs) + [x] else Filter(keep, xs)
  {
    FilterConcat(keep, xs, [x]);
    assert Filter(keep, [x]) == if keep(x) then [x] else [];
  }

  function Map<S, T>(f: S -> T, xs: seq<S>): (ys: seq<T>)
    ensures |ys| == |xs|
    ensures forall i :: 0 <= i < |xs| ==> ys[i] == f(xs[i])
  {
    if xs == [] then [] else [f(xs[0])] + Map(f, xs[1..])
  }

  lemma {:induction false} FilterMapped<S(!new), T>(keepT: T -> bool, f: S -> T, keepS: S -> bool, xs: seq<S>)
    requires forall x :: keepS(x) == keepT(f(x))
    ensures Filter(keepT, Map(f, xs)) == Map(f, Filter(keepS, xs))
  {
    if xs != [] {
      FilterMapped(keepT, f, keepS, xs[1..]);
      assert Map(f, xs)[1..] == Map(f, xs[1..]);
    }
  }

  lemma {:induction false} MapConcat<S, T>(f: S -> T, a: seq<S>, b: seq<S>)
    ensures Map(f, a + b) == Map(f, a) + Map(f, b)
  {
  }

  function Repeat<T>(n: nat, x: T): (r: seq<T>)
    ensures |r| == n && forall i :: 0 <= i < n ==> r[i] == x
  {
    seq(n, i => x)
  }

  /** Every element `n` times in a row. */
  function Stutter<T>(n: nat, xs: seq<T>): seq<T> {
    if xs == [] then [] else Stutter(n, xs[..|xs| - 1]) + Repeat(n, xs[|xs| - 1])
  }

  lemma StutterSnoc<T>(n: nat, xs: seq<T>, x: T)
    ensures Stutter(n, xs + [x]) == Stutter(n, xs) + Repeat(n, x)
  {
    assert (xs + [x])[..|xs|] == xs;
  }

  lemma StutterSome<T>(n: nat, xs: seq<T>)
    requires n > 0 && xs != []
    ensures Stutter(n, xs) != []
  {
  }

  lemma {:induction false} StutterOnce<T>(xs: seq<T>)
    ensures Stutter(1, xs) == xs
  {
    if xs != [] {
      StutterOnce(xs[..|xs| - 1]);
      assert xs == xs[..|xs| - 1] + [xs[|xs| - 1]];
    }
  }

  function IndexOf<T(==)>(xs: seq<T>, x: T): (i: nat)
    requires x in xs
    ensures i < |xs| && xs[i] == x
  {
    if xs[0] == x then 0 else 1 + IndexOf(xs[1..], x)
  }

  ghost predicate Distinct<T>(xs: seq<T>) {
    forall i, j :: 0 <= i < j < |xs| ==> xs[i] != xs[j]
  }

  function Elements<T(==)>(xs: seq<T>): set<T> {
    set x | x in xs
  }

  lemma {:induction false} DistinctCardinality<T>(xs: seq<T>)
    requires Distinct(xs)
    ensures |xs| == |Elements(xs)|
  {
    if xs != [] {
      DistinctCardinality(xs[1..]);
      assert xs[0] !in xs[1..];
      assert Elements(xs) == Elements(xs[1..]) + {xs[0]};
    }
  }

  lemma Behind<T>(head: seq<T>, x: seq<T>, y: seq<T>)
    ensures head + x <= head + y <==> x <= y
  {
    if head + x <= head + y {
      assert forall i :: 0 <= i < |x| ==> x[i] == (head + x)[|head| + i] == (head + y)[|head| + i] == y[i];
    }
  }

  lemma SameLengthHeads<T>(g: seq<T>, h: seq<T>, x: seq<T>, y: seq<T>)
    requires |g| == |h|
    ensures g + x <= h + y <==> g == h && x <= y
  {
    if g + x <= h + y {
      assert g == (g + x)[..|g|] && h == (h + y)[..|g|];
    }
    if g == h { Behind(g, x, y); }
  }

  lemma MapAppend<S, T>(f: S -> T, xs: seq<S>, x: S)
    ensures Map(f, xs + [x]) == Map(f, xs) + [f(x)]
  {
  }

  lemma MapSnoc<S, T>(f: S -> T, xs: seq<S>, i: nat)
    requires i < |xs|
    ensures Map(f, xs[..i + 1]) == Map(f, xs[..i]) + [f(xs[i])]
  {
  }

  lemma FlatMapSnoc<S, T>(f: S -> seq<T>, xs: seq<S>, i: nat)
    requires i < |xs|
    ensures Flatten(Map(f, xs[..i + 1])) == Flatten(Map(f, xs[..i])) + f(xs[i])
  {
    MapSnoc(f, xs, i);
    FlattenSnoc(Map(f, xs[..i]), f(xs[i]));
  }

  lemma SameMembers<T>(a: seq<T>, b: seq<T>)
    requires multiset(a) == multiset(b)
    ensures forall x :: x in a ==> x in b
  {
    forall x | x in a ensures x in b {
      assert x in multiset(a);
    }
  }

  lemma MapInsert<S, T>(f: S -> T, a: seq<S>, x: S, b: seq<S>)
    ensures multiset(Map(f, a + [x] + b)) == multiset(Map(f, a + b)) + multiset{f(x)}
  {
    MapConcat(f, a, b);
    MapConcat(f, a + [x], b);
    MapConcat(f, a, [x]);
    assert Map(f, [x]) == [f(x)];
  }

  lemma BagWithout<T>(a: seq<T>, x: T, b: seq<T>)
    ensures multiset(a + [x] + b) == multiset(a + b) + multiset{x}
  {
  }

  lemma BagStep<T>(x: T, rest: seq<T>, before: seq<T>, behind: seq<T>)
    requires multiset([x] + rest) == multiset(before + [x] + behind)
    ensures multiset(rest) == multiset(before + behind)
  {
    BagWithout([], x, rest);
    BagWithout(before, x, behind);
    assert [] + [x] + rest == [x] + rest && [] + rest == rest;
    assert multiset(rest) + multiset{x} == multiset(before + behind) + multiset{x};
    assert multiset(rest) == multiset(rest) + multiset{x} - multiset{x};
  }

  lemma MapCons<S, T>(f: S -> T, x: S, rest: seq<S>)
    ensures multiset(Map(f, [x] + rest)) == multiset(Map(f, rest)) + multiset{f(x)}
  {
    assert ([x] + rest)[1..] == rest;
  }

  lemma MapStep<S, T>(f: S -> T, x: S, rest: seq<S>, before: seq<S>, behind: seq<S>)
    requires multiset(Map(f, rest)) == multiset(Map(f, before + behind))
    ensures multiset(Map(f, [x] + rest)) == multiset(Map(f, before + [x] + behind))
  {
    MapCons(f, x, rest);
    MapInsert(f, before, x, behind);
  }

  lemma Occurrence<T>(x: T, xs: seq<T>) returns (before: seq<T>, behind: seq<T>)
    requires x in xs
    ensures xs == before + [x] + behind
  {
    var j :| 0 <= j < |xs| && xs[j] == x;
    before, behind := xs[..j], xs[j + 1..];
  }

  lemma {:induction false} MapPermutation<S, T>(f: S -> T, a: seq<S>, b: seq<S>)
    requires multiset(a) == multiset(b)
    ensures multiset(Map(f, a)) == multiset(Map(f, b))
    decreases |a|
  {
    if a == [] {
      assert |multiset(b)| == |b|;
    } else {
      assert a[0] in multiset(a) && a == [a[0]] + a[1..];
      var before, behind := Occurrence(a[0], b);
      BagStep(a[0], a[1..], before, behind);
      MapPermutation(f, a[1..], before + behind);
      MapStep(f, a[0], a[1..], before, behind);
    }
  }
}
