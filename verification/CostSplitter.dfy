/** The batching of a stream by cumulative cost: src/utils/itersplit.py. */
module CostSplitter {
  import opened Sequences

  function TotalCost<T>(cost: T -> int, xs: seq<T>): int {
    if xs == [] then 0 else cost(xs[0]) + TotalCost(cost, xs[1..])
  }

  lemma {:induction false} TotalCostConcat<T>(cost: T -> int, a: seq<T>, b: seq<T>)
    ensures TotalCost(cost, a + b) == TotalCost(cost, a) + TotalCost(cost, b)
  {
    if a == [] {
      assert a + b == b;
    } else {
      TotalCostConcat(cost, a[1..], b);
      assert (a + b)[1..] == a[1..] + b;
    }
  }

  /** What the class documentation asks of one batch. */
  ghost predicate Fits<T>(cost: T -> int, maxCost: int, b: seq<T>) {
    b != [] && (|b| > 1 ==> TotalCost(cost, b) <= maxCost)
  }

  /** `bs` is an admissible way of splitting `xs`. */
  ghost predicate IsSplit<T>(cost: T -> int, maxCost: int, bs: seq<seq<T>>, xs: seq<T>) {
    Flatten(bs) == xs && forall b :: b in bs ==> Fits(cost, maxCost, b)
  }

  ghost predicate NonNegative<T(!new)>(cost: T -> int) {
    forall x :: cost(x) >= 0
  }

  // ---- The batch the machine reads next -------------------------------------------------

  /** How many more items join a non-empty batch that has already cost `sofar`. */
  function Extension<T>(cost: T -> int, maxCost: int, sofar: int, xs: seq<T>): (n: nat)
    ensures n <= |xs|
    decreases |xs|
  {
    if xs == [] || sofar + cost(xs[0]) > maxCost then 0
    else 1 + Extension(cost, maxCost, sofar + cost(xs[0]), xs[1..])
  }

  function FirstBatch<T>(cost: T -> int, maxCost: int, xs: seq<T>): (b: seq<T>)
    ensures b <= xs
    ensures b == [] <==> xs == []
  {
    if xs == [] then [] else xs[..1 + Extension(cost, maxCost, cost(xs[0]), xs[1..])]
  }

  /** After `n` items of cost `sofar` the batch is still open: it will have those the extension adds. */
  ghost predicate Open<T>(cost: T -> int, maxCost: int, xs: seq<T>, n: nat, sofar: int) {
    && n <= |xs| && (n == 0 ==> sofar == 0)
    && (n > 0 ==> |FirstBatch(cost, maxCost, xs)| == n + Extension(cost, maxCost, sofar, xs[n..]))
  }

  lemma TakeOne<T>(cost: T -> int, maxCost: int, xs: seq<T>, n: nat, sofar: int)
    requires Open(cost, maxCost, xs, n, sofar) && n < |xs| && (n == 0 || sofar + cost(xs[n]) <= maxCost)
    ensures Open(cost, maxCost, xs, n + 1, sofar + cost(xs[n]))
  {
    assert xs[n..][0] == xs[n] && xs[n..][1..] == xs[n + 1..];
  }

  lemma StopHere<T>(cost: T -> int, maxCost: int, xs: seq<T>, n: nat, sofar: int)
    requires Open(cost, maxCost, xs, n, sofar) && (n < |xs| ==> n > 0 && sofar + cost(xs[n]) > maxCost)
    ensures FirstBatch(cost, maxCost, xs) == xs[..n]
  {
    if n < |xs| { assert xs[n..][0] == xs[n]; }
  }

  function LeftGreedy<T>(cost: T -> int, maxCost: int, xs: seq<T>): seq<seq<T>>
    decreases |xs|
  {
    if xs == [] then []
    else
      var b := FirstBatch(cost, maxCost, xs);
      [b] + LeftGreedy(cost, maxCost, xs[|b|..])
  }

  /** The maths spec in the module's notes: greedy from the right. */
  function Phi<T>(cost: T -> int, maxCost: int, xs: seq<T>): (bs: seq<seq<T>>)
    ensures xs == [] <==> bs == []
  {
    if xs == [] then []
    else if |xs| == 1 then [xs]
    else
      var bs := Phi(cost, maxCost, xs[1..]);
      if cost(xs[0]) + TotalCost(cost, bs[0]) <= maxCost
      then [[xs[0]] + bs[0]] + bs[1..]
      else [[xs[0]]] + bs
  }

  // ---- The machine ----------------------------------------------------------------------

  /** `pending` is what the wrapped iterator would still produce. */
  class IterCostSplitter<T> {
    const costOf: T -> int
    const maxCost: int
    var pending: seq<T>
    var keepIterating: bool

    constructor (costOf: T -> int, maxCost: int)
      ensures this.costOf == costOf && this.maxCost == maxCost
    {
      this.costOf, this.maxCost := costOf, maxCost;
      pending, keepIterating := [], true;
    }

    method Next() returns (item: Option<T>)
      modifies this`pending
      ensures old(pending) == [] ==> item == None && pending == []
      ensures old(pending) != [] ==> item == Some(old(pending)[0]) && pending == old(pending)[1..]
    {
      if pending == [] { return None; }
      item, pending := Some(pending[0]), pending[1..];
    }

    method PutBack(item: T)
      modifies this`pending
      ensures pending == [item] + old(pending)
    {
      pending := [item] + pending;
    }

    method IsEmpty() returns (empty: bool)
      modifies this`pending
      ensures empty <==> pending == []
      ensures pending == old(pending)
    {
      var x := Next();
      if x.Some? {
        PutBack(x.value);
        return false;
      }
      return true;
    }

    /** Reads one batch; the flag falls exactly when the stream ran dry. */
    method NextBatch() returns (batch: seq<T>)
      modifies this
      ensures batch == FirstBatch(costOf, maxCost, old(pending))
      ensures pending == old(pending)[|batch|..]
      ensures keepIterating == (old(keepIterating) && pending != [])
    {
      ghost var stream := pending;
      var costSoFar, batchSize := 0, 0;
      batch := [];
      var x := Next();
      while x.Some?
        invariant Open(costOf, maxCost, stream, batchSize, costSoFar) && batch == stream[..batchSize]
        invariant x.Some? ==>
          batchSize < |stream| && x.value == stream[batchSize] && pending == stream[batchSize + 1..]
        invariant x.None? ==> batchSize == |stream| && pending == []
        invariant keepIterating == old(keepIterating)
        decreases |stream| - batchSize
      {
        var nextCost := costOf(x.value);
        if batchSize == 0 || costSoFar + nextCost <= maxCost {
          TakeOne(costOf, maxCost, stream, batchSize, costSoFar);
          batchSize, costSoFar, batch := batchSize + 1, costSoFar + nextCost, batch + [x.value];
          x := Next();
        } else {
          StopHere(costOf, maxCost, stream, batchSize, costSoFar);
          PutBack(x.value);
          return;
        }
      }
      StopHere(costOf, maxCost, stream, batchSize, costSoFar);
      keepIterating := false;
    }

    /** Drains `iter_batches`, each batch before the next one is asked for. */
    method ListBatches(xs: seq<T>) returns (batches: seq<seq<T>>)
      modifies this
      ensures batches == LeftGreedy(costOf, maxCost, xs)
    {
      batches := [];
      pending := xs;
      var empty := IsEmpty();
      if empty { return; }
      keepIterating := true;
      while keepIterating
        invariant keepIterating <==> pending != []
        invariant batches + LeftGreedy(costOf, maxCost, pending) == LeftGreedy(costOf, maxCost, xs)
        decreases |pending|
      {
        var batch := NextBatch();
        batches := batches + [batch];
      }
    }
  }

  // ---- The greedy split is admissible ---------------------------------------------------

  lemma {:induction false} ExtensionFits<T>(cost: T -> int, maxCost: int, sofar: int, xs: seq<T>)
    ensures var n := Extension(cost, maxCost, sofar, xs);
      n > 0 ==> sofar + TotalCost(cost, xs[..n]) <= maxCost
    decreases |xs|
  {
    var n := Extension(cost, maxCost, sofar, xs);
    if n > 0 {
      var rest := xs[1..];
      ExtensionFits(cost, maxCost, sofar + cost(xs[0]), rest);
      assert xs[..n] == [xs[0]] + rest[..n - 1];
      TotalCostConcat(cost, [xs[0]], rest[..n - 1]);
      assert TotalCost(cost, [xs[0]]) == cost(xs[0]);
      if n == 1 { assert rest[..0] == []; }
    }
  }

  lemma FirstBatchFits<T>(cost: T -> int, maxCost: int, xs: seq<T>)
    requires xs != []
    ensures Fits(cost, maxCost, FirstBatch(cost, maxCost, xs))
  {
    var b := FirstBatch(cost, maxCost, xs);
    if |b| > 1 {
      ExtensionFits(cost, maxCost, cost(xs[0]), xs[1..]);
      assert b[1..] == xs[1..][..|b| - 1];
    }
  }

  lemma SplitCons<T>(cost: T -> int, maxCost: int, b: seq<T>, bs: seq<seq<T>>, xs: seq<T>)
    requires Fits(cost, maxCost, b) && IsSplit(cost, maxCost, bs, xs)
    ensures IsSplit(cost, maxCost, [b] + bs, b + xs)
  {
  }

  /** Joining the batches gives the stream back, no batch is empty, long batches cost at most the goal. */
  lemma {:induction false} LeftGreedyIsSplit<T>(cost: T -> int, maxCost: int, xs: seq<T>)
    ensures IsSplit(cost, maxCost, LeftGreedy(cost, maxCost, xs), xs)
    decreases |xs|
  {
    if xs != [] {
      var b := FirstBatch(cost, maxCost, xs);
      FirstBatchFits(cost, maxCost, xs);
      var rest := LeftGreedy(cost, maxCost, xs[|b|..]);
      LeftGreedyIsSplit(cost, maxCost, xs[|b|..]);
      SplitCons(cost, maxCost, b, rest, xs[|b|..]);
      assert b + xs[|b|..] == xs;
    }
  }

  lemma {:induction false} PhiIsSplit<T>(cost: T -> int, maxCost: int, xs: seq<T>)
    ensures IsSplit(cost, maxCost, Phi(cost, maxCost, xs), xs)
  {
    if |xs| == 1 {
      assert Flatten([xs]) == xs;
    } else if |xs| > 1 {
      var bs := Phi(cost, maxCost, xs[1..]);
      PhiIsSplit(cost, maxCost, xs[1..]);
      assert bs == [bs[0]] + bs[1..];
    }
  }

  // ---- Where a batch ends, whatever the costs --------------------------------------------

  /** A batch of `n` items: no start of it with more than one costs too much, and one item more would. */
  ghost predicate EndsAt<T>(cost: T -> int, maxCost: int, xs: seq<T>, n: nat) {
    && 0 < n <= |xs| && (forall k :: 1 < k <= n ==> TotalCost(cost, xs[..k]) <= maxCost)
    && (n < |xs| ==> TotalCost(cost, xs[..n + 1]) > maxCost)
  }

  lemma TotalCostCons<T>(cost: T -> int, xs: seq<T>, k: nat)
    requires 0 < k <= |xs|
    ensures TotalCost(cost, xs[..k]) == cost(xs[0]) + TotalCost(cost, xs[1..][..k - 1])
  {
    assert xs[..k][1..] == xs[1..][..k - 1];
  }

  /** The extension stays within the goal all along, and is stopped by the item behind it. */
  lemma {:induction false} ExtensionStops<T>(cost: T -> int, maxCost: int, sofar: int, xs: seq<T>)
    ensures var n := Extension(cost, maxCost, sofar, xs);
      && (forall k :: 0 < k <= n ==> sofar + TotalCost(cost, xs[..k]) <= maxCost)
      && (n < |xs| ==> sofar + TotalCost(cost, xs[..n + 1]) > maxCost)
    decreases |xs|
  {
    if xs != [] {
      TotalCostCons(cost, xs, 1);
      if sofar + cost(xs[0]) <= maxCost {
        var n := Extension(cost, maxCost, sofar, xs);
        ExtensionStops(cost, maxCost, sofar + cost(xs[0]), xs[1..]);
        forall k | 0 < k <= n ensures sofar + TotalCost(cost, xs[..k]) <= maxCost { TotalCostCons(cost, xs, k); }
        if n < |xs| { TotalCostCons(cost, xs, n + 1); }
      }
    }
  }

  /** The machine's batch is the one that ends there, also for negative costs. */
  lemma FirstBatchEnds<T>(cost: T -> int, maxCost: int, xs: seq<T>, n: nat)
    requires xs != []
    ensures n == |FirstBatch(cost, maxCost, xs)| <==> EndsAt(cost, maxCost, xs, n)
  {
    var m := |FirstBatch(cost, maxCost, xs)|;
    ExtensionStops(cost, maxCost, cost(xs[0]), xs[1..]);
    forall k | 1 < k <= m ensures TotalCost(cost, xs[..k]) <= maxCost { TotalCostCons(cost, xs, k); }
    if m < |xs| { TotalCostCons(cost, xs, m + 1); }
    assert EndsAt(cost, maxCost, xs, m);
  }

  // ---- Optimality -----------------------------------------------------------------------

  /** Dropping items off the front of an admissible batch leaves an admissible one. */
  lemma SuffixFits<T(!new)>(cost: T -> int, maxCost: int, b: seq<T>, k: nat)
    requires NonNegative(cost) && Fits(cost, maxCost, b) && k < |b|
    ensures Fits(cost, maxCost, b[k..])
  {
    assert b == b[..k] + b[k..];
    TotalCostConcat(cost, b[..k], b[k..]);
    TotalCostNonNegative(cost, b[..k]);
  }

  lemma {:induction false} TotalCostNonNegative<T(!new)>(cost: T -> int, xs: seq<T>)
    requires NonNegative(cost)
    ensures TotalCost(cost, xs) >= 0
  {
    if xs != [] { TotalCostNonNegative(cost, xs[1..]); }
  }

  /** The machine never stops short of an admissible batch that starts where its own does. */
  lemma {:induction false} ExtensionReaches<T(!new)>(cost: T -> int, maxCost: int, sofar: int, xs: seq<T>, n: nat)
    requires NonNegative(cost) && n <= |xs|
    requires n > 0 ==> sofar + TotalCost(cost, xs[..n]) <= maxCost
    ensures n <= Extension(cost, maxCost, sofar, xs)
    decreases |xs|
  {
    if n > 0 {
      var rest := xs[1..];
      assert xs[..n] == [xs[0]] + rest[..n - 1];
      TotalCostNonNegative(cost, rest[..n - 1]);
      ExtensionReaches(cost, maxCost, sofar + cost(xs[0]), rest, n - 1);
    }
  }

  lemma FirstBatchLongest<T(!new)>(cost: T -> int, maxCost: int, b: seq<T>, rest: seq<T>)
    requires NonNegative(cost) && Fits(cost, maxCost, b)
    ensures |b| <= |FirstBatch(cost, maxCost, b + rest)|
  {
    var xs := b + rest;
    assert xs[1..][..|b| - 1] == b[1..];
    ExtensionReaches(cost, maxCost, cost(xs[0]), xs[1..], |b| - 1);
  }

  lemma CountFirst<T>(cost: T -> int, maxCost: int, xs: seq<T>, rest: seq<T>)
    requires xs != [] && rest == xs[|FirstBatch(cost, maxCost, xs)|..]
    ensures |LeftGreedy(cost, maxCost, xs)| == 1 + |LeftGreedy(cost, maxCost, rest)|
  {
  }

  /** Reading one batch from within an admissible batch takes at least the rest of it. */
  lemma ReadsPast<T(!new)>(cost: T -> int, maxCost: int, b: seq<T>, rest: seq<T>, k: nat, xs: seq<T>)
    returns (n: nat)
    requires NonNegative(cost) && Fits(cost, maxCost, b) && k < |b| && xs == b[k..] + rest
    ensures n <= |rest|
    ensures |LeftGreedy(cost, maxCost, xs)| == 1 + |LeftGreedy(cost, maxCost, rest[n..])|
  {
    var left := b[k..];
    SuffixFits(cost, maxCost, b, k);
    FirstBatchLongest(cost, maxCost, left, rest);
    n := |FirstBatch(cost, maxCost, xs)| - |left|;
    DropPast(left, rest, |FirstBatch(cost, maxCost, xs)|);
    CountFirst(cost, maxCost, xs, rest[n..]);
  }

  lemma {:induction false} StaysAhead<T(!new)>(cost: T -> int, maxCost: int, bs: seq<seq<T>>, k: nat, xs: seq<T>)
    requires NonNegative(cost) && k <= |Flatten(bs)| && xs == Flatten(bs)[k..]
    requires forall b :: b in bs ==> Fits(cost, maxCost, b)
    ensures |LeftGreedy(cost, maxCost, xs)| <= |bs|
    decreases |bs|
  {
    if bs == [] {
      assert xs == [];
    } else {
      var b, others := bs[0], bs[1..];
      var rest := Flatten(others);
      assert b in bs && forall x :: x in others ==> x in bs;
      if k >= |b| {
        DropPast(b, rest, k);
        StaysAhead(cost, maxCost, others, k - |b|, xs);
      } else {
        DropWithin(b, rest, k);
        var n := ReadsPast(cost, maxCost, b, rest, k, xs);
        StaysAhead(cost, maxCost, others, n, rest[n..]);
      }
    }
  }

  /** Greedy stays ahead: splitting any suffix takes no more batches than an admissible split of the whole. */
  lemma GreedyStaysAhead<T(!new)>(cost: T -> int, maxCost: int, bs: seq<seq<T>>, k: nat)
    requires NonNegative(cost) && k <= |Flatten(bs)|
    requires forall b :: b in bs ==> Fits(cost, maxCost, b)
    ensures |LeftGreedy(cost, maxCost, Flatten(bs)[k..])| <= |bs|
  {
    StaysAhead(cost, maxCost, bs, k, Flatten(bs)[k..]);
  }

  lemma DropPast<T>(a: seq<T>, b: seq<T>, n: nat)
    requires |a| <= n <= |a + b|
    ensures (a + b)[n..] == b[n - |a|..]
  {
  }

  lemma DropWithin<T>(a: seq<T>, b: seq<T>, n: nat)
    requires n <= |a|
    ensures (a + b)[n..] == a[n..] + b
  {
  }

  /** No admissible split has fewer batches than the machine produces. */
  lemma LeftGreedyOptimal<T(!new)>(cost: T -> int, maxCost: int, xs: seq<T>, bs: seq<seq<T>>)
    requires NonNegative(cost) && IsSplit(cost, maxCost, bs, xs)
    ensures |LeftGreedy(cost, maxCost, xs)| <= |bs|
  {
    GreedyStaysAhead(cost, maxCost, bs, 0);
    assert Flatten(bs)[0..] == xs;
  }

  lemma PrefixCost<T(!new)>(cost: T -> int, a: seq<T>, b: seq<T>, xs: seq<T>)
    requires NonNegative(cost) && a <= xs && b <= xs && |a| <= |b|
    ensures TotalCost(cost, a) <= TotalCost(cost, b)
  {
    assert b == a + b[|a|..];
    TotalCostConcat(cost, a, b[|a|..]);
    TotalCostNonNegative(cost, b[|a|..]);
  }

  /** The right-greedy split has the fewest batches and, among those, the shortest first one. */
  lemma {:induction false} PhiDominates<T(!new)>(cost: T -> int, maxCost: int, xs: seq<T>, bs: seq<seq<T>>)
    requires NonNegative(cost) && IsSplit(cost, maxCost, bs, xs)
    ensures var p := Phi(cost, maxCost, xs);
      |p| < |bs| || (|p| == |bs| && (p != [] ==> |p[0]| <= |bs[0]|))
    decreases |xs|
  {
    if xs == [] {
      if bs != [] && bs[0] != [] { assert false; }
    } else {
      assert bs != [] && Fits(cost, maxCost, bs[0]);
      var b, ys := bs[0], xs[1..];
      var q := Phi(cost, maxCost, ys);
      if |b| == 1 {
        assert Flatten(bs[1..]) == ys;
        PhiDominates(cost, maxCost, ys, bs[1..]);
      } else {
        var shorter := [b[1..]] + bs[1..];
        SuffixFits(cost, maxCost, b, 1);
        assert Flatten(shorter) == ys;
        PhiDominates(cost, maxCost, ys, shorter);
        if |q| == |bs| {
          PhiIsSplit(cost, maxCost, ys);
          assert q[0] <= ys && b[1..] <= ys;
          PrefixCost(cost, q[0], b[1..], ys);
        }
      }
    }
  }

  /** The machine and the documented spec agree on the number of batches, for every input. */
  lemma GreedyCountsAgree<T(!new)>(cost: T -> int, maxCost: int, xs: seq<T>)
    requires NonNegative(cost)
    ensures |LeftGreedy(cost, maxCost, xs)| == |Phi(cost, maxCost, xs)|
  {
    LeftGreedyIsSplit(cost, maxCost, xs);
    PhiIsSplit(cost, maxCost, xs);
    LeftGreedyOptimal(cost, maxCost, xs, Phi(cost, maxCost, xs));
    PhiDominates(cost, maxCost, xs, LeftGreedy(cost, maxCost, xs));
  }

  /** The documented spec splits what its first batch leaves as if it came alone. */
  lemma {:induction false} PhiTail<T>(cost: T -> int, maxCost: int, xs: seq<T>)
    requires xs != []
    ensures var p := Phi(cost, maxCost, xs);
      |p[0]| <= |xs| && p[1..] == Phi(cost, maxCost, xs[|p[0]|..])
  {
    PhiIsSplit(cost, maxCost, xs);
    var ys := xs[1..];
    var q := Phi(cost, maxCost, ys);
    if ys != [] {
      PhiTail(cost, maxCost, ys);
      assert xs[1 + |q[0]|..] == ys[|q[0]|..];
    }
  }

  /** Where machine and spec agree there is no other split with so few batches. */
  lemma {:induction false} AgreedSplitIsUnique<T(!new)>(cost: T -> int, maxCost: int, xs: seq<T>, bs: seq<seq<T>>)
    requires NonNegative(cost) && LeftGreedy(cost, maxCost, xs) == Phi(cost, maxCost, xs)
    requires IsSplit(cost, maxCost, bs, xs) && |bs| == |Phi(cost, maxCost, xs)|
    ensures bs == Phi(cost, maxCost, xs)
    decreases |xs|
  {
    if xs != [] {
      var p, b, rest := Phi(cost, maxCost, xs), bs[0], Flatten(bs[1..]);
      PhiDominates(cost, maxCost, xs, bs);
      FirstBatchLongest(cost, maxCost, b, rest);
      var n := |b|;
      assert n == |p[0]| && p[0] == FirstBatch(cost, maxCost, xs) == xs[..n];
      PhiTail(cost, maxCost, xs);
      assert LeftGreedy(cost, maxCost, xs)[1..] == LeftGreedy(cost, maxCost, xs[n..]);
      assert xs[n..] == rest;
      AgreedSplitIsUnique(cost, maxCost, xs[n..], bs[1..]);
      assert bs == [b] + bs[1..] && p == [p[0]] + p[1..];
    }
  }

  /** The machine's batches are the documented ones exactly when only one split has so few batches. */
  lemma GreedyBatchesAgree<T(!new)>(cost: T -> int, maxCost: int, xs: seq<T>)
    requires NonNegative(cost)
    ensures LeftGreedy(cost, maxCost, xs) == Phi(cost, maxCost, xs) <==>
      forall bs :: IsSplit(cost, maxCost, bs, xs) && |bs| == |Phi(cost, maxCost, xs)| ==> bs == Phi(cost, maxCost, xs)
  {
    if LeftGreedy(cost, maxCost, xs) == Phi(cost, maxCost, xs) {
      forall bs | IsSplit(cost, maxCost, bs, xs) && |bs| == |Phi(cost, maxCost, xs)|
        ensures bs == Phi(cost, maxCost, xs)
      {
        AgreedSplitIsUnique(cost, maxCost, xs, bs);
      }
    }
    LeftGreedyIsSplit(cost, maxCost, xs);
    GreedyCountsAgree(cost, maxCost, xs);
  }

  /** They can differ. */
  lemma GreedyBatchesDiffer()
    ensures var cost := (x: int) => x;
      LeftGreedy(cost, 5, [2, 3, 1]) == [[2, 3], [1]] && Phi(cost, 5, [2, 3, 1]) == [[2], [3, 1]]
  {
    var cost := (x: int) => x;
    var xs := [2, 3, 1];
    assert xs[1..] == [3, 1] && [3, 1][1..] == [1] && [1][1..] == [] && xs[2..] == [1];
    assert Extension(cost, 5, 2, [3, 1]) == 1 + Extension(cost, 5, 5, [1]) == 1;
    assert FirstBatch(cost, 5, xs) == [2, 3] && FirstBatch(cost, 5, [1]) == [1];
    assert LeftGreedy(cost, 5, [1]) == [[1]] + LeftGreedy(cost, 5, []);
    assert TotalCost(cost, [1]) == 1 && TotalCost(cost, [3] + [1]) == 4;
    assert Phi(cost, 5, [3, 1]) == [[3] + [1]] + [];
    var p := Phi(cost, 5, xs);
    assert p == [[2]] + [[3] + [1]];
    assert p[1] == [3, 1];
  }

  // ---- src/translators/insert_splitter.py -----------------------------------------------

  /** What the batches of an insert are: without a configured size one with all rows, even when there are none; with
      one an admissible split, for non-negative sizes one with the fewest batches, whose first is as long as any. */
  ghost predicate BatchesFor<T(!new)>(rowSize: T -> int, insertMaxSize: Option<int>, batches: seq<seq<T>>,
                                      rows: seq<T>) {
    match insertMaxSize
    case None => batches == [rows]
    case Some(m) =>
      && IsSplit(rowSize, m, batches, rows)
      && (NonNegative(rowSize) ==>
           && (forall bs :: IsSplit(rowSize, m, bs, rows) ==> |batches| <= |bs|)
           && forall n: nat :: n <= |rows| && Fits(rowSize, m, rows[..n]) ==> batches != [] && n <= |batches[0]|)
  }

  method ToInsertBatches<T(!new)>(rowSize: T -> int, insertMaxSize: Option<int>, rows: seq<T>)
    returns (batches: seq<seq<T>>)
    ensures BatchesFor(rowSize, insertMaxSize, batches, rows)
    ensures rows == [] && insertMaxSize.Some? ==> batches == []
    ensures batches == InsertBatches(rowSize, insertMaxSize, rows)
  {
    InsertBatchesSplit(rowSize, insertMaxSize, rows);
    if insertMaxSize.None? { return [rows]; }
    var splitter := new IterCostSplitter<T>(rowSize, insertMaxSize.value);
    batches := splitter.ListBatches(rows);
  }

  function InsertBatches<T>(rowSize: T -> int, insertMaxSize: Option<int>, rows: seq<T>): seq<seq<T>> {
    if insertMaxSize.None? then [rows] else LeftGreedy(rowSize, insertMaxSize.value, rows)
  }

  lemma FewestBatches<T(!new)>(cost: T -> int, maxCost: int, xs: seq<T>)
    requires NonNegative(cost)
    ensures forall bs :: IsSplit(cost, maxCost, bs, xs) ==> |LeftGreedy(cost, maxCost, xs)| <= |bs|
  {
    forall bs | IsSplit(cost, maxCost, bs, xs) ensures |LeftGreedy(cost, maxCost, xs)| <= |bs| {
      LeftGreedyOptimal(cost, maxCost, xs, bs);
    }
  }

  lemma NoLongerStart<T(!new)>(cost: T -> int, maxCost: int, xs: seq<T>, n: nat)
    requires NonNegative(cost) && n <= |xs| && Fits(cost, maxCost, xs[..n])
    ensures xs != [] && n <= |FirstBatch(cost, maxCost, xs)|
  {
    FirstBatchLongest(cost, maxCost, xs[..n], xs[n..]);
    assert xs[..n] + xs[n..] == xs;
  }

  lemma InsertBatchesSplit<T(!new)>(rowSize: T -> int, insertMaxSize: Option<int>, rows: seq<T>)
    ensures BatchesFor(rowSize, insertMaxSize, InsertBatches(rowSize, insertMaxSize, rows), rows)
  {
    if insertMaxSize.Some? {
      var m := insertMaxSize.value;
      LeftGreedyIsSplit(rowSize, m, rows);
      if NonNegative(rowSize) {
        FewestBatches(rowSize, m, rows);
        forall n: nat | n <= |rows| && Fits(rowSize, m, rows[..n])
          ensures rows != [] && n <= |LeftGreedy(rowSize, m, rows)[0]|
        {
          NoLongerStart(rowSize, m, rows, n);
        }
      }
    }
  }

  /** Either way the batches joined are the rows. */
  lemma InsertBatchesJoin<T(!new)>(rowSize: T -> int, insertMaxSize: Option<int>, rows: seq<T>)
    ensures Flatten(InsertBatches(rowSize, insertMaxSize, rows)) == rows
  {
    InsertBatchesSplit(rowSize, insertMaxSize, rows);
    assert Flatten([rows]) == rows;
  }
}
