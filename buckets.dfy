/**
 * Grouping a sequence by a key, as a `defaultdict(list)` or `defaultdict(float)`
 * filled in one pass does, and sums over the groups.
 */
module Buckets {

  /** The elements with key `k`, in their original order. */
  function Bucket<T, K(==)>(xs: seq<T>, key: T -> K, k: K): (b: seq<T>)
    ensures |b| <= |xs|
    ensures forall x :: x in b ==> x in xs && key(x) == k
  {
    if xs == [] then []
    else (if key(xs[0]) == k then [xs[0]] else []) + Bucket(xs[1..], key, k)
  }

  /** The elements with any key but `k`, in their original order. */
  function Others<T, K(==)>(xs: seq<T>, key: T -> K, k: K): (b: seq<T>)
    ensures |b| <= |xs|
    ensures forall x :: x in b ==> x in xs && key(x) != k
  {
    if xs == [] then []
    else (if key(xs[0]) != k then [xs[0]] else []) + Others(xs[1..], key, k)
  }

  /** An element whose key is `k` lands in bucket `k`. */
  lemma {:induction false} InOwnBucket<T, K>(xs: seq<T>, key: T -> K, x: T)
    requires x in xs
    ensures x in Bucket(xs, key, key(x))
  {
    if xs[0] != x {
      InOwnBucket(xs[1..], key, x);
    }
  }

  /** Taking out one bucket leaves every other bucket as it was. */
  lemma {:induction false} OthersKeepBuckets<T, K>(xs: seq<T>, key: T -> K, k: K, v: K)
    ensures v != k ==> Bucket(Others(xs, key, k), key, v) == Bucket(xs, key, v)
    ensures Bucket(Others(xs, key, k), key, k) == []
  {
    if xs != [] {
      OthersKeepBuckets(xs[1..], key, k, v);
      var rest := Others(xs[1..], key, k);
      if key(xs[0]) != k {
        assert Others(xs, key, k) == [xs[0]] + rest;
        assert ([xs[0]] + rest)[1..] == rest;
        assert ([xs[0]] + rest)[0] == xs[0];
      } else {
        assert Others(xs, key, k) == rest;
      }
    }
  }

  /** Every element is in its bucket or among the others, never both. */
  lemma {:induction false} BucketSizes<T, K>(xs: seq<T>, key: T -> K, k: K)
    ensures |Bucket(xs, key, k)| + |Others(xs, key, k)| == |xs|
  {
    if xs != [] {
      BucketSizes(xs[1..], key, k);
    }
  }

  lemma {:induction false} BucketAppend<T, K>(xs: seq<T>, x: T, key: T -> K, k: K)
    ensures Bucket(xs + [x], key, k) == Bucket(xs, key, k) + (if key(x) == k then [x] else [])
  {
    if xs != [] {
      BucketAppend(xs[1..], x, key, k);
      assert (xs + [x])[1..] == xs[1..] + [x];
    } else {
      assert Bucket([x], key, k) == (if key(x) == k then [x] else []) + Bucket([], key, k);
    }
  }

  /** The positions below `n` whose element has key `k`, ascending: a bucket of indices. */
  function BucketIndices<T, K(==)>(xs: seq<T>, key: T -> K, k: K, n: nat): (idx: seq<nat>)
    requires n <= |xs|
    ensures |idx| <= n
  {
    if n == 0 then []
    else
      var before := BucketIndices(xs, key, k, n - 1);
      if key(xs[n - 1]) == k then before + [n - 1] else before
  }

  /** The index bucket holds ascending positions below `n`, each of an element with key `k`. */
  lemma {:induction false} BucketIndicesFacts<T, K>(xs: seq<T>, key: T -> K, k: K, n: nat)
    requires n <= |xs|
    ensures forall j :: 0 <= j < |BucketIndices(xs, key, k, n)| ==>
      BucketIndices(xs, key, k, n)[j] < n && key(xs[BucketIndices(xs, key, k, n)[j]]) == k
    ensures forall j, j' :: 0 <= j < j' < |BucketIndices(xs, key, k, n)| ==>
      BucketIndices(xs, key, k, n)[j] < BucketIndices(xs, key, k, n)[j']
  {
    if n > 0 {
      BucketIndicesFacts(xs, key, k, n - 1);
    }
  }

  /** A position is in the index bucket of its own key and of no other. */
  lemma {:induction false} BucketIndicesComplete<T, K>(xs: seq<T>, key: T -> K, k: K, n: nat, i: nat)
    requires i < n <= |xs|
    ensures i in BucketIndices(xs, key, k, n) <==> key(xs[i]) == k
  {
    BucketIndicesFacts(xs, key, k, n - 1);
    if i < n - 1 {
      BucketIndicesComplete(xs, key, k, n - 1, i);
    }
  }

  predicate BucketIndicesValid<T>(xs: seq<T>, idx: seq<nat>) {
    forall j :: 0 <= j < |idx| ==> idx[j] < |xs|
  }

  /** The elements at the given positions. */
  function Pick<T>(xs: seq<T>, idx: seq<nat>): (r: seq<T>)
    requires BucketIndicesValid(xs, idx)
    ensures |r| == |idx|
    ensures forall j :: 0 <= j < |idx| ==> r[j] == xs[idx[j]]
  {
    seq(|idx|, j requires 0 <= j < |idx| => xs[idx[j]])
  }

  /** `xs` with `f` applied at each listed position, the positions taken in order. */
  function UpdatedAt<T>(xs: seq<T>, idx: seq<nat>, f: T -> T): (ys: seq<T>)
    requires BucketIndicesValid(xs, idx)
    ensures |ys| == |xs|
    decreases |idx|
  {
    if idx == [] then xs
    else
      var i := idx[|idx| - 1];
      UpdatedAt(xs, idx[..|idx| - 1], f)[i := f(xs[i])]
  }

  /** Position by position: updated where listed, untouched elsewhere. */
  lemma {:induction false} UpdatedAtIndex<T>(xs: seq<T>, idx: seq<nat>, f: T -> T, i: nat)
    requires BucketIndicesValid(xs, idx) && i < |xs|
    ensures UpdatedAt(xs, idx, f)[i] == if i in idx then f(xs[i]) else xs[i]
    decreases |idx|
  {
    if idx != [] {
      var init := idx[..|idx| - 1];
      var last := idx[|idx| - 1];
      UpdatedAtIndex(xs, init, f, i);
      if i != last {
        assert i in idx <==> i in init by {
          assert idx == init + [last];
        }
      }
    }
  }

  /** The index bucket picks out exactly the value bucket of the prefix `xs[..n]`. */
  lemma {:induction false} PickBucketIndices<T, K>(xs: seq<T>, key: T -> K, k: K, n: nat)
    requires n <= |xs|
    ensures BucketIndicesValid(xs, BucketIndices(xs, key, k, n))
    ensures Pick(xs, BucketIndices(xs, key, k, n)) == Bucket(xs[..n], key, k)
  {
    BucketIndicesFacts(xs, key, k, n);
    if n > 0 {
      PickBucketIndices(xs, key, k, n - 1);
      BucketAppend(xs[..n - 1], xs[n - 1], key, k);
      assert xs[..n] == xs[..n - 1] + [xs[n - 1]];
    }
  }

  predicate NoRepeats<K(==)>(ks: seq<K>) {
    forall p, q :: 0 <= p < q < |ks| ==> ks[p] != ks[q]
  }

  /** A key of a list without repeats does not occur before its own position. */
  lemma NotEarlier<K>(ks: seq<K>, k: nat)
    requires NoRepeats(ks) && k < |ks|
    ensures ks[k] !in ks[..k]
    ensures ks[..k + 1] == ks[..k] + [ks[k]]
  {
    assert forall p :: 0 <= p < k ==> ks[..k][p] == ks[p];
  }

  /**
   * One pass of `groups[key(x)].append(x)` into a `defaultdict(list)`, with the
   * elements held by position; `order` lists the keys in the order they first
   * appear, which is the order the dictionary iterates them in.
   */
  method GroupIndices<T, K(==)>(xs: seq<T>, key: T -> K) returns (groups: map<K, seq<nat>>, order: seq<K>)
    ensures forall i :: 0 <= i < |xs| ==> key(xs[i]) in groups
    ensures forall k :: k in groups ==> groups[k] == BucketIndices(xs, key, k, |xs|) && groups[k] != []
    ensures forall k :: k in groups <==> k in order
    ensures NoRepeats(order)
    ensures order == KeyOrder(xs, key, |xs|)
  {
    groups := map[];
    order := [];
    var i := 0;
    while i < |xs|
      invariant 0 <= i <= |xs|
      invariant order == KeyOrder(xs, key, i)
      invariant groups == GroupMap(xs, key, i)
    {
      var k := key(xs[i]);
      GroupMapStep(xs, key, i);
      if k !in groups {
        groups := groups[k := [i]];
        order := order + [k];
      } else {
        groups := groups[k := groups[k] + [i]];
      }
      i := i + 1;
    }
    KeyOrderFacts(xs, key, |xs|);
  }

  /** The keys of `xs[..n]` in the order they first appear. */
  function KeyOrder<T, K(==)>(xs: seq<T>, key: T -> K, n: nat): seq<K>
    requires n <= |xs|
  {
    if n == 0 then []
    else
      var before := KeyOrder(xs, key, n - 1);
      if key(xs[n - 1]) in before then before else before + [key(xs[n - 1])]
  }

  /** The grouping of `xs[..n]`: every key met so far, with its index bucket. */
  function GroupMap<T, K(==)>(xs: seq<T>, key: T -> K, n: nat): map<K, seq<nat>>
    requires n <= |xs|
  {
    map k | k in KeyOrder(xs, key, n) :: BucketIndices(xs, key, k, n)
  }

  /**
   * The keys met so far are listed once each, every element's key among them;
   * exactly those keys have a non-empty index bucket.
   */
  lemma {:induction false} KeyOrderFacts<T, K>(xs: seq<T>, key: T -> K, n: nat)
    requires n <= |xs|
    ensures forall j :: 0 <= j < n ==> key(xs[j]) in KeyOrder(xs, key, n)
    ensures forall k :: k in KeyOrder(xs, key, n) ==> BucketIndices(xs, key, k, n) != []
    ensures forall k :: k !in KeyOrder(xs, key, n) ==> BucketIndices(xs, key, k, n) == []
    ensures NoRepeats(KeyOrder(xs, key, n))
  {
    if n > 0 {
      KeyOrderFacts(xs, key, n - 1);
      var before := KeyOrder(xs, key, n - 1);
      if key(xs[n - 1]) !in before {
        NoRepeatsAppend(before, key(xs[n - 1]));
      }
    }
  }

  /**
   * `KeyOrder` lists keys by first appearance: for two keys listed in that
   * order, the first element with the earlier key comes before the first
   * element with the later one (an index bucket is ascending, so its head is
   * the first position with that key).
   */
  lemma {:induction false} KeyOrderFirstAppearance<T, K>(xs: seq<T>, key: T -> K, n: nat, p: nat, q: nat)
    requires n <= |xs| && p < q < |KeyOrder(xs, key, n)|
    ensures var ko := KeyOrder(xs, key, n);
      BucketIndices(xs, key, ko[p], n) != [] && BucketIndices(xs, key, ko[q], n) != [] &&
      BucketIndices(xs, key, ko[p], n)[0] < BucketIndices(xs, key, ko[q], n)[0]
  {
    var before := KeyOrder(xs, key, n - 1);
    var kp, kq := before[p], KeyOrder(xs, key, n)[q];
    if q < |before| {
      KeyOrderFirstAppearance(xs, key, n - 1, p, q);
      BucketIndicesHeadStep(xs, key, kp, n);
      BucketIndicesHeadStep(xs, key, kq, n);
    } else {
      KeyOrderFacts(xs, key, n - 1);
      BucketIndicesFacts(xs, key, kp, n - 1);
      BucketIndicesHeadStep(xs, key, kp, n);
      assert BucketIndices(xs, key, kq, n - 1) == [];
    }
  }

  /** One more position keeps the head of a non-empty index bucket. */
  lemma BucketIndicesHeadStep<T, K>(xs: seq<T>, key: T -> K, k: K, n: nat)
    requires 0 < n <= |xs| && BucketIndices(xs, key, k, n - 1) != []
    ensures BucketIndices(xs, key, k, n) != []
    ensures BucketIndices(xs, key, k, n)[0] == BucketIndices(xs, key, k, n - 1)[0]
  {
  }

  /** Filing element `i` under its key: a new key gets the group `[i]`, a known one has `i` appended. */
  lemma GroupMapStep<T, K>(xs: seq<T>, key: T -> K, i: nat)
    requires i < |xs|
    ensures GroupMap(xs, key, i + 1) ==
      if key(xs[i]) in GroupMap(xs, key, i) then GroupMap(xs, key, i)[key(xs[i]) := GroupMap(xs, key, i)[key(xs[i])] + [i]]
      else GroupMap(xs, key, i)[key(xs[i]) := [i]]
  {
    KeyOrderFacts(xs, key, i);
    var k := key(xs[i]);
    var g, g' := GroupMap(xs, key, i), GroupMap(xs, key, i + 1);
    var h := if k in g then g[k := g[k] + [i]] else g[k := [i]];
    assert forall k' :: k' in g' <==> k' in h;
    forall k' | k' in g'
      ensures g'[k'] == h[k']
    {
      if k' == k {
        assert BucketIndices(xs, key, k, i + 1) == BucketIndices(xs, key, k, i) + [i];
      } else {
        assert BucketIndices(xs, key, k', i + 1) == BucketIndices(xs, key, k', i);
      }
    }
  }

  /** Appending a key not yet listed keeps the list free of repeats. */
  lemma NoRepeatsAppend<K>(order: seq<K>, k: K)
    requires NoRepeats(order) && k !in order
    ensures NoRepeats(order + [k])
  {
    forall p, q | 0 <= p < q < |order + [k]|
      ensures (order + [k])[p] != (order + [k])[q]
    {
      if q == |order| {
        assert (order + [k])[p] == order[p];
      }
    }
  }




  // ---------------------------------------------------------------------------
  // Sums

  /** `sum(f(x) for x in xs)` over whole numbers. */
  function Sum<T>(xs: seq<T>, f: T -> int): int {
    if xs == [] then 0 else f(xs[0]) + Sum(xs[1..], f)
  }

  /** `sum(f(x) for x in xs)` over exact reals. */
  function RealSum<T>(xs: seq<T>, f: T -> real): real {
    if xs == [] then 0.0 else f(xs[0]) + RealSum(xs[1..], f)
  }

  /** Sums of non-negative terms are non-negative. */
  lemma {:induction false} SumNonNegative<T>(xs: seq<T>, f: T -> int)
    requires forall x :: x in xs ==> f(x) >= 0
    ensures Sum(xs, f) >= 0
  {
    if xs != [] {
      SumNonNegative(xs[1..], f);
    }
  }

  /** Two term functions that agree on the elements give the same sum. */
  lemma {:induction false} RealSumCongruent<T>(xs: seq<T>, f: T -> real, g: T -> real)
    requires forall x :: x in xs ==> f(x) == g(x)
    ensures RealSum(xs, f) == RealSum(xs, g)
  {
    if xs != [] {
      RealSumCongruent(xs[1..], f, g);
    }
  }

  /** Two sequences whose elements pair off term by term give the same sum. */
  lemma {:induction false} RealSumPaired<A, B>(xs: seq<A>, f: A -> real, ys: seq<B>, g: B -> real)
    requires |xs| == |ys|
    requires forall i :: 0 <= i < |xs| ==> f(xs[i]) == g(ys[i])
    ensures RealSum(xs, f) == RealSum(ys, g)
  {
    if xs != [] {
      assert f(xs[0]) == g(ys[0]);
      RealSumPaired(xs[1..], f, ys[1..], g);
    }
  }

  lemma {:induction false} SumAppend<T>(xs: seq<T>, x: T, f: T -> int)
    ensures Sum(xs + [x], f) == Sum(xs, f) + f(x)
  {
    if xs != [] {
      SumAppend(xs[1..], x, f);
      assert (xs + [x])[1..] == xs[1..] + [x];
    }
  }

  lemma {:induction false} RealSumAppend<T>(xs: seq<T>, x: T, f: T -> real)
    ensures RealSum(xs + [x], f) == RealSum(xs, f) + f(x)
  {
    if xs != [] {
      RealSumAppend(xs[1..], x, f);
      assert (xs + [x])[1..] == xs[1..] + [x];
    }
  }

  /** A sum is the sum over one bucket plus the sum over the rest. */
  lemma {:induction false} SumSplit<T, K>(xs: seq<T>, f: T -> int, key: T -> K, k: K)
    ensures Sum(xs, f) == Sum(Bucket(xs, key, k), f) + Sum(Others(xs, key, k), f)
  {
    if xs != [] {
      SumSplit(xs[1..], f, key, k);
      var b := Bucket(xs[1..], key, k);
      var o := Others(xs[1..], key, k);
      if key(xs[0]) == k {
        assert Bucket(xs, key, k) == [xs[0]] + b && Others(xs, key, k) == o;
        assert ([xs[0]] + b)[1..] == b;
      } else {
        assert Bucket(xs, key, k) == b && Others(xs, key, k) == [xs[0]] + o;
        assert ([xs[0]] + o)[1..] == o;
      }
    }
  }

  lemma {:induction false} RealSumSplit<T, K>(xs: seq<T>, f: T -> real, key: T -> K, k: K)
    ensures RealSum(xs, f) == RealSum(Bucket(xs, key, k), f) + RealSum(Others(xs, key, k), f)
  {
    if xs != [] {
      RealSumSplit(xs[1..], f, key, k);
      var b := Bucket(xs[1..], key, k);
      var o := Others(xs[1..], key, k);
      if key(xs[0]) == k {
        assert Bucket(xs, key, k) == [xs[0]] + b && Others(xs, key, k) == o;
        assert ([xs[0]] + b)[1..] == b;
      } else {
        assert Bucket(xs, key, k) == b && Others(xs, key, k) == [xs[0]] + o;
        assert ([xs[0]] + o)[1..] == o;
      }
    }
  }
}
