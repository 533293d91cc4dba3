/**
 * Sums kept in a dictionary, as `d[k] += v` on a `defaultdict(float)` or
 * `defaultdict(timedelta)` does in one pass over a list: an item whose key is
 * `None` is skipped, any other adds its value to its key's entry, the entry
 * being created at zero the first time the key is met.
 */
module Tallies {
  import opened Wrappers
  import opened Buckets

  /** `d.get(k, 0.0)`: a key never met reads as zero. */
  function Get<K>(m: map<K, real>, k: K): real {
    if k in m then m[k] else 0.0
  }

  /** `lambda k: d.get(k, 0.0)`, for summing a dictionary over its keys. */
  function ValueIn<K>(m: map<K, real>): K -> real {
    k => Get(m, k)
  }

  /** The dictionary after the first `n` items of `xs`. */
  function Tally<T, K>(xs: seq<T>, key: T -> Option<K>, val: T -> real, n: nat): map<K, real>
    requires n <= |xs|
  {
    if n == 0 then map[]
    else
      var m := Tally(xs, key, val, n - 1);
      match key(xs[n - 1])
      case None => m
      case Some(k) => m[k := Get(m, k) + val(xs[n - 1])]
  }

  /** The keys in the order they were first met, which is the order the dictionary iterates them in. */
  function TallyOrder<T, K(==)>(xs: seq<T>, key: T -> Option<K>, n: nat): seq<K>
    requires n <= |xs|
  {
    if n == 0 then []
    else
      var before := TallyOrder(xs, key, n - 1);
      match key(xs[n - 1])
      case None => before
      case Some(k) => if k in before then before else before + [k]
  }

  /** What an item adds to key `k`'s entry. */
  function Share<T, K(==)>(key: T -> Option<K>, val: T -> real, k: K): T -> real {
    x => if key(x) == Some(k) then val(x) else 0.0
  }

  /** What an item adds to the dictionary as a whole: its value, unless it is skipped. */
  function Counted<T, K>(key: T -> Option<K>, val: T -> real): T -> real {
    x => if key(x).Some? then val(x) else 0.0
  }

  /** Each entry is the sum of the values of the items filed under its key; an absent key reads as that empty sum. */
  lemma {:induction false} TallyValue<T, K>(xs: seq<T>, key: T -> Option<K>, val: T -> real, n: nat, k: K)
    requires n <= |xs|
    ensures Get(Tally(xs, key, val, n), k) == RealSum(xs[..n], Share(key, val, k))
    decreases n
  {
    if n > 0 {
      TallyValue(xs, key, val, n - 1, k);
      PrefixSum(xs, Share(key, val, k), n);
    }
  }

  /** The keys are exactly the keys of the items not skipped. */
  lemma {:induction false} TallyDomain<T, K>(xs: seq<T>, key: T -> Option<K>, val: T -> real, n: nat, k: K)
    requires n <= |xs|
    ensures k in Tally(xs, key, val, n) <==> exists i :: 0 <= i < n && key(xs[i]) == Some(k)
    decreases n
  {
    if n > 0 {
      TallyDomain(xs, key, val, n - 1, k);
    }
  }

  /** The key order lists every key of the dictionary once and nothing else. */
  lemma {:induction false} TallyOrderFacts<T, K>(xs: seq<T>, key: T -> Option<K>, val: T -> real, n: nat)
    requires n <= |xs|
    ensures forall k :: k in TallyOrder(xs, key, n) <==> k in Tally(xs, key, val, n)
    ensures NoRepeats(TallyOrder(xs, key, n))
    decreases n
  {
    if n > 0 {
      TallyOrderFacts(xs, key, val, n - 1);
      var before := TallyOrder(xs, key, n - 1);
      if key(xs[n - 1]).Some? && key(xs[n - 1]).value !in before {
        NoRepeatsAppend(before, key(xs[n - 1]).value);
      }
    }
  }

  /** Nothing is lost or counted twice: the entries add up to the values of all items not skipped. */
  lemma {:induction false} TallyTotal<T, K>(xs: seq<T>, key: T -> Option<K>, val: T -> real, n: nat)
    requires n <= |xs|
    ensures RealSum(TallyOrder(xs, key, n), ValueIn(Tally(xs, key, val, n))) == RealSum(xs[..n], Counted(key, val))
    decreases n
  {
    if n > 0 {
      TallyTotal(xs, key, val, n - 1);
      PrefixSum(xs, Counted(key, val), n);
      TallyOrderFacts(xs, key, val, n - 1);
      var m := Tally(xs, key, val, n - 1);
      var before := TallyOrder(xs, key, n - 1);
      if key(xs[n - 1]).Some? {
        var k := key(xs[n - 1]).value;
        var v := val(xs[n - 1]);
        var m' := m[k := Get(m, k) + v];
        assert Tally(xs, key, val, n) == m';
        RealSumBump(before, ValueIn(m), ValueIn(m'), k, v);
        if k !in before {
          RealSumAppend(before, k, ValueIn(m'));
        }
      }
    }
  }

  /** Adding `v` to the term of one listed key adds `v` to a sum over keys listed once each. */
  lemma {:induction false} RealSumBump<K>(ks: seq<K>, f: K -> real, g: K -> real, x: K, v: real)
    requires NoRepeats(ks)
    requires forall k :: k in ks ==> g(k) == f(k) + (if k == x then v else 0.0)
    ensures RealSum(ks, g) == RealSum(ks, f) + (if x in ks then v else 0.0)
  {
    if ks != [] {
      var rest := ks[1..];
      assert NoRepeats(rest) by {
        forall p, q | 0 <= p < q < |rest|
          ensures rest[p] != rest[q]
        {
          assert rest[p] == ks[p + 1] && rest[q] == ks[q + 1];
        }
      }
      RealSumBump(rest, f, g, x, v);
      if ks[0] == x {
        assert x !in rest by {
          forall q | 0 <= q < |rest|
            ensures rest[q] != x
          {
            assert rest[q] == ks[q + 1];
          }
        }
      }
    }
  }

  /** A prefix sum grows by the next item's term. */
  lemma PrefixSum<T>(xs: seq<T>, f: T -> real, n: nat)
    requires 0 < n <= |xs|
    ensures RealSum(xs[..n], f) == RealSum(xs[..n - 1], f) + f(xs[n - 1])
  {
    assert xs[..n] == xs[..n - 1] + [xs[n - 1]];
    RealSumAppend(xs[..n - 1], xs[n - 1], f);
  }

  /** The dictionary after `n` items depends on those items only. */
  lemma {:induction false} TallyPrefix<T, K>(xs: seq<T>, ys: seq<T>, key: T -> Option<K>, val: T -> real, n: nat)
    requires n <= |xs| && n <= |ys| && xs[..n] == ys[..n]
    ensures Tally(xs, key, val, n) == Tally(ys, key, val, n)
    decreases n
  {
    if n > 0 {
      assert xs[n - 1] == xs[..n][n - 1] == ys[n - 1];
      assert xs[..n - 1] == xs[..n][..n - 1] == ys[..n - 1];
      TallyPrefix(xs, ys, key, val, n - 1);
    }
  }

  /** One more item: `d[k] += v` when its key is `k`, nothing when it is skipped. */
  lemma TallyAppend<T, K>(xs: seq<T>, x: T, key: T -> Option<K>, val: T -> real)
    ensures Tally(xs + [x], key, val, |xs| + 1) ==
      match key(x)
      case None => Tally(xs, key, val, |xs|)
      case Some(k) => Tally(xs, key, val, |xs|)[k := Get(Tally(xs, key, val, |xs|), k) + val(x)]
  {
    assert (xs + [x])[..|xs|] == xs[..|xs|];
    TallyPrefix(xs + [x], xs, key, val, |xs|);
  }

  /** The sum over two lists joined is the sum of their sums. */
  lemma {:induction false} RealSumConcat<T>(xs: seq<T>, ys: seq<T>, f: T -> real)
    ensures RealSum(xs + ys, f) == RealSum(xs, f) + RealSum(ys, f)
  {
    if xs != [] {
      RealSumConcat(xs[1..], ys, f);
      assert (xs + ys)[0] == xs[0];
      assert (xs + ys)[1..] == xs[1..] + ys;
    } else {
      assert xs + ys == ys;
    }
  }

  /** Terms that are all zero sum to zero. */
  lemma {:induction false} RealSumZero<T>(xs: seq<T>, f: T -> real)
    requires forall i :: 0 <= i < |xs| ==> f(xs[i]) == 0.0
    ensures RealSum(xs, f) == 0.0
  {
    if xs != [] {
      assert forall i :: 0 <= i < |xs[1..]| ==> xs[1..][i] == xs[i + 1];
      RealSumZero(xs[1..], f);
    }
  }

  /** When every term outside `xs[a..b]` is zero, the sum is the sum over that segment. */
  lemma RealSumOfSegment<T>(xs: seq<T>, f: T -> real, a: nat, b: nat)
    requires a <= b <= |xs|
    requires forall i :: 0 <= i < |xs| && !(a <= i < b) ==> f(xs[i]) == 0.0
    ensures RealSum(xs, f) == RealSum(xs[a..b], f)
  {
    var pre, mid, post := xs[..a], xs[a..b], xs[b..];
    assert xs[..b] == pre + mid;
    assert xs == xs[..b] + post;
    forall i | 0 <= i < |pre|
      ensures f(pre[i]) == 0.0
    {
      assert pre[i] == xs[i];
    }
    forall i | 0 <= i < |post|
      ensures f(post[i]) == 0.0
    {
      assert post[i] == xs[b + i];
    }
    RealSumZero(pre, f);
    RealSumZero(post, f);
    RealSumConcat(xs[..b], post, f);
    RealSumConcat(pre, mid, f);
  }

  /** Summing two term functions separately or together gives the same. */
  lemma {:induction false} RealSumAdd<T>(xs: seq<T>, f: T -> real, g: T -> real, h: T -> real)
    requires forall x :: x in xs ==> h(x) == f(x) + g(x)
    ensures RealSum(xs, h) == RealSum(xs, f) + RealSum(xs, g)
  {
    if xs != [] {
      RealSumAdd(xs[1..], f, g, h);
    }
  }

  /** One item further, filed under `k`: its value is added to `k`'s entry. */
  lemma TallyAdded<T, K>(xs: seq<T>, key: T -> Option<K>, val: T -> real, i: nat, m: map<K, real>, k: K)
    requires i < |xs| && m == Tally(xs, key, val, i) && key(xs[i]) == Some(k)
    ensures m[k := Get(m, k) + val(xs[i])] == Tally(xs, key, val, i + 1)
  {
  }

  /** One item further, skipped: nothing changes. */
  lemma TallySkipped<T, K>(xs: seq<T>, key: T -> Option<K>, val: T -> real, i: nat, m: map<K, real>)
    requires i < |xs| && m == Tally(xs, key, val, i) && key(xs[i]) == None
    ensures m == Tally(xs, key, val, i + 1)
  {
  }

  /**
   * Summing under a coarser key: when an item is filed under `c` exactly when
   * its fine key is one of the distinct keys `ks`, the coarse entry of `c` is
   * the sum of the fine entries of `ks`.
   */
  lemma {:induction false} TallyCoarsen<T, K, C>(xs: seq<T>, fine: T -> Option<K>, coarse: T -> Option<C>, val: T -> real,
                                                  n: nat, c: C, ks: seq<K>)
    requires n <= |xs| && NoRepeats(ks)
    requires forall i :: 0 <= i < |xs| ==> (coarse(xs[i]) == Some(c) <==> fine(xs[i]).Some? && fine(xs[i]).value in ks)
    ensures Get(Tally(xs, coarse, val, n), c) == RealSum(ks, ValueIn(Tally(xs, fine, val, n)))
    decreases n
  {
    if n == 0 {
      RealSumZero(ks, ValueIn(Tally(xs, fine, val, 0)));
    } else {
      TallyCoarsen(xs, fine, coarse, val, n - 1, c, ks);
      var x := xs[n - 1];
      var m := Tally(xs, fine, val, n - 1);
      match fine(x)
      case None =>
        assert Tally(xs, fine, val, n) == m;
      case Some(k) =>
        var m' := m[k := Get(m, k) + val(x)];
        assert Tally(xs, fine, val, n) == m';
        RealSumBump(ks, ValueIn(m), ValueIn(m'), k, val(x));
    }
  }
}
