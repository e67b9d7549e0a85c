/**
 * Top-k selection as TopK does it: every (value, index) pair is pushed onto a
 * std::priority_queue, a max-heap under std::pair's lexicographic order, and
 * the top is popped k times. Pairs compare by value first and by index on a
 * tie, so among equal values the larger index comes out first. Since the
 * indices are distinct, no two pairs are equal and the pop order is a strict
 * descending order.
 *
 * The queue is modelled by the indices already popped: its top is the
 * greatest index not yet popped. Values are integers; any totally ordered
 * value type behaves the same.
 */
module Ranking {
  import opened Wrappers

  /** (d[i], i) is greater than (d[j], j) in std::pair's lexicographic order. */
  predicate Above(d: seq<int>, i: int, j: int)
    requires 0 <= i < |d| && 0 <= j < |d|
  {
    d[i] > d[j] || (d[i] == d[j] && i > j)
  }

  /** No index occurs twice in `s`. */
  predicate Distinct(s: seq<int>) {
    forall a, b :: 0 <= a < b < |s| ==> s[a] != s[b]
  }

  /** Every element of `s` is an index into a sequence of length n. */
  predicate InRange(s: seq<int>, n: int) {
    forall a :: 0 <= a < |s| ==> 0 <= s[a] < n
  }

  /**
   * q.top() of the queue that holds the pairs of indices 0 .. n-1 not in
   * `popped`; None when that queue is empty.
   */
  function Top(d: seq<int>, popped: seq<int>, n: nat): (r: Option<int>)
    requires n <= |d|
    ensures r.None? <==> forall i :: 0 <= i < n ==> i in popped
    ensures r.Some? ==> 0 <= r.value < n && r.value !in popped
    ensures r.Some? ==> forall j :: 0 <= j < n && j !in popped && j != r.value ==> Above(d, r.value, j)
    decreases n
  {
    if n == 0 then None
    else
      var c := n - 1;
      var best := Top(d, popped, n - 1);
      if c in popped then best
      else if best.None? then Some(c)
      else if Above(d, c, best.value) then Some(c)
      else best
  }

  /** `p` without its element at position `at`: still distinct, and holding every other element of `p`. */
  lemma RemoveAt(p: seq<int>, at: nat) returns (q: seq<int>)
    requires Distinct(p) && at < |p|
    ensures |q| == |p| - 1 && Distinct(q)
    ensures forall v :: v in q <==> v in p && v != p[at]
  {
    q := p[..at] + p[at + 1..];
    assert forall a :: 0 <= a < |q| ==> q[a] == (if a < at then p[a] else p[a + 1]);
    forall v | v in p && v != p[at]
      ensures v in q
    {
      var b :| 0 <= b < |p| && p[b] == v;
      if b < at {
        assert q[b] == v;
      } else {
        assert q[b - 1] == v;
      }
    }
  }

  /** A sequence of fewer than n distinct indices below n misses one of them. */
  lemma {:induction false} MissingIndex(p: seq<int>, n: nat)
    requires Distinct(p) && InRange(p, n) && |p| < n
    ensures exists i :: 0 <= i < n && i !in p
    decreases n
  {
    if n - 1 in p {
      var at :| 0 <= at < |p| && p[at] == n - 1;
      var q := RemoveAt(p, at);
      assert InRange(q, n - 1) by {
        forall a | 0 <= a < |q|
          ensures 0 <= q[a] < n - 1
        {
          assert q[a] in q;
        }
      }
      MissingIndex(q, n - 1);
      var i :| 0 <= i < n - 1 && i !in q;
      assert 0 <= i < n && i !in p;
    } else {
      assert 0 <= n - 1 < n;
    }
  }

  /** A sequence of distinct indices below n is no longer than n. */
  lemma {:induction false} DistinctBound(p: seq<int>, n: nat)
    requires Distinct(p) && InRange(p, n)
    ensures |p| <= n
    decreases n
  {
    if |p| == 0 {
    } else if n - 1 in p {
      var at :| 0 <= at < |p| && p[at] == n - 1;
      var q := RemoveAt(p, at);
      assert InRange(q, n - 1) by {
        forall a | 0 <= a < |q|
          ensures 0 <= q[a] < n - 1
        {
          assert q[a] in q;
        }
      }
      DistinctBound(q, n - 1);
    } else {
      assert 0 <= p[0] < n;
      DistinctBound(p, n - 1);
    }
  }

  /** n distinct indices below n are all of them. */
  lemma CoversAll(p: seq<int>, n: nat)
    requires Distinct(p) && InRange(p, n) && |p| == n
    ensures forall i :: 0 <= i < n ==> i in p
  {
    forall i | 0 <= i < n
      ensures i in p
    {
      if i !in p {
        var q := seq(|p|, a requires 0 <= a < |p| => if p[a] > i then p[a] - 1 else p[a]);
        assert Distinct(q);
        DistinctBound(q, n - 1);
      }
    }
  }

  /**
   * The first k indices the priority queue pops: distinct, in range, in
   * strictly descending (value, index) order, and each above every index
   * not popped.
   */
  function Pops(d: seq<int>, k: nat): (r: seq<int>)
    requires k <= |d|
    ensures |r| == k && InRange(r, |d|) && Distinct(r)
    ensures forall a, b :: 0 <= a < b < k ==> Above(d, r[a], r[b])
    ensures forall a, j :: 0 <= a < k && 0 <= j < |d| && j !in r ==> Above(d, r[a], j)
    decreases k
  {
    if k == 0 then []
    else
      var p := Pops(d, k - 1);
      MissingIndex(p, |d|);
      var t := Top(d, p, |d|);
      p + [t.value]
  }

  /** What the first k pops are: the k greatest indices under (value, index), greatest first. */
  predicate IsTopK(d: seq<int>, k: nat, s: seq<int>) {
    && |s| == k
    && InRange(s, |d|)
    && (forall a, b :: 0 <= a < b < k ==> Above(d, s[a], s[b]))
    && (forall a, j :: 0 <= a < k && 0 <= j < |d| && j !in s ==> Above(d, s[a], j))
  }

  /** The pops are the only sequence that is the top k: any top k equals them. */
  lemma {:induction false} TopKUnique(d: seq<int>, k: nat, s: seq<int>)
    requires k <= |d| && IsTopK(d, k, s)
    ensures s == Pops(d, k)
  {
    if k > 0 {
      var p := s[..k - 1];
      var last := s[k - 1];
      assert s == p + [last];
      forall a, j | 0 <= a < k - 1 && 0 <= j < |d| && j !in p
        ensures Above(d, p[a], j)
      {
        if j != last {
          assert j !in s;
        }
      }
      TopKUnique(d, k - 1, p);
      forall b | 0 <= b < k - 1
        ensures p[b] != last
      {
        assert Above(d, s[b], s[k - 1]);
      }
      assert 0 <= last < |d| && last !in p;
      var t := Top(d, p, |d|);
      assert t.Some?;
      var top := t.value;
      assert top !in p;
      assert top != last ==> Above(d, top, last);
      assert top != last ==> top !in s;
      assert top != last ==> Above(d, last, top);
      assert top == last;
    }
  }

  /** Popping fewer times gives a prefix of popping more times. */
  lemma {:induction false} PopsPrefix(d: seq<int>, k: nat, m: nat)
    requires k <= m <= |d|
    ensures Pops(d, k) == Pops(d, m)[..k]
    decreases m
  {
    if k < m {
      PopsPrefix(d, k, m - 1);
      assert Pops(d, m)[..m - 1] == Pops(d, m - 1);
    }
  }

  /** Popping the whole queue lists every index once, in strictly descending (value, index) order. */
  lemma FullPopsIsDescendingSort(d: seq<int>)
    ensures forall i :: 0 <= i < |d| ==> i in Pops(d, |d|)
    ensures forall a, b :: 0 <= a < b < |d| ==> Above(d, Pops(d, |d|)[a], Pops(d, |d|)[b])
  {
    CoversAll(Pops(d, |d|), |d|);
  }

  /** The first pop is the greatest (value, index) pair: no other index is above it. */
  lemma FirstPopIsMaximum(d: seq<int>, k: nat)
    requires 0 < k <= |d|
    ensures forall j :: 0 <= j < |d| && j != Pops(d, k)[0] ==> Above(d, Pops(d, k)[0], j)
  {
    var r := Pops(d, k);
    forall j | 0 <= j < |d| && j != r[0]
      ensures Above(d, r[0], j)
    {
      if j in r {
        var b :| 0 <= b < k && r[b] == j;
        assert b != 0;
      }
    }
  }

  /** Equal values pop larger index first. */
  lemma TiesPopLargerIndexFirst(d: seq<int>, k: nat, a: nat, b: nat)
    requires k <= |d| && a < b < k
    requires d[Pops(d, k)[a]] == d[Pops(d, k)[b]]
    ensures Pops(d, k)[a] > Pops(d, k)[b]
  {
    assert Above(d, Pops(d, k)[a], Pops(d, k)[b]);
  }

  /** sol_counter, top1 and top5. */
  datatype Counters = Counters(solCounter: nat, top1: nat, top5: nat)

  /** The invariant of the counters: 0 <= top1 <= top5 <= sol_counter. */
  predicate Consistent(c: Counters) {
    c.top1 <= c.top5 <= c.solCounter
  }

  /**
   * The counter updates for one image whose popped indices are `popped`:
   * top5 counts a hit when the ground truth is among them, top1 when it is
   * the first, and sol_counter moves on to the next image.
   */
  function Tally(c: Counters, popped: seq<int>, solution: int): (c': Counters)
    ensures c'.solCounter == c.solCounter + 1
    ensures c.top5 <= c'.top5 <= c.top5 + 1
    ensures c.top1 <= c'.top1 && c'.top1 - c.top1 <= c'.top5 - c.top5
    ensures Consistent(c) ==> Consistent(c')
  {
    var hit1 := if |popped| > 0 && popped[0] == solution then 1 else 0;
    var hit5 := if solution in popped then 1 else 0;
    Counters(c.solCounter + 1, c.top1 + hit1, c.top5 + hit5)
  }

  /**
   * TopK's loop: pop k times, and for each pop equal to the ground truth add
   * one to top5, and one to top1 too when it is the first pop. Because the
   * popped indices are distinct, top5 rises by one exactly when the ground
   * truth is among them, and top1 exactly when it is the first.
   */
  method TopK(d: seq<int>, k: nat, solution: int, top1: nat, top5: nat)
    returns (popped: seq<int>, top1': nat, top5': nat)
    requires 0 < k <= |d|
    ensures popped == Pops(d, k)
    ensures top5' == top5 + (if solution in popped then 1 else 0)
    ensures top1' == top1 + (if popped[0] == solution then 1 else 0)
    ensures forall n: nat :: Tally(Counters(n, top1, top5), popped, solution) == Counters(n + 1, top1', top5')
  {
    popped := [];
    top1', top5' := top1, top5;
    var i := 0;
    while i < k
      invariant 0 <= i <= k
      invariant popped == Pops(d, i)
      invariant top5' == top5 + (if solution in popped then 1 else 0)
      invariant top1' == top1 + (if i > 0 && popped[0] == solution then 1 else 0)
    {
      MissingIndex(popped, |d|);
      var ki := Top(d, popped, |d|).value;
      if ki == solution {
        top5' := top5' + 1;
        if i == 0 {
          top1' := top1' + 1;
        }
      }
      popped := popped + [ki];
      i := i + 1;
    }
    assert |popped| == k > 0;
  }
}
