/**
 * Pending-future registries. The leader keeps three of them: the
 * replicator's commit waiters and each replica's ping waiters (both
 * `TreeMap`s, walked in ascending index order), and each replica's replicate
 * waiters (a `HashMap`, only ever probed index by index). An index is present
 * while its waiter is pending and is removed when the waiter is resolved.
 *
 * A `TreeMap` is modelled as the sequence of its entries in ascending key
 * order; a `HashMap` as a `map`.
 */
module Registry {
  import opened Types

  /** An ordered registry: `(index, future)` pairs by strictly ascending index. */
  type Ordered = seq<(int, FutureId)>

  /** An unordered registry. */
  type Pending = map<int, FutureId>

  predicate StrictlyAscending(t: Ordered) {
    forall i, j :: 0 <= i < j < |t| ==> t[i].0 < t[j].0
  }

  /** The indices that have a pending waiter. */
  function Keys(t: Ordered): set<int> {
    set p | p in t :: p.0
  }

  /** In an ordered registry an index has at most one waiter. */
  lemma KeyHasOneFuture(t: Ordered, p: (int, FutureId), q: (int, FutureId))
    requires StrictlyAscending(t) && p in t && q in t && p.0 == q.0
    ensures p == q
  {
    var i :| 0 <= i < |t| && t[i] == p;
    var j :| 0 <= j < |t| && t[j] == q;
    assert i == j;
  }

  /** The future registered for `key` (`TreeMap.get`). */
  function Get(t: Ordered, key: int): (r: Option<FutureId>)
    requires StrictlyAscending(t)
    ensures r.Some? <==> key in Keys(t)
    ensures r.Some? ==> (key, r.value) in t
  {
    if |t| == 0 then None
    else if t[0].0 == key then Some(t[0].1)
    else
      var r := Get(t[1..], key);
      assert forall p :: p in t[1..] ==> p in t;
      assert Keys(t) == {t[0].0} + Keys(t[1..]) by {
        assert t == [t[0]] + t[1..];
      }
      r
  }

  /** The largest registered index (`TreeMap.lastKey`). */
  function LastKey(t: Ordered): (k: int)
    requires StrictlyAscending(t) && |t| > 0
    ensures k in Keys(t) && forall p :: p in t ==> p.0 <= k
  {
    assert t[|t| - 1] in t;
    t[|t| - 1].0
  }

  /**
   * Registers `id` for `key`, replacing any waiter already registered for
   * it, as `TreeMap.put` does.
   */
  function Put(t: Ordered, key: int, id: FutureId): (r: Ordered)
    requires StrictlyAscending(t)
    ensures StrictlyAscending(r)
    ensures (key, id) in r
    ensures forall p :: p in r ==> p == (key, id) || (p in t && p.0 != key)
    ensures forall p :: p in t && p.0 != key ==> p in r
    ensures Keys(r) == Keys(t) + {key}
  {
    if |t| == 0 then [(key, id)]
    else if key < t[0].0 then
      PrependAscending((key, id), t);
      [(key, id)] + t
    else if key == t[0].0 then
      PrependAscending((key, id), t[1..]);
      [(key, id)] + t[1..]
    else
      var r := Put(t[1..], key, id);
      PrependAscending(t[0], r);
      [t[0]] + r
  }

  /** Prepending a smaller index to an ascending sequence keeps it ascending. */
  lemma PrependAscending(p: (int, FutureId), t: Ordered)
    requires StrictlyAscending(t)
    requires forall q :: q in t ==> p.0 < q.0
    ensures StrictlyAscending([p] + t)
  {
    var s := [p] + t;
    forall i, j | 0 <= i < j < |s| ensures s[i].0 < s[j].0 {
      assert s[j] == t[j - 1];
      if i > 0 {
        assert s[i] == t[i - 1];
      } else {
        assert t[j - 1] in t;
      }
    }
  }

  /** The tail of an ordered registry is ordered and lies above its head. */
  lemma AscendingTail(t: Ordered)
    requires StrictlyAscending(t) && |t| > 0
    ensures StrictlyAscending(t[1..])
    ensures forall p :: p in t[1..] ==> t[0].0 < p.0
    ensures forall p :: p in t <==> p == t[0] || p in t[1..]
  {
    forall p | p in t[1..] ensures t[0].0 < p.0 {
      var j :| 0 <= j < |t[1..]| && t[1..][j] == p;
      assert t[j + 1] == p;
    }
    assert t == [t[0]] + t[1..];
  }

  /** What resolving part of an ordered registry leaves behind and takes out. */
  datatype Split = Split(rest: Ordered, taken: Ordered)

  /** Every slice of an ordered registry is ordered. */
  lemma AscendingSlice(t: Ordered, lo: int, hi: int)
    requires StrictlyAscending(t) && 0 <= lo <= hi <= |t|
    ensures StrictlyAscending(t[lo..hi])
  {
    forall i, j | 0 <= i < j < hi - lo ensures t[lo..hi][i].0 < t[lo..hi][j].0 {
      assert t[lo..hi][i] == t[lo + i] && t[lo..hi][j] == t[lo + j];
    }
  }

  lemma HeadAtMost(t: Ordered, n: int, bound: int)
    requires 0 <= n <= |t| && forall i :: 0 <= i < n ==> t[i].0 <= bound
    ensures forall p :: p in t[..n] ==> p.0 <= bound
  {
    forall p | p in t[..n] ensures p.0 <= bound {
      var j :| 0 <= j < n && t[..n][j] == p;
      assert t[j] == p;
    }
  }

  lemma TailAbove(t: Ordered, n: int, bound: int)
    requires StrictlyAscending(t) && 0 <= n <= |t| && (n < |t| ==> t[n].0 > bound)
    ensures forall p :: p in t[n..] ==> p.0 > bound
  {
    forall p | p in t[n..] ensures p.0 > bound {
      var j :| 0 <= j < |t| - n && t[n..][j] == p;
      assert t[n + j] == p;
      assert j == 0 || t[n].0 < t[n + j].0;
    }
  }

  /** The number of leading waiters whose index is at most `bound`. */
  function PrefixAtMost(t: Ordered, bound: int): (n: nat)
    ensures n <= |t|
    ensures forall i :: 0 <= i < n ==> t[i].0 <= bound
    ensures n < |t| ==> t[n].0 > bound
  {
    if |t| == 0 || t[0].0 > bound then 0
    else
      var n := PrefixAtMost(t[1..], bound);
      assert forall i :: 1 <= i < n + 1 ==> t[i] == t[1..][i - 1];
      n + 1
  }

  /**
   * Walks the registry in ascending index order, removing every waiter
   * while its index is at most `bound` and stopping at the first larger one
   * (the iterator loop of `Replicator.triggerCommitFutures`, and the cleared
   * `headMap(bound, true)` of `Replica.triggerPingFutures`).
   */
  function TakeUpTo(t: Ordered, bound: int): (d: Split)
    requires StrictlyAscending(t)
    ensures d.taken + d.rest == t
    ensures forall p :: p in d.taken ==> p.0 <= bound
    ensures forall p :: p in d.rest ==> p.0 > bound
    ensures StrictlyAscending(d.taken) && StrictlyAscending(d.rest)
  {
    var n := PrefixAtMost(t, bound);
    HeadAtMost(t, n, bound);
    TailAbove(t, n, bound);
    assert t[..n] + t[n..] == t;
    AscendingSlice(t, 0, n);
    AscendingSlice(t, n, |t|);
    Split(t[n..], t[..n])
  }

  /** Removes the waiter of one index, if there is one (`TreeMap.remove`). */
  function TakeOne(t: Ordered, key: int): (d: Split)
    requires StrictlyAscending(t)
    ensures StrictlyAscending(d.rest)
    ensures forall p :: p in d.rest <==> p in t && p.0 != key
    ensures key in Keys(t) ==> d.taken == [(key, Get(t, key).value)]
    ensures key !in Keys(t) ==> d.taken == [] && d.rest == t
  {
    if |t| == 0 then Split(t, [])
    else
      AscendingTail(t);
      assert Keys(t) == {t[0].0} + Keys(t[1..]);
      if t[0].0 == key then
        Split(t[1..], [t[0]])
      else
        var d := TakeOne(t[1..], key);
        PrependAscending(t[0], d.rest);
        Split([t[0]] + d.rest, d.taken)
  }

  /** What resolving part of an unordered registry leaves behind and takes out. */
  datatype Taken = Taken(rest: Pending, taken: Ordered)

  /**
   * `d` resolves exactly the waiters of `reg` whose index lies in
   * `lo..hi`: the taken pairs are those waiters, in ascending index order,
   * and every other waiter stays registered with its own future.
   */
  ghost predicate SplitsRange(reg: Pending, d: Taken, lo: int, hi: int) {
    && (forall k :: k in d.rest <==> k in reg && !(lo <= k <= hi))
    && (forall k :: k in d.rest ==> d.rest[k] == reg[k])
    && (forall p :: p in d.taken ==> p.0 in reg && reg[p.0] == p.1 && lo <= p.0 <= hi)
    && (forall k :: k in reg && lo <= k <= hi ==> (k, reg[k]) in d.taken)
    && StrictlyAscending(d.taken)
  }

  /**
   * Removes the waiter of every index `lo..hi`, in ascending order, and does
   * nothing at all when `hi < lo` (the loops of both
   * `Replica.triggerReplicateFutures` overloads).
   */
  function TakeRange(reg: Pending, lo: int, hi: int): (d: Taken)
    ensures SplitsRange(reg, d, lo, hi)
    ensures hi < lo ==> d == Taken(reg, [])
    decreases hi - lo + 1
  {
    if hi < lo then Taken(reg, [])
    else
      var d := TakeRange(reg - {lo}, lo + 1, hi);
      if lo in reg then
        PrependAscending((lo, reg[lo]), d.taken);
        Taken(d.rest, [(lo, reg[lo])] + d.taken)
      else
        d
  }

  /** Completes every taken waiter with the outcome `f` assigns its index. */
  function Settle(t: Ordered, f: int -> Outcome): (r: seq<Resolution>)
    ensures |r| == |t|
    ensures forall i :: 0 <= i < |t| ==> r[i] == Resolution(t[i].1, f(t[i].0))
  {
    seq(|t|, i requires 0 <= i < |t| => Resolution(t[i].1, f(t[i].0)))
  }

  /** Settling resolves exactly the taken waiters, each with the outcome for its index. */
  lemma SettleCovers(t: Ordered, f: int -> Outcome)
    ensures forall p :: p in t ==> Resolution(p.1, f(p.0)) in Settle(t, f)
    ensures forall x :: x in Settle(t, f) ==> exists p :: p in t && x == Resolution(p.1, f(p.0))
  {
    var r := Settle(t, f);
    forall p | p in t ensures Resolution(p.1, f(p.0)) in r {
      var i :| 0 <= i < |t| && t[i] == p;
      assert r[i] == Resolution(p.1, f(p.0));
    }
    forall x | x in r ensures exists p :: p in t && x == Resolution(p.1, f(p.0)) {
      var i :| 0 <= i < |r| && r[i] == x;
      assert t[i] in t;
    }
  }
}
