/**
 * The leader's replicator (`LeaderState.Replicator`): one replica per
 * follower, the quorum size, the commit waiters, and the rule that turns
 * the followers' `matchIndex` values into the cluster commit index.
 */
module Replicators {
  import opened Types
  import opened Protocol
  import opened Registry
  import Replicas
  import opened QuorumCounter

  datatype Replicator = Replicator(
    replicas: map<MemberId, Replicas.Replica>,
    order: seq<MemberId>,            // the replica list, in its current order
    quorum: int,
    quorumIndex: int,
    commitFutures: Ordered,
    nextId: FutureId)

  /**
   * The replica list and the replica map name the same followers, each
   * once; the quorum fits the list; commit waiters are ordered and were
   * issued before `nextId`.
   */
  ghost predicate Valid(rp: Replicator) {
    && Distinct(rp.order)
    && (forall m :: m in rp.order <==> m in rp.replicas)
    && (forall m :: m in rp.replicas ==> Replicas.Valid(rp.replicas[m]))
    && rp.quorumIndex == rp.quorum - 1
    && 0 <= rp.quorum <= |rp.order|
    && StrictlyAscending(rp.commitFutures)
    && (forall p :: p in rp.commitFutures ==> p.1 < rp.nextId)
  }

  /** Every member except the local one, in the members' order. */
  function Followers(members: seq<MemberId>, local: MemberId): (r: seq<MemberId>)
    requires Distinct(members)
    ensures forall m :: m in r <==> m in members && m != local
    ensures Distinct(r)
    ensures |r| == if local in members then |members| - 1 else |members|
  {
    if |members| == 0 then []
    else
      var rest := Followers(members[1..], local);
      assert forall m :: m in members <==> m == members[0] || m in members[1..] by {
        assert members == [members[0]] + members[1..];
      }
      assert members[0] !in members[1..];
      if members[0] == local then rest else [members[0]] + rest
  }

  /**
   * The replicator a new leader builds: a replica for every member but
   * itself, and a quorum of `floor(members / 2)` followers, the leader
   * counting implicitly as the remaining vote.
   */
  function NewReplicator(members: seq<MemberId>, local: MemberId, log: Log): (rp: Replicator)
    requires Distinct(members)
    ensures Valid(rp)
    ensures forall m :: m in rp.replicas <==> m in members && m != local
    ensures forall m :: m in rp.replicas ==> rp.replicas[m] == Replicas.NewReplica(m, log)
    ensures rp.quorum == |members| / 2 && rp.quorumIndex == rp.quorum - 1
    ensures local in members ==> |rp.order| + 1 == |members|
    ensures rp.commitFutures == []
  {
    var order := Followers(members, local);
    var replicas := map m | m in order :: Replicas.NewReplica(m, log);
    Replicator(replicas, order, |members| / 2, |members| / 2 - 1, [], 0)
  }

  /**
   * The sort key of a follower: its `matchIndex`, unknown read as 0. Only
   * followers with a replica are ever sorted; others read as 0 too.
   */
  function Key(reps: map<MemberId, Replicas.Replica>, m: MemberId): int {
    if m in reps then Replicas.MatchOrZero(reps[m]) else 0
  }

  ghost predicate SortedByMatch(s: seq<MemberId>, reps: map<MemberId, Replicas.Replica>) {
    forall i, j :: 0 <= i < j < |s| ==> Key(reps, s[i]) <= Key(reps, s[j])
  }

  /** Inserts `x` before the first follower whose key is at least its own. */
  function Insert(x: MemberId, s: seq<MemberId>, reps: map<MemberId, Replicas.Replica>): (r: seq<MemberId>)
    ensures multiset(r) == multiset(s) + multiset{x}
    ensures |r| == |s| + 1
  {
    if |s| == 0 || Key(reps, x) <= Key(reps, s[0]) then
      [x] + s
    else
      assert s == [s[0]] + s[1..];
      [s[0]] + Insert(x, s[1..], reps)
  }

  /** The members of a list are those of its multiset. */
  lemma MembersOfMultiset(a: seq<MemberId>, b: seq<MemberId>, x: MemberId)
    requires multiset(a) == multiset(b) + multiset{x}
    ensures forall m :: m in a <==> m == x || m in b
  {
    forall m ensures m in a <==> m == x || m in b {
      assert m in a <==> m in multiset(a);
      assert m in b <==> m in multiset(b);
    }
  }

  lemma SortedTail(s: seq<MemberId>, reps: map<MemberId, Replicas.Replica>)
    requires |s| > 0 && SortedByMatch(s, reps)
    ensures SortedByMatch(s[1..], reps)
    ensures forall m :: m in s[1..] ==> Key(reps, s[0]) <= Key(reps, m)
  {
    forall m | m in s[1..] ensures Key(reps, s[0]) <= Key(reps, m) {
      var j :| 0 <= j < |s[1..]| && s[1..][j] == m;
      assert s[j + 1] == m;
    }
  }

  lemma ConsSorted(a: MemberId, rest: seq<MemberId>, reps: map<MemberId, Replicas.Replica>)
    requires SortedByMatch(rest, reps)
    requires forall m :: m in rest ==> Key(reps, a) <= Key(reps, m)
    ensures SortedByMatch([a] + rest, reps)
  {
    var r := [a] + rest;
    forall i, j | 0 <= i < j < |r| ensures Key(reps, r[i]) <= Key(reps, r[j]) {
      assert r[j] == rest[j - 1];
      if i > 0 {
        assert r[i] == rest[i - 1];
      } else {
        assert rest[j - 1] in rest;
      }
    }
  }

  lemma ConsDistinct<T>(a: T, rest: seq<T>)
    requires Distinct(rest) && a !in rest
    ensures Distinct([a] + rest)
  {
    var r := [a] + rest;
    forall i, j | 0 <= i < j < |r| ensures r[i] != r[j] {
      assert r[j] == rest[j - 1];
      if i > 0 {
        assert r[i] == rest[i - 1];
      } else {
        assert rest[j - 1] in rest;
      }
    }
  }

  /** Inserting into a sorted list keeps it sorted, and keeps it duplicate-free. */
  lemma {:induction false} InsertKeepsOrder(x: MemberId, s: seq<MemberId>, reps: map<MemberId, Replicas.Replica>)
    requires SortedByMatch(s, reps)
    ensures SortedByMatch(Insert(x, s, reps), reps)
    ensures Distinct(s) && x !in s ==> Distinct(Insert(x, s, reps))
  {
    if |s| == 0 || Key(reps, x) <= Key(reps, s[0]) {
      if |s| > 0 {
        SortedTail(s, reps);
        assert s == [s[0]] + s[1..];
      }
      ConsSorted(x, s, reps);
      if Distinct(s) && x !in s {
        ConsDistinct(x, s);
      }
    } else {
      SortedTail(s, reps);
      var rest := Insert(x, s[1..], reps);
      InsertKeepsOrder(x, s[1..], reps);
      MembersOfMultiset(rest, s[1..], x);
      ConsSorted(s[0], rest, reps);
      if Distinct(s) && x !in s {
        assert s[0] !in s[1..];
        assert Distinct(s[1..]);
        ConsDistinct(s[0], rest);
      }
    }
  }

  /**
   * The replica list sorted by ascending key. Equal keys keep their
   * relative order (`SortByMatchIsStable`), as in the stable sort
   * `Collections.sort` performs.
   */
  function SortByMatch(s: seq<MemberId>, reps: map<MemberId, Replicas.Replica>): (r: seq<MemberId>)
    ensures multiset(r) == multiset(s)
    ensures |r| == |s|
  {
    if |s| == 0 then []
    else
      assert s == [s[0]] + s[1..];
      Insert(s[0], SortByMatch(s[1..], reps), reps)
  }

  /** The sorted list is ordered by key, holds the same followers, and is duplicate-free when the input is. */
  lemma {:induction false} SortByMatchSorts(s: seq<MemberId>, reps: map<MemberId, Replicas.Replica>)
    ensures SortedByMatch(SortByMatch(s, reps), reps)
    ensures forall m :: m in SortByMatch(s, reps) <==> m in s
    ensures Distinct(s) ==> Distinct(SortByMatch(s, reps))
  {
    var r := SortByMatch(s, reps);
    if |s| > 0 {
      assert s == [s[0]] + s[1..];
      var rest := SortByMatch(s[1..], reps);
      assert r == Insert(s[0], rest, reps);
      SortByMatchSorts(s[1..], reps);
      MembersOfMultiset(r, rest, s[0]);
      if Distinct(s) {
        assert s[0] !in s[1..];
        assert Distinct(s[1..]);
      }
      InsertKeepsOrder(s[0], rest, reps);
    }
  }

  /** The followers of `s` whose key is `v`, in list order. */
  function WithKey(s: seq<MemberId>, reps: map<MemberId, Replicas.Replica>, v: int): seq<MemberId> {
    if |s| == 0 then []
    else (if Key(reps, s[0]) == v then [s[0]] else []) + WithKey(s[1..], reps, v)
  }

  lemma WithKeyCons(a: MemberId, t: seq<MemberId>, reps: map<MemberId, Replicas.Replica>, v: int)
    ensures WithKey([a] + t, reps, v) == (if Key(reps, a) == v then [a] else []) + WithKey(t, reps, v)
  {
    assert ([a] + t)[1..] == t;
  }

  /** Insertion puts `x` ahead of every follower with its key, and leaves other keys' order alone. */
  lemma {:induction false} InsertIsStable(x: MemberId, s: seq<MemberId>, reps: map<MemberId, Replicas.Replica>, v: int)
    ensures WithKey(Insert(x, s, reps), reps, v) ==
            (if Key(reps, x) == v then [x] else []) + WithKey(s, reps, v)
  {
    if |s| == 0 || Key(reps, x) <= Key(reps, s[0]) {
      assert Insert(x, s, reps) == [x] + s;
      WithKeyCons(x, s, reps, v);
    } else {
      var rest := Insert(x, s[1..], reps);
      assert Insert(x, s, reps) == [s[0]] + rest;
      assert s == [s[0]] + s[1..];
      InsertIsStable(x, s[1..], reps, v);
      WithKeyCons(s[0], rest, reps, v);
      WithKeyCons(s[0], s[1..], reps, v);
      // `s[0]` sorts below `x`, so at most one of the two carries key `v`.
      if Key(reps, x) == v {
        assert Key(reps, s[0]) != v;
        assert WithKey(Insert(x, s, reps), reps, v) == WithKey(rest, reps, v);
        assert WithKey(s, reps, v) == WithKey(s[1..], reps, v);
      } else if Key(reps, s[0]) == v {
        assert WithKey(rest, reps, v) == WithKey(s[1..], reps, v);
      } else {
        assert WithKey(Insert(x, s, reps), reps, v) == WithKey(rest, reps, v);
      }
    }
  }

  /**
   * The sort is stable: for every key, the followers with that key appear
   * in the sorted list in the order they had before. This decides which of
   * two followers tied at 0 (one unmatched, one matched at 0) sits at the
   * position `checkCommits` reads.
   */
  lemma {:induction false} SortByMatchIsStable(s: seq<MemberId>, reps: map<MemberId, Replicas.Replica>, v: int)
    ensures WithKey(SortByMatch(s, reps), reps, v) == WithKey(s, reps, v)
  {
    if |s| > 0 {
      SortByMatchIsStable(s[1..], reps, v);
      InsertIsStable(s[0], SortByMatch(s[1..], reps), reps, v);
    }
  }

  /** The followers whose key is at least `v`. */
  function AtLeast(rp: Replicator, v: int): set<MemberId> {
    set m | m in rp.replicas && Replicas.MatchOrZero(rp.replicas[m]) >= v
  }

  /** The followers whose key is at most `v`. */
  function AtMost(rp: Replicator, v: int): set<MemberId> {
    set m | m in rp.replicas && Replicas.MatchOrZero(rp.replicas[m]) <= v
  }

  /**
   * `v` is the key at ascending position `k`: at least `|order| - k`
   * followers have a key of at least `v` and at least `k + 1` have a key of
   * at most `v`.
   */
  ghost predicate IsOrderStatistic(rp: Replicator, v: int, k: int) {
    && |AtLeast(rp, v)| >= |rp.order| - k
    && |AtMost(rp, v)| >= k + 1
  }

  /** `checkCommits` only computes anything when there are followers and a non-negative position. */
  predicate Guard(rp: Replicator) {
    |rp.order| > 0 && rp.quorumIndex >= 0
  }

  /**
   * The position the commit index is meant to be read from: `quorum` from
   * the top of the ascending list, so that `quorum` followers have reached
   * it.
   */
  function CommitPosition(rp: Replicator): (k: int)
    requires Valid(rp) && Guard(rp)
    ensures 0 <= k < |rp.order| && |rp.order| - k == rp.quorum
  {
    |rp.order| - rp.quorum
  }

  lemma SubsetCard<T>(a: set<T>, b: set<T>)
    requires a <= b
    ensures |a| <= |b|
  {
    assert a + (b - a) == b;
    assert a !! (b - a);
  }

  lemma {:induction false} DistinctCard<T>(s: seq<T>)
    requires Distinct(s)
    ensures |set x | x in s| == |s|
  {
    if |s| > 0 {
      DistinctCard(s[1..]);
      assert (set x | x in s) == {s[0]} + (set x | x in s[1..]);
      assert s[0] !in s[1..];
    }
  }

  /** In a sorted list the key at position `k` is an order statistic. */
  lemma PositionIsOrderStatistic(rp: Replicator, sorted: seq<MemberId>, k: int)
    requires Valid(rp) && 0 <= k < |sorted|
    requires multiset(sorted) == multiset(rp.order) && Distinct(sorted)
    requires forall m :: m in sorted <==> m in rp.order
    requires SortedByMatch(sorted, rp.replicas)
    ensures |AtLeast(rp, Key(rp.replicas, sorted[k]))| >= |rp.order| - k
    ensures |AtMost(rp, Key(rp.replicas, sorted[k]))| >= k + 1
  {
    var v := Key(rp.replicas, sorted[k]);
    assert |sorted| == |rp.order| by {
      assert |multiset(sorted)| == |multiset(rp.order)|;
    }
    var high := sorted[k..];
    var low := sorted[..k + 1];
    assert Distinct(high) && Distinct(low);
    DistinctCard(high);
    DistinctCard(low);
    assert (set x | x in high) <= AtLeast(rp, v) by {
      forall x | x in high ensures x in AtLeast(rp, v) {
        var j :| 0 <= j < |high| && high[j] == x;
        assert sorted[k + j] == x;
      }
    }
    assert (set x | x in low) <= AtMost(rp, v) by {
      forall x | x in low ensures x in AtMost(rp, v) {
        var j :| 0 <= j < |low| && low[j] == x;
        assert sorted[j] == x;
      }
    }
    SubsetCard((set x | x in high), AtLeast(rp, v));
    SubsetCard((set x | x in low), AtMost(rp, v));
  }

  /** What `checkCommits` leaves behind, reads, sets and resolves. */
  datatype Commits = Commits(
    replicator: Replicator,
    chosen: Option<int>,
    commitIndex: Option<int>,
    resolved: seq<Resolution>)

  /**
   * The commit waiters `after` are those of `before` above `v`; every waiter
   * at or below `v` is completed with its own index, in ascending index
   * order, and nothing else is.
   */
  ghost predicate CommitsResolved(before: Ordered, after: Ordered, resolved: seq<Resolution>, v: int) {
    && (forall p :: p in after <==> p in before && p.0 > v)
    && (forall p :: p in before && p.0 <= v ==> Resolution(p.1, Completed(p.0)) in resolved)
    && (forall x :: x in resolved ==> exists p :: p in before && p.0 <= v && x == Resolution(p.1, Completed(p.0)))
    && (forall i, j :: 0 <= i < j < |resolved| ==>
          resolved[i].outcome.Completed? && resolved[j].outcome.Completed? &&
          resolved[i].outcome.value < resolved[j].outcome.value)
  }

  /**
   * Completes the commit waiters up to `index` in ascending order
   * (`triggerCommitFutures`).
   */
  function TriggerCommitFutures(rp: Replicator, index: int): (c: (Replicator, seq<Resolution>))
    requires Valid(rp)
    ensures Valid(c.0) && c.0 == rp.(commitFutures := c.0.commitFutures)
    ensures CommitsResolved(rp.commitFutures, c.0.commitFutures, c.1, index)
    ensures forall x :: x in c.1 ==> x.outcome.Completed?
  {
    var d := TakeUpTo(rp.commitFutures, index);
    var resolved := Settle(d.taken, k => Completed(k));
    assert forall p :: p in rp.commitFutures <==> p in d.taken || p in d.rest;
    SettleCovers(d.taken, k => Completed(k));
    (rp.(commitFutures := d.rest), resolved)
  }

  /**
   * The body of `checkCommits`, reading position `k`: sort the replica list
   * by key (the sorted order is kept), read the `matchIndex` of the follower
   * at position `k`, and, when it is known, make it the commit index and
   * complete the commit waiters up to it. `commitIndex` is the leader's
   * commit index before.
   */
  function CommitFrom(rp: Replicator, commitIndex: Option<int>, k: int): (c: Commits)
    requires Valid(rp) && (Guard(rp) ==> 0 <= k < |rp.order|)
    ensures Valid(c.replicator)
    ensures c.replicator.replicas == rp.replicas && c.replicator.quorum == rp.quorum
    ensures multiset(c.replicator.order) == multiset(rp.order)
    ensures !Guard(rp) ==> c == Commits(rp, None, commitIndex, [])
    ensures Guard(rp) ==> SortedByMatch(c.replicator.order, rp.replicas)
    ensures Guard(rp) ==> c.replicator.order == SortByMatch(rp.order, rp.replicas)
    ensures Guard(rp) ==> |c.replicator.order| == |rp.order|
                          && c.chosen == rp.replicas[c.replicator.order[k]].matchIndex
    ensures c.chosen.Some? ==> Guard(rp) && IsOrderStatistic(rp, c.chosen.value, k)
    ensures c.chosen.Some? ==> exists m :: m in rp.replicas && rp.replicas[m].matchIndex == c.chosen
    ensures Guard(rp) && c.chosen.None? ==> exists m :: m in rp.replicas && rp.replicas[m].matchIndex.None?
    ensures c.commitIndex == if c.chosen.Some? then c.chosen else commitIndex
    ensures c.chosen.Some? ==>
              CommitsResolved(rp.commitFutures, c.replicator.commitFutures, c.resolved, c.chosen.value)
    ensures c.chosen.None? ==> c.replicator.commitFutures == rp.commitFutures && c.resolved == []
  {
    if Guard(rp) then
      var sorted := SortByMatch(rp.order, rp.replicas);
      SortByMatchSorts(rp.order, rp.replicas);
      var rp1 := rp.(order := sorted);
      var chosen := rp.replicas[sorted[k]].matchIndex;
      PositionIsOrderStatistic(rp, sorted, k);
      if chosen.Some? then
        var (rp2, resolved) := TriggerCommitFutures(rp1, chosen.value);
        Commits(rp2, chosen, chosen, resolved)
      else
        Commits(rp1, None, commitIndex, [])
    else
      Commits(rp, None, commitIndex, [])
  }

  /**
   * `checkCommits` as written: it reads ascending position `quorumIndex`
   * (`quorum - 1`), so the chosen index is one that all but `quorum - 1`
   * followers have reached, which is more than a majority needs.
   */
  function CheckCommitsAsWritten(rp: Replicator, commitIndex: Option<int>): (c: Commits)
    requires Valid(rp)
    ensures Valid(c.replicator) && c.replicator.replicas == rp.replicas
    ensures !Guard(rp) ==> c == Commits(rp, None, commitIndex, [])
    ensures Guard(rp) ==> SortedByMatch(c.replicator.order, rp.replicas)
                          && c.replicator.order == SortByMatch(rp.order, rp.replicas)
    ensures Guard(rp) ==> |c.replicator.order| == |rp.order|
                          && c.chosen == rp.replicas[c.replicator.order[rp.quorumIndex]].matchIndex
    ensures c.replicator.quorum == rp.quorum
    ensures c.chosen.Some? ==> Guard(rp) && IsOrderStatistic(rp, c.chosen.value, rp.quorumIndex)
    ensures c.chosen.None? ==> c.replicator.commitFutures == rp.commitFutures && c.resolved == []
    ensures c.chosen.Some? ==>
              && |AtLeast(rp, c.chosen.value)| >= |rp.order| - rp.quorum + 1
              && |AtMost(rp, c.chosen.value)| >= rp.quorum
              && exists m :: m in rp.replicas && rp.replicas[m].matchIndex == c.chosen
    ensures c.commitIndex == if c.chosen.Some? then c.chosen else commitIndex
    ensures c.chosen.Some? ==>
              CommitsResolved(rp.commitFutures, c.replicator.commitFutures, c.resolved, c.chosen.value)
  {
    CommitFrom(rp, commitIndex, rp.quorumIndex)
  }

  /**
   * `checkCommits` reading the position its own comment describes: the
   * `quorum`-th highest key. At least `quorum` followers have reached the
   * chosen index and at least `|order| - quorum + 1` have not gone past it.
   * This is the rule the rest of the model uses.
   */
  function CheckCommits(rp: Replicator, commitIndex: Option<int>): (c: Commits)
    requires Valid(rp)
    ensures Valid(c.replicator)
    ensures c.replicator.replicas == rp.replicas && c.replicator.quorum == rp.quorum
    ensures multiset(c.replicator.order) == multiset(rp.order)
    ensures !Guard(rp) ==> c == Commits(rp, None, commitIndex, [])
    ensures Guard(rp) ==> SortedByMatch(c.replicator.order, rp.replicas)
                          && c.replicator.order == SortByMatch(rp.order, rp.replicas)
    ensures Guard(rp) ==> |c.replicator.order| == |rp.order|
                          && c.chosen == rp.replicas[c.replicator.order[CommitPosition(rp)]].matchIndex
    ensures c.chosen.Some? ==>
              && Guard(rp)
              && |AtLeast(rp, c.chosen.value)| >= rp.quorum
              && |AtMost(rp, c.chosen.value)| >= |rp.order| - rp.quorum + 1
              && exists m :: m in rp.replicas && rp.replicas[m].matchIndex == c.chosen
    ensures Guard(rp) && c.chosen.None? ==> exists m :: m in rp.replicas && rp.replicas[m].matchIndex.None?
    ensures c.commitIndex == if c.chosen.Some? then c.chosen else commitIndex
    ensures c.chosen.Some? ==>
              CommitsResolved(rp.commitFutures, c.replicator.commitFutures, c.resolved, c.chosen.value)
    ensures c.chosen.None? ==> c.replicator.commitFutures == rp.commitFutures && c.resolved == []
  {
    if Guard(rp) then CommitFrom(rp, commitIndex, CommitPosition(rp))
    else CommitFrom(rp, commitIndex, 0)
  }

  /** The followers are exactly the keys of the replica map, one per list entry. */
  lemma FollowerCount(rp: Replicator)
    requires Valid(rp)
    ensures |rp.replicas.Keys| == |rp.order|
  {
    DistinctCard(rp.order);
    assert rp.replicas.Keys == set x | x in rp.order;
  }

  /** No follower is both at most `w` and at least `v > w`, so the two groups fit in the followers. */
  lemma SplitCounts(rp: Replicator, w: int, v: int)
    requires Valid(rp) && w < v
    ensures |AtMost(rp, w)| + |AtLeast(rp, v)| <= |rp.order|
  {
    FollowerCount(rp);
    var low := AtMost(rp, w);
    var high := AtLeast(rp, v);
    assert low !! high;
    SubsetCard(low + high, rp.replicas.Keys);
  }

  /**
   * An order statistic is unique: the two counting conditions pin a single
   * key value, so each rule picks the key at its position and nothing else.
   */
  lemma OrderStatisticIsUnique(rp: Replicator, v: int, w: int, k: int)
    requires Valid(rp) && IsOrderStatistic(rp, v, k) && IsOrderStatistic(rp, w, k)
    ensures v == w
  {
    if v < w {
      SplitCounts(rp, v, w);
    } else if w < v {
      SplitCounts(rp, w, v);
    }
  }

  /**
   * The safety of the rule. With the local member excluded from the
   * followers and a quorum of `floor(members / 2)`, at least `quorum`
   * followers have replicated the commit index (reading an unknown
   * `matchIndex` as 0), and together with the leader they form a strict
   * majority of the members.
   */
  lemma CommitIndexBackedByMajority(rp: Replicator, commitIndex: Option<int>)
    requires Valid(rp)
    requires rp.quorum == (|rp.order| + 1) / 2
    ensures var c := CheckCommits(rp, commitIndex);
            c.chosen.Some? ==> 2 * (|AtLeast(rp, c.chosen.value)| + 1) > |rp.order| + 1
  {
  }

  /** When the commit index is positive, the followers backing it have a known `matchIndex` of at least it. */
  lemma BackersHaveReplicated(rp: Replicator, v: int)
    requires v > 0
    ensures forall m :: m in AtLeast(rp, v) ==> rp.replicas[m].matchIndex.Some? && rp.replicas[m].matchIndex.value >= v
  {
  }

  /**
   * As followers' keys only grow, an order statistic only grows: if every
   * key of `later` is at least the same follower's key in `earlier`, the key
   * at position `k` of `later` is at least that of `earlier`.
   */
  lemma OrderStatisticIsMonotone(earlier: Replicator, later: Replicator, v: int, w: int, k: int)
    requires Valid(earlier) && Valid(later)
    requires later.replicas.Keys == earlier.replicas.Keys
    requires forall m :: m in earlier.replicas ==>
               Replicas.MatchOrZero(later.replicas[m]) >= Replicas.MatchOrZero(earlier.replicas[m])
    requires IsOrderStatistic(earlier, v, k) && IsOrderStatistic(later, w, k)
    ensures v <= w
  {
    if w < v {
      FollowerCount(earlier);
      FollowerCount(later);
      AtLeastGrows(earlier, later, v);
      SplitCounts(later, w, v);
    }
  }

  /** When no key drops, no follower leaves the group at or above `v`. */
  lemma AtLeastGrows(earlier: Replicator, later: Replicator, v: int)
    requires later.replicas.Keys == earlier.replicas.Keys
    requires forall m :: m in earlier.replicas ==>
               Replicas.MatchOrZero(later.replicas[m]) >= Replicas.MatchOrZero(earlier.replicas[m])
    ensures |AtLeast(earlier, v)| <= |AtLeast(later, v)|
  {
    assert AtLeast(earlier, v) <= AtLeast(later, v);
    SubsetCard(AtLeast(earlier, v), AtLeast(later, v));
  }


  /**
   * The position `checkCommits` reads leaves a three-member cluster waiting
   * for both followers: with one follower at index 7 and the other not yet
   * matched, the leader and that follower are a majority, yet the code as
   * written picks no commit index while the intended rule picks 7.
   */
  lemma AsWrittenWaitsForEveryFollower()
    ensures var rp := ThreeMembers();
            && Valid(rp) && rp.quorum == 3 / 2
            && CheckCommitsAsWritten(rp, None).chosen == None
            && CheckCommits(rp, None).chosen == Some(7)
            && 2 * (|AtLeast(rp, 7)| + 1) > 3
  {
    var rp := ThreeMembers();
    ThreeMembersSorted();
    var sorted := SortByMatch(rp.order, rp.replicas);
    assert Guard(rp) && CommitPosition(rp) == 1;
    assert CommitFrom(rp, None, 0).chosen == rp.replicas[sorted[0]].matchIndex;
    assert CommitFrom(rp, None, 1).chosen == rp.replicas[sorted[1]].matchIndex;
    ThreeMembersBackers();
  }

  lemma ThreeMembersBackers()
    ensures |AtLeast(ThreeMembers(), 7)| == 1
  {
    var rp := ThreeMembers();
    assert rp.replicas.Keys == {"b", "c"};
    assert "b" in AtLeast(rp, 7) && "c" !in AtLeast(rp, 7);
    assert AtLeast(rp, 7) == {"b"};
  }

  lemma ThreeMembersSorted()
    ensures SortByMatch(ThreeMembers().order, ThreeMembers().replicas) == ["c", "b"]
  {
    var rp := ThreeMembers();
    assert SortByMatch(["c"], rp.replicas) == ["c"];
    assert Insert("b", ["c"], rp.replicas) == ["c"] + Insert("b", [], rp.replicas);
  }

  /** A leader `a` with followers `b` (matched up to 7) and `c` (not yet matched). */
  function ThreeMembers(): (rp: Replicator)
    ensures Valid(rp) && rp.order == ["b", "c"] && rp.quorum == 1
  {
    var b := Replicas.Replica("b", Some(8), Some(7), [], map[], 0);
    var c := Replicas.Replica("c", Some(1), None, [], map[], 0);
    Replicator(map["b" := b, "c" := c], ["b", "c"], 1, 0, [], 0)
  }

  /** The per-follower call a fan-out makes. */
  datatype Call = PingAt(index: Option<int>) | CommitAt(commitIndex: int)

  function Invoke(r: Replicas.Replica, call: Call, ctx: Context): (s: Replicas.Step)
    requires Replicas.Valid(r)
    ensures Replicas.Valid(s.replica)
    ensures s.replica.matchIndex == r.matchIndex
  {
    match call
    case PingAt(index) => Replicas.Ping(r, index, ctx)
    case CommitAt(index) => Replicas.Commit(r, index, ctx)
  }

  /** What one follower's call returned and sent. */
  datatype Sent = Sent(member: MemberId, handle: Handle, request: Option<Request>)

  /**
   * Makes `call` on every follower of `ms`, once each, in list order. Each
   * call only reads and replaces its own replica, so the calls are
   * independent of one another.
   */
  function Each(reps: map<MemberId, Replicas.Replica>, ms: seq<MemberId>, call: Call, ctx: Context)
    : (f: (map<MemberId, Replicas.Replica>, seq<Sent>))
    requires forall m :: m in ms ==> m in reps
    requires forall m :: m in reps ==> Replicas.Valid(reps[m])
    ensures f.0.Keys == reps.Keys
    ensures forall m :: m in f.0 ==> Replicas.Valid(f.0[m])
    ensures forall m :: m in reps && m !in ms ==> f.0[m] == reps[m]
    ensures forall m :: m in ms ==> f.0[m] == Invoke(reps[m], call, ctx).replica
    ensures |f.1| == |ms|
    ensures forall j :: 0 <= j < |ms| ==> f.1[j].member == ms[j]
    ensures forall j :: 0 <= j < |ms| ==>
              f.1[j].handle == Invoke(reps[ms[j]], call, ctx).handle
              && f.1[j].request == Invoke(reps[ms[j]], call, ctx).sent
  {
    var after := map m | m in reps :: if m in ms then Invoke(reps[m], call, ctx).replica else reps[m];
    var sent := seq(|ms|, j requires 0 <= j < |ms| =>
                      var s := Invoke(reps[ms[j]], call, ctx); Sent(ms[j], s.handle, s.sent));
    (after, sent)
  }

  /** What a fan-out leaves behind, the future it returns, and what it did per follower. */
  datatype FanOut = FanOut(replicator: Replicator, future: FutureId, calls: seq<Sent>, counter: Quorum)

  /**
   * `Replicator.ping(index)`: ping every follower with the same index and
   * count their answers against a quorum of `quorum` successes.
   */
  function Ping(rp: Replicator, index: Option<int>, ctx: Context): (f: FanOut)
    requires Valid(rp)
    ensures Valid(f.replicator)
    ensures f.replicator.order == rp.order && f.replicator.commitFutures == rp.commitFutures
    ensures f.replicator.replicas.Keys == rp.replicas.Keys
    ensures forall m :: m in rp.replicas ==> f.replicator.replicas[m] == Replicas.Ping(rp.replicas[m], index, ctx).replica
    ensures forall m :: m in rp.replicas ==> f.replicator.replicas[m].matchIndex == rp.replicas[m].matchIndex
    ensures |f.calls| == |rp.order| && forall j :: 0 <= j < |rp.order| ==> f.calls[j].member == rp.order[j]
    ensures forall j :: 0 <= j < |rp.order| ==>
              && f.calls[j].handle == Replicas.Ping(rp.replicas[rp.order[j]], index, ctx).handle
              && f.calls[j].request == Replicas.Ping(rp.replicas[rp.order[j]], index, ctx).sent
    ensures f.counter == NewQuorum(rp.quorum, |rp.order|)
    ensures forall p :: p in rp.commitFutures ==> p.1 != f.future
  {
    var (reps, calls) := Each(rp.replicas, rp.order, PingAt(index), ctx);
    FanOut(rp.(replicas := reps, nextId := rp.nextId + 1), rp.nextId, calls, NewQuorum(rp.quorum, |rp.order|))
  }

  /**
   * The round sent every follower a probe without an index and registered
   * no waiter anywhere: nothing a reply does can complete its futures.
   */
  ghost predicate UnindexedRound(rp: Replicator, f: FanOut)
    requires Valid(rp) && f.replicator.replicas.Keys == rp.replicas.Keys
  {
    && (forall m :: m in rp.replicas ==>
          && f.replicator.replicas[m].pingFutures == rp.replicas[m].pingFutures
          && f.replicator.replicas[m].replicateFutures == rp.replicas[m].replicateFutures)
    && (forall j :: 0 <= j < |f.calls| ==>
          f.calls[j].request.Some? && f.calls[j].request.value.SendPing?
          && f.calls[j].request.value.ping.logIndex.None?)
  }

  /** A ping round without an index probes every follower without one and registers nothing. */
  lemma PingRoundUnindexed(rp: Replicator, f: FanOut, ctx: Context)
    requires Valid(rp) && f == Ping(rp, None, ctx)
    ensures f.replicator.replicas.Keys == rp.replicas.Keys
    ensures UnindexedRound(rp, f)
  {
    assert forall j :: 0 <= j < |rp.order| ==> rp.order[j] in rp.replicas;
  }

  /**
   * `pingAll`: ping at the leader's last index. On an empty log this is a
   * round of unindexed probes. Otherwise every follower ends up waiting on
   * the last index: with a ping waiter at or above it when the follower
   * already holds it, and with a replicate waiter for it when it does not.
   */
  function PingAll(rp: Replicator, ctx: Context): (f: FanOut)
    requires Valid(rp)
    ensures Valid(f.replicator)
    ensures f.replicator.order == rp.order && f.replicator.replicas.Keys == rp.replicas.Keys
    ensures f.replicator.commitFutures == rp.commitFutures
    ensures |f.calls| == |rp.order| && f.counter == NewQuorum(rp.quorum, |rp.order|)
    ensures |ctx.log| == 0 ==> UnindexedRound(rp, f)
    ensures |ctx.log| > 0 ==> forall m :: m in rp.replicas ==>
              Replicas.WaitsOn(f.replicator.replicas[m], rp.replicas[m], |ctx.log|)
  {
    var f := Ping(rp, LastIndex(ctx.log), ctx);
    if |ctx.log| == 0 then
      PingRoundUnindexed(rp, f, ctx);
      f
    else
      assert forall m :: m in rp.replicas ==> Replicas.WaitsOn(f.replicator.replicas[m], rp.replicas[m], |ctx.log|) by {
        forall m | m in rp.replicas
          ensures Replicas.WaitsOn(f.replicator.replicas[m], rp.replicas[m], |ctx.log|)
        {
          Replicas.PingLeavesWaiter(rp.replicas[m], |ctx.log|, ctx);
        }
      }
      f
  }

  /**
   * `Replicator.commit(index)`: without an index this is a ping without one;
   * otherwise register a commit waiter for the index (replacing any earlier
   * one, as `TreeMap.put` does) and ask every follower to commit it.
   */
  function Commit(rp: Replicator, index: Option<int>, ctx: Context): (f: FanOut)
    requires Valid(rp)
    ensures Valid(f.replicator)
    ensures index.None? ==> f == Ping(rp, None, ctx)
    ensures f.replicator.order == rp.order && f.replicator.replicas.Keys == rp.replicas.Keys
    ensures forall m :: m in rp.replicas ==> f.replicator.replicas[m].matchIndex == rp.replicas[m].matchIndex
    ensures index.Some? ==>
              && (forall m :: m in rp.replicas ==>
                    f.replicator.replicas[m] == Replicas.Commit(rp.replicas[m], index.value, ctx).replica)
              && (index.value, f.future) in f.replicator.commitFutures
              && (forall p :: p in rp.commitFutures ==> p.1 != f.future)
              && (forall p :: p in f.replicator.commitFutures ==> p == (index.value, f.future) || (p in rp.commitFutures && p.0 != index.value))
              && (forall p :: p in rp.commitFutures && p.0 != index.value ==> p in f.replicator.commitFutures)
    ensures |f.calls| == |rp.order| && f.counter == NewQuorum(rp.quorum, |rp.order|)
    ensures index.Some? ==> forall j :: 0 <= j < |rp.order| ==>
              && f.calls[j].member == rp.order[j]
              && f.calls[j].handle == Replicas.Commit(rp.replicas[rp.order[j]], index.value, ctx).handle
              && f.calls[j].request == Replicas.Commit(rp.replicas[rp.order[j]], index.value, ctx).sent
  {
    if index.None? then Ping(rp, None, ctx)
    else
      var id := rp.nextId;
      var futures := Put(rp.commitFutures, index.value, id);
      var (reps, calls) := Each(rp.replicas, rp.order, CommitAt(index.value), ctx);
      FanOut(rp.(replicas := reps, commitFutures := futures, nextId := id + 1), id, calls, NewQuorum(rp.quorum, |rp.order|))
  }

  /**
   * `commitAll`: commit up to the leader's last index. On an empty log this
   * is a round of unindexed probes and no commit waiter is registered.
   * Otherwise a commit waiter for the last index is registered, every
   * follower that lacks the last index has a replicate waiter for it, and
   * every follower that holds it is left untouched.
   */
  function CommitAll(rp: Replicator, ctx: Context): (f: FanOut)
    requires Valid(rp)
    ensures Valid(f.replicator)
    ensures f.replicator.order == rp.order && f.replicator.replicas.Keys == rp.replicas.Keys
    ensures |f.calls| == |rp.order| && f.counter == NewQuorum(rp.quorum, |rp.order|)
    ensures |ctx.log| == 0 ==> UnindexedRound(rp, f) && f.replicator.commitFutures == rp.commitFutures
    ensures |ctx.log| > 0 ==> (|ctx.log|, f.future) in f.replicator.commitFutures
    ensures |ctx.log| > 0 ==> forall m :: m in rp.replicas ==>
              && (Replicas.Matched(rp.replicas[m], |ctx.log|) ==> f.replicator.replicas[m] == rp.replicas[m])
              && (!Replicas.Matched(rp.replicas[m], |ctx.log|) ==>
                    |ctx.log| in f.replicator.replicas[m].replicateFutures)
  {
    var f := Commit(rp, LastIndex(ctx.log), ctx);
    if |ctx.log| == 0 then
      PingRoundUnindexed(rp, f, ctx);
      f
    else
      f
  }

  /**
   * One follower's answer to a commit fan-out: a success counts towards the
   * quorum and re-evaluates the commit index, whatever the counter has
   * already decided; a failure only counts against the quorum.
   */
  function OnCommitAnswer(rp: Replicator, counter: Quorum, succeeded: bool, commitIndex: Option<int>)
    : (a: (Quorum, Commits))
    requires Valid(rp)
    ensures Valid(a.1.replicator)
    ensures succeeded ==> a.0 == Succeed(counter) && a.1 == CheckCommits(rp, commitIndex)
    ensures !succeeded ==> a.0 == Fail(counter) && a.1 == Commits(rp, None, commitIndex, [])
    ensures counter.verdict.Some? ==> a.0 == counter
    ensures counter.verdict.None? ==>
              a.0.succeeded + a.0.failed == counter.succeeded + counter.failed + 1
              && (succeeded <==> a.0.succeeded == counter.succeeded + 1)
    ensures a.1.commitIndex == commitIndex || (succeeded && a.1.commitIndex == a.1.chosen)
    ensures a.1.chosen.Some? ==> succeeded && |AtLeast(rp, a.1.chosen.value)| >= rp.quorum
    ensures !succeeded ==> a.1.replicator == rp && a.1.resolved == []
  {
    if succeeded then (Succeed(counter), CheckCommits(rp, commitIndex))
    else (Fail(counter), Commits(rp, None, commitIndex, []))
  }

  /**
   * A batch the leader could have sent: it follows no entry or an entry
   * at a valid position.
   */
  predicate FromLeader(req: AppendRequest) {
    req.prevIndex.None? || req.prevIndex.value >= FirstIndex
  }

  /** Routes a follower's append reply to its replica. */
  function OnAppendReply(rp: Replicator, member: MemberId, req: AppendRequest, reply: Reply, ctx: Context)
    : (a: (Replicator, Replicas.Ack))
    requires Valid(rp) && member in rp.replicas
    ensures Valid(a.0)
    ensures a.0 == rp.(replicas := rp.replicas[member := a.1.replica])
    ensures FromLeader(req) ==> forall m :: m in rp.replicas ==>
              Replicas.MatchOrZero(a.0.replicas[m]) >= Replicas.MatchOrZero(rp.replicas[m])
  {
    var ack := Replicas.OnAppendReply(rp.replicas[member], req, reply, ctx);
    (rp.(replicas := rp.replicas[member := ack.replica]), ack)
  }

  /**
   * Acknowledgements never move the commit point back: whatever append
   * reply arrives, the commit index `checkCommits` picks afterwards is at
   * least the one it picked before.
   */
  lemma CommitIndexNeverDecreases(rp: Replicator, member: MemberId, req: AppendRequest, reply: Reply,
                                  ctx: Context, commitIndex: Option<int>)
    requires Valid(rp) && member in rp.replicas && FromLeader(req)
    ensures var before := CheckCommits(rp, commitIndex).chosen;
            var after := CheckCommits(OnAppendReply(rp, member, req, reply, ctx).0, commitIndex).chosen;
            before.Some? && after.Some? ==> after.value >= before.value
  {
    var later := OnAppendReply(rp, member, req, reply, ctx).0;
    assert later.replicas.Keys == rp.replicas.Keys && later.order == rp.order;
    CheckCommitsIsMonotone(rp, later, commitIndex);
  }

  /** Order statistics grow with the keys, read off the commit index `checkCommits` picks. */
  lemma CheckCommitsIsMonotone(earlier: Replicator, later: Replicator, commitIndex: Option<int>)
    requires Valid(earlier) && Valid(later)
    requires later.replicas.Keys == earlier.replicas.Keys && later.quorum == earlier.quorum
    requires |later.order| == |earlier.order|
    requires forall m :: m in earlier.replicas ==>
               Replicas.MatchOrZero(later.replicas[m]) >= Replicas.MatchOrZero(earlier.replicas[m])
    ensures var before := CheckCommits(earlier, commitIndex).chosen;
            var after := CheckCommits(later, commitIndex).chosen;
            before.Some? && after.Some? ==> after.value >= before.value
  {
    var before := CheckCommits(earlier, commitIndex).chosen;
    var after := CheckCommits(later, commitIndex).chosen;
    if before.Some? && after.Some? {
      var k := CommitPosition(earlier);
      OrderStatisticIsMonotone(earlier, later, before.value, after.value, k);
    }
  }

  /**
   * The rule as written is monotone too: with no key dropping, the index
   * read at position `quorumIndex` does not drop.
   */
  lemma CheckCommitsAsWrittenIsMonotone(earlier: Replicator, later: Replicator, commitIndex: Option<int>)
    requires Valid(earlier) && Valid(later)
    requires later.replicas.Keys == earlier.replicas.Keys && later.quorum == earlier.quorum
    requires |later.order| == |earlier.order|
    requires forall m :: m in earlier.replicas ==>
               Replicas.MatchOrZero(later.replicas[m]) >= Replicas.MatchOrZero(earlier.replicas[m])
    ensures var before := CheckCommitsAsWritten(earlier, commitIndex).chosen;
            var after := CheckCommitsAsWritten(later, commitIndex).chosen;
            before.Some? && after.Some? ==> after.value >= before.value
  {
    var before := CheckCommitsAsWritten(earlier, commitIndex).chosen;
    var after := CheckCommitsAsWritten(later, commitIndex).chosen;
    if before.Some? && after.Some? {
      OrderStatisticIsMonotone(earlier, later, before.value, after.value, earlier.quorumIndex);
    }
  }

  /**
   * The commit index the code as written sets never moves back either:
   * whatever append reply arrives, the index `checkCommits` reads
   * afterwards is at least the one it read before.
   */
  lemma AsWrittenCommitIndexNeverDecreases(rp: Replicator, member: MemberId, req: AppendRequest, reply: Reply,
                                           ctx: Context, commitIndex: Option<int>)
    requires Valid(rp) && member in rp.replicas && FromLeader(req)
    ensures var before := CheckCommitsAsWritten(rp, commitIndex).chosen;
            var after := CheckCommitsAsWritten(OnAppendReply(rp, member, req, reply, ctx).0, commitIndex).chosen;
            before.Some? && after.Some? ==> after.value >= before.value
  {
    var later := OnAppendReply(rp, member, req, reply, ctx).0;
    assert later.replicas.Keys == rp.replicas.Keys && later.order == rp.order;
    CheckCommitsAsWrittenIsMonotone(rp, later, commitIndex);
  }
}
