/**
 * The leader's agent for one follower (`LeaderState.Replica`). It tracks the
 * next index to send and the highest index known to be replicated, ships
 * batches of entries, and keeps the ping and replicate waiters.
 *
 * Every call and every response is an event mapping the old record to a new
 * one; the source runs each response callback on the leader's single
 * executor, so events are processed one at a time.
 */
module Replicas {
  import opened Types
  import opened Protocol
  import opened Registry

  /** The most entries one append request carries. */
  const BatchSize: int := 100

  datatype Replica = Replica(
    member: MemberId,
    nextIndex: Option<int>,
    matchIndex: Option<int>,
    pingFutures: Ordered,
    replicateFutures: Pending,
    nextId: FutureId)

  /**
   * Every pending future was issued by this replica before `nextId`, so a
   * future issued now is distinct from every pending one.
   */
  predicate Valid(r: Replica) {
    && StrictlyAscending(r.pingFutures)
    && (forall p :: p in r.pingFutures ==> p.1 < r.nextId)
    && (forall k :: k in r.replicateFutures ==> r.replicateFutures[k] < r.nextId)
  }

  /** A fresh replica starts probing just past the leader's last entry. */
  function NewReplica(member: MemberId, log: Log): (r: Replica)
    ensures Valid(r)
    ensures r.matchIndex.None? && r.pingFutures == [] && r.replicateFutures == map[]
    ensures r.nextIndex.None? <==> |log| == 0
    ensures r.nextIndex.Some? ==> !ContainsIndex(log, r.nextIndex.value) && ContainsIndex(log, r.nextIndex.value - 1)
  {
    var last := LastIndex(log);
    Replica(member, if last.Some? then Some(last.value + 1) else None, None, [], map[], 0)
  }

  /** The replica is known to hold `index` already. */
  predicate Matched(r: Replica, index: int) {
    r.matchIndex.Some? && index <= r.matchIndex.value
  }

  /** The `matchIndex` with an unknown value read as 0, as the commit sort compares it. */
  function MatchOrZero(r: Replica): int {
    r.matchIndex.GetOr(0)
  }

  /** What a call on a replica leaves behind, returns and sends. */
  datatype Step = Step(replica: Replica, handle: Handle, sent: Option<Request>)

  /** What a sync pass leaves behind and sends. */
  datatype Sync = Sync(replica: Replica, sent: Option<AppendRequest>)

  /** The first index a request's batch covers, recomputed from its `prevIndex`. */
  function BatchStart(req: AppendRequest): int {
    if req.prevIndex.Some? then req.prevIndex.value + 1 else FirstIndex
  }

  /** The last index a request's batch covers, recomputed from its `prevIndex`. */
  function BatchEnd(req: AppendRequest): int {
    if req.prevIndex.Some? then req.prevIndex.value + |req.entries| else FirstIndex + |req.entries| - 1
  }

  /**
   * `req` is the batch a sync pass sends from `next`: the contiguous entries
   * `next..min(next + 99, lastIndex)` of the leader's log, preceded by index
   * `next - 1` and its term (no predecessor when `next` is 1), stamped with
   * the leader's term, identity and commit index.
   */
  ghost predicate IsBatchFrom(req: AppendRequest, next: int, ctx: Context) {
    && req.term == ctx.term && req.leader == ctx.local && req.commitIndex == ctx.commitIndex
    && 1 <= |req.entries| <= BatchSize
    && next + |req.entries| - 1 == Min(next + BatchSize - 1, |ctx.log|)
    && ContainsIndex(ctx.log, next)
    && (forall j :: 0 <= j < |req.entries| ==> req.entries[j] == ctx.log[next - 1 + j])
    && (next == 1 ==> req.prevIndex.None? && req.prevTerm.None?)
    && (next != 1 ==> req.prevIndex == Some(next - 1) && req.prevTerm == Some(EntryAt(ctx.log, next - 1).term))
  }

  /**
   * One sync pass (`doSync()`): on a non-empty log, start from `nextIndex`
   * (or the last index when it is unknown) and, when the log holds that
   * index, send the batch that begins there. Only `nextIndex` changes.
   */
  function DoSync(r: Replica, ctx: Context): (s: Sync)
    ensures s.replica == r.(nextIndex := s.replica.nextIndex)
    ensures |ctx.log| == 0 ==> s == Sync(r, None)
    ensures |ctx.log| > 0 ==> s.replica.nextIndex == Some(r.nextIndex.GetOr(|ctx.log|))
    ensures s.sent.Some? <==> |ctx.log| > 0 && ContainsIndex(ctx.log, s.replica.nextIndex.value)
    ensures s.sent.Some? ==> IsBatchFrom(s.sent.value, s.replica.nextIndex.value, ctx)
  {
    if |ctx.log| == 0 then Sync(r, None)
    else
      var next := r.nextIndex.GetOr(|ctx.log|);
      var r1 := r.(nextIndex := Some(next));
      if !ContainsIndex(ctx.log, next) then Sync(r1, None)
      else
        var prevIndex := if next - 1 == 0 then None else Some(next - 1);
        var prevTerm := if prevIndex.Some? then Some(EntryAt(ctx.log, prevIndex.value).term) else None;
        var last := Min(next + BatchSize - 1, |ctx.log|);
        // The batch is never empty here, so the source's emptiness check always passes.
        var entries := ctx.log[next - 1..last];
        Sync(r1, Some(AppendRequest(ctx.term, ctx.local, prevIndex, prevTerm, entries, ctx.commitIndex)))
  }

  /** The range the response handler recomputes from `prevIndex` is exactly the batch that was sent. */
  lemma BatchRangeIsSentRange(req: AppendRequest, next: int, ctx: Context)
    requires IsBatchFrom(req, next, ctx)
    ensures BatchStart(req) == next
    ensures BatchEnd(req) == next + |req.entries| - 1
    ensures forall i :: BatchStart(req) <= i <= BatchEnd(req) ==>
              ContainsIndex(ctx.log, i) && req.entries[i - next] == EntryAt(ctx.log, i)
  {
  }

  /**
   * `Replica.commit(index)`: complete at once when the replica already holds
   * the index; hand back the waiter already registered for it; otherwise
   * register a fresh waiter and start a sync pass.
   */
  function Commit(r: Replica, index: int, ctx: Context): (s: Step)
    requires Valid(r)
    ensures Valid(s.replica)
    ensures s.replica.matchIndex == r.matchIndex && s.replica.pingFutures == r.pingFutures
    ensures Matched(r, index) ==> s == Step(r, Ready(index), None)
    ensures !Matched(r, index) && index in r.replicateFutures ==>
              s == Step(r, Waiting(r.replicateFutures[index]), None)
    ensures !Matched(r, index) && index !in r.replicateFutures ==>
              && s.handle == Waiting(r.nextId)
              && (forall k :: k in r.replicateFutures ==> r.replicateFutures[k] != r.nextId)
              && s.replica.replicateFutures == r.replicateFutures[index := r.nextId]
              && (|ctx.log| == 0 ==> s.replica.nextIndex == r.nextIndex)
              && (|ctx.log| > 0 ==> s.replica.nextIndex == Some(r.nextIndex.GetOr(|ctx.log|)))
              && (s.sent.Some? <==> |ctx.log| > 0 && ContainsIndex(ctx.log, s.replica.nextIndex.value))
              && (s.sent.Some? ==> s.sent.value.SendAppend? && s.replica.nextIndex.Some?
                                   && IsBatchFrom(s.sent.value.append, s.replica.nextIndex.value, ctx))
  {
    if Matched(r, index) then Step(r, Ready(index), None)
    else if index in r.replicateFutures then Step(r, Waiting(r.replicateFutures[index]), None)
    else
      var id := r.nextId;
      var r1 := r.(replicateFutures := r.replicateFutures[index := id], nextId := id + 1);
      // Here `matchIndex` is unknown or below `index`, so the source's
      // guard before `doSync()` always holds.
      var sync := DoSync(r1, ctx);
      Step(sync.replica, Waiting(id), if sync.sent.Some? then Some(SendAppend(sync.sent.value)) else None)
  }

  /** `Replica.ping` hands the index over to `commit` (strictly above `matchIndex`). */
  predicate Delegates(r: Replica, index: Option<int>) {
    index.Some? && (r.matchIndex.None? || index.value > r.matchIndex.value)
  }

  /** The term the probe reports for the probed index, when the log holds it. */
  function ProbeTerm(log: Log, index: Option<int>): Option<int> {
    if index.Some? && ContainsIndex(log, index.value) then Some(EntryAt(log, index.value).term) else None
  }

  /**
   * `Replica.ping(index)`: an index above `matchIndex` becomes a commit;
   * otherwise reuse the newest pending ping when it covers the index, or
   * register a fresh waiter (only when there is an index) and send a probe.
   */
  function Ping(r: Replica, index: Option<int>, ctx: Context): (s: Step)
    requires Valid(r)
    ensures Valid(s.replica)
    ensures s.replica.member == r.member && s.replica.matchIndex == r.matchIndex
    ensures Delegates(r, index) ==> s == Commit(r, index.value, ctx)
    ensures !Delegates(r, index) ==>
              && s.replica.replicateFutures == r.replicateFutures
              && s.replica.nextIndex == r.nextIndex
              && (s.sent.None? || s.sent.value.SendPing?)
    ensures !Delegates(r, index) && index.Some? && |r.pingFutures| > 0 && LastKey(r.pingFutures) >= index.value ==>
              s == Step(r, Waiting(Get(r.pingFutures, LastKey(r.pingFutures)).value), None)
    ensures !Delegates(r, index) && !(index.Some? && |r.pingFutures| > 0 && LastKey(r.pingFutures) >= index.value) ==>
              && s.handle == Waiting(r.nextId)
              && (forall p :: p in r.pingFutures ==> p.1 != r.nextId)
              && (index.Some? ==> Keys(s.replica.pingFutures) == Keys(r.pingFutures) + {index.value}
                                  && (index.value, r.nextId) in s.replica.pingFutures
                                  && (forall p :: p in r.pingFutures ==> p in s.replica.pingFutures)
                                  && (forall p :: p in s.replica.pingFutures ==>
                                        p in r.pingFutures || p == (index.value, r.nextId)))
              && (index.None? ==> s.replica.pingFutures == r.pingFutures)
              && s.sent == Some(SendPing(PingRequest(ctx.term, ctx.local, index, ProbeTerm(ctx.log, index), ctx.commitIndex)))
  {
    if Delegates(r, index) then Commit(r, index.value, ctx)
    else if index.Some? && |r.pingFutures| > 0 && LastKey(r.pingFutures) >= index.value then
      Step(r, Waiting(Get(r.pingFutures, LastKey(r.pingFutures)).value), None)
    else
      var id := r.nextId;
      var futures := if index.Some? then Put(r.pingFutures, index.value, id) else r.pingFutures;
      var r1 := r.(pingFutures := futures, nextId := id + 1);
      var probe := PingRequest(ctx.term, ctx.local, index, ProbeTerm(ctx.log, index), ctx.commitIndex);
      Step(r1, Waiting(id), Some(SendPing(probe)))
  }

  /** What handling a response leaves behind, resolves and sends. */
  datatype Ack = Ack(
    replica: Replica,
    resolved: seq<Resolution>,
    stepDown: bool,
    term: int,
    sent: Option<AppendRequest>)

  /**
   * The ordered waiters `after` are those of `before` above `bound`; every
   * waiter at or below it is completed with `value`, and nothing else is.
   */
  ghost predicate ResolvedUpTo(before: Ordered, after: Ordered, resolved: seq<Resolution>, bound: int, value: int) {
    && (forall p :: p in after <==> p in before && p.0 > bound)
    && (forall p :: p in before && p.0 <= bound ==> Resolution(p.1, Completed(value)) in resolved)
    && (forall x :: x in resolved ==> x.outcome == Completed(value) && exists p :: p in before && p.0 <= bound && p.1 == x.id)
  }

  /** Only the waiter of `index` is removed, and it is failed with `e`. */
  ghost predicate FailedOne(before: Ordered, after: Ordered, resolved: seq<Resolution>, index: int, e: Error) {
    && (forall p :: p in after <==> p in before && p.0 != index)
    && (forall p :: p in before && p.0 == index ==> resolved == [Resolution(p.1, Failed(e))])
    && (index !in Keys(before) ==> resolved == [])
  }

  /**
   * The unordered waiters `after` are those of `before` outside `lo..hi`,
   * each keeping its future; every waiter inside is resolved with the
   * outcome `f` gives its index, and nothing else is.
   */
  ghost predicate ResolvedRange(before: Pending, after: Pending, resolved: seq<Resolution>, lo: int, hi: int, f: int -> Outcome) {
    && (forall k :: k in after <==> k in before && !(lo <= k <= hi))
    && (forall k :: k in after ==> after[k] == before[k])
    && (forall k :: k in before && lo <= k <= hi ==> Resolution(before[k], f(k)) in resolved)
    && (forall x :: x in resolved ==> exists k :: k in before && lo <= k <= hi && x == Resolution(before[k], f(k)))
  }

  /** Fails the waiter of the probed index (`triggerPingFutures(index, error)`). */
  function FailPing(r: Replica, index: Option<int>, e: Error): (a: (Replica, seq<Resolution>))
    requires Valid(r)
    ensures Valid(a.0) && a.0 == r.(pingFutures := a.0.pingFutures)
    ensures index.None? ==> a == (r, [])
    ensures index.Some? ==> FailedOne(r.pingFutures, a.0.pingFutures, a.1, index.value, e)
  {
    if index.None? then (r, [])
    else
      var d := TakeOne(r.pingFutures, index.value);
      var resolved := Settle(d.taken, _ => Failed(e));
      assert forall p :: p in r.pingFutures && p.0 == index.value ==> p == (index.value, Get(r.pingFutures, index.value).value) by {
        forall p | p in r.pingFutures && p.0 == index.value
          ensures p == (index.value, Get(r.pingFutures, index.value).value)
        {
          KeyHasOneFuture(r.pingFutures, p, (index.value, Get(r.pingFutures, index.value).value));
        }
      }
      (r.(pingFutures := d.rest), resolved)
  }

  /** Completes every ping waiter up to the probed index (`triggerPingFutures(index)`). */
  function CompletePings(r: Replica, index: Option<int>): (a: (Replica, seq<Resolution>))
    requires Valid(r)
    ensures Valid(a.0) && a.0 == r.(pingFutures := a.0.pingFutures)
    ensures index.None? ==> a == (r, [])
    ensures index.Some? ==> ResolvedUpTo(r.pingFutures, a.0.pingFutures, a.1, index.value, index.value)
  {
    if index.None? then (r, [])
    else
      var d := TakeUpTo(r.pingFutures, index.value);
      var resolved := Settle(d.taken, _ => Completed(index.value));
      assert forall p :: p in r.pingFutures <==> p in d.taken || p in d.rest;
      assert forall x :: x in resolved ==> exists p :: p in d.taken && x.id == p.1 by {
        forall x | x in resolved ensures exists p :: p in d.taken && x.id == p.1 {
          var i :| 0 <= i < |resolved| && resolved[i] == x;
          assert d.taken[i] in d.taken;
        }
      }
      assert forall p :: p in d.taken ==> Resolution(p.1, Completed(index.value)) in resolved by {
        forall p | p in d.taken ensures Resolution(p.1, Completed(index.value)) in resolved {
          var i :| 0 <= i < |d.taken| && d.taken[i] == p;
          assert resolved[i] == Resolution(p.1, Completed(index.value));
        }
      }
      (r.(pingFutures := d.rest), resolved)
  }

  /**
   * Handles the reply to a probe of `index`. A transport failure, an ERROR
   * reply or an unsuccessful reply fails the probed waiter; a reply with a
   * higher term also adopts that term and steps down; a successful reply
   * completes every ping waiter up to the probed index.
   */
  function OnPingReply(r: Replica, index: Option<int>, reply: Reply, ctx: Context): (a: Ack)
    requires Valid(r)
    ensures Valid(a.replica) && a.replica == r.(pingFutures := a.replica.pingFutures)
    ensures a.sent.None?
    ensures a.stepDown <==> reply.Delivered? && reply.response.status == OK && reply.response.term > ctx.term
    ensures a.term == (if a.stepDown then reply.response.term else ctx.term)
    ensures index.None? ==> a.replica == r && a.resolved == []
    ensures index.Some? && reply.Delivered? && reply.response.status == OK
            && reply.response.term <= ctx.term && reply.response.succeeded ==>
              ResolvedUpTo(r.pingFutures, a.replica.pingFutures, a.resolved, index.value, index.value)
    ensures index.Some? && reply.TransportError? ==>
              FailedOne(r.pingFutures, a.replica.pingFutures, a.resolved, index.value, reply.error)
    ensures index.Some? && reply.Delivered? && reply.response.status == ERROR ==>
              FailedOne(r.pingFutures, a.replica.pingFutures, a.resolved, index.value, reply.response.error)
    ensures index.Some? && a.stepDown ==>
              FailedOne(r.pingFutures, a.replica.pingFutures, a.resolved, index.value, NotLeader)
    ensures index.Some? && reply.Delivered? && reply.response.status == OK
            && reply.response.term <= ctx.term && !reply.response.succeeded ==>
              FailedOne(r.pingFutures, a.replica.pingFutures, a.resolved, index.value, ReplicaNotInCommit)
  {
    match reply
    case TransportError(e) =>
      var (r1, resolved) := FailPing(r, index, e);
      Ack(r1, resolved, false, ctx.term, None)
    case Delivered(resp) =>
      if resp.status == OK then
        if resp.term > ctx.term then
          var (r1, resolved) := FailPing(r, index, NotLeader);
          Ack(r1, resolved, true, resp.term, None)
        else if !resp.succeeded then
          var (r1, resolved) := FailPing(r, index, ReplicaNotInCommit);
          Ack(r1, resolved, false, ctx.term, None)
        else
          var (r1, resolved) := CompletePings(r, index);
          Ack(r1, resolved, false, ctx.term, None)
      else
        var (r1, resolved) := FailPing(r, index, resp.error);
        Ack(r1, resolved, false, ctx.term, None)
  }

  /** Resolves the replicate waiters of `lo..hi` (`triggerReplicateFutures`). */
  function ResolveRange(r: Replica, lo: int, hi: int, f: int -> Outcome): (a: (Replica, seq<Resolution>))
    requires Valid(r)
    ensures Valid(a.0) && a.0 == r.(replicateFutures := a.0.replicateFutures)
    ensures ResolvedRange(r.replicateFutures, a.0.replicateFutures, a.1, lo, hi, f)
    ensures hi < lo ==> a == (r, [])
  {
    var d := TakeRange(r.replicateFutures, lo, hi);
    var resolved := Settle(d.taken, f);
    assert forall k :: k in r.replicateFutures && lo <= k <= hi ==> Resolution(r.replicateFutures[k], f(k)) in resolved by {
      forall k | k in r.replicateFutures && lo <= k <= hi
        ensures Resolution(r.replicateFutures[k], f(k)) in resolved
      {
        var i :| 0 <= i < |d.taken| && d.taken[i] == (k, r.replicateFutures[k]);
        assert resolved[i] == Resolution(r.replicateFutures[k], f(k));
      }
    }
    assert forall x :: x in resolved ==> exists k :: k in r.replicateFutures && lo <= k <= hi && x == Resolution(r.replicateFutures[k], f(k)) by {
      forall x | x in resolved
        ensures exists k :: k in r.replicateFutures && lo <= k <= hi && x == Resolution(r.replicateFutures[k], f(k))
      {
        var i :| 0 <= i < |resolved| && resolved[i] == x;
        assert d.taken[i] in d.taken;
      }
    }
    (r.(replicateFutures := d.rest), resolved)
  }

  /**
   * Where a rejected append resumes: just past the follower's reported last
   * index, else at the batch's predecessor, else at the log's first index.
   */
  function RewindTo(req: AppendRequest, resp: Response): int {
    if resp.logIndex.Some? then resp.logIndex.value + 1
    else if req.prevIndex.Some? then req.prevIndex.value
    else FirstIndex
  }

  /** The replicated index an acknowledged non-empty batch establishes. */
  function Advanced(r: Replica, req: AppendRequest): (m: int)
    ensures m >= BatchEnd(req)
    ensures r.matchIndex.Some? ==> m >= r.matchIndex.value
    ensures m == BatchEnd(req) || (r.matchIndex.Some? && m == r.matchIndex.value)
  {
    if r.matchIndex.Some? then Max(r.matchIndex.value, BatchEnd(req)) else BatchEnd(req)
  }

  /**
   * Handles the reply to an append request `req`.
   *  - accepted: `matchIndex` becomes the larger of its old value and the
   *    batch end, `nextIndex` the index after it, the replicate waiters from
   *    the batch start up to `matchIndex` complete, and the next batch goes out;
   *  - rejected with a higher term: the batch's waiters fail and the leader
   *    steps down;
   *  - rejected otherwise: `nextIndex` rewinds and the sync is retried;
   *  - an ERROR reply or a transport failure fails the batch's waiters.
   */
  function OnAppendReply(r: Replica, req: AppendRequest, reply: Reply, ctx: Context): (a: Ack)
    requires Valid(r)
    ensures Valid(a.replica)
    ensures a.replica.member == r.member && a.replica.pingFutures == r.pingFutures
    ensures r.matchIndex.Some? ==> a.replica.matchIndex.Some? && a.replica.matchIndex.value >= r.matchIndex.value
    ensures a.term == ctx.term
    ensures a.stepDown <==> reply.Delivered? && reply.response.status == OK
                            && !reply.response.succeeded && reply.response.term > ctx.term
    ensures reply.Delivered? && reply.response.status == OK && reply.response.succeeded && |req.entries| > 0 ==>
              && a.replica.matchIndex == Some(Advanced(r, req))
              && a.replica.nextIndex == Some(Advanced(r, req) + 1)
              && ResolvedRange(r.replicateFutures, a.replica.replicateFutures, a.resolved,
                               BatchStart(req), Advanced(r, req), k => Completed(k))
              && (a.sent.Some? <==> ContainsIndex(ctx.log, Advanced(r, req) + 1))
              && (a.sent.Some? ==> IsBatchFrom(a.sent.value, Advanced(r, req) + 1, ctx))
    ensures reply.Delivered? && reply.response.status == OK && reply.response.succeeded && |req.entries| == 0 ==>
              a.replica == r && a.resolved == [] && a.sent.None?
    ensures a.stepDown ==>
              && a.replica == r.(replicateFutures := a.replica.replicateFutures)
              && ResolvedRange(r.replicateFutures, a.replica.replicateFutures, a.resolved,
                               BatchStart(req), BatchEnd(req), _ => Failed(NotLeader))
              && a.sent.None?
    ensures reply.Delivered? && reply.response.status == OK && !reply.response.succeeded && !a.stepDown ==>
              && a.replica.matchIndex == r.matchIndex
              && a.replica.replicateFutures == r.replicateFutures
              && a.replica.nextIndex == Some(RewindTo(req, reply.response))
              && a.resolved == []
              && a.sent == DoSync(r.(nextIndex := Some(RewindTo(req, reply.response))), ctx).sent
    ensures reply.TransportError? ==>
              && a.replica == r.(replicateFutures := a.replica.replicateFutures)
              && ResolvedRange(r.replicateFutures, a.replica.replicateFutures, a.resolved,
                               BatchStart(req), BatchEnd(req), _ => Failed(reply.error))
              && a.sent.None?
    ensures reply.Delivered? && reply.response.status == ERROR ==>
              && a.replica == r.(replicateFutures := a.replica.replicateFutures)
              && ResolvedRange(r.replicateFutures, a.replica.replicateFutures, a.resolved,
                               BatchStart(req), BatchEnd(req), _ => Failed(reply.response.error))
              && a.sent.None?
  {
    var lo := BatchStart(req);
    var hi := BatchEnd(req);
    match reply
    case TransportError(e) =>
      var (r1, resolved) := ResolveRange(r, lo, hi, _ => Failed(e));
      Ack(r1, resolved, false, ctx.term, None)
    case Delivered(resp) =>
      if resp.status == OK then
        if resp.succeeded then
          if |req.entries| > 0 then
            var m := Advanced(r, req);
            var r1 := r.(matchIndex := Some(m), nextIndex := Some(m + 1));
            var (r2, resolved) := ResolveRange(r1, lo, m, k => Completed(k));
            var sync := DoSync(r2, ctx);
            Ack(sync.replica, resolved, false, ctx.term, sync.sent)
          else
            Ack(r, [], false, ctx.term, None)
        else if resp.term > ctx.term then
          var (r1, resolved) := ResolveRange(r, lo, hi, _ => Failed(NotLeader));
          Ack(r1, resolved, true, ctx.term, None)
        else
          var sync := DoSync(r.(nextIndex := Some(RewindTo(req, resp))), ctx);
          Ack(sync.replica, [], false, ctx.term, sync.sent)
      else
        var (r1, resolved) := ResolveRange(r, lo, hi, _ => Failed(resp.error));
        Ack(r1, resolved, false, ctx.term, None)
  }

  /**
   * The threshold is strict: a ping for exactly `matchIndex` is a probe
   * waiting for a reply, not a commit completed at once, while one just
   * above it is a commit.
   */
  lemma PingThresholdIsStrict(r: Replica, m: int, ctx: Context)
    requires Valid(r) && r.matchIndex == Some(m)
    ensures Ping(r, Some(m + 1), ctx) == Commit(r, m + 1, ctx)
    ensures Ping(r, Some(m), ctx).handle.Waiting?
    ensures Ping(r, Some(m), ctx).replica.replicateFutures == r.replicateFutures
    ensures Ping(r, Some(m), ctx).sent.None? || Ping(r, Some(m), ctx).sent.value.SendPing?
  {
  }

  /**
   * After a call about `index`, the replica `after` (formerly `before`)
   * waits on it: with a ping waiter at or above it when the follower already
   * holds the index, and with a replicate waiter for it when it does not.
   */
  ghost predicate WaitsOn(after: Replica, before: Replica, index: int) {
    && (Matched(before, index) ==> exists p :: p in after.pingFutures && p.0 >= index)
    && (!Matched(before, index) ==> index in after.replicateFutures)
  }

  /** A ping at an index leaves the replica waiting on that index. */
  lemma PingLeavesWaiter(r: Replica, index: int, ctx: Context)
    requires Valid(r)
    ensures WaitsOn(Ping(r, Some(index), ctx).replica, r, index)
  {
    if Matched(r, index) && |r.pingFutures| > 0 && LastKey(r.pingFutures) >= index {
      var p := (LastKey(r.pingFutures), Get(r.pingFutures, LastKey(r.pingFutures)).value);
      assert p in Ping(r, Some(index), ctx).replica.pingFutures;
    } else if Matched(r, index) {
      assert (index, r.nextId) in Ping(r, Some(index), ctx).replica.pingFutures;
    }
  }

  /**
   * Pinging the same index twice, with no reply in between, hands back the
   * same future and sends nothing the second time, whether the pings are
   * probes or are handed over to `commit`.
   */
  lemma PingTwiceSharesFuture(r: Replica, index: int, ctx: Context)
    requires Valid(r)
    ensures var first := Ping(r, Some(index), ctx);
            var second := Ping(first.replica, Some(index), ctx);
            second.handle == first.handle && second.sent.None? && second.replica == first.replica
  {
    var first := Ping(r, Some(index), ctx);
    var t := first.replica.pingFutures;
    if Delegates(r, Some(index)) {
      // Both pings are commits, since a commit leaves `matchIndex` alone.
      assert Delegates(first.replica, Some(index));
      CommitTwiceSharesFuture(r, index, ctx);
    } else if !(|r.pingFutures| > 0 && LastKey(r.pingFutures) >= index) {
      assert !Delegates(first.replica, Some(index));
      assert (index, r.nextId) in t;
      assert forall p :: p in r.pingFutures ==> p.0 < index;
      assert forall p :: p in t ==> p.0 <= index by {
        forall p | p in t ensures p.0 <= index {
          assert p.0 in Keys(t);
        }
      }
      var last := LastKey(t);
      assert last == index by {
        assert index in Keys(t);
      }
      KeyHasOneFuture(t, (index, Get(t, index).value), (index, r.nextId));
    }
  }

  /** Committing the same index twice hands back the same future and sends nothing the second time. */
  lemma CommitTwiceSharesFuture(r: Replica, index: int, ctx: Context)
    requires Valid(r)
    ensures var first := Commit(r, index, ctx);
            var second := Commit(first.replica, index, ctx);
            second.handle == first.handle && second.sent.None? && second.replica == first.replica
  {
  }

  /**
   * A ping without an index (the leader's log is empty) returns a future
   * that is never registered, so no reply to that probe completes it.
   */
  lemma UnindexedPingIsNeverCompleted(r: Replica, ctx: Context, reply: Reply, later: Context)
    requires Valid(r)
    ensures var s := Ping(r, None, ctx);
            && s.handle == Waiting(r.nextId)
            && (forall p :: p in s.replica.pingFutures ==> p.1 != r.nextId)
            && (forall k :: k in s.replica.replicateFutures ==> s.replica.replicateFutures[k] != r.nextId)
            && OnPingReply(s.replica, None, reply, later).resolved == []
  {
  }

  /** The calls and responses a replica processes, one at a time. */
  datatype Event =
    | PingCalled(index: Option<int>)
    | CommitCalled(commitIndex: int)
    | PingAnswered(probed: Option<int>, reply: Reply)
    | AppendAnswered(request: AppendRequest, reply: Reply)

  /** The replica after one event, processed under the leader context `ctx`. */
  function Apply(r: Replica, e: Event, ctx: Context): (r': Replica)
    requires Valid(r)
    ensures Valid(r') && r'.member == r.member
    ensures r.matchIndex.Some? ==> r'.matchIndex.Some? && r'.matchIndex.value >= r.matchIndex.value
  {
    match e
    case PingCalled(index) => Ping(r, index, ctx).replica
    case CommitCalled(index) => Commit(r, index, ctx).replica
    case PingAnswered(probed, reply) => OnPingReply(r, probed, reply, ctx).replica
    case AppendAnswered(request, reply) => OnAppendReply(r, request, reply, ctx).replica
  }

  /** The replica after a sequence of events, each with the context it ran under. */
  function Run(r: Replica, trace: seq<(Event, Context)>): (r': Replica)
    requires Valid(r)
    ensures Valid(r') && r'.member == r.member
    decreases |trace|
  {
    if |trace| == 0 then r else Run(Apply(r, trace[0].0, trace[0].1), trace[1..])
  }

  /**
   * Once known, `matchIndex` never decreases, whatever calls are made and in
   * whatever order append acknowledgements arrive, stale or not.
   */
  lemma {:induction false} MatchIndexNeverDecreases(r: Replica, trace: seq<(Event, Context)>)
    requires Valid(r) && r.matchIndex.Some?
    ensures Run(r, trace).matchIndex.Some?
    ensures Run(r, trace).matchIndex.value >= r.matchIndex.value
    decreases |trace|
  {
    if |trace| > 0 {
      MatchIndexNeverDecreases(Apply(r, trace[0].0, trace[0].1), trace[1..]);
    }
  }
}
