/**
 * The leader's request handlers (`LeaderState`): term checks on incoming
 * pings and appends, consistency-level query dispatch, client commits, and
 * the replay of unapplied entries on taking leadership.
 *
 * Handlers that wait on a replicator future are split in two: the first
 * half runs when the request arrives and returns what it changed and the
 * future it waits on; the second half runs when that future completes.
 */
module Leader {
  import opened Types
  import opened Protocol
  import opened Replicators
  import opened QuorumCounter
  import EntryCodec
  import Replicas

  /** How a leader treats a ping or append from another member, by term. */
  datatype Verdict =
    | Reject(response: Response)   // a stale sender: answer with the local term
    | StepDownAndDelegate          // the same term: become a follower, then handle it as one
    | Delegate                     // a newer term: handle it as the active state does

  /** The rejection a stale sender receives. */
  function Stale(ctx: Context, logIndex: Option<int>): Response {
    Response(OK, ctx.term, false, logIndex, NotLeader)
  }

  /**
   * `LeaderState.ping`: a lower term is rejected with the local term, the
   * same term makes this node step down before handling the ping, and a
   * higher term is handed on.
   */
  function HandlePing(req: PingRequest, ctx: Context): (v: Verdict)
    ensures v.Delegate? <==> req.term > ctx.term
    ensures v.StepDownAndDelegate? <==> req.term == ctx.term
    ensures v.Reject? <==> req.term < ctx.term
    ensures v.Reject? ==>
              && v.response.status == OK && !v.response.succeeded
              && v.response.term == ctx.term && v.response.logIndex.None?
  {
    if req.term > ctx.term then Delegate
    else if req.term < ctx.term then Reject(Stale(ctx, None))
    else StepDownAndDelegate
  }

  /**
   * `LeaderState.append`: as for pings, except that the rejection also
   * carries the leader's last log index.
   */
  function HandleAppend(req: AppendRequest, ctx: Context): (v: Verdict)
    ensures v.Delegate? <==> req.term > ctx.term
    ensures v.StepDownAndDelegate? <==> req.term == ctx.term
    ensures v.Reject? <==> req.term < ctx.term
    ensures v.Reject? ==>
              && v.response.status == OK && !v.response.succeeded
              && v.response.term == ctx.term && v.response.logIndex == LastIndex(ctx.log)
  {
    if req.term > ctx.term then Delegate
    else if req.term < ctx.term then Reject(Stale(ctx, LastIndex(ctx.log)))
    else StepDownAndDelegate
  }

  /**
   * A rejection tells the stale sender about a newer term: if the sender is
   * a leader of the request's term pinging one of its followers, handing it
   * this rejection as the ping's reply makes that follower's replica ask it
   * to step down and adopt the newer term.
   */
  lemma RejectedPingerStepsDown(req: PingRequest, ctx: Context, r: Replicas.Replica,
                               index: Option<int>, senderCtx: Context)
    requires Replicas.Valid(r) && senderCtx.term == req.term
    requires HandlePing(req, ctx).Reject?
    ensures var a := Replicas.OnPingReply(r, index, Delivered(HandlePing(req, ctx).response), senderCtx);
            a.stepDown && a.term == ctx.term
  {
    var resp := HandlePing(req, ctx).response;
    assert resp.status == OK && resp.term > senderCtx.term;
  }

  /**
   * A stale append sender that is a leader replicating to one of its
   * followers, handed this rejection as the reply to the batch it sent,
   * steps down and sends nothing more, but keeps its own older term: unlike
   * the ping reply handler, the append reply handler never adopts the
   * responder's term.
   */
  lemma RejectedAppenderStepsDown(req: AppendRequest, ctx: Context, r: Replicas.Replica, senderCtx: Context)
    requires Replicas.Valid(r) && senderCtx.term == req.term
    requires HandleAppend(req, ctx).Reject?
    ensures var resp := HandleAppend(req, ctx).response;
            var a := Replicas.OnAppendReply(r, req, Delivered(resp), senderCtx);
            a.stepDown && a.sent.None? && a.term == senderCtx.term && a.term < resp.term
  {
    var resp := HandleAppend(req, ctx).response;
    assert resp.status == OK && !resp.succeeded && resp.term > senderCtx.term;
  }

  datatype Consistency = WEAK | DEFAULT | STRONG

  /** What the consumer does with an entry: return a result or throw. */
  datatype Applied = Returned(result: Bytes) | Threw(error: Error)

  /** The user's state machine, called with an index (none for a query) and an entry. */
  type Consumer = (Option<int>, Bytes) -> Applied

  /** A query or commit response: `OK` with a result or `ERROR` with an error. */
  datatype Answer = Ok(result: Bytes) | Err(error: Error)

  /** What a query does on arrival. */
  datatype QueryStart =
    | Answered(answer: Answer)                  // answered at once
    | Raised(error: Error)                      // the consumer's exception escapes `query`
    | Awaiting(replicator: Replicator, round: FanOut)  // waiting on a ping round

  /** The answer a consumer call gives, a throw becoming an `ERROR` response. */
  function AnswerOf(applied: Applied): (a: Answer)
    ensures a.Ok? <==> applied.Returned?
    ensures a.Ok? ==> a.result == applied.result
    ensures a.Err? ==> a.error == applied.error
  {
    match applied
    case Returned(result) => Ok(result)
    case Threw(error) => Err(error)
  }

  /**
   * `LeaderState.query` on arrival. WEAK and DEFAULT queries apply the
   * consumer at once, without an index, and do not catch what it throws; a
   * STRONG query first starts a ping round at the leader's last index.
   */
  function Query(rp: Replicator, consistency: Consistency, entry: Bytes, consumer: Consumer, ctx: Context)
    : (q: QueryStart)
    requires Replicators.Valid(rp)
    ensures consistency != STRONG && consumer(None, entry).Returned? ==>
              q == Answered(Ok(consumer(None, entry).result))
    ensures consistency != STRONG && consumer(None, entry).Threw? ==>
              q == Raised(consumer(None, entry).error)
    ensures consistency == STRONG ==>
              q.Awaiting? && q.round == PingAll(rp, ctx) && q.replicator == q.round.replicator
              && Replicators.Valid(q.replicator)
  {
    if consistency == STRONG then
      var round := PingAll(rp, ctx);
      Awaiting(round.replicator, round)
    else
      match consumer(None, entry)
      case Returned(result) => Answered(Ok(result))
      case Threw(error) => Raised(error)
  }

  /**
   * A STRONG query once its ping round has decided: the consumer runs only
   * when the round reached its quorum, and every failure, the round's or the
   * consumer's, becomes an `ERROR` response.
   */
  function QueryAnswer(round: Quorum, entry: Bytes, consumer: Consumer): (a: Answer)
    requires round.verdict.Some?
    ensures a.Ok? <==> round.verdict == Some(true) && consumer(None, entry).Returned?
    ensures a.Ok? ==> a.result == consumer(None, entry).result
    ensures round.verdict == Some(false) ==> a == Err(QuorumFailed)
    ensures round.verdict == Some(true) && consumer(None, entry).Threw? ==> a == Err(consumer(None, entry).error)
  {
    if round.verdict == Some(true) then AnswerOf(consumer(None, entry))
    else Err(QuorumFailed)
  }

  /**
   * A STRONG query never lets an exception escape, and once its ping round
   * has succeeded it answers exactly what a WEAK query would have answered,
   * with an `ERROR` response where the WEAK query would have thrown.
   */
  lemma StrongQueryAnswersLikeWeak(rp: Replicator, round: Quorum, entry: Bytes, consumer: Consumer, ctx: Context)
    requires Replicators.Valid(rp) && round.verdict == Some(true)
    ensures !Query(rp, STRONG, entry, consumer, ctx).Raised?
    ensures var weak := Query(rp, WEAK, entry, consumer, ctx);
            && (weak.Answered? ==> QueryAnswer(round, entry, consumer) == weak.answer)
            && (weak.Raised? ==> QueryAnswer(round, entry, consumer) == Err(weak.error))
  {
  }

  /**
   * A STRONG read is confirmed by a quorum: counting the followers'
   * answers to its ping round, an `OK` answer means at least `quorum`
   * followers acknowledged the round, and a round every follower answered
   * has always decided.
   */
  lemma {:induction false} StrongReadConfirmedByQuorum(rp: Replicator, votes: seq<bool>, entry: Bytes,
                                                       consumer: Consumer)
    requires Replicators.Valid(rp) && rp.quorum >= 1 && |votes| <= |rp.order|
    ensures var round := Tally(NewQuorum(rp.quorum, |rp.order|), votes);
            && (|votes| == |rp.order| ==> round.verdict.Some?)
            && (round.verdict.Some? && QueryAnswer(round, entry, consumer).Ok? ==> Count(votes, true) >= rp.quorum)
  {
    VerdictMatchesVotes(NewQuorum(rp.quorum, |rp.order|), votes);
  }

  /** What a commit does on arrival: the extended log, the new entry's index and bytes, and the commit round. */
  datatype CommitStart = CommitStart(log: Log, index: int, stored: Bytes, round: FanOut)

  /**
   * `LeaderState.commit` on arrival: append the payload, tagged with the
   * leader's term as an 8-byte prefix, at the index after the last one, and
   * ask the replicator to commit up to that index.
   */
  function BeginCommit(rp: Replicator, payload: Bytes, ctx: Context): (s: CommitStart)
    requires Replicators.Valid(rp) && EntryCodec.IsLong(ctx.term)
    ensures |s.log| == |ctx.log| + 1 && s.log[..|ctx.log|] == ctx.log
    ensures s.index == (if LastIndex(ctx.log).Some? then LastIndex(ctx.log).value + 1 else FirstIndex)
    ensures LastIndex(s.log) == Some(s.index)
    ensures EntryAt(s.log, s.index) == Entry(ctx.term, payload)
    ensures |s.stored| == EntryCodec.TermBytes + |payload| && s.stored[EntryCodec.TermBytes..] == payload
    ensures s.round == Replicators.Commit(rp, Some(s.index), ctx.(log := s.log))
    ensures (s.index, s.round.future) in s.round.replicator.commitFutures
  {
    var e := Entry(ctx.term, payload);
    var log := ctx.log + [e];
    assert log[..|ctx.log|] == ctx.log;
    CommitStart(log, |log|, EntryCodec.Encode(e), Replicators.Commit(rp, Some(|log|), ctx.(log := log)))
  }

  /**
   * Read back, the stored bytes are the committed entry: its term is the
   * leader's term and its payload is exactly what the consumer is handed
   * once the commit succeeds.
   */
  lemma CommittedEntryReadsBack(rp: Replicator, payload: Bytes, ctx: Context)
    requires Replicators.Valid(rp) && EntryCodec.IsLong(ctx.term)
    ensures var s := BeginCommit(rp, payload, ctx);
            EntryCodec.Decode(s.stored) == Some(EntryAt(s.log, s.index))
            && EntryCodec.Decode(s.stored).value.payload == payload
            && EntryCodec.Decode(s.stored).value.term == ctx.term
  {
    EntryCodec.DecodeEncode(Entry(ctx.term, payload));
  }

  /** What a commit does once its future completes: the response and the new last-applied index. */
  datatype CommitDone = CommitDone(answer: Answer, lastApplied: int)

  /**
   * `LeaderState.commit` once the commit future completes. On success the
   * consumer is applied to the payload at the entry's index, a throw
   * becoming an `ERROR` response, and the last-applied index moves to the
   * entry's index whatever the consumer did. A failed future is answered
   * with its error and leaves the last-applied index where it was.
   */
  function FinishCommit(done: Outcome, index: int, payload: Bytes, consumer: Consumer, lastApplied: int)
    : (d: CommitDone)
    ensures done.Failed? ==> d == CommitDone(Err(done.error), lastApplied)
    ensures done.Completed? ==> d.lastApplied == index
    ensures d.answer.Ok? <==> done.Completed? && consumer(Some(index), payload).Returned?
    ensures d.answer.Ok? ==> d.answer.result == consumer(Some(index), payload).result
    ensures done.Completed? && consumer(Some(index), payload).Threw? ==>
              d.answer == Err(consumer(Some(index), payload).error)
  {
    match done
    case Completed(_) => CommitDone(AnswerOf(consumer(Some(index), payload)), index)
    case Failed(error) => CommitDone(Err(error), lastApplied)
  }

  /**
   * A commit's round decides its answer: answered `OK` only when its future
   * completed, and completed by the round only when at least `quorum`
   * followers acknowledged it; a round every follower answered has decided.
   */
  lemma {:induction false} CommitConfirmedByQuorum(rp: Replicator, votes: seq<bool>, index: int,
                                                   payload: Bytes, consumer: Consumer, lastApplied: int)
    requires Replicators.Valid(rp) && rp.quorum >= 1 && |votes| <= |rp.order|
    ensures var round := Tally(NewQuorum(rp.quorum, |rp.order|), votes);
            && (|votes| == |rp.order| ==> round.verdict.Some?)
            && (round.verdict == Some(true) ==> Count(votes, true) >= rp.quorum)
            && (round.verdict == Some(false) ==>
                  FinishCommit(Failed(QuorumFailed), index, payload, consumer, lastApplied).answer == Err(QuorumFailed))
  {
    VerdictMatchesVotes(NewQuorum(rp.quorum, |rp.order|), votes);
  }

  /**
   * `LeaderState.applyEntries`: with an empty log nothing is replayed;
   * otherwise every index from `lastApplied + 1` to the last index is
   * handed, in ascending order, to the active state's `applyEntry`.
   */
  method ApplyEntries(log: Log, lastApplied: int) returns (applied: seq<int>)
    ensures LastIndex(log).None? ==> applied == []
    ensures LastIndex(log).Some? ==> forall i :: i in applied <==> lastApplied < i <= LastIndex(log).value
    ensures forall j, k :: 0 <= j < k < |applied| ==> applied[j] < applied[k]
    ensures forall k :: 0 <= k < |applied| ==> applied[k] == lastApplied + 1 + k
    ensures lastApplied >= 0 ==> forall i :: i in applied ==> ContainsIndex(log, i)
  {
    applied := [];
    var last := LastIndex(log);
    if last.Some? {
      var i := lastApplied + 1;
      while i <= last.value
        invariant lastApplied + 1 <= i <= Max(lastApplied + 1, last.value + 1)
        invariant |applied| == i - lastApplied - 1
        invariant forall k :: 0 <= k < |applied| ==> applied[k] == lastApplied + 1 + k
        invariant forall x :: x in applied <==> lastApplied < x < i
        decreases last.value - i
      {
        applied := applied + [i];
        i := i + 1;
      }
    }
  }
}
