/**
 * The quorum counter the replicator wraps each fan-out in. The `Quorum`
 * utility itself is not part of this model; this module states the
 * behaviour the replicator relies on as an assumption: it is told how many
 * successes it needs and how many voters there are, and it decides once,
 * `true` when the successes reach the requirement and `false` when the
 * failures leave too few voters to reach it. Votes after the decision are
 * ignored.
 */
module QuorumCounter {
  import opened Types

  datatype Quorum = Quorum(required: int, voters: int, succeeded: nat, failed: nat, verdict: Option<bool>)

  function NewQuorum(required: int, voters: int): (q: Quorum)
    ensures q.verdict.None? && q.succeeded == 0 && q.failed == 0
  {
    Quorum(required, voters, 0, 0, None)
  }

  function Succeed(q: Quorum): (r: Quorum)
    ensures q.verdict.Some? ==> r == q
    ensures q.verdict.None? ==> r.succeeded == q.succeeded + 1 && r.failed == q.failed
    ensures q.verdict.None? ==> (r.verdict == Some(true) <==> r.succeeded >= q.required)
    ensures q.verdict.None? ==> r.verdict != Some(false)
  {
    if q.verdict.Some? then q
    else
      var s := q.succeeded + 1;
      q.(succeeded := s, verdict := if s >= q.required then Some(true) else None)
  }

  function Fail(q: Quorum): (r: Quorum)
    ensures q.verdict.Some? ==> r == q
    ensures q.verdict.None? ==> r.failed == q.failed + 1 && r.succeeded == q.succeeded
    ensures q.verdict.None? ==> (r.verdict == Some(false) <==> q.voters - r.failed < q.required)
    ensures q.verdict.None? ==> r.verdict != Some(true)
  {
    if q.verdict.Some? then q
    else
      var f := q.failed + 1;
      q.(failed := f, verdict := if q.voters - f < q.required then Some(false) else None)
  }

  /** The counter after a sequence of votes (`true` for a success). */
  function Tally(q: Quorum, votes: seq<bool>): (r: Quorum)
    ensures r.required == q.required && r.voters == q.voters
    ensures q.verdict.Some? ==> r == q
    decreases |votes|
  {
    if |votes| == 0 then q
    else Tally(if votes[0] then Succeed(q) else Fail(q), votes[1..])
  }

  function Count(votes: seq<bool>, b: bool): (n: nat)
    ensures n <= |votes|
  {
    if |votes| == 0 then 0 else (if votes[0] == b then 1 else 0) + Count(votes[1..], b)
  }

  lemma {:induction false} CountSplit(votes: seq<bool>)
    ensures Count(votes, true) + Count(votes, false) == |votes|
  {
    if |votes| > 0 {
      CountSplit(votes[1..]);
    }
  }

  /** No decision yet: the counts are too small to decide either way. */
  ghost predicate Undecided(q: Quorum) {
    q.verdict.None? && q.succeeded < q.required && q.voters - q.failed >= q.required
  }

  /**
   * Counting from an undecided state with at most the remaining voters'
   * votes: the counter answers `true` only if the successes reached the
   * requirement, answers `false` only if they cannot, and has answered by
   * the time every voter has voted.
   */
  lemma {:induction false} VerdictMatchesVotes(q: Quorum, votes: seq<bool>)
    requires Undecided(q)
    requires q.succeeded + q.failed + |votes| <= q.voters
    ensures Tally(q, votes).verdict == Some(true) ==> q.succeeded + Count(votes, true) >= q.required
    ensures Tally(q, votes).verdict == Some(false) ==> q.succeeded + Count(votes, true) < q.required
    ensures q.succeeded + q.failed + |votes| == q.voters ==> Tally(q, votes).verdict.Some?
    decreases |votes|
  {
    CountSplit(votes);
    if |votes| > 0 {
      CountSplit(votes[1..]);
      var next := if votes[0] then Succeed(q) else Fail(q);
      if next.verdict.None? {
        VerdictMatchesVotes(next, votes[1..]);
      } else {
        assert Tally(q, votes) == next;
      }
    }
  }
}
