/**
 * Basic vocabulary shared by the replication model: optional values (the
 * source's nullable `Long`s), member and future identities, errors, the
 * outcome with which a pending future is completed, and the leader's view of
 * its local log.
 */
module Types {

  /** A nullable value: `None` stands for Java's `null`. */
  datatype Option<+T> = None | Some(value: T) {
    function GetOr(default: T): T {
      match this
      case Some(v) => v
      case None => default
    }
  }

  /** One octet of a serialized log entry. */
  type Byte = x: int | 0 <= x < 256

  type Bytes = seq<Byte>

  /** A cluster member's URI. */
  type MemberId = string

  /**
   * The identity of one `CompletableFuture`. Registries map an index to the
   * identity of the future that waits for it, so that "the same future is
   * returned again" can be stated as equality of identities.
   */
  type FutureId = nat

  /** The exceptions with which the leader fails a pending future. */
  datatype Error =
    | NotLeader            // "Not the leader": a reply carried a higher term
    | ReplicaNotInCommit   // a ping the follower did not acknowledge
    | QuorumFailed         // "Failed to obtain quorum"
    | Cause(reason: string) // a transport failure or an error carried by a reply

  /** How a future was completed: with a value or exceptionally. */
  datatype Outcome = Completed(value: int) | Failed(error: Error)

  /** The completion of the future `id` with `outcome`. */
  datatype Resolution = Resolution(id: FutureId, outcome: Outcome)

  /**
   * What a call returns: a future that is already complete
   * (`CompletableFuture.completedFuture`) or one that is still pending.
   */
  datatype Handle = Ready(value: int) | Waiting(id: FutureId)

  /** A log entry: the term it was created in, followed by its payload. */
  datatype Entry = Entry(term: int, payload: Bytes)

  /**
   * The local log. Indices are 1-based: index `i` is `log[i - 1]`. The log is
   * never compacted in this model, so its first index is always 1.
   */
  type Log = seq<Entry>

  const FirstIndex: int := 1

  /** The log's last index, or `None` when the log is empty. */
  function LastIndex(log: Log): (r: Option<int>)
    ensures r.None? <==> |log| == 0
    ensures r.Some? ==> r.value == |log| && ContainsIndex(log, r.value)
  {
    if |log| == 0 then None else Some(|log|)
  }

  predicate ContainsIndex(log: Log, i: int) {
    FirstIndex <= i <= |log|
  }

  function EntryAt(log: Log, i: int): Entry
    requires ContainsIndex(log, i)
  {
    log[i - 1]
  }

  /** The leader context a replica reads when it builds a request. */
  datatype Context = Context(term: int, local: MemberId, log: Log, commitIndex: Option<int>)

  function Min(a: int, b: int): int { if a <= b then a else b }

  function Max(a: int, b: int): int { if a >= b then a else b }

  /** No element occurs twice. */
  predicate Distinct<T(==)>(s: seq<T>) {
    forall i, j :: 0 <= i < j < |s| ==> s[i] != s[j]
  }
}
