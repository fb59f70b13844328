# Copycat leader replication engine, in Dafny

This project models the leader side of Copycat's Raft-family consensus
core: `LeaderState` and its two inner classes. It proves properties of that
model with Dafny 4.11.

- **Replicator** owns one **Replica** per follower. It fans pings and commits
  out to them and counts their answers against a quorum of
  `floor(members / 2)` followers; the leader is the implicit extra vote.
  It also derives the cluster commit index from the followers' `matchIndex`
  values (`checkCommits`) and completes commit waiters up to it.
- **Replica** tracks one follower:
  - `nextIndex` and `matchIndex`;
  - a `TreeMap` of ping waiters and a `HashMap` of replicate waiters;
  - batches of up to 100 entries per append request;
  - the handling of accepted, rejected and failed appends and pings.
- **LeaderState** holds the handlers:
  - rejects stale-term pings and appends, steps down on an equal term, and
    hands a higher term on;
  - dispatches queries by consistency level;
  - appends and commits client entries, stored with an 8-byte term prefix;
  - replays unapplied entries.

Each operation is a pure function from the old state to a record. The
record holds the new state, the future handed back, the futures resolved
(in order), the request sent and whether to step down. Java `null` is
`Option.None`. A `CompletableFuture` is a `FutureId` that its owner draws
from a counter. A `TreeMap` is an ascending sequence of `(index, future)`
pairs; a `HashMap` is a `map`. The log is a sequence of entries at indices
`1..|log|`.

Files:

| file | module | what it holds |
|---|---|---|
| `types.dfy` | `Types` | `Option`, bytes, errors, outcomes, entries, the log, the leader context |
| `protocol.dfy` | `Protocol` | ping and append requests, responses, transport replies |
| `entry_codec.dfy` | `EntryCodec` | the 8-byte big-endian two's-complement term prefix of a stored entry |
| `registry.dfy` | `Registry` | the waiter registries and the ways they are drained |
| `replica.dfy` | `Replicas` | the per-follower replica |
| `quorum.dfy` | `QuorumCounter` | the quorum counter the fan-outs rely on |
| `replicator.dfy` | `Replicators` | the replicator |
| `leader.dfy` | `Leader` | the leader's request handlers |

Behaviour of the code worth knowing, each modelled as written:

- **Commit and last-applied.** A commit moves the last-applied index only
  when replication succeeded: the `finally` at `LeaderState.java:222-224`
  sits inside the success branch, so a failed commit leaves it alone.
- **STRONG query on an empty log.** The query pings with no index. A replica
  pinged with no index returns a future it never registers
  (`LeaderState.java:426-433`), so nothing completes it. When there are
  followers, such a query never answers. `Replicas.UnindexedPingIsNeverCompleted`
  and `Replicators.PingRoundUnindexed` state it.
- **WEAK and DEFAULT queries.** They call the consumer outside any
  `try`/`catch` (`LeaderState.java:151-158`). A consumer exception escapes
  `query` (`Leader.Query` returns `Raised`) instead of becoming an `ERROR`
  response, as it does for STRONG queries.
- **Higher-term append rejection.** It fails the batch and steps down without
  adopting the responder's term (`LeaderState.java:554-556`). A higher-term
  ping response does adopt it (`LeaderState.java:452-455`).
- **Commit index position.** The comment at `LeaderState.java:372-375` says
  the commit index is read at "the negation of the required quorum size",
  counting from the top of the sorted list. The code reads ascending
  position `quorumIndex = quorum - 1` instead. With match indices 10, 12,
  15, 15, 20 and a quorum of 2, the comment's rule gives 15 and the code
  gives 12. See "Findings".

## Model

| member | source | states |
|---|---|---|
| `EntryCodec.Encode` | core/src/main/java/net/kuujo/copycat/internal/LeaderState.java:200-202 | a stored entry is 8 term bytes followed by exactly the payload |
| `EntryCodec.DecodeEncode` | core/src/main/java/net/kuujo/copycat/internal/LeaderState.java:200-204 | reading a stored entry back yields the term and payload written, for every 64-bit term |
| `EntryCodec.EncodeDecode` | core/src/main/java/net/kuujo/copycat/internal/LeaderState.java:200-204 | every buffer with at least the 8-byte prefix is the encoding of what it decodes to |
| `Registry.Get` | core/src/main/java/net/kuujo/copycat/internal/LeaderState.java:427-428 | a lookup finds a waiter exactly when the index is registered, and finds that index's waiter |
| `Registry.LastKey` | core/src/main/java/net/kuujo/copycat/internal/LeaderState.java:427 | the last key of an ordered registry is registered and is at least every registered index |
| `Registry.Put` | core/src/main/java/net/kuujo/copycat/internal/LeaderState.java:432 | registering keeps the registry ordered, replaces any waiter of the same index and keeps every other one |
| `Registry.TakeUpTo` | core/src/main/java/net/kuujo/copycat/internal/LeaderState.java:389-400 | the ascending walk takes exactly the prefix of waiters at or below the bound and keeps the rest, order intact |
| `Registry.TakeOne` | core/src/main/java/net/kuujo/copycat/internal/LeaderState.java:590-597 | removing an index takes exactly its waiter, if any, and keeps every other one |
| `Registry.TakeRange` | core/src/main/java/net/kuujo/copycat/internal/LeaderState.java:602-625 | draining `lo..hi` takes exactly the waiters in the range, ascending, keeps the others with their futures, and does nothing when the range is empty |
| `Registry.SettleCovers` | core/src/main/java/net/kuujo/copycat/internal/LeaderState.java:619-622 | settling resolves every taken waiter with the outcome for its own index, and resolves nothing that was not taken |
| `Replicas.NewReplica` | core/src/main/java/net/kuujo/copycat/internal/LeaderState.java:415-419 | a new replica has no match, no waiters, and a next index just past the leader's last entry (none on an empty log) |
| `Replicas.DoSync` | core/src/main/java/net/kuujo/copycat/internal/LeaderState.java:495-520 | a sync pass changes only `nextIndex` (defaulting to the last index) and sends a batch exactly when the log holds it: up to 100 contiguous entries, with the previous index and term, or none when starting at 1 |
| `Replicas.BatchRangeIsSentRange` | core/src/main/java/net/kuujo/copycat/internal/LeaderState.java:502-550 | the range the reply handler recomputes from `prevIndex` is exactly the batch of log entries that was sent |
| `Replicas.Commit` | core/src/main/java/net/kuujo/copycat/internal/LeaderState.java:473-490 | a matched index completes at once; a registered index hands back its waiter; otherwise a fresh waiter is registered and a sync pass runs: `nextIndex` defaults to the last index, and a batch starting there is sent exactly when the log holds that index |
| `Replicas.Ping` | core/src/main/java/net/kuujo/copycat/internal/LeaderState.java:421-443 | an index above `matchIndex` becomes a commit; a ping covered by the newest waiter reuses it and sends nothing; otherwise a fresh waiter is registered (only for an index) next to every existing waiter, which keeps its future, and a probe carrying the term of the probed entry is sent |
| `Replicas.PingThresholdIsStrict` | core/src/main/java/net/kuujo/copycat/internal/LeaderState.java:422-424 | a ping for exactly `matchIndex` stays a probe waiting for a reply (not a commit completed at once), while one just above it becomes a commit |
| `Replicas.PingTwiceSharesFuture` | core/src/main/java/net/kuujo/copycat/internal/LeaderState.java:421-433 | pinging an index twice, probe or handed over to `commit`, hands back the same future and sends nothing the second time |
| `Replicas.CommitTwiceSharesFuture` | core/src/main/java/net/kuujo/copycat/internal/LeaderState.java:478-481 | committing an index twice hands back the same future and sends nothing the second time |
| `Replicas.UnindexedPingIsNeverCompleted` | core/src/main/java/net/kuujo/copycat/internal/LeaderState.java:426-433 | a ping without an index returns a future no registry holds, and no reply to it resolves anything |
| `Replicas.PingLeavesWaiter` | core/src/main/java/net/kuujo/copycat/internal/LeaderState.java:421-443 | after a ping at an index the replica waits on it: a ping waiter at or above it when the follower holds the index, a replicate waiter for it when it does not |
| `Replicas.FailPing` | core/src/main/java/net/kuujo/copycat/internal/LeaderState.java:590-597 | a failure fails only the probed index's waiter, with the given error |
| `Replicas.CompletePings` | core/src/main/java/net/kuujo/copycat/internal/LeaderState.java:577-585 | a success completes every ping waiter up to the probed index with that index and keeps the later ones |
| `Replicas.OnPingReply` | core/src/main/java/net/kuujo/copycat/internal/LeaderState.java:445-466 | per reply kind: transport, ERROR and unsuccessful replies fail the probed waiter; a higher term adopts the term, steps down and fails it with not-leader; a success completes the waiters up to the index |
| `Replicas.ResolveRange` | core/src/main/java/net/kuujo/copycat/internal/LeaderState.java:602-625 | resolving `lo..hi` settles exactly the replicate waiters in the range and keeps the others |
| `Replicas.Advanced` | core/src/main/java/net/kuujo/copycat/internal/LeaderState.java:548 | the new `matchIndex` is the larger of the old one and the batch end |
| `Replicas.OnAppendReply` | core/src/main/java/net/kuujo/copycat/internal/LeaderState.java:538-571 | per reply kind: acceptance raises `matchIndex` to the larger of old and batch end, sets `nextIndex` after it, completes the batch's waiters and sends the next batch exactly when the log holds the index after `matchIndex`; a higher-term rejection fails the batch and steps down keeping the leader's term; another rejection rewinds `nextIndex` (reported index + 1, else `prevIndex`, else 1) and retries; ERROR and transport failures fail the batch; `matchIndex` never drops |
| `Replicas.Apply` | core/src/main/java/net/kuujo/copycat/internal/LeaderState.java:421-571 | any call or reply keeps the replica well formed and never lowers a known `matchIndex` |
| `Replicas.MatchIndexNeverDecreases` | core/src/main/java/net/kuujo/copycat/internal/LeaderState.java:548 | over any sequence of calls and replies, stale and reordered ones included, a known `matchIndex` never decreases |
| `QuorumCounter.Succeed` | core/src/main/java/net/kuujo/copycat/internal/LeaderState.java:307-309 | a success counts until the counter decides and decides `true` when the successes reach the requirement |
| `QuorumCounter.Fail` | core/src/main/java/net/kuujo/copycat/internal/LeaderState.java:310-312 | a failure counts until the counter decides and decides `false` when too few voters remain |
| `QuorumCounter.VerdictMatchesVotes` | core/src/main/java/net/kuujo/copycat/internal/LeaderState.java:296-313 | the counter decides `true` only with enough successes and `false` only without them, and every voter voting forces a decision |
| `Replicators.Followers` | core/src/main/java/net/kuujo/copycat/internal/LeaderState.java:268-274 | the followers are exactly the members other than the local one, each once |
| `Replicators.NewReplicator` | core/src/main/java/net/kuujo/copycat/internal/LeaderState.java:264-279 | a fresh replica per follower, quorum `floor(members / 2)`, quorum index one less, no commit waiters |
| `Replicators.Insert` | core/src/main/java/net/kuujo/copycat/internal/LeaderState.java:370 | insertion adds exactly one element (multiset) |
| `Replicators.InsertKeepsOrder` | core/src/main/java/net/kuujo/copycat/internal/LeaderState.java:370 | inserting into a list sorted by `matchIndex` (unknown as 0) keeps it sorted and duplicate-free |
| `Replicators.SortByMatch` | core/src/main/java/net/kuujo/copycat/internal/LeaderState.java:370 | the sort is a permutation of the replica list |
| `Replicators.SortByMatchSorts` | core/src/main/java/net/kuujo/copycat/internal/LeaderState.java:370 | the sorted list is ordered by `matchIndex` (unknown as 0), has the same followers, and stays duplicate-free |
| `Replicators.SortByMatchIsStable` | core/src/main/java/net/kuujo/copycat/internal/LeaderState.java:370 | the sort is stable: for every key, the followers with that key keep their relative order (as `Collections.sort` guarantees) |
| `Replicators.PositionIsOrderStatistic` | core/src/main/java/net/kuujo/copycat/internal/LeaderState.java:370-378 | the key at position `k` of the sorted list is reached by at least `n - k` followers and not passed by at least `k + 1` |
| `Replicators.TriggerCommitFutures` | core/src/main/java/net/kuujo/copycat/internal/LeaderState.java:389-400 | every commit waiter at or below the index is completed with its own index, in ascending order; the later ones stay |
| `Replicators.CommitFrom` | core/src/main/java/net/kuujo/copycat/internal/LeaderState.java:365-384 | nothing happens unless there are followers and the quorum index is non-negative; otherwise the list is left sorted, the `matchIndex` of the follower at the position is the chosen index exactly (none when it is null), and a chosen index becomes the commit index and completes the waiters up to it |
| `Replicators.CheckCommitsAsWritten` | core/src/main/java/net/kuujo/copycat/internal/LeaderState.java:365-384 | as written: the `matchIndex` at ascending position `quorumIndex` of the sorted list is chosen whenever it is known; a chosen index is reached by all but `quorum - 1` followers; a null there leaves the commit index, the commit waiters and the resolutions untouched |
| `Replicators.CheckCommits` | core/src/main/java/net/kuujo/copycat/internal/LeaderState.java:365-384 | corrected: the `matchIndex` at position `size - quorum` of the sorted list is chosen whenever it is known; a chosen index is reached by at least `quorum` followers and not passed by at least `n - quorum + 1`; a null at the position leaves the commit index alone |
| `Replicators.OrderStatisticIsUnique` | core/src/main/java/net/kuujo/copycat/internal/LeaderState.java:378 | the counting conditions pin a single commit index |
| `Replicators.CommitIndexBackedByMajority` | core/src/main/java/net/kuujo/copycat/internal/LeaderState.java:276-278 | the followers at or above the chosen commit index, plus the leader, are a strict majority of the members |
| `Replicators.BackersHaveReplicated` | core/src/main/java/net/kuujo/copycat/internal/LeaderState.java:370 | for a positive index, a follower counted as reaching it has a known `matchIndex` of at least that index (unknown as 0 counts for nothing) |
| `Replicators.OrderStatisticIsMonotone` | core/src/main/java/net/kuujo/copycat/internal/LeaderState.java:370-378 | when no follower's key drops, the key at any position does not drop |
| `Replicators.CheckCommitsIsMonotone` | core/src/main/java/net/kuujo/copycat/internal/LeaderState.java:365-384 | corrected rule: when no follower's key drops, the chosen commit index does not drop |
| `Replicators.CommitIndexNeverDecreases` | core/src/main/java/net/kuujo/copycat/internal/LeaderState.java:348-354 | corrected rule: whatever append reply arrives, the commit index re-evaluated afterwards is at least the one before |
| `Replicators.CheckCommitsAsWrittenIsMonotone` | core/src/main/java/net/kuujo/copycat/internal/LeaderState.java:365-384 | as written: when no follower's key drops, the index read at position `quorumIndex` does not drop |
| `Replicators.AsWrittenCommitIndexNeverDecreases` | core/src/main/java/net/kuujo/copycat/internal/LeaderState.java:348-354 | as written: whatever append reply arrives, the index `checkCommits` reads afterwards is at least the one before |
| `Replicators.AsWrittenWaitsForEveryFollower` | core/src/main/java/net/kuujo/copycat/internal/LeaderState.java:378 | with three members and one follower matched, the code as written sets no commit index while the corrected rule commits and has a majority |
| `Replicators.Each` | core/src/main/java/net/kuujo/copycat/internal/LeaderState.java:306-314 | a fan-out calls every follower exactly once and changes no other replica |
| `Replicators.PingRoundUnindexed` | core/src/main/java/net/kuujo/copycat/internal/LeaderState.java:291-316 | a ping round without an index sends every follower a probe without one and registers no waiter at any follower |
| `Replicators.Ping` | core/src/main/java/net/kuujo/copycat/internal/LeaderState.java:291-316 | a ping round pings every follower with the same index, each call returning the future and sending the request of that follower's `ping(index)`, keeps each `matchIndex`, counts against a quorum of `quorum` over all followers, and returns a future no commit waiter uses |
| `Replicators.PingAll` | core/src/main/java/net/kuujo/copycat/internal/LeaderState.java:284-286 | on an empty log every follower gets a probe without an index and no waiter is registered anywhere; otherwise every follower ends up waiting on the last index (a ping waiter at or above it if it holds the index, a replicate waiter for it if not) |
| `Replicators.Commit` | core/src/main/java/net/kuujo/copycat/internal/LeaderState.java:328-360 | no index degrades to a ping without one; otherwise a commit waiter is registered for the index (replacing an older one) and every follower commits it, each call returning the future and sending the request of that follower's `commit(index)` |
| `Replicators.CommitAll` | core/src/main/java/net/kuujo/copycat/internal/LeaderState.java:321-323 | on an empty log a round of unindexed probes that registers no commit waiter; otherwise a commit waiter for the last index, a replicate waiter for it at every follower lacking it, and followers already holding it untouched |
| `Replicators.OnCommitAnswer` | core/src/main/java/net/kuujo/copycat/internal/LeaderState.java:348-357 | an answer counts once while the counter is undecided and leaves a decided counter unchanged; only a success can move the commit index, and then to an index at least `quorum` followers have reached; a failure changes nothing else |
| `Replicators.OnAppendReply` | core/src/main/java/net/kuujo/copycat/internal/LeaderState.java:538-571 | a reply changes only its own follower's replica and lowers no follower's key |
| `Leader.HandlePing` | core/src/main/java/net/kuujo/copycat/internal/LeaderState.java:109-123 | lower term rejects with the local term, equal term steps down and delegates, higher term delegates; each exactly when its term relation holds |
| `Leader.HandleAppend` | core/src/main/java/net/kuujo/copycat/internal/LeaderState.java:126-141 | as for pings, and the rejection carries the leader's last log index |
| `Leader.RejectedPingerStepsDown` | core/src/main/java/net/kuujo/copycat/internal/LeaderState.java:115-120 | a stale leader handed the rejection as a ping reply steps down and adopts the newer term |
| `Leader.RejectedAppenderStepsDown` | core/src/main/java/net/kuujo/copycat/internal/LeaderState.java:131-138 | a stale leader handed the append rejection as the reply to its batch steps down and sends nothing more, but keeps its own older term |
| `Leader.AnswerOf` | core/src/main/java/net/kuujo/copycat/internal/LeaderState.java:165-178 | a returned result becomes OK with it, a throw becomes ERROR with its error |
| `Leader.Query` | core/src/main/java/net/kuujo/copycat/internal/LeaderState.java:144-191 | WEAK and DEFAULT apply the consumer at once without an index, and a throw escapes; STRONG starts a ping round at the last index |
| `Leader.QueryAnswer` | core/src/main/java/net/kuujo/copycat/internal/LeaderState.java:163-187 | a STRONG query answers OK exactly when the round succeeded and the consumer returned; every other case is an ERROR |
| `Leader.StrongQueryAnswersLikeWeak` | core/src/main/java/net/kuujo/copycat/internal/LeaderState.java:148-187 | a STRONG query never raises, and after a successful round answers what a WEAK one would, with ERROR where WEAK throws |
| `Leader.StrongReadConfirmedByQuorum` | core/src/main/java/net/kuujo/copycat/internal/LeaderState.java:163-187 | a STRONG OK answer needs at least `quorum` follower acknowledgements, and a round all followers answered has decided |
| `Leader.BeginCommit` | core/src/main/java/net/kuujo/copycat/internal/LeaderState.java:194-207 | the entry is appended after the last index with the leader's term, its bytes hold the payload after the 8-byte prefix, and a commit waiter is registered at its index |
| `Leader.CommittedEntryReadsBack` | core/src/main/java/net/kuujo/copycat/internal/LeaderState.java:200-204 | the stored bytes decode to the entry at the new index, with the leader's term and exactly the committed payload |
| `Leader.FinishCommit` | core/src/main/java/net/kuujo/copycat/internal/LeaderState.java:207-233 | on success the consumer runs at the index (throws become ERROR) and last-applied moves to the index; a failure answers its error and keeps last-applied |
| `Leader.CommitConfirmedByQuorum` | core/src/main/java/net/kuujo/copycat/internal/LeaderState.java:207-233 | a commit round succeeds only with at least `quorum` acknowledgements and has decided once all followers answered; a round decided `false` is answered as a quorum failure |
| `Leader.ApplyEntries` | core/src/main/java/net/kuujo/copycat/internal/LeaderState.java:75-85 | nothing on an empty log; otherwise exactly the indices after last-applied up to the last index, ascending, all within the log when last-applied is not negative |

## Left out

- Timers are left out: the heartbeat timer (`startPingTimer`,
  `setPingTimer`, `cancelPingTimer`, `close`) and `open`'s start-up sequence.
  They only schedule calls to the modelled operations.
- The executor hop is left out. A reply's effects are applied in one step, as
  the node's single task stream serialises them.
- Logging, request ids and sender URIs are left out; they steer no decision.
- `transition(FOLLOWER)`, `context.setTerm` and the delegated
  `super.ping`/`super.append` are not executed. Their use is modelled as
  results: a `stepDown` flag and the term to adopt, or the `Verdict`. The
  follower role is not part of this model.
- `applyEntry` belongs to the active state and is not part of this model.
  `Leader.ApplyEntries` returns the indices it would be called with.
- The `Quorum` utility is not part of this model. `QuorumCounter` states the
  behaviour the replicator relies on as an assumption: decide once, `true`
  at the required successes, `false` when too few voters remain. That
  includes its voter count and its behaviour with a quorum of 0.
- A `CompletableFuture`'s first-completion-wins rule is not modelled. A
  commit future can be completed both by its quorum and by
  `triggerCommitFutures`. The model reports each resolution and leaves
  de-duplication to the caller.
- Fan-out order: the source iterates a `HashMap`; the model uses the replica
  list order. The per-follower calls are independent, so only the order of
  the sent requests differs.
- Log compaction is left out: the first index is fixed at 1.
- 64-bit index overflow is not modelled: indices are unbounded integers.
  Only the stored term is checked to fit a `long`.
- `ByteBuffer` positions and capacities are not modelled. Entries are byte
  sequences; only the 8-byte term prefix is encoded.
- Consumer exceptions are values (`Threw`), and the consumer is a function
  parameter.
- Replicators.OnAppendReply: never-lowered keys are stated only for requests
  whose `prevIndex` is absent or at least 1. Every batch the leader builds is
  of that kind. A forged request with a negative `prevIndex` could lower an
  unmatched follower's key below 0.
- Replicators.OnCommitAnswer: uses the corrected commit-index rule
  (`Replicators.CheckCommits`), not the code as written; see Findings.

## Findings

| source | as written | input that shows it | evidently intended | confidence | as-written member | corrected member |
|---|---|---|---|---|---|---|
| core/src/main/java/net/kuujo/copycat/internal/LeaderState.java:378 | the commit index is read at ascending position `quorumIndex = quorum - 1`, so all but `quorum - 1` followers must reach it | members a, b, c with a leading, b matched up to 7, c not yet matched: quorum is 1, position 0 holds c, and no commit index is set although a and b are a majority | read position `size - quorum`, the `quorum`-th highest index (as the comment above the line describes), which `quorum` followers plus the leader back | medium, not executed | `Replicators.CheckCommitsAsWritten`, `Replicators.AsWrittenWaitsForEveryFollower` | `Replicators.CheckCommits`, `Replicators.CommitIndexBackedByMajority` |

Both rules are safe. The rule as written only delays the cluster commit
index: in a three-member cluster it waits for both followers. A commit
request is still answered when its quorum succeeds.
