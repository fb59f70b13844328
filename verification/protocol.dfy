/**
 * The protocol messages the leader sends and receives. Request ids and the
 * sender URIs are left out: they only correlate messages and never steer a
 * decision.
 */
module Protocol {
  import opened Types

  datatype Status = OK | ERROR

  /** A heartbeat/probe: term, leader, the index being probed and its term. */
  datatype PingRequest = PingRequest(
    term: int,
    leader: MemberId,
    logIndex: Option<int>,
    logTerm: Option<int>,
    commitIndex: Option<int>)

  /** A batch of entries following `prevIndex` (the request's `logIndex`). */
  datatype AppendRequest = AppendRequest(
    term: int,
    leader: MemberId,
    prevIndex: Option<int>,
    prevTerm: Option<int>,
    entries: seq<Entry>,
    commitIndex: Option<int>)

  datatype Request = SendPing(ping: PingRequest) | SendAppend(append: AppendRequest)

  /**
   * A ping or append response. `error` is meaningful only when `status` is
   * `ERROR`; `logIndex` is the follower's last log index, when it sent one.
   */
  datatype Response = Response(
    status: Status,
    term: int,
    succeeded: bool,
    logIndex: Option<int>,
    error: Error)

  /** What the transport delivers for a request: a response or a failure. */
  datatype Reply = Delivered(response: Response) | TransportError(error: Error)
}
