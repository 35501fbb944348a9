/** Requests, replies and the frame bodies that carry them. */
module Messages {
  import opened Wrappers
  import opened Bytes
  import NonEmptySeq

  datatype Caller = Caller(
    identity: Option<string>, pid: u32, executable: Option<string>, startTime: Option<u64>)

  datatype Request<+Op> = Request(caller: Option<Caller>, payloads: NonEmptySeq.NonEmpty<Op>)

  function FromPayload<Op>(payload: Op): Request<Op> {
    Request(None, NonEmptySeq.Single(payload))
  }

  datatype RequestBuilderError = EmptyRequest

  /** Collects payloads until a request is built. */
  class RequestBuilder<Op> {
    var payloads: seq<Op>

    constructor ()
      ensures payloads == []
    {
      payloads := [];
    }

    method Push(payload: Op)
      modifies this
      ensures payloads == old(payloads) + [payload]
    {
      payloads := payloads + [payload];
    }

    /** A request exists exactly when something was pushed; it carries the pushes in order and no caller. */
    method Build() returns (r: Result<Request<Op>, RequestBuilderError>)
      ensures r.Err? <==> payloads == []
      ensures r.Ok? ==> r.value.caller == None && r.value.payloads.ToSeq() == payloads
    {
      var built := NonEmptySeq.TryFromVec(payloads);
      match built
      case Ok(nonEmpty) => return Ok(Request(None, nonEmpty));
      case Err(Empty) => return Err(EmptyRequest);
    }
  }

  datatype OperationFailureReason = DomainRejection
  datatype BatchFailureReason = EngineRejected | EngineUnavailable
  datatype RetryClassification = Retryable | NotRetryable | RetryUnknown
  datatype CommitStatus = NotCommitted | CommitUnknown
  datatype RequestRejectionReason = Internal

  datatype AcceptedOutcome =
    | Committed
    | OperationAborted(failedAt: nat, failure: OperationFailureReason)
    | BatchAborted(reason: BatchFailureReason, retry: RetryClassification, commit: CommitStatus)

  datatype SubReply<+Rep> =
    | Done(payload: Rep)
    | Invalidated
    | Failed(reason: OperationFailureReason, detail: Option<Rep>)
    | Skipped

  datatype Reply<+Rep> =
    | Accepted(outcome: AcceptedOutcome, perOperation: NonEmptySeq.NonEmpty<SubReply<Rep>>)
    | Rejected(reason: RequestRejectionReason)

  datatype ExchangeLane = Connector | Acceptor

  datatype ExchangeIdentifier = ExchangeIdentifier(sessionEpoch: u64, lane: ExchangeLane, sequence: u64)
  datatype StreamEventIdentifier = StreamEventIdentifier(sessionEpoch: u64, sequence: u64)

  datatype ProtocolVersion = ProtocolVersion(major: u16, minor: u16, patch: u16)
  datatype HandshakeReply = HandshakeAccepted(version: ProtocolVersion) | HandshakeRejected(local: ProtocolVersion, peer: ProtocolVersion)

  /** An exchange-only channel is one that never builds the last constructor. */
  datatype FrameBody<+Op, +Rep, +Ev> =
    | HandshakeRequestBody(version: ProtocolVersion)
    | HandshakeReplyBody(handshake: HandshakeReply)
    | RequestBody(exchange: ExchangeIdentifier, request: Request<Op>)
    | ReplyBody(exchange: ExchangeIdentifier, reply: Reply<Rep>)
    | SubscriptionEventBody(eventIdentifier: StreamEventIdentifier, token: u64, event: Ev)
}
