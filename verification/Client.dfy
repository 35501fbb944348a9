/** The thin client: reading frames off a stream and accepting the reply to its one request. */
module Client {
  import opened Wrappers
  import opened Bytes
  import opened Binding
  import opened Frame
  import opened NonEmptySeq
  import opened Messages

  datatype ClientError =
    | InputOutput
    | FrameTooLarge(found: nat, limit: nat)
    | SignalFrame(frameError: FrameError)
    | EmptyReply
    | UnexpectedFrame
    | NotAllDone
    | RequestRejected(reason: RequestRejectionReason)
    | ReplyExchangeMismatch(expected: ExchangeIdentifier, foundExchange: ExchangeIdentifier)

  /** Each invocation opens a fresh connection and uses this one exchange on it. */
  const EXCHANGE := ExchangeIdentifier(0, Connector, 0)

  // ---- Reading frames -----------------------------------------------------

  /** One frame and the bytes after it. */
  function ReadFrame<Body>(binding: ContractBinding, codec: Codec<Body>, limit: nat, pending: seq<u8>)
    : (r: Result<(Frame<Body>, seq<u8>), ClientError>)
    ensures r.Ok? ==> |r.value.1| < |pending|
  {
    if |pending| < LENGTH_PREFIX_BYTE_COUNT then Err(InputOutput)
    else
      var length := BeValue(pending[..LENGTH_PREFIX_BYTE_COUNT]);
      if length > limit then Err(FrameTooLarge(length, limit))
      else if |pending| < LENGTH_PREFIX_BYTE_COUNT + length then Err(InputOutput)
      else
        match DecodeLengthPrefixed(binding, codec, pending[..LENGTH_PREFIX_BYTE_COUNT + length])
        case Ok(frame) => Ok((frame, pending[LENGTH_PREFIX_BYTE_COUNT + length..]))
        case Err(error) => Err(SignalFrame(error))
  }

  /** A connected socket, as the bytes the peer has still to deliver before closing. */
  class ByteStream {
    var pending: seq<u8>

    constructor (bytes: seq<u8>)
      ensures pending == bytes
    {
      pending := bytes;
    }

    /** Fails, having drained the stream, when it closes before `count` bytes. */
    method ReadExact(count: nat) returns (r: Result<seq<u8>, ClientError>)
      modifies this
      ensures count <= |old(pending)| ==> r == Ok(old(pending)[..count]) && pending == old(pending)[count..]
      ensures count > |old(pending)| ==> r == Err(InputOutput)
    {
      if count > |pending| {
        pending := [];
        return Err(InputOutput);
      }
      r := Ok(pending[..count]);
      pending := pending[count..];
    }

    method ReadFrom<Body>(binding: ContractBinding, codec: Codec<Body>, limit: nat)
      returns (r: Result<Frame<Body>, ClientError>)
      modifies this
      ensures match ReadFrame(binding, codec, limit, old(pending))
              case Ok((frame, rest)) => r == Ok(frame) && pending == rest
              case Err(error) => r == Err(error)
      ensures r.Ok? ==> |old(pending)| >= 4 && |old(pending)| == 4 + BigEndian32(old(pending)) + |pending|
    {
      ReadOutcome(binding, codec, limit, pending);
      var prefix :- ReadExact(LENGTH_PREFIX_BYTE_COUNT);
      var length := BeValue(prefix);
      if length > limit {
        return Err(FrameTooLarge(length, limit));
      }
      var bytes: seq<u8> := prefix;
      var body :- ReadExact(length);
      bytes := bytes + body;
      assert bytes == old(pending)[..LENGTH_PREFIX_BYTE_COUNT + length];
      var decoded := DecodeLengthPrefixed(binding, codec, bytes);
      match decoded
      case Ok(frame) => return Ok(frame);
      case Err(error) => return Err(SignalFrame(error));
    }
  }

  /** The reader hands on exactly the bytes the prefix counts, so decoding never disagrees about length. */
  lemma ReaderNeverMiscounts<Body>(binding: ContractBinding, codec: Codec<Body>, limit: nat, pending: seq<u8>)
    requires |pending| >= 4 && BigEndian32(pending) <= |pending| - 4
    ensures
      var length := BigEndian32(pending);
      StripLengthPrefix(pending[..4 + length]) == Ok(pending[4..4 + length])
  {
    var framed := pending[..4 + BigEndian32(pending)];
    StripOutcome(framed);
    assert framed[4..] == pending[4..4 + BigEndian32(pending)];
  }

  /** What the reader makes of any stream: the limit is checked before the body is awaited, and decoding comes last. */
  lemma ReadOutcome<Body>(binding: ContractBinding, codec: Codec<Body>, limit: nat, pending: seq<u8>)
    ensures ReadFrame(binding, codec, limit, pending) ==
      if |pending| < 4 then Err(InputOutput)
      else
        var length := BigEndian32(pending);
        if length > limit then Err(FrameTooLarge(length, limit))
        else if |pending| - 4 < length then Err(InputOutput)
        else
          match DecodeFrame(binding, codec, pending[4..4 + length])
          case Err(error) => Err(SignalFrame(error))
          case Ok(frame) => Ok((frame, pending[4 + length..]))
  {
    if |pending| >= 4 {
      BeValueOfFour(pending[..4]);
      if BigEndian32(pending) <= |pending| - 4 {
        ReaderNeverMiscounts(binding, codec, limit, pending);
      }
    }
  }

  /** An encoded frame at the front of a stream is read back whole, exactly when its archive is within the limit. */
  lemma ReadsEncodedFrame<Body(!new)>(
      binding: ContractBinding, codec: Codec<Body>, limit: nat, frame: Frame<Body>, rest: seq<u8>)
    requires RoundTrips(codec) && ConstructibleUnder(binding, frame)
    requires EncodeLengthPrefixed(codec, frame).Ok?
    ensures
      var archive := EncodeArchive(codec, frame).value;
      ReadFrame(binding, codec, limit, EncodeLengthPrefixed(codec, frame).value + rest)
      == if |archive| <= limit then Ok((frame, rest)) else Err(FrameTooLarge(|archive|, limit))
  {
    var archive, bytes := EncodeArchive(codec, frame).value, EncodeLengthPrefixed(codec, frame).value;
    var pending := bytes + rest;
    LengthPrefixedRoundTrip(binding, codec, frame);
    StripInvertsPrefix(archive, bytes);
    assert pending[..4] == bytes[..4];
    assert pending[..4 + |archive|] == bytes && pending[4 + |archive|..] == rest;
  }

  function EncodeStream<Body>(codec: Codec<Body>, frames: seq<Frame<Body>>): Result<seq<u8>, FrameError> {
    if frames == [] then Ok([])
    else
      var first :- EncodeLengthPrefixed(codec, frames[0]);
      var rest :- EncodeStream(codec, frames[1..]);
      Ok(first + rest)
  }

  /** Reads until the stream has nothing left. */
  function ReadAll<Body>(binding: ContractBinding, codec: Codec<Body>, limit: nat, pending: seq<u8>)
    : Result<seq<Frame<Body>>, ClientError>
    decreases |pending|
  {
    if pending == [] then Ok([])
    else
      var (frame, rest) :- ReadFrame(binding, codec, limit, pending);
      var frames :- ReadAll(binding, codec, limit, rest);
      Ok([frame] + frames)
  }

  ghost predicate Sendable<Body>(binding: ContractBinding, codec: Codec<Body>, limit: nat, frame: Frame<Body>) {
    && ConstructibleUnder(binding, frame)
    && EncodeLengthPrefixed(codec, frame).Ok?
    && |EncodeArchive(codec, frame).value| <= limit
  }

  lemma ReadAllStep<Body>(
      binding: ContractBinding, codec: Codec<Body>, limit: nat, frame: Frame<Body>, bytes: seq<u8>, rest: seq<u8>)
    requires ReadFrame(binding, codec, limit, bytes + rest) == Ok((frame, rest))
    requires ReadAll(binding, codec, limit, rest).Ok?
    ensures ReadAll(binding, codec, limit, bytes + rest) == Ok([frame] + ReadAll(binding, codec, limit, rest).value)
  {
  }

  /** Frames written back to back are read back one by one, all of them and nothing else. */
  lemma {:induction false} StreamRoundTrip<Body(!new)>(
      binding: ContractBinding, codec: Codec<Body>, limit: nat, frames: seq<Frame<Body>>)
    requires RoundTrips(codec)
    requires forall i | 0 <= i < |frames| :: Sendable(binding, codec, limit, frames[i])
    ensures EncodeStream(codec, frames).Ok?
    ensures ReadAll(binding, codec, limit, EncodeStream(codec, frames).value) == Ok(frames)
  {
    if frames != [] {
      assert Sendable(binding, codec, limit, frames[0]);
      StreamRoundTrip(binding, codec, limit, frames[1..]);
      var rest := EncodeStream(codec, frames[1..]).value;
      ReadsEncodedFrame(binding, codec, limit, frames[0], rest);
      ReadAllStep(binding, codec, limit, frames[0], EncodeLengthPrefixed(codec, frames[0]).value, rest);
      assert frames == [frames[0]] + frames[1..];
    }
  }

  // ---- Accepting the reply ------------------------------------------------

  function ReplyFromFrame<Op, Rep, Ev>(frame: Frame<FrameBody<Op, Rep, Ev>>, expected: ExchangeIdentifier)
    : Result<Reply<Rep>, ClientError>
  {
    match frame.body
    case ReplyBody(exchange, reply) =>
      if exchange == expected then Ok(reply) else Err(ReplyExchangeMismatch(expected, exchange))
    case _ => Err(UnexpectedFrame)
  }

  /** The payloads of a run of finished operations, unless one of them is not `Done`. */
  function DonePayloads<Rep>(subReplies: seq<SubReply<Rep>>): (r: Option<seq<Rep>>)
    ensures r.Some? ==> |r.value| == |subReplies| && forall i | 0 <= i < |r.value| :: subReplies[i] == Done(r.value[i])
    ensures r.None? ==> exists i :: 0 <= i < |subReplies| && !subReplies[i].Done?
  {
    if subReplies == [] then Some([])
    else
      var n := |subReplies| - 1;
      var earlier := DonePayloads(subReplies[..n]);
      if earlier.Some? && subReplies[n].Done? then Some(earlier.value + [subReplies[n].payload]) else None
  }

  function ReplyPayloads<Rep>(reply: Reply<Rep>): (r: Result<NonEmpty<Rep>, ClientError>)
    ensures r.Ok? ==> reply.Accepted? && DonePayloads(reply.perOperation.ToSeq()) == Some(r.value.ToSeq())
  {
    match reply
    case Rejected(reason) => Err(RequestRejected(reason))
    case Accepted(_, perOperation) =>
      match DonePayloads(perOperation.ToSeq())
      case None => Err(NotAllDone)
      case Some(payloads) =>
        match FromSeq(payloads)
        case Ok(nonEmpty) => FromSeqInvertsToSeq(payloads, nonEmpty); Ok(nonEmpty)
        case Err(Empty) => Err(EmptyReply)
  }

  method CollectReplyPayloads<Rep>(reply: Reply<Rep>) returns (r: Result<NonEmpty<Rep>, ClientError>)
    ensures r == ReplyPayloads(reply)
  {
    match reply
    case Rejected(reason) =>
      return Err(RequestRejected(reason));
    case Accepted(_, perOperation) =>
      var subReplies := perOperation.ToSeq();
      var payloads: seq<Rep> := [];
      for i := 0 to |subReplies|
        invariant DonePayloads(subReplies[..i]) == Some(payloads)
      {
        assert subReplies[..i + 1][..i] == subReplies[..i];
        match subReplies[i]
        case Done(payload) =>
          payloads := payloads + [payload];
        case _ =>
          return Err(NotAllDone);
      }
      assert subReplies[..|subReplies|] == subReplies;
      var collected := TryFromVec(payloads);
      match collected
      case Ok(nonEmpty) => return Ok(nonEmpty);
      case Err(Empty) => return Err(EmptyReply);
  }

  /** What the client makes of everything that arrives after it has sent its request. */
  function ReceiveReply<Op, Rep, Ev>(
      binding: ContractBinding, codec: Codec<FrameBody<Op, Rep, Ev>>, limit: nat, incoming: seq<u8>)
    : Result<NonEmpty<Rep>, ClientError>
  {
    var (frame, _) :- ReadFrame(binding, codec, limit, incoming);
    var reply :- ReplyFromFrame(frame, EXCHANGE);
    ReplyPayloads(reply)
  }

  method AwaitReply<Op, Rep, Ev>(
      binding: ContractBinding, codec: Codec<FrameBody<Op, Rep, Ev>>, limit: nat, stream: ByteStream)
    returns (r: Result<NonEmpty<Rep>, ClientError>)
    modifies stream
    ensures r == ReceiveReply(binding, codec, limit, old(stream.pending))
  {
    var frame :- stream.ReadFrom(binding, codec, limit);
    var reply :- ReplyFromFrame(frame, EXCHANGE);
    r := CollectReplyPayloads(reply);
  }

  /** The first bytes are one whole frame within the limit, which decodes to `frame` under the binding. */
  ghost predicate Delivers<Body>(
      binding: ContractBinding, codec: Codec<Body>, limit: nat, incoming: seq<u8>, frame: Frame<Body>)
  {
    && |incoming| >= 4
    && var length := BigEndian32(incoming);
       && length <= limit && length <= |incoming| - 4
       && DecodeFrame(binding, codec, incoming[4..4 + length]) == Ok(frame)
  }

  lemma DeliversIffRead<Body>(
      binding: ContractBinding, codec: Codec<Body>, limit: nat, incoming: seq<u8>, frame: Frame<Body>)
    ensures Delivers(binding, codec, limit, incoming, frame)
       <==> ReadFrame(binding, codec, limit, incoming).Ok?
            && ReadFrame(binding, codec, limit, incoming).value.0 == frame
  {
    ReadOutcome(binding, codec, limit, incoming);
  }

  /** The bytes are the frames one after another, each delivered by the bytes its own prefix counts, and no more. */
  ghost predicate Framed<Body>(
      binding: ContractBinding, codec: Codec<Body>, limit: nat, pending: seq<u8>, frames: seq<Frame<Body>>)
    decreases |frames|
  {
    if frames == [] then pending == []
    else
      && Delivers(binding, codec, limit, pending, frames[0])
      && Framed(binding, codec, limit, pending[4 + BigEndian32(pending)..], frames[1..])
  }

  /** Over all byte streams, what is read to the end is exactly what the stream is framed as. */
  lemma {:induction false} ReadsAllIffFramed<Body>(
      binding: ContractBinding, codec: Codec<Body>, limit: nat, pending: seq<u8>, frames: seq<Frame<Body>>)
    ensures ReadAll(binding, codec, limit, pending) == Ok(frames) <==> Framed(binding, codec, limit, pending, frames)
    decreases |frames|
  {
    if pending != [] && frames != [] {
      DeliversIffRead(binding, codec, limit, pending, frames[0]);
      var read := ReadFrame(binding, codec, limit, pending);
      if read.Ok? {
        ReadOutcome(binding, codec, limit, pending);
        ReadsAllIffFramed(binding, codec, limit, read.value.1, frames[1..]);
        assert frames == [frames[0]] + frames[1..];
      }
    }
  }

  /** Accepted, with one `Done` sub-reply for each payload, in the same order. */
  ghost predicate AllDone<Rep>(reply: Reply<Rep>, payloads: NonEmpty<Rep>) {
    && reply.Accepted?
    && reply.perOperation.Len() == payloads.Len()
    && forall i | 0 <= i < payloads.Len() :: reply.perOperation.ToSeq()[i] == Done(payloads.ToSeq()[i])
  }

  lemma PayloadsIffAllDone<Rep>(reply: Reply<Rep>, payloads: NonEmpty<Rep>)
    ensures ReplyPayloads(reply) == Ok(payloads) <==> AllDone(reply, payloads)
    ensures ReplyPayloads(reply) != Err(EmptyReply)
  {
    if reply.Accepted? {
      FromSeqInvertsToSeq(payloads.ToSeq(), payloads);
      var done := DonePayloads(reply.perOperation.ToSeq());
      if AllDone(reply, payloads) {
        assert done.Some? && done.value == payloads.ToSeq();
      }
      if ReplyPayloads(reply) == Ok(payloads) {
        assert done == Some(payloads.ToSeq());
      }
    }
  }

  /** The client returns payloads only for a well-formed reply to its own exchange in which every operation is done. */
  lemma ClientAcceptsIff<Op, Rep, Ev>(
      binding: ContractBinding, codec: Codec<FrameBody<Op, Rep, Ev>>, limit: nat, incoming: seq<u8>,
      payloads: NonEmpty<Rep>)
    ensures ReceiveReply(binding, codec, limit, incoming) == Ok(payloads) <==>
      exists frame :: Delivers(binding, codec, limit, incoming, frame)
        && frame.body.ReplyBody? && frame.body.exchange == ExchangeIdentifier(0, Connector, 0)
        && AllDone(frame.body.reply, payloads)
  {
    var read := ReadFrame(binding, codec, limit, incoming);
    forall frame
      ensures Delivers(binding, codec, limit, incoming, frame) <==> read.Ok? && read.value.0 == frame
    {
      DeliversIffRead(binding, codec, limit, incoming, frame);
    }
    if read.Ok? {
      var frame := read.value.0;
      assert Delivers(binding, codec, limit, incoming, frame);
      if frame.body.ReplyBody? && frame.body.exchange == EXCHANGE {
        assert ReceiveReply(binding, codec, limit, incoming) == ReplyPayloads(frame.body.reply);
        PayloadsIffAllDone(frame.body.reply, payloads);
      } else {
        assert ReceiveReply(binding, codec, limit, incoming).Err?;
      }
    }
  }

  /** How the client refuses a frame it has read, and which it does not refuse. */
  lemma RefusedReply<Op, Rep, Ev>(frame: Frame<FrameBody<Op, Rep, Ev>>, expected: ExchangeIdentifier)
    ensures
      var verdict :=
        match ReplyFromFrame(frame, expected)
        case Err(error) => Err(error)
        case Ok(reply) => ReplyPayloads(reply);
      && (!frame.body.ReplyBody? <==> verdict == Err(UnexpectedFrame))
      && (frame.body.ReplyBody? && frame.body.exchange != expected ==>
            verdict == Err(ReplyExchangeMismatch(expected, frame.body.exchange)))
      && (frame.body.ReplyBody? && frame.body.exchange == expected ==>
            match frame.body.reply
            case Rejected(reason) => verdict == Err(RequestRejected(reason))
            case Accepted(_, perOperation) =>
              if exists i :: 0 <= i < perOperation.Len() && !perOperation.ToSeq()[i].Done? then verdict == Err(NotAllDone)
              else verdict.Ok?)
  {
    if frame.body.ReplyBody? && frame.body.reply.Accepted? {
      var perOperation := frame.body.reply.perOperation;
      var done := DonePayloads(perOperation.ToSeq());
      if done.Some? {
        FromSeqInvertsToSeq(done.value, Single(done.value[0]));
      }
    }
  }
}
