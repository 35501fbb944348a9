/** The whole pipeline: declaration to emitted channel, operation to bytes to handler, reply back to client. */
module EndToEnd {
  import opened Wrappers
  import Bytes
  import Binding
  import opened Frame
  import opened Channel
  import opened Validation
  import opened Augment
  import Desugared
  import Grammar
  import opened Parser
  import opened NonEmptySeq
  import opened Messages
  import opened Dispatch
  import opened Client
  import Printing
  import TextCodec
  import Witness

  datatype ExpansionError = ParseFailed(parsing: Grammar.ParseError) | ValidationFailed(validation: ValidationError)

  /** The macro: parse, validate, rewrite. What it emits is a rewritten, still well-formed specification. */
  method ExpandSignalChannel(input: Grammar.Tokens) returns (r: Result<ChannelSpec, ExpansionError>)
    ensures r.Ok? <==> Grammar.ReadChannel(input).Ok? && WellFormed(Grammar.ReadChannel(input).value)
    ensures r.Ok? ==> r.value == Augmented(Grammar.ReadChannel(input).value)
    ensures r.Ok? ==>
      var declared := Grammar.ReadChannel(input).value;
      match declared.observable
      case None => r.value == declared
      case Some(o) =>
        Grammar.ReadChannel(
          Desugared.WrittenOut(declared, Desugared.DeclaredFilter(o), o.operationEvent, o.effectEvent)) == Ok(r.value)
    ensures r.Ok? ==> WellFormed(r.value) && EmitterUnwrapsSucceed(r.value)
    ensures Grammar.ReadChannel(input).Err? ==> r == Err(ParseFailed(Grammar.ReadChannel(input).error))
    ensures Grammar.ReadChannel(input).Ok? && r.Err? ==>
      r.error.ValidationFailed? && Diagnosed(Grammar.ReadChannel(input).value, r.error.validation)
  {
    var stream := new ParseStream(input);
    var parsed := ParseChannel(stream);
    if parsed.Err? {
      return Err(ParseFailed(parsed.error));
    }
    var valid := Validate(parsed.value);
    if valid.Err? {
      return Err(ValidationFailed(valid.error));
    }
    var emitted := AugmentWithObservable(parsed.value);
    AugmentPreservesWellFormedness(parsed.value);
    EmissionNeverPanics(parsed.value);
    Printing.ParserImage(parsed.value);
    if parsed.value.observable.Some? {
      Desugared.RewriteIsWrittenOut(parsed.value);
    }
    return Ok(emitted);
  }

  /**
   * A request frame survives the wire whole, and is then admitted exactly when it carries one operation whose index
   * fits the root byte; the frame can always be built, and fails to encode only in the serializer or by its size.
   */
  lemma RequestOverWire<P(!new), Rep(!new), Ev(!new)>(
      spec: ChannelSpec, binding: Binding.ContractBinding, codec: Codec<FrameBody<Operation<P>, Rep, Ev>>,
      exchange: ExchangeIdentifier, request: Request<Operation<P>>)
    requires Distinct(spec.OperationNames()) && RoundTrips(codec) && RequestOfChannel(spec, request)
    ensures RequestFrame<P, Rep, Ev>(spec, binding, exchange, request).Ok?
    ensures
      var frame := RequestFrame<P, Rep, Ev>(spec, binding, exchange, request).value;
      && ConstructibleUnder(binding, frame) && OperationsOfChannel(spec, frame)
      && frame.body == RequestBody(exchange, request)
      && Admit(spec, binding, frame) == Verdict(spec, request)
      && EncodedOrRefused(binding, codec, frame, EncodeLengthPrefixed(codec, frame))
  {
    RequestFrameVerdict<P, Rep, Ev>(spec, binding, exchange, request);
    EncodedFrame(binding, codec, RequestFrame<P, Rep, Ev>(spec, binding, exchange, request).value);
  }

  /** Bytes that decode to the frame, or exactly the reason why its body cannot be sent. */
  ghost predicate EncodedOrRefused<Body(!new)>(
      binding: Binding.ContractBinding, codec: Codec<Body>, frame: Frame<Body>,
      encoded: Result<seq<Bytes.u8>, Binding.FrameError>)
  {
    match WireRefusal(codec, frame.body)
    case Some(error) => encoded == Err(error)
    case None => encoded.Ok? && DecodeLengthPrefixed(binding, codec, encoded.value) == Ok(frame)
  }

  lemma EncodedFrame<Body(!new)>(binding: Binding.ContractBinding, codec: Codec<Body>, frame: Frame<Body>)
    requires RoundTrips(codec) && ConstructibleUnder(binding, frame)
    ensures EncodedOrRefused(binding, codec, frame, EncodeLengthPrefixed(codec, frame))
  {
    WireImage(codec, binding, frame);
    if EncodeLengthPrefixed(codec, frame).Ok? {
      LengthPrefixedRoundTrip(binding, codec, frame);
    }
  }

  /** A frame written by one side and dispatched by the other, as its own channel's gate decides. */
  method DeliverFrame<P(!new), S, Rep(!new), E, Ev(!new)>(
      spec: ChannelSpec, binding: Binding.ContractBinding, codec: Codec<FrameBody<Operation<P>, Rep, Ev>>,
      frame: ChannelFrame<P, Rep, Ev>, handler: Handler<P, S, Rep, E>)
    returns (sent: Result<seq<Bytes.u8>, Binding.FrameError>, r: Option<Result<Rep, DispatchError<E>>>)
    requires RoundTrips(codec) && ConstructibleUnder(binding, frame) && OperationsOfChannel(spec, frame)
    modifies handler
    ensures EncodedOrRefused(binding, codec, frame, sent)
    ensures sent.Ok? <==> r.Some?
    ensures sent.Err? ==> handler.handled == old(handler.handled) && handler.state == old(handler.state)
    ensures sent.Ok? ==>
      match Admit(spec, binding, frame)
      case Ok(operation) =>
        && handler.handled == old(handler.handled) + [operation]
        && handler.state == handler.handle(old(handler.state), operation).0
        && r == Some(match handler.handle(old(handler.state), operation).1
                     case Ok(reply) => Ok(reply)
                     case Err(error) => Err(Handling(error)))
      case Err(Gate(error)) =>
        handler.handled == old(handler.handled) && handler.state == old(handler.state) && r == Some(Err(Gate(error)))
      case Err(Wire(error)) =>
        handler.handled == old(handler.handled) && handler.state == old(handler.state) && r == Some(Err(Wire(error)))
      case Err(Handling(_)) => false
  {
    EncodedFrame(binding, codec, frame);
    sent := EncodeLengthPrefixed(codec, frame);
    if sent.Err? {
      return sent, None;
    }
    var received := DecodeLengthPrefixed(binding, codec, sent.value);
    var outcome := handler.Dispatch(spec, binding, received.value);
    r := Some(outcome);
  }

  /** Bytes that carry the request on its exchange, under the route of its first operation. */
  ghost predicate Carries<P(!new), Rep(!new), Ev(!new)>(
      spec: ChannelSpec, binding: Binding.ContractBinding, codec: Codec<FrameBody<Operation<P>, Rep, Ev>>,
      exchange: ExchangeIdentifier, request: Request<Operation<P>>, bytes: seq<Bytes.u8>)
    requires OfChannel(spec, request.payloads.head)
  {
    var decoded := DecodeLengthPrefixed(binding, codec, bytes);
    && decoded.Ok? && decoded.value.body == RequestBody(exchange, request)
    && RouteOf(decoded.value.header) == Binding.WireRoute(IndexOfOperation(spec, request.payloads.head) % 0x100, 0)
  }

  /**
   * A request sent over the wire is judged by `Verdict`: an admitted operation reaches the handler once, as itself, and
   * anything else touches nothing. What is written carries the request whole.
   */
  method SubmitOverWire<P(!new), S, Rep(!new), E, Ev(!new)>(
      spec: ChannelSpec, binding: Binding.ContractBinding, codec: Codec<FrameBody<Operation<P>, Rep, Ev>>,
      exchange: ExchangeIdentifier, request: Request<Operation<P>>, handler: Handler<P, S, Rep, E>)
    returns (sent: Result<seq<Bytes.u8>, Binding.FrameError>, r: Option<Result<Rep, DispatchError<E>>>)
    requires Distinct(spec.OperationNames()) && RoundTrips(codec) && RequestOfChannel(spec, request)
    modifies handler
    ensures match WireRefusal(codec, RequestBody(exchange, request))
            case Some(error) => sent == Err(error)
            case None => sent.Ok? && Carries(spec, binding, codec, exchange, request, sent.value)
    ensures sent.Ok? <==> r.Some?
    ensures sent.Err? ==> handler.handled == old(handler.handled) && handler.state == old(handler.state)
    ensures sent.Ok? ==>
      match Verdict(spec, request)
      case Ok(operation) =>
        && handler.handled == old(handler.handled) + [operation]
        && handler.state == handler.handle(old(handler.state), operation).0
        && r == Some(match handler.handle(old(handler.state), operation).1
                     case Ok(reply) => Ok(reply)
                     case Err(error) => Err(Handling(error)))
      case Err(Gate(error)) =>
        handler.handled == old(handler.handled) && handler.state == old(handler.state) && r == Some(Err(Gate(error)))
      case Err(_) => false
  {
    RequestOverWire(spec, binding, codec, exchange, request);
    RequestFrameVerdict<P, Rep, Ev>(spec, binding, exchange, request);
    var frame := RequestFrame<P, Rep, Ev>(spec, binding, exchange, request).value;
    sent, r := DeliverFrame(spec, binding, codec, frame, handler);
  }

  ghost predicate FitsOnWire<Body>(codec: Codec<Body>, body: Body) {
    WireRefusal(codec, body).None?
  }

  /** An operation called over the wire reaches the handler once, as itself, exactly when its index is below 256. */
  method CallOverWire<P(!new), S, Rep(!new), E, Ev(!new)>(
      spec: ChannelSpec, binding: Binding.ContractBinding, codec: Codec<FrameBody<Operation<P>, Rep, Ev>>,
      exchange: ExchangeIdentifier, operation: Operation<P>, handler: Handler<P, S, Rep, E>)
    returns (sent: Result<seq<Bytes.u8>, Binding.FrameError>, r: Option<Result<Rep, DispatchError<E>>>)
    requires WellFormed(spec) && RoundTrips(codec) && OfChannel(Augmented(spec), operation)
    modifies handler
    ensures match WireRefusal(codec, RequestBody(exchange, Request(None, NonEmpty(operation, []))))
            case Some(error) => sent == Err(error)
            case None =>
              && sent.Ok?
              && Carries(Augmented(spec), binding, codec, exchange, Request(None, NonEmpty(operation, [])), sent.value)
    ensures sent.Ok? && IndexOfOperation(Augmented(spec), operation) < 0x100 ==>
      && handler.handled == old(handler.handled) + [operation]
      && handler.state == handler.handle(old(handler.state), operation).0
      && r == Some(match handler.handle(old(handler.state), operation).1
                   case Ok(reply) => Ok(reply)
                   case Err(error) => Err(Handling(error)))
    ensures sent.Ok? && IndexOfOperation(Augmented(spec), operation) >= 0x100 ==>
      && handler.handled == old(handler.handled) && handler.state == old(handler.state)
      && var root := IndexOfOperation(Augmented(spec), operation) % 0x100;
         r == Some(Err(Gate(HeaderOperationMismatch(root, root))))
    ensures sent.Err? ==> handler.handled == old(handler.handled) && handler.state == old(handler.state) && r.None?
  {
    var emitted := AugmentWithObservable(spec);
    AugmentPreservesWellFormedness(spec);
    CallVerdict<P, Rep, Ev>(emitted, binding, exchange, operation);
    OperationFramed(emitted, binding, codec, exchange, operation);
    var frame := IntoFrame<P, Rep, Ev>(emitted, binding, exchange, operation).value;
    sent, r := DeliverFrame(emitted, binding, codec, frame, handler);
  }

  /**
   * What the author declared is what arrives: the emitted channel frames it on the exchange given, alone and with no
   * caller, and admits it under its declared index.
   */
  lemma AuthoredOperationAdmitted<P(!new), Rep(!new), Ev(!new)>(
      spec: ChannelSpec, binding: Binding.ContractBinding, codec: Codec<FrameBody<Operation<P>, Rep, Ev>>,
      exchange: ExchangeIdentifier, operation: Operation<P>)
    requires WellFormed(spec) && RoundTrips(codec) && OfChannel(spec, operation)
    requires IndexOfOperation(spec, operation) < 0x100
    ensures OfChannel(Augmented(spec), operation)
    ensures FramedAndAdmitted(Augmented(spec), binding, codec, exchange, operation, IndexOfOperation(spec, operation))
  {
    RewriteKeepsRootBytes(spec, operation);
    AugmentPreservesWellFormedness(spec);
    SmallIndexAdmitted(Augmented(spec), binding, codec, exchange, operation);
  }

  lemma SmallIndexAdmitted<P(!new), Rep(!new), Ev(!new)>(
      spec: ChannelSpec, binding: Binding.ContractBinding, codec: Codec<FrameBody<Operation<P>, Rep, Ev>>,
      exchange: ExchangeIdentifier, operation: Operation<P>)
    requires Distinct(spec.OperationNames()) && RoundTrips(codec) && OfChannel(spec, operation)
    requires IndexOfOperation(spec, operation) < 0x100
    ensures FramedAndAdmitted(spec, binding, codec, exchange, operation, IndexOfOperation(spec, operation))
  {
    OperationFramed(spec, binding, codec, exchange, operation);
    CallVerdict<P, Rep, Ev>(spec, binding, exchange, operation);
    IntoFrameCarries<P, Rep, Ev>(spec, binding, exchange, operation);
  }

  /** The operation's own frame exists, carries it alone on the exchange given, and decodes from its encoding so. */
  ghost predicate FramedAlone<P(!new), Rep(!new), Ev(!new)>(
      spec: ChannelSpec, binding: Binding.ContractBinding, codec: Codec<FrameBody<Operation<P>, Rep, Ev>>,
      exchange: ExchangeIdentifier, operation: Operation<P>)
    requires OfChannel(spec, operation)
  {
    var frame := IntoFrame<P, Rep, Ev>(spec, binding, exchange, operation);
    var request := Request(None, NonEmpty(operation, []));
    && frame.Ok?
    && OperationsOfChannel(spec, frame.value)
    && frame.value.body == RequestBody(exchange, request)
    && var encoded := EncodeLengthPrefixed(codec, frame.value);
       match WireRefusal(codec, RequestBody(exchange, request))
       case Some(error) => encoded == Err(error)
       case None => encoded.Ok? && Carries(spec, binding, codec, exchange, request, encoded.value)
  }

  /** Framed, routed by `index`, and admitted as that operation. */
  ghost predicate FramedAndAdmitted<P(!new), Rep(!new), Ev(!new)>(
      spec: ChannelSpec, binding: Binding.ContractBinding, codec: Codec<FrameBody<Operation<P>, Rep, Ev>>,
      exchange: ExchangeIdentifier, operation: Operation<P>, index: nat)
    requires OfChannel(spec, operation)
  {
    && FramedAlone(spec, binding, codec, exchange, operation)
    && var frame := IntoFrame<P, Rep, Ev>(spec, binding, exchange, operation).value;
       && RouteOf(frame.header).root == index && RouteOf(frame.header).variant == 0
       && Admit(spec, binding, frame) == Ok(operation)
  }

  /** Every operation, whatever its index, is framed as itself on the exchange it is called on. */
  lemma OperationFramed<P(!new), Rep(!new), Ev(!new)>(
      spec: ChannelSpec, binding: Binding.ContractBinding, codec: Codec<FrameBody<Operation<P>, Rep, Ev>>,
      exchange: ExchangeIdentifier, operation: Operation<P>)
    requires RoundTrips(codec) && OfChannel(spec, operation)
    ensures FramedAlone(spec, binding, codec, exchange, operation)
  {
    IntoFrameCarries<P, Rep, Ev>(spec, binding, exchange, operation);
    EncodedFrame(binding, codec, IntoFrame<P, Rep, Ev>(spec, binding, exchange, operation).value);
  }

  /** Acceptance does not bound the number of operations: all of them are admitted exactly when there are at most 256. */
  lemma AllOperationsAdmittedIff<P>(spec: ChannelSpec, payload: P)
    requires Distinct(spec.OperationNames())
    ensures (forall name | name in spec.OperationNames() :: Verdict(spec, FromPayload(Operation(name, payload))).Ok?)
       <==> |spec.OperationNames()| <= 0x100
  {
    var names := spec.OperationNames();
    if |names| > 0x100 {
      assert names[0x100] in names;
      assert IndexOf(names, names[0x100]) == 0x100;
      assert Verdict(spec, FromPayload(Operation(names[0x100], payload))).Err?;
    }
  }

  /** The injected verbs take the two indexes after the author's, so they are admitted while those fit a byte. */
  lemma ObserverVerbsAdmittedIff<P>(spec: ChannelSpec, payload: P)
    requires WellFormed(spec) && spec.observable.Some?
    ensures TAP in Augmented(spec).OperationNames() && UNTAP in Augmented(spec).OperationNames()
    ensures Verdict(Augmented(spec), FromPayload(Operation(TAP, payload))).Ok? <==> |spec.request.variants| < 0x100
    ensures Verdict(Augmented(spec), FromPayload(Operation(UNTAP, payload))).Ok? <==> |spec.request.variants| < 0xff
  {
    var n, names := |spec.request.variants|, Augmented(spec).OperationNames();
    AugmentKeepsDistinct(spec);
    AugmentedNames(spec);
    assert names[n] == TAP && names[n + 1] == UNTAP;
    assert IndexOf(names, TAP) == n && IndexOf(names, UNTAP) == n + 1;
  }

  lemma {:induction false} ManyNames(n: nat) returns (names: seq<Ident>)
    ensures |names| == n && Distinct(names)
    ensures forall i | 0 <= i < n :: |names[i]| == i + 1
  {
    if n == 0 {
      names := [];
    } else {
      var fewer := ManyNames(n - 1);
      names := fewer + [seq(n, _ => 'A')];
    }
  }

  /** Acceptable declarations of any number of operations can be written, so some operations are never admitted. */
  lemma ManyOperationsAccepted<P>(n: nat, payload: P) returns (spec: ChannelSpec)
    ensures exists ts :: Grammar.ReadChannel(ts) == Ok(spec)
    ensures WellFormed(spec) && |spec.OperationNames()| == n
    ensures forall name | name in spec.OperationNames() :: name != ""
    ensures n > 0x100 ==>
      exists name | name in spec.OperationNames() :: Verdict(spec, FromPayload(Operation(name, payload))).Err?
  {
    var names := ManyNames(n);
    var variants := seq(n, i requires 0 <= i < n => RequestVariant(names[i], NamedType("Wire"), None));
    spec := ChannelSpec(
      "Many", NamedType("Wire"), RequestBlock("Operation", variants), ReplyBlock("Reply", []), None, [], None);
    assert spec.OperationNames() == names;
    Printing.ParserImage(spec);
    AllOperationsAdmittedIff(spec, payload);
  }

  /** The declarations exhibited to fail a property can be written, and repeating a stream can too. */
  lemma ExhibitedDeclarationsParse(spec: ChannelSpec, k: nat)
    ensures exists ts :: Grammar.ReadChannel(ts) == Ok(StrayEvent())
    ensures exists ts :: Grammar.ReadChannel(ts) == Ok(Witness.SharedClose())
    ensures (exists ts :: Grammar.ReadChannel(ts) == Ok(spec)) && k < |spec.streams| ==>
      exists ts :: Grammar.ReadChannel(ts) == Ok(spec.(streams := spec.streams + [spec.streams[k]]))
  {
    Printing.ParserImage(StrayEvent());
    Printing.ParserImage(Witness.SharedClose());
    Printing.ParserImage(spec);
    if k < |spec.streams| {
      Printing.ParserImage(spec.(streams := spec.streams + [spec.streams[k]]));
    }
  }

  lemma {:induction false} DecodedAllOfChannel<P>(
      spec: ChannelSpec, text: TextCodec.PayloadCodec<P>, blocks: seq<TextCodec.Block>)
    ensures
      var decoded := TextCodec.DecodeAll(spec, text, blocks);
      decoded.Ok? ==> forall i | 0 <= i < |decoded.value| :: OfChannel(spec, decoded.value[i])
  {
    if blocks != [] {
      DecodedAllOfChannel(spec, text, blocks[1..]);
    }
  }

  lemma DecodedRequestOfChannel<P>(spec: ChannelSpec, text: TextCodec.PayloadCodec<P>, block: TextCodec.Block)
    ensures
      var decoded := TextCodec.DecodeRequest(spec, text, block);
      decoded.Ok? ==> RequestOfChannel(spec, decoded.value)
  {
    match block.AsDelimited(TextCodec.SquareBracket)
    case Some(sequence) =>
      DecodedAllOfChannel(spec, text, sequence);
      var decoded := TextCodec.DecodeRequest(spec, text, block);
      if decoded.Ok? {
        var payloads, all := decoded.value.payloads, TextCodec.DecodeAll(spec, text, sequence).value;
        assert payloads.head == all[0];
        assert forall i | 0 <= i < |payloads.tail| :: payloads.tail[i] == all[i + 1];
      }
    case None =>
  }

  // ---- The command line ---------------------------------------------------

  /** All that the client knows of one contract. */
  datatype Contract<!P, !Rep, !Ev> = Contract(
    spec: ChannelSpec,
    binding: Binding.ContractBinding,
    text: TextCodec.PayloadCodec<P>,
    frames: Codec<FrameBody<Operation<P>, Rep, Ev>>)

  ghost predicate Usable<P(!new), Rep(!new), Ev(!new)>(contract: Contract<P, Rep, Ev>) {
    Distinct(contract.spec.OperationNames()) && RoundTrips(contract.frames)
  }

  datatype SubmissionError =
    | NoHead(head: TextCodec.HeadError)
    | NotRouted(route: TextCodec.RouteError)
    | NotDecoded(decoding: TextCodec.DecodeError)
    | NotSent(wire: Binding.FrameError)

  /** The socket a typed block is sent to: its head first, and then the tables of heads. */
  function TypedSocket(working: ChannelSpec, meta: ChannelSpec, block: TextCodec.Block)
    : Result<TextCodec.Socket, SubmissionError>
  {
    match TextCodec.Head(block)
    case Err(error) => Err(NoHead(error))
    case Ok(head) =>
      match TextCodec.RouteHead(working.OperationNames(), meta.OperationNames(), head)
      case Err(error) => Err(NotRouted(error))
      case Ok(socket) => Ok(socket)
  }

  ghost predicate Declares(spec: ChannelSpec, head: string) {
    exists v | v in spec.request.variants :: v.name == head
  }

  lemma DeclaresIsNamed(spec: ChannelSpec)
    ensures forall head :: Declares(spec, head) <==> head in spec.OperationNames()
  {
    NamesCoverVariants(spec);
    forall i | 0 <= i < |spec.OperationNames()|
      ensures Declares(spec, spec.OperationNames()[i])
    {
      assert spec.request.variants[i] in spec.request.variants;
    }
  }

  /** Over all blocks: the socket is decided by which of the contracts declare the block's head. */
  lemma SocketExact(working: ChannelSpec, meta: ChannelSpec, block: TextCodec.Block)
    ensures
      var socket := TypedSocket(working, meta, block);
      && (forall head | TextCodec.HasHead(block, head) ::
            socket == if Declares(working, head) then
                        if Declares(meta, head) then Err(NotRouted(TextCodec.AmbiguousRequestHead(head)))
                        else Ok(TextCodec.Working)
                      else
                        if Declares(meta, head) then Ok(TextCodec.Meta)
                        else Err(NotRouted(TextCodec.UnknownRequestHead(head))))
      && ((forall head :: !TextCodec.HasHead(block, head)) <==> socket.Err? && socket.error.NoHead?)
      && (socket == Err(NoHead(TextCodec.ExpectedRequest)) <==>
            exists others :: block == TextCodec.FirstWithin(others, TextCodec.Delimited(TextCodec.SquareBracket, [])))
  {
    TextCodec.HeadExact(block);
    DeclaresIsNamed(working);
    DeclaresIsNamed(meta);
    if TextCodec.Head(block).Ok? {
      assert TextCodec.HasHead(block, TextCodec.Head(block).value);
    }
  }

  /** The operation that a block, once routed to the contract, brings to its handler. */
  ghost function Arriving<P, Rep, Ev>(contract: Contract<P, Rep, Ev>, caller: Option<Caller>, block: TextCodec.Block)
    : Option<Operation<P>>
  {
    var decoded := TextCodec.DecodeRequest(contract.spec, contract.text, block);
    if decoded.Err? then None
    else
      DecodedRequestOfChannel(contract.spec, contract.text, block);
      var request := decoded.value.(caller := caller);
      if !FitsOnWire(contract.frames, RequestBody(EXCHANGE, request)) then None
      else
        match Verdict(contract.spec, request)
        case Ok(operation) => Some(operation)
        case Err(_) => None
  }

  /** A typed block of one operation that the gate admits and the wire carries. */
  ghost predicate Deliverable<P, Rep, Ev>(
      contract: Contract<P, Rep, Ev>, caller: Option<Caller>, block: TextCodec.Block, operation: Operation<P>)
  {
    && TextCodec.SpellsRequest(contract.spec, contract.text, block, Single(operation))
    && OfChannel(contract.spec, operation) && IndexOfOperation(contract.spec, operation) < 0x100
    && FitsOnWire(contract.frames,
                  RequestBody(ExchangeIdentifier(0, Connector, 0), Request(caller, NonEmpty(operation, []))))
  }

  lemma ArrivingExact<P, Rep, Ev>(
      contract: Contract<P, Rep, Ev>, caller: Option<Caller>, block: TextCodec.Block, operation: Operation<P>)
    requires Distinct(contract.spec.OperationNames())
    ensures Arriving(contract, caller, block) == Some(operation) <==> Deliverable(contract, caller, block, operation)
  {
    var decoded := TextCodec.DecodeRequest(contract.spec, contract.text, block);
    TextCodec.RequestDecodesIffSpelled(contract.spec, contract.text, block, FromPayload(operation));
    DecodedRequestOfChannel(contract.spec, contract.text, block);
    if Arriving(contract, caller, block) == Some(operation) {
      TextCodec.RequestDecodesIffSpelled(contract.spec, contract.text, block, decoded.value);
      assert decoded.value.payloads == Single(operation);
    }
  }

  /**
   * Exactly which typed blocks bring an operation to which handler: those that spell it under that contract, bare or
   * alone in a bracket, with a head the other contract does not have, an index that fits the byte and a frame that fits
   * the wire.
   */
  lemma TypedRequestArrives<W, WRep, WEv, M, MRep, MEv>(
      working: Contract<W, WRep, WEv>, meta: Contract<M, MRep, MEv>, caller: Option<Caller>, block: TextCodec.Block,
      asWorking: Operation<W>, asMeta: Operation<M>)
    requires Distinct(working.spec.OperationNames()) && Distinct(meta.spec.OperationNames())
    ensures TypedSocket(working.spec, meta.spec, block) == Ok(TextCodec.Working)
         && Arriving(working, caller, block) == Some(asWorking)
       <==> Deliverable(working, caller, block, asWorking) && !OfChannel(meta.spec, asWorking)
    ensures TypedSocket(working.spec, meta.spec, block) == Ok(TextCodec.Meta)
         && Arriving(meta, caller, block) == Some(asMeta)
       <==> Deliverable(meta, caller, block, asMeta) && !OfChannel(working.spec, asMeta)
  {
    ArrivingExact(working, caller, block, asWorking);
    ArrivingExact(meta, caller, block, asMeta);
    if Arriving(working, caller, block) == Some(asWorking) {
      TextCodec.RequestDecodesIffSpelled(working.spec, working.text, block, FromPayload(asWorking));
      TextCodec.HeadAgreesWithDecoding(working.spec, working.text, block);
      TextCodec.RoutingAgreesWithDecoding(working.spec, working.text, meta.spec, meta.text, block);
    }
    if Arriving(meta, caller, block) == Some(asMeta) {
      TextCodec.RequestDecodesIffSpelled(meta.spec, meta.text, block, FromPayload(asMeta));
      TextCodec.HeadAgreesWithDecoding(meta.spec, meta.text, block);
      TextCodec.RoutingAgreesWithDecoding(working.spec, working.text, meta.spec, meta.text, block);
    }
  }

  /** What the client reports or sends: the decoding error, the encoding error, or the request with the caller. */
  ghost predicate Reported<P(!new), Rep(!new), Ev(!new)>(
      contract: Contract<P, Rep, Ev>, caller: Option<Caller>, block: TextCodec.Block,
      r: Result<seq<Bytes.u8>, SubmissionError>)
  {
    match TextCodec.DecodeRequest(contract.spec, contract.text, block)
    case Err(error) => r == Err(NotDecoded(error))
    case Ok(request) =>
      DecodedRequestOfChannel(contract.spec, contract.text, block);
      var sent := request.(caller := caller);
      match WireRefusal(contract.frames, RequestBody(EXCHANGE, sent))
      case Some(error) => r == Err(NotSent(error))
      case None => r.Ok? && Carries(contract.spec, contract.binding, contract.frames, EXCHANGE, sent, r.value)
  }

  /** Decodes a routed block under its contract, attaches the caller and submits it on the sole exchange. */
  method SubmitText<P(!new), S, Rep(!new), E, Ev(!new)>(
      contract: Contract<P, Rep, Ev>, caller: Option<Caller>, block: TextCodec.Block, handler: Handler<P, S, Rep, E>)
    returns (r: Result<seq<Bytes.u8>, SubmissionError>)
    requires Usable(contract)
    modifies handler
    ensures Reported(contract, caller, block, r)
    ensures Received(Arriving(contract, caller, block), handler.handle, old(handler.handled), old(handler.state),
                     handler.handled, handler.state)
  {
    var decoded := TextCodec.DecodeRequest(contract.spec, contract.text, block);
    if decoded.Err? {
      return Err(NotDecoded(decoded.error));
    }
    var request := decoded.value.(caller := caller);
    DecodedRequestOfChannel(contract.spec, contract.text, block);
    var sent, _ := SubmitOverWire(contract.spec, contract.binding, contract.frames, EXCHANGE, request, handler);
    match sent
    case Ok(bytes) => return Ok(bytes);
    case Err(error) => return Err(NotSent(error));
  }

  /** What a handler was given and what became of its state: one step on the operation, or nothing. */
  ghost predicate Received<P, S, Rep, E>(
      arriving: Option<Operation<P>>, handle: (S, Operation<P>) -> (S, Result<Rep, E>),
      handledBefore: seq<Operation<P>>, stateBefore: S, handled: seq<Operation<P>>, state: S)
  {
    if arriving.Some? then handled == handledBefore + [arriving.value] && state == handle(stateBefore, arriving.value).0
    else handled == handledBefore && state == stateBefore
  }

  /** The client, as far as the handlers: the head picks a contract, and that contract's handler alone can be reached. */
  method SubmitTypedRequest<W(!new), WS, WRep(!new), WE, WEv(!new), M(!new), MS, MRep(!new), ME, MEv(!new)>(
      working: Contract<W, WRep, WEv>, meta: Contract<M, MRep, MEv>, caller: Option<Caller>, block: TextCodec.Block,
      workingHandler: Handler<W, WS, WRep, WE>, metaHandler: Handler<M, MS, MRep, ME>)
    returns (r: Result<seq<Bytes.u8>, SubmissionError>)
    requires Usable(working) && Usable(meta)
    requires workingHandler as object != metaHandler as object
    modifies workingHandler, metaHandler
    ensures forall head | TextCodec.HasHead(block, head) && !Declares(working.spec, head) && !Declares(meta.spec, head) ::
      r == Err(NotRouted(TextCodec.UnknownRequestHead(head)))
    ensures forall head | TextCodec.HasHead(block, head) && Declares(working.spec, head) && Declares(meta.spec, head) ::
      r == Err(NotRouted(TextCodec.AmbiguousRequestHead(head)))
    ensures r.Err? && (r.error.NoHead? || r.error.NotRouted?) ==>
      && workingHandler.handled == old(workingHandler.handled) && workingHandler.state == old(workingHandler.state)
      && metaHandler.handled == old(metaHandler.handled) && metaHandler.state == old(metaHandler.state)
    ensures var socket := TypedSocket(working.spec, meta.spec, block);
      && (socket.Err? ==> r == Err(socket.error))
      && (socket == Ok(TextCodec.Working) ==> Reported(working, caller, block, r))
      && (socket == Ok(TextCodec.Meta) ==> Reported(meta, caller, block, r))
      && Received(if socket == Ok(TextCodec.Working) then Arriving(working, caller, block) else None,
                  workingHandler.handle, old(workingHandler.handled), old(workingHandler.state),
                  workingHandler.handled, workingHandler.state)
      && Received(if socket == Ok(TextCodec.Meta) then Arriving(meta, caller, block) else None,
                  metaHandler.handle, old(metaHandler.handled), old(metaHandler.state),
                  metaHandler.handled, metaHandler.state)
  {
    SocketExact(working.spec, meta.spec, block);
    var head := TextCodec.Head(block);
    if head.Err? {
      return Err(NoHead(head.error));
    }
    var socket := TextCodec.RouteHead(working.spec.OperationNames(), meta.spec.OperationNames(), head.value);
    match socket {
      case Err(error) => return Err(NotRouted(error));
      case Ok(Working) => r := SubmitText(working, caller, block, workingHandler);
      case Ok(Meta) => r := SubmitText(meta, caller, block, metaHandler);
    }
  }

  /** A server's reply to the client's exchange, all operations done, is handed to the caller payload for payload. */
  lemma ReplyReachesClient<Op(!new), Rep(!new), Ev(!new)>(
      binding: Binding.ContractBinding, codec: Codec<FrameBody<Op, Rep, Ev>>, limit: nat,
      frame: Frame<FrameBody<Op, Rep, Ev>>, reply: Reply<Rep>, payloads: NonEmpty<Rep>, later: seq<Bytes.u8>)
    requires RoundTrips(codec) && Sendable(binding, codec, limit, frame)
    requires frame.body == ReplyBody(EXCHANGE, reply) && AllDone(reply, payloads)
    ensures ReceiveReply(binding, codec, limit, EncodeLengthPrefixed(codec, frame).value + later) == Ok(payloads)
  {
    ReadsEncodedFrame(binding, codec, limit, frame, later);
    PayloadsIffAllDone(reply, payloads);
  }

  /** The whole way back: a finished reply of a declared channel is received, and what is printed of it reads as it. */
  lemma ReplyPrintsBack<Op(!new), R(!new), Ev(!new)>(
      spec: ChannelSpec, text: TextCodec.PayloadCodec<R>, binding: Binding.ContractBinding,
      codec: Codec<FrameBody<Op, TextCodec.EnumValue<R>, Ev>>, limit: nat,
      frame: Frame<FrameBody<Op, TextCodec.EnumValue<R>, Ev>>, reply: Reply<TextCodec.EnumValue<R>>,
      payloads: NonEmpty<TextCodec.EnumValue<R>>, later: seq<Bytes.u8>)
    requires WellFormed(spec) && TextCodec.PayloadsRoundTrip(text)
    requires RoundTrips(codec) && Sendable(binding, codec, limit, frame)
    requires frame.body == ReplyBody(EXCHANGE, reply) && AllDone(reply, payloads)
    requires forall i | 0 <= i < payloads.Len() :: TextCodec.TypedReply(Augmented(spec), text, payloads.ToSeq()[i])
    ensures
      var received := ReceiveReply(binding, codec, limit, EncodeLengthPrefixed(codec, frame).value + later);
      && received.Ok?
      && var printed := TextCodec.EncodeReplies(Augmented(spec), text, received.value);
         printed.Some? && TextCodec.ReadsAsReplies(Augmented(spec), text, printed.value, payloads)
  {
    AugmentPreservesWellFormedness(spec);
    ReplyReachesClient(binding, codec, limit, frame, reply, payloads, later);
    TextCodec.RepliesRoundTrip(Augmented(spec), text, payloads);
  }
}
