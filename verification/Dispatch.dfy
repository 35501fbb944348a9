/** Emitted operation routing: log variants, kinds, route arms and the guarded dispatch. */
module Dispatch {
  import opened Wrappers
  import opened Bytes
  import opened Binding
  import opened Frame
  import opened Channel
  import Validation
  import Augment
  import Arms
  import NonEmptySeq
  import opened Messages

  /** A value of the emitted operation enum: the variant it was built with and that variant's payload. */
  datatype Operation<+P> = Operation(variant: Ident, payload: P)

  /** A kind is a variant of the payload-free twin enum. */
  type OperationKind = Ident

  datatype OperationDispatchError =
    | UnexpectedFrameBody
    | MultipleOperations(count: nat)
    | UnknownOperationRoot(unknownRoot: u8)
    | UnknownOperationVariant(root: u8, variant: u8)
    | HeaderRouteMismatch(expectedRoute: WireRoute, actualRoute: WireRoute)
    | HeaderOperationMismatch(expected: u8, actual: u8)

  /** An operation that the emitted enum has a variant for; Rust admits no other. */
  predicate OfChannel<P>(spec: ChannelSpec, operation: Operation<P>) {
    operation.variant in spec.OperationNames()
  }

  function IndexOfOperation<P>(spec: ChannelSpec, operation: Operation<P>): nat
    requires OfChannel(spec, operation)
  {
    IndexOf(spec.OperationNames(), operation.variant)
  }

  // ---- Emitted arms -------------------------------------------------------

  function LogArms(spec: ChannelSpec): (arms: seq<(Ident, u8)>)
    ensures |arms| == |spec.OperationNames()|
  {
    var names := spec.OperationNames();
    seq(|names|, i requires 0 <= i < |names| => (names[i], i % 0x100))
  }

  function LogVariant<P>(spec: ChannelSpec, operation: Operation<P>): (value: u64)
    requires OfChannel(spec, operation)
    ensures value == IndexOfOperation(spec, operation) % 0x100
  {
    LogArmTaken(spec, operation);
    Arms.FirstMatch(LogArms(spec), operation.variant).value
  }

  lemma LogArmTaken<P>(spec: ChannelSpec, operation: Operation<P>)
    requires OfChannel(spec, operation)
    ensures Arms.FirstMatch(LogArms(spec), operation.variant) == Some(IndexOfOperation(spec, operation) % 0x100)
  {
    Arms.FirstMatchAt(LogArms(spec), IndexOfOperation(spec, operation));
  }

  /** The emitted body: the taken arm writes byte zero of a cleared word, which is then read little-endian. */
  method ComputeLogVariant<P>(spec: ChannelSpec, operation: Operation<P>) returns (value: u64)
    requires OfChannel(spec, operation)
    ensures value == LogVariant(spec, operation)
  {
    var bytes := new u8[SHORT_HEADER_BYTE_COUNT](_ => 0);
    LogArmTaken(spec, operation);
    bytes[0] := Arms.FirstMatch(LogArms(spec), operation.variant).value;
    WordRanges();
    ZeroBytes(bytes[1..]);
    assert LeValue(bytes[..]) == bytes[0] by {
      assert bytes[..][1..] == bytes[1..];
    }
    value := LeValue(bytes[..]);
  }

  lemma {:induction false} ZeroBytes(bytes: seq<u8>)
    requires forall i | 0 <= i < |bytes| :: bytes[i] == 0
    ensures LeValue(bytes) == 0
  {
    if bytes != [] {
      ZeroBytes(bytes[1..]);
    }
  }

  function KindArms(spec: ChannelSpec): (arms: seq<(Ident, OperationKind)>)
    ensures |arms| == |spec.OperationNames()|
  {
    var names := spec.OperationNames();
    seq(|names|, i requires 0 <= i < |names| => (names[i], names[i]))
  }

  function KindOf<P>(spec: ChannelSpec, operation: Operation<P>): (kind: OperationKind)
    requires OfChannel(spec, operation)
    ensures kind == operation.variant
  {
    Arms.FirstMatchAt(KindArms(spec), IndexOfOperation(spec, operation));
    Arms.FirstMatch(KindArms(spec), operation.variant).value
  }

  /** `kind as u8`: the declaration index, truncated. */
  function KindByte(spec: ChannelSpec, kind: OperationKind): u8
    requires kind in spec.OperationNames()
  {
    IndexOf(spec.OperationNames(), kind) % 0x100
  }

  /** Each variant contributes an arm for its root with variant zero and one for its root with any variant. */
  datatype RouteArm = ExactRoute(root: u8, kind: OperationKind) | AnyVariant(root: u8)

  function RouteArms(names: seq<Ident>, from: nat): seq<RouteArm>
    requires from <= |names|
    decreases |names| - from
  {
    if from == |names| then []
    else [ExactRoute(from % 0x100, names[from]), AnyVariant(from % 0x100)] + RouteArms(names, from + 1)
  }

  function MatchRoute(arms: seq<RouteArm>, root: u8, variant: u8): Result<OperationKind, OperationDispatchError> {
    if arms == [] then Err(UnknownOperationRoot(root))
    else match arms[0]
      case ExactRoute(armRoot, kind) =>
        if armRoot == root && variant == 0 then Ok(kind) else MatchRoute(arms[1..], root, variant)
      case AnyVariant(armRoot) =>
        if armRoot == root then Err(UnknownOperationVariant(root, variant)) else MatchRoute(arms[1..], root, variant)
  }

  function RouteKind(spec: ChannelSpec, header: ShortHeader): Result<OperationKind, OperationDispatchError> {
    MatchRoute(RouteArms(spec.OperationNames(), 0), RouteOf(header).root, RouteOf(header).variant)
  }

  /** The route arms decide by declaration index: the arms of indexes past 255 are shadowed and never taken. */
  lemma {:induction false} RouteArmsDecide(names: seq<Ident>, from: nat, root: u8, variant: u8)
    requires from <= |names| && from <= root
    ensures MatchRoute(RouteArms(names, from), root, variant)
         == if root >= |names| then Err(UnknownOperationRoot(root))
            else if variant != 0 then Err(UnknownOperationVariant(root, variant))
            else Ok(names[root])
    decreases |names| - from
  {
    if from < |names| {
      var arms, rest := RouteArms(names, from), RouteArms(names, from + 1);
      assert arms[1..] == [AnyVariant(from % 0x100)] + rest && arms[1..][1..] == rest;
      if from < root {
        RouteArmsDecide(names, from + 1, root, variant);
      }
    }
  }

  // ---- Frames -------------------------------------------------------------

  function RequestRoute<P>(spec: ChannelSpec, request: Request<Operation<P>>): (r: Result<WireRoute, WireRouteError>)
    requires OfChannel(spec, request.payloads.head)
    ensures r == Ok(WireRoute(IndexOfOperation(spec, request.payloads.head) % 0x100, 0))
  {
    RouteFromLogVariant(LogVariant(spec, request.payloads.head))
  }

  type ChannelFrame<P, Rep, Ev> = Frame<FrameBody<Operation<P>, Rep, Ev>>

  function RequestFrame<P, Rep, Ev>(
      spec: ChannelSpec, binding: ContractBinding, exchange: ExchangeIdentifier, request: Request<Operation<P>>)
    : Result<ChannelFrame<P, Rep, Ev>, WireRouteError>
    requires OfChannel(spec, request.payloads.head)
  {
    var route :- RequestRoute(spec, request);
    Ok(NewFrame(binding, route, RequestBody(exchange, request)))
  }

  function IntoFrame<P, Rep, Ev>(
      spec: ChannelSpec, binding: ContractBinding, exchange: ExchangeIdentifier, operation: Operation<P>)
    : Result<ChannelFrame<P, Rep, Ev>, WireRouteError>
    requires OfChannel(spec, operation)
  {
    RequestFrame(spec, binding, exchange, FromPayload(operation))
  }

  /** The operation's own frame carries it alone, with no caller, on the exchange it was given. */
  lemma IntoFrameCarries<P, Rep, Ev>(
      spec: ChannelSpec, binding: ContractBinding, exchange: ExchangeIdentifier, operation: Operation<P>)
    requires OfChannel(spec, operation)
    ensures
      var frame := IntoFrame<P, Rep, Ev>(spec, binding, exchange, operation);
      && frame.Ok? && ConstructibleUnder(binding, frame.value)
      && frame.value.body == RequestBody(exchange, Request(None, NonEmptySeq.NonEmpty(operation, [])))
      && RouteOf(frame.value.header) == WireRoute(IndexOfOperation(spec, operation) % 0x100, 0)
      && OperationsOfChannel(spec, frame.value)
  {
  }

  // ---- Dispatch -----------------------------------------------------------

  datatype DispatchError<+E> = Gate(gate: OperationDispatchError) | Wire(wire: FrameError) | Handling(handling: E)

  predicate OperationsOfChannel<P, Rep, Ev>(spec: ChannelSpec, frame: ChannelFrame<P, Rep, Ev>) {
    frame.body.RequestBody? ==>
      var payloads := frame.body.request.payloads;
      OfChannel(spec, payloads.head) && forall i | 0 <= i < |payloads.tail| :: OfChannel(spec, payloads.tail[i])
  }

  /** The guards of the emitted dispatch, in order; an operation comes out only when all of them pass. */
  function Admit<P, Rep, Ev>(spec: ChannelSpec, binding: ContractBinding, frame: ChannelFrame<P, Rep, Ev>)
    : Result<Operation<P>, DispatchError<()>>
    requires OperationsOfChannel(spec, frame)
  {
    match ValidateHeader(binding, frame.header)
    case Err(error) => Err(Wire(error))
    case Ok(_) =>
      if !frame.body.RequestBody? then Err(Gate(UnexpectedFrameBody))
      else
        var operation := frame.body.request.payloads.head;
        var tail := frame.body.request.payloads.tail;
        if tail != [] then Err(Gate(MultipleOperations(1 + |tail|)))
        else
          var actualRoute := RouteOf(frame.header);
          match RouteKind(spec, frame.header)
          case Err(error) => Err(Gate(error))
          case Ok(expectedKind) =>
            var actualKind := KindOf(spec, operation);
            if actualKind != expectedKind then
              Err(Gate(HeaderOperationMismatch(actualRoute.root, KindByte(spec, actualKind))))
            else
              match RouteFromLogVariant(LogVariant(spec, operation))
              case Err(error) => Err(Wire(InvalidRoute(error)))
              case Ok(expectedRoute) =>
                if expectedRoute != actualRoute then Err(Gate(HeaderRouteMismatch(expectedRoute, actualRoute)))
                else Ok(operation)
  }

  /** Handler state with the contract author's handling function, and a record of the operations it was given. */
  class Handler<P, S, Rep, E> {
    const handle: (S, Operation<P>) -> (S, Result<Rep, E>)
    var state: S
    ghost var handled: seq<Operation<P>>

    constructor (initial: S, handle: (S, Operation<P>) -> (S, Result<Rep, E>))
      ensures state == initial && this.handle == handle && handled == []
    {
      this.handle := handle;
      state := initial;
      handled := [];
    }

    method HandleValidated(operation: Operation<P>) returns (r: Result<Rep, E>)
      modifies this
      ensures handled == old(handled) + [operation]
      ensures (state, r) == handle(old(state), operation)
    {
      var (next, reply) := handle(state, operation);
      state := next;
      handled := handled + [operation];
      r := reply;
    }

    method Dispatch<Ev>(spec: ChannelSpec, binding: ContractBinding, frame: ChannelFrame<P, Rep, Ev>)
      returns (r: Result<Rep, DispatchError<E>>)
      requires OperationsOfChannel(spec, frame)
      modifies this
      ensures match Admit(spec, binding, frame)
              case Ok(operation) =>
                && handled == old(handled) + [operation]
                && state == handle(old(state), operation).0
                && r == (match handle(old(state), operation).1
                         case Ok(reply) => Ok(reply)
                         case Err(error) => Err(Handling(error)))
              case Err(Gate(error)) => handled == old(handled) && state == old(state) && r == Err(Gate(error))
              case Err(Wire(error)) => handled == old(handled) && state == old(state) && r == Err(Wire(error))
              case Err(Handling(_)) => false
    {
      var valid := ValidateHeader(binding, frame.header);
      if valid.Err? {
        return Err(Wire(valid.error));
      }
      if !frame.body.RequestBody? {
        return Err(Gate(UnexpectedFrameBody));
      }
      var operation, tail := frame.body.request.payloads.head, frame.body.request.payloads.tail;
      if tail != [] {
        return Err(Gate(MultipleOperations(1 + |tail|)));
      }
      var actualRoute := RouteOf(frame.header);
      var expectedKind := RouteKind(spec, frame.header);
      if expectedKind.Err? {
        return Err(Gate(expectedKind.error));
      }
      var actualKind := KindOf(spec, operation);
      if actualKind != expectedKind.value {
        return Err(Gate(HeaderOperationMismatch(actualRoute.root, KindByte(spec, actualKind))));
      }
      var expectedRoute := RouteFromLogVariant(LogVariant(spec, operation));
      match expectedRoute {
        case Err(error) => return Err(Wire(InvalidRoute(error)));
        case Ok(route) =>
          if route != actualRoute {
            return Err(Gate(HeaderRouteMismatch(route, actualRoute)));
          }
      }
      var reply := HandleValidated(operation);
      match reply
      case Ok(value) => return Ok(value);
      case Err(error) => return Err(Handling(error));
    }
  }

  /**
   * The gate read off the frame: which guard refuses, over every frame a contract can construct. No case is a frame
   * error and none is a route mismatch: those guards cannot fail here.
   */
  lemma GateOutcome<P, Rep, Ev>(spec: ChannelSpec, binding: ContractBinding, frame: ChannelFrame<P, Rep, Ev>)
    requires Distinct(spec.OperationNames())
    requires ConstructibleUnder(binding, frame) && OperationsOfChannel(spec, frame)
    ensures Admit(spec, binding, frame) ==
      var names, route := spec.OperationNames(), RouteOf(frame.header);
      if !frame.body.RequestBody? then Err(Gate(UnexpectedFrameBody))
      else
        var payloads := frame.body.request.payloads;
        if payloads.Len() > 1 then Err(Gate(MultipleOperations(payloads.Len())))
        else if route.root >= |names| then Err(Gate(UnknownOperationRoot(route.root)))
        else if route.variant != 0 then Err(Gate(UnknownOperationVariant(route.root, route.variant)))
        else if names[route.root] != payloads.head.variant then
          Err(Gate(HeaderOperationMismatch(route.root, IndexOfOperation(spec, payloads.head) % 0x100)))
        else Ok(payloads.head)
  {
    if frame.body.RequestBody? {
      RouteArmsDecide(spec.OperationNames(), 0, RouteOf(frame.header).root, RouteOf(frame.header).variant);
    }
  }

  /** A header of any other binding is refused before the body is looked at, as a frame error. */
  lemma ForeignHeaderRefused<P, Rep, Ev>(spec: ChannelSpec, binding: ContractBinding, frame: ChannelFrame<P, Rep, Ev>)
    requires OperationsOfChannel(spec, frame) && BindingOf(frame.header) != binding
    ensures Admit(spec, binding, frame) ==
      var found := BindingOf(frame.header);
      if found.contract != binding.contract then Err(Wire(ContractMismatch(binding.contract, found.contract)))
      else Err(Wire(UnsupportedWireRevision(binding.contract, binding.revision, found.revision)))
  {
  }

  /** The handler is reached exactly by a single operation under the header route (its index, 0). */
  lemma HandlerReachedIff<P, Rep, Ev>(spec: ChannelSpec, binding: ContractBinding, frame: ChannelFrame<P, Rep, Ev>)
    requires Distinct(spec.OperationNames())
    requires ConstructibleUnder(binding, frame) && OperationsOfChannel(spec, frame)
    ensures Admit(spec, binding, frame).Ok? <==>
      && frame.body.RequestBody?
      && frame.body.request.payloads.tail == []
      && RouteOf(frame.header).root == IndexOfOperation(spec, frame.body.request.payloads.head)
      && RouteOf(frame.header).variant == 0
  {
    GateOutcome(spec, binding, frame);
  }

  /** The gate's verdict on a request frame an operation's own channel built. */
  function Verdict<P>(spec: ChannelSpec, request: Request<Operation<P>>): Result<Operation<P>, DispatchError<()>>
    requires OfChannel(spec, request.payloads.head)
  {
    var count, index := request.payloads.Len(), IndexOfOperation(spec, request.payloads.head);
    if count > 1 then Err(Gate(MultipleOperations(count)))
    else if index < 0x100 then Ok(request.payloads.head)
    else Err(Gate(HeaderOperationMismatch(index % 0x100, index % 0x100)))
  }

  ghost predicate RequestOfChannel<P>(spec: ChannelSpec, request: Request<Operation<P>>) {
    && OfChannel(spec, request.payloads.head)
    && forall i | 0 <= i < |request.payloads.tail| :: OfChannel(spec, request.payloads.tail[i])
  }

  /**
   * Every request frame can be built, and its own gate admits it exactly when it carries one operation whose index
   * fits the root byte. Past index 255 the operation is refused, and the refusal reports two equal bytes.
   */
  lemma RequestFrameVerdict<P, Rep, Ev>(
      spec: ChannelSpec, binding: ContractBinding, exchange: ExchangeIdentifier, request: Request<Operation<P>>)
    requires Distinct(spec.OperationNames()) && RequestOfChannel(spec, request)
    ensures RequestFrame<P, Rep, Ev>(spec, binding, exchange, request).Ok?
    ensures
      var frame := RequestFrame<P, Rep, Ev>(spec, binding, exchange, request).value;
      && ConstructibleUnder(binding, frame)
      && frame.body == RequestBody(exchange, request)
      && RouteOf(frame.header) == WireRoute(IndexOfOperation(spec, request.payloads.head) % 0x100, 0)
      && OperationsOfChannel(spec, frame)
      && Admit(spec, binding, frame) == Verdict(spec, request)
  {
    RequestFrameShape<P, Rep, Ev>(spec, binding, exchange, request);
    FrameVerdict(spec, binding, exchange, request, RequestFrame<P, Rep, Ev>(spec, binding, exchange, request).value);
  }

  lemma FrameVerdict<P, Rep, Ev>(
      spec: ChannelSpec, binding: ContractBinding, exchange: ExchangeIdentifier, request: Request<Operation<P>>,
      frame: ChannelFrame<P, Rep, Ev>)
    requires Distinct(spec.OperationNames()) && RequestOfChannel(spec, request)
    requires ConstructibleUnder(binding, frame) && frame.body == RequestBody(exchange, request)
    requires RouteOf(frame.header) == WireRoute(IndexOfOperation(spec, request.payloads.head) % 0x100, 0)
    ensures OperationsOfChannel(spec, frame)
    ensures Admit(spec, binding, frame) == Verdict(spec, request)
  {
    GateOutcome(spec, binding, frame);
  }

  /** An operation's own frame is admitted as that operation exactly below index 256. */
  lemma CallVerdict<P, Rep, Ev>(
      spec: ChannelSpec, binding: ContractBinding, exchange: ExchangeIdentifier, operation: Operation<P>)
    requires Distinct(spec.OperationNames()) && OfChannel(spec, operation)
    ensures
      var frame, index := IntoFrame<P, Rep, Ev>(spec, binding, exchange, operation), IndexOfOperation(spec, operation);
      && frame.Ok? && OperationsOfChannel(spec, frame.value)
      && Admit(spec, binding, frame.value)
         == if index < 0x100 then Ok(operation) else Err(Gate(HeaderOperationMismatch(index % 0x100, index % 0x100)))
  {
    IntoFrameCarries<P, Rep, Ev>(spec, binding, exchange, operation);
    GateOutcome(spec, binding, IntoFrame<P, Rep, Ev>(spec, binding, exchange, operation).value);
  }

  lemma RequestFrameShape<P, Rep, Ev>(
      spec: ChannelSpec, binding: ContractBinding, exchange: ExchangeIdentifier, request: Request<Operation<P>>)
    requires OfChannel(spec, request.payloads.head)
    ensures RequestFrame<P, Rep, Ev>(spec, binding, exchange, request).Ok?
    ensures
      var frame := RequestFrame<P, Rep, Ev>(spec, binding, exchange, request).value;
      && ConstructibleUnder(binding, frame)
      && frame.body == RequestBody(exchange, request)
      && RouteOf(frame.header) == WireRoute(IndexOfOperation(spec, request.payloads.head) % 0x100, 0)
  {
  }

  /** A rewritten channel routes each of the author's operations by the byte it had before. */
  lemma RewriteKeepsRootBytes<P>(spec: ChannelSpec, operation: Operation<P>)
    requires OfChannel(spec, operation)
    ensures OfChannel(Augment.Augmented(spec), operation)
    ensures LogVariant(Augment.Augmented(spec), operation) == LogVariant(spec, operation)
    ensures IndexOfOperation(Augment.Augmented(spec), operation) == IndexOfOperation(spec, operation)
  {
    if spec.observable.Some? {
      Augment.AugmentedNames(spec);
      IndexOfAppended(spec.OperationNames(), [Validation.TAP, Validation.UNTAP], operation.variant);
    }
  }
}
