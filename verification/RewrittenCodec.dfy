/** What the text codecs of a rewritten channel's enums decode. */
module RewrittenCodec {
  import opened Wrappers
  import opened Channel
  import opened Validation
  import opened Augment
  import opened TextCodec
  import opened Dispatch

  /** A name in parentheses before a payload block. */
  function Named(name: Ident, x: Block): Block {
    Delimited(Parenthesis, [Atom(name), x])
  }

  lemma OperationDecodesIff<P>(
      spec: ChannelSpec, codec: PayloadCodec<P>, v: RequestVariant, block: Block, payload: P)
    requires Distinct(spec.OperationNames()) && v in spec.request.variants
    ensures DecodeOperation(spec, codec, block) == Ok(Operation(v.name, payload))
       <==> exists x :: block == Named(v.name, x) && codec.decode(v.payload, x) == Ok(payload)
  {
    var kinds := RequestKinds(spec);
    var i :| 0 <= i < |spec.request.variants| && spec.request.variants[i] == v;
    assert kinds[i] == PayloadKind(v.name, Some(v.payload));
    NoUnitOperations(spec, codec, block);
    CarryingDecodesIff(codec, spec.request.name, kinds, v.name, v.payload, block, payload);
  }

  lemma EventDecodesIff<E>(spec: ChannelSpec, codec: PayloadCodec<E>, v: EventVariant, block: Block, payload: E)
    requires Distinct(spec.EventNames()) && v in spec.EventVariants()
    ensures DecodeEvent(spec, codec, block) == Ok(Carrying(v.name, payload))
       <==> exists x :: block == Named(v.name, x) && codec.decode(v.payload, x) == Ok(payload)
  {
    var kinds := EventKinds(spec);
    var i :| 0 <= i < |spec.EventVariants()| && spec.EventVariants()[i] == v;
    assert kinds[i] == PayloadKind(v.name, Some(v.payload));
    CarryingDecodesIff(codec, spec.event.value.name, kinds, v.name, v.payload, block, payload);
  }

  /** `(Tap x)` decodes exactly as `x` does under the filter type declared, or under the generated one. */
  lemma TapDecodesIff<P>(spec: ChannelSpec, codec: PayloadCodec<P>, block: Block, payload: P)
    requires WellFormed(spec) && spec.observable.Some?
    ensures
      var filter :=
        match spec.observable.value.filter
        case NamedFilter(name) => NamedType(name)
        case DefaultFilter => NamedType("ObserverFilter");
      DecodeOperation(Augmented(spec), codec, block) == Ok(Operation("Tap", payload))
      <==> exists x :: block == Named("Tap", x) && codec.decode(filter, x) == Ok(payload)
  {
    AugmentKeepsDistinct(spec);
    var tap := TapVariants(spec.observable.value)[0];
    assert tap in Augmented(spec).request.variants;
    OperationDecodesIff(Augmented(spec), codec, tap, block, payload);
  }

  lemma UntapDecodesIff<P>(spec: ChannelSpec, codec: PayloadCodec<P>, block: Block, payload: P)
    requires WellFormed(spec) && spec.observable.Some?
    ensures DecodeOperation(Augmented(spec), codec, block) == Ok(Operation("Untap", payload))
       <==> exists x :: block == Named("Untap", x)
              && codec.decode(NamedType("ObserverSubscriptionToken"), x) == Ok(payload)
  {
    AugmentKeepsDistinct(spec);
    var untap := TapVariants(spec.observable.value)[1];
    assert untap in Augmented(spec).request.variants;
    OperationDecodesIff(Augmented(spec), codec, untap, block, payload);
  }

  lemma OpenedReplyDecodesIff<R>(spec: ChannelSpec, codec: PayloadCodec<R>, block: Block, payload: R)
    requires WellFormed(spec) && spec.observable.Some?
    ensures DecodeReply(Augmented(spec), codec, block) == Ok(Carrying("ObserverSubscriptionOpened", payload))
       <==> exists x :: block == Named("ObserverSubscriptionOpened", x)
              && codec.decode(NamedType("ObserverSubscriptionOpened"), x) == Ok(payload)
  {
    AugmentKeepsDistinct(spec);
    var aug := Augmented(spec);
    var kinds := ReplyKinds(aug);
    assert kinds[|spec.reply.variants|] == PayloadKind(OBSERVER_OPENED, Some(NamedType(OBSERVER_OPENED)));
    CarryingDecodesIff(codec, aug.reply.name, kinds, OBSERVER_OPENED, NamedType(OBSERVER_OPENED), block, payload);
  }

  /** Each of the two observable events carries its own record type. */
  lemma RecordDecodesIff<E>(spec: ChannelSpec, codec: PayloadCodec<E>, record: Ident, block: Block, payload: E)
    requires WellFormed(spec) && spec.observable.Some?
    requires record == spec.observable.value.operationEvent || record == spec.observable.value.effectEvent
    ensures DecodeEvent(Augmented(spec), codec, block) == Ok(Carrying(record, payload))
       <==> exists x :: block == Named(record, x) && codec.decode(NamedType(record), x) == Ok(payload)
  {
    AugmentKeepsDistinct(spec);
    var events := ObserverEvents(spec.observable.value);
    var v := if record == events[0].name then events[0] else events[1];
    assert v in Augmented(spec).EventVariants();
    EventDecodesIff(Augmented(spec), codec, v, block, payload);
  }

  /** The rewrite changes no author's enum value's text: the same blocks decode to it as before. */
  lemma RewriteKeepsDecoding<P, R, E>(
      spec: ChannelSpec, operations: PayloadCodec<P>, replies: PayloadCodec<R>, events: PayloadCodec<E>, block: Block)
    requires WellFormed(spec)
    ensures forall operation: Operation<P> | operation.variant in spec.OperationNames() ::
      DecodeOperation(Augmented(spec), operations, block) == Ok(operation)
      <==> DecodeOperation(spec, operations, block) == Ok(operation)
    ensures forall reply: EnumValue<R> | reply.variant in spec.ReplyNames() ::
      DecodeReply(Augmented(spec), replies, block) == Ok(reply) <==> DecodeReply(spec, replies, block) == Ok(reply)
    ensures spec.event.Some? ==>
      && Augmented(spec).event.Some?
      && forall event: EnumValue<E> | event.variant in spec.EventNames() ::
           DecodeEvent(Augmented(spec), events, block) == Ok(event) <==> DecodeEvent(spec, events, block) == Ok(event)
  {
    if spec.observable.Some? {
      AugmentKeepsDistinct(spec);
      forall operation: Operation<P> | operation.variant in spec.OperationNames()
        ensures DecodeOperation(Augmented(spec), operations, block) == Ok(operation)
           <==> DecodeOperation(spec, operations, block) == Ok(operation)
      {
        OperationDecodingKept(spec, operations, block, operation);
      }
      forall reply: EnumValue<R> | reply.variant in spec.ReplyNames()
        ensures DecodeReply(Augmented(spec), replies, block) == Ok(reply)
           <==> DecodeReply(spec, replies, block) == Ok(reply)
      {
        ReplyDecodingKept(spec, replies, block, reply);
      }
      if spec.event.Some? {
        forall event: EnumValue<E> | event.variant in spec.EventNames()
          ensures DecodeEvent(Augmented(spec), events, block) == Ok(event)
             <==> DecodeEvent(spec, events, block) == Ok(event)
        {
          EventDecodingKept(spec, events, block, event);
        }
      }
    }
  }

  lemma OperationDecodingKept<P>(
      spec: ChannelSpec, codec: PayloadCodec<P>, block: Block, operation: Operation<P>)
    requires spec.observable.Some? && DistinctVariants(spec) && DistinctVariants(Augmented(spec))
    requires operation.variant in spec.OperationNames()
    ensures DecodeOperation(Augmented(spec), codec, block) == Ok(operation)
       <==> DecodeOperation(spec, codec, block) == Ok(operation)
  {
    var aug, kinds := Augmented(spec), RequestKinds(spec);
    var added := RequestKinds(aug)[|kinds|..];
    assert RequestKinds(aug) == kinds + added;
    NoUnitOperations(spec, codec, block);
    NoUnitOperations(aug, codec, block);
    AddedKindsKeepDecoding(
      codec, spec.request.name, kinds, added, block, Carrying(operation.variant, operation.payload));
  }

  lemma ReplyDecodingKept<R>(spec: ChannelSpec, codec: PayloadCodec<R>, block: Block, reply: EnumValue<R>)
    requires spec.observable.Some? && DistinctVariants(spec) && DistinctVariants(Augmented(spec))
    requires reply.variant in spec.ReplyNames()
    ensures DecodeReply(Augmented(spec), codec, block) == Ok(reply) <==> DecodeReply(spec, codec, block) == Ok(reply)
  {
    var kinds := ReplyKinds(spec);
    var added := ReplyKinds(Augmented(spec))[|kinds|..];
    assert ReplyKinds(Augmented(spec)) == kinds + added;
    AddedKindsKeepDecoding(codec, spec.reply.name, kinds, added, block, reply);
  }

  lemma EventDecodingKept<E>(spec: ChannelSpec, codec: PayloadCodec<E>, block: Block, event: EnumValue<E>)
    requires spec.observable.Some? && spec.event.Some?
    requires DistinctVariants(spec) && DistinctVariants(Augmented(spec))
    requires event.variant in spec.EventNames()
    ensures DecodeEvent(Augmented(spec), codec, block) == Ok(event) <==> DecodeEvent(spec, codec, block) == Ok(event)
  {
    var kinds := EventKinds(spec);
    var added := EventKinds(Augmented(spec))[|kinds|..];
    assert EventKinds(Augmented(spec)) == kinds + added;
    AddedKindsKeepDecoding(codec, spec.event.value.name, kinds, added, block, event);
  }
}
