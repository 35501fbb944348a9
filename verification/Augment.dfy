/** The observable rewrite: the specification that is actually emitted. */
module Augment {
  import opened Wrappers
  import opened Channel
  import opened Validation

  function FilterIdent(observable: ObservableBlock): Ident {
    match observable.filter
    case NamedFilter(name) => name
    case DefaultFilter => "ObserverFilter"
  }

  function TapVariants(observable: ObservableBlock): seq<RequestVariant> {
    [RequestVariant(TAP, NamedType(FilterIdent(observable)), Some(OBSERVER_STREAM)),
     RequestVariant(UNTAP, NamedType(OBSERVER_TOKEN), None)]
  }

  function ObserverReply(): ReplyVariant {
    ReplyVariant(OBSERVER_OPENED, Some(NamedType(OBSERVER_OPENED)))
  }

  function ObserverEvents(observable: ObservableBlock): seq<EventVariant> {
    [EventVariant(observable.operationEvent, NamedType(observable.operationEvent), Some(OBSERVER_STREAM)),
     EventVariant(observable.effectEvent, NamedType(observable.effectEvent), Some(OBSERVER_STREAM))]
  }

  function ObserverStreamBlock(observable: ObservableBlock): StreamBlock {
    StreamBlock(OBSERVER_STREAM, NamedType(OBSERVER_TOKEN), OBSERVER_OPENED, observable.EventRecords(), UNTAP)
  }

  function Augmented(spec: ChannelSpec): ChannelSpec {
    match spec.observable
    case None => spec
    case Some(observable) =>
      ChannelSpec(
        spec.name,
        spec.contract,
        RequestBlock(spec.request.name, spec.request.variants + TapVariants(observable)),
        ReplyBlock(spec.reply.name, spec.reply.variants + [ObserverReply()]),
        Some(EventBlock(
          if spec.event.Some? then spec.event.value.name else "Event",
          spec.EventVariants() + ObserverEvents(observable))),
        spec.streams + [ObserverStreamBlock(observable)],
        None)
  }

  /** Copies the author's variant lists and pushes the injected variants onto the copies. */
  method AugmentWithObservable(spec: ChannelSpec) returns (augmented: ChannelSpec)
    ensures augmented == Augmented(spec)
  {
    if spec.observable.None? {
      return spec.(observable := None);
    }
    var observable := spec.observable.value;
    var tokenType := NamedType(OBSERVER_TOKEN);

    var requestVariants := spec.request.variants;
    requestVariants := requestVariants + [RequestVariant(TAP, NamedType(FilterIdent(observable)), Some(OBSERVER_STREAM))];
    requestVariants := requestVariants + [RequestVariant(UNTAP, tokenType, None)];

    var replyVariants := spec.reply.variants;
    replyVariants := replyVariants + [ReplyVariant(OBSERVER_OPENED, Some(NamedType(OBSERVER_OPENED)))];

    var eventVariants := if spec.event.Some? then spec.event.value.variants else [];
    var records := observable.EventRecords();
    for i := 0 to |records|
      invariant eventVariants == spec.EventVariants() + ObserverEvents(observable)[..i]
    {
      eventVariants := eventVariants + [EventVariant(records[i], NamedType(records[i]), Some(OBSERVER_STREAM))];
    }
    var eventBlockName := if spec.event.Some? then spec.event.value.name else "Event";

    var streams := spec.streams;
    streams := streams + [StreamBlock(OBSERVER_STREAM, tokenType, OBSERVER_OPENED, records, UNTAP)];

    assert ObserverEvents(observable)[..|records|] == ObserverEvents(observable);
    assert requestVariants == spec.request.variants + TapVariants(observable);
    return ChannelSpec(
        spec.name,
        spec.contract,
        RequestBlock(spec.request.name, requestVariants),
        ReplyBlock(spec.reply.name, replyVariants),
        Some(EventBlock(eventBlockName, eventVariants)),
        streams,
        None);
  }

  lemma DistinctExtended<T>(items: seq<T>, added: seq<T>)
    requires Distinct(items) && Distinct(added)
    requires forall x | x in added :: x !in items
    ensures Distinct(items + added)
  {
    var all := items + added;
    forall i, j | 0 <= i < j < |all|
      ensures all[i] != all[j]
    {
      var n := |items|;
      if n <= i {
        assert all[i] == added[i - n] && all[j] == added[j - n];
      } else if n <= j {
        assert all[i] == items[i] && all[j] == added[j - n] && added[j - n] in added;
      }
    }
  }

  /** The rewrite appends to the name lists and leaves the author's names where they were. */
  lemma AugmentedNames(spec: ChannelSpec)
    requires spec.observable.Some?
    ensures Augmented(spec).OperationNames() == spec.OperationNames() + [TAP, UNTAP]
    ensures Augmented(spec).ReplyNames() == spec.ReplyNames() + [OBSERVER_OPENED]
    ensures Augmented(spec).EventNames() == spec.EventNames() + spec.observable.value.EventRecords()
    ensures Augmented(spec).StreamNames() == spec.StreamNames() + {OBSERVER_STREAM}
  {
  }

  /** What collision freedom says about the name lists. */
  lemma InjectedNamesAreNew(spec: ChannelSpec)
    requires NoCollisions(spec) && spec.observable.Some?
    ensures TAP !in spec.OperationNames() && UNTAP !in spec.OperationNames()
    ensures OBSERVER_OPENED !in spec.ReplyNames()
    ensures forall record | record in spec.observable.value.EventRecords() :: record !in spec.EventNames()
    ensures OBSERVER_STREAM !in spec.StreamNames()
  {
  }

  lemma AugmentKeepsDistinct(spec: ChannelSpec)
    requires NoCollisions(spec) && DistinctVariants(spec) && spec.observable.Some?
    ensures DistinctVariants(Augmented(spec))
  {
    AugmentedNames(spec);
    InjectedNamesAreNew(spec);
    DistinctExtended(spec.OperationNames(), [TAP, UNTAP]);
    DistinctExtended(spec.ReplyNames(), [OBSERVER_OPENED]);
    DistinctExtended(spec.EventNames(), spec.observable.value.EventRecords());
  }

  /** A stream of the author's that resolved before the rewrite resolves after it. */
  lemma AugmentKeepsStream(spec: ChannelSpec, s: StreamBlock)
    requires spec.observable.Some? && StreamResolves(spec, s)
    ensures StreamResolves(Augmented(spec), s)
  {
  }

  lemma ObserverStreamResolves(spec: ChannelSpec)
    requires spec.observable.Some?
    ensures StreamResolves(Augmented(spec), ObserverStreamBlock(spec.observable.value))
    ensures Opened(Augmented(spec), OBSERVER_STREAM)
  {
  }

  lemma AugmentKeepsRelations(spec: ChannelSpec)
    requires spec.observable.Some? && StreamsRelated(spec)
    ensures StreamsRelated(Augmented(spec))
  {
    var aug, o := Augmented(spec), spec.observable.value;
    AugmentedNames(spec);
    ObserverStreamResolves(spec);
    forall s | s in aug.streams
      ensures Opened(aug, s.name) && StreamResolves(aug, s)
    {
      if s in spec.streams {
        AugmentKeepsStream(spec, s);
        var opener :| opener in spec.request.variants && opener.opens == Some(s.name);
        assert opener in aug.request.variants;
      }
    }
    forall v | v in aug.request.variants && v.opens.Some?
      ensures v.opens.value in aug.StreamNames()
    {
      assert v in spec.request.variants || v in TapVariants(o);
    }
    forall v | v in aug.EventVariants()
      ensures v.belongs.Some? && v.belongs.value in aug.StreamNames()
    {
      assert v in spec.EventVariants() || v in ObserverEvents(o);
    }
  }

  /** Only the author's specification is validated; what is emitted would have been accepted too. */
  lemma AugmentPreservesWellFormedness(spec: ChannelSpec)
    requires WellFormed(spec)
    ensures WellFormed(Augmented(spec))
  {
    if spec.observable.Some? {
      AugmentKeepsDistinct(spec);
      AugmentKeepsRelations(spec);
    }
  }

  /** The emitter unwraps an event block, and a `belongs` on each of its variants, for every streaming channel. */
  ghost predicate EmitterUnwrapsSucceed(spec: ChannelSpec) {
    spec.IsStreaming() ==> spec.event.Some? && forall v | v in spec.EventVariants() :: v.belongs.Some?
  }

  lemma EmissionNeverPanics(spec: ChannelSpec)
    requires WellFormed(spec)
    ensures EmitterUnwrapsSucceed(Augmented(spec))
    ensures Augmented(spec).IsStreaming() <==> spec.event.Some? || spec.observable.Some?
  {
    AugmentPreservesWellFormedness(spec);
  }

  /** The author refers to no stream, reply or operation that only the rewrite will add. */
  ghost predicate MentionsNoInjected(spec: ChannelSpec) {
    && (forall v | v in spec.request.variants :: v.opens != Some(OBSERVER_STREAM))
    && (forall v | v in spec.EventVariants() :: v.belongs != Some(OBSERVER_STREAM))
    && (forall s | s in spec.streams :: s.openedReply != OBSERVER_OPENED && s.close != TAP && s.close != UNTAP)
  }

  lemma AcceptedMentionsNoInjected(spec: ChannelSpec)
    requires WellFormed(spec) && spec.observable.Some?
    ensures MentionsNoInjected(spec)
  {
    InjectedNamesAreNew(spec);
  }

  lemma DistinctPrefix<T>(items: seq<T>, added: seq<T>)
    requires Distinct(items + added)
    ensures Distinct(items)
  {
    var all := items + added;
    assert forall i | 0 <= i < |items| :: all[i] == items[i];
  }

  lemma RewriteReflectsDistinct(spec: ChannelSpec)
    requires spec.observable.Some? && DistinctVariants(Augmented(spec))
    ensures DistinctVariants(spec)
  {
    AugmentedNames(spec);
    DistinctPrefix(spec.OperationNames(), [TAP, UNTAP]);
    DistinctPrefix(spec.ReplyNames(), [OBSERVER_OPENED]);
    DistinctPrefix(spec.EventNames(), spec.observable.value.EventRecords());
  }

  /** What an author's stream resolves to after the rewrite is the author's, if nothing injected was mentioned. */
  lemma RewriteReflectsStream(spec: ChannelSpec, s: StreamBlock)
    requires spec.observable.Some? && NoCollisions(spec) && MentionsNoInjected(spec)
    requires s in spec.streams && StreamResolves(Augmented(spec), s)
    ensures StreamResolves(spec, s)
  {
    var aug, o := Augmented(spec), spec.observable.value;
    var reply :| reply in aug.reply.variants && reply.name == s.openedReply;
    assert reply in spec.reply.variants;
    forall e | e in s.events
      ensures HasEventOf(spec, e, s.name)
    {
      var event :| event in aug.EventVariants() && event.name == e && event.belongs == Some(s.name);
      assert event in spec.EventVariants() || event in ObserverEvents(o);
    }
    var closer :| closer in aug.request.variants && closer.name == s.close && closer.payload.text == s.token.text;
    assert closer in spec.request.variants || closer in TapVariants(o);
  }

  lemma RewriteReflectsOpened(spec: ChannelSpec, s: StreamBlock)
    requires spec.observable.Some? && NoCollisions(spec)
    requires s in spec.streams && Opened(Augmented(spec), s.name)
    ensures Opened(spec, s.name)
  {
    var o := spec.observable.value;
    var opener :| opener in Augmented(spec).request.variants && opener.opens == Some(s.name);
    assert opener in spec.request.variants || opener in TapVariants(o);
  }

  lemma RewriteReflectsRelations(spec: ChannelSpec)
    requires spec.observable.Some? && NoCollisions(spec) && MentionsNoInjected(spec)
    requires StreamsRelated(Augmented(spec)) && (spec.streams != [] <==> spec.event.Some?)
    ensures StreamsRelated(spec)
  {
    var aug := Augmented(spec);
    AugmentedNames(spec);
    forall s | s in spec.streams
      ensures Opened(spec, s.name) && StreamResolves(spec, s)
    {
      assert s in aug.streams;
      RewriteReflectsOpened(spec, s);
      RewriteReflectsStream(spec, s);
    }
    assert forall v | v in spec.request.variants :: v in aug.request.variants;
    assert forall v | v in spec.EventVariants() :: v in aug.EventVariants();
  }

  /**
   * When the rewritten specification tells whether the author's is acceptable: exactly when nothing collides, streams
   * and an event block come together, and the author refers to nothing that is injected.
   */
  lemma RewriteAcceptanceExact(spec: ChannelSpec)
    requires spec.observable.Some?
    ensures WellFormed(spec) <==>
      && WellFormed(Augmented(spec))
      && NoCollisions(spec) && (spec.streams != [] <==> spec.event.Some?) && MentionsNoInjected(spec)
  {
    if WellFormed(spec) {
      AugmentPreservesWellFormedness(spec);
      AcceptedMentionsNoInjected(spec);
    } else if WellFormed(Augmented(spec)) && NoCollisions(spec) && (spec.streams != [] <==> spec.event.Some?)
              && MentionsNoInjected(spec) {
      RewriteReflectsDistinct(spec);
      RewriteReflectsRelations(spec);
      assert false;
    }
  }

  function StrayEvent(): ChannelSpec {
    ChannelSpec(
      "Stray", NamedType("Wire"), RequestBlock("Operation", []), ReplyBlock("Reply", []),
      Some(EventBlock("Event", [EventVariant("Stray", NamedType("Stray"), Some(OBSERVER_STREAM))])),
      [], Some(ObservableBlock(DefaultFilter, "Received", "Emitted")))
  }

  /** A refused specification whose rewriting would be accepted: its event belongs to a stream that is injected. */
  lemma RewriteCanHideARefusal()
    ensures !WellFormed(StrayEvent()) && WellFormed(Augmented(StrayEvent()))
    ensures NoCollisions(StrayEvent()) && !MentionsNoInjected(StrayEvent())
  {
    StrayEventRewritten();
    var aug := Augmented(StrayEvent());
    assert NoCollisions(aug) && DistinctVariants(aug);
    StrayEventMentions();
    StrayEventIsNew();
  }

  lemma StrayEventMentions()
    ensures !StreamsRelated(StrayEvent()) && !MentionsNoInjected(StrayEvent())
  {
    assert StrayEvent().EventVariants()[0].belongs == Some(OBSERVER_STREAM);
  }

  lemma StrayEventIsNew()
    ensures NoCollisions(StrayEvent())
  {
    var records := StrayEvent().observable.value.EventRecords();
    assert "Stray" !in records;
    assert "Received" !in RESERVED_RECORD_HEADS && "Emitted" !in RESERVED_RECORD_HEADS;
    LoneEventIsNew(StrayEvent().EventVariants(), "Stray", records);
  }

  lemma LoneEventIsNew(variants: seq<EventVariant>, name: Ident, records: seq<Ident>)
    requires variants == [EventVariant(name, NamedType(name), Some(OBSERVER_STREAM))]
    requires ' ' !in name && ':' !in name && name !in records
    ensures forall v | v in variants :: v.name !in records && ProjectedRecordHead(v.payload) !in records
  {
    ProjectedHeadOfName(name);
  }

  lemma StrayEventRewritten()
    ensures StreamsRelated(Augmented(StrayEvent()))
    ensures Augmented(StrayEvent()).OperationNames() == [TAP, UNTAP]
    ensures Augmented(StrayEvent()).ReplyNames() == [OBSERVER_OPENED]
    ensures Augmented(StrayEvent()).EventNames() == ["Stray", "Received", "Emitted"]
  {
    var spec, aug := StrayEvent(), Augmented(StrayEvent());
    AugmentedNames(spec);
    ObserverStreamResolves(spec);
    assert aug.streams == [ObserverStreamBlock(spec.observable.value)];
    assert spec.EventNames() == ["Stray"];
  }
}
