/** Emitted stream witnesses: which operation opens or closes which stream, and which stream an event rides on. */
module Witness {
  import opened Wrappers
  import opened Channel
  import opened Validation
  import opened Augment
  import Arms

  type StreamKind = Ident

  /** One arm for each operation that carries `opens`, in declaration order. */
  function OpenedArms(variants: seq<RequestVariant>): seq<(Ident, StreamKind)> {
    if variants == [] then []
    else
      (match variants[0].opens
       case Some(stream) => [(variants[0].name, stream)]
       case None => [])
      + OpenedArms(variants[1..])
  }

  /** One arm for each stream, keyed by the operation that closes it. */
  function ClosedArms(streams: seq<StreamBlock>): (arms: seq<(Ident, StreamKind)>)
    ensures |arms| == |streams|
  {
    seq(|streams|, i requires 0 <= i < |streams| => (streams[i].close, streams[i].name))
  }

  function EventArms(events: seq<EventVariant>): (arms: seq<(Ident, StreamKind)>)
    requires forall v | v in events :: v.belongs.Some?
    ensures |arms| == |events|
  {
    seq(|events|, i requires 0 <= i < |events| => (events[i].name, events[i].belongs.value))
  }

  function OpenedStream(spec: ChannelSpec, operation: Ident): Option<StreamKind> {
    Arms.FirstMatch(OpenedArms(spec.request.variants), operation)
  }

  function ClosedStream(spec: ChannelSpec, operation: Ident): Option<StreamKind> {
    Arms.FirstMatch(ClosedArms(spec.streams), operation)
  }

  function StreamOfEvent(spec: ChannelSpec, event: Ident): Option<StreamKind>
    requires forall v | v in spec.EventVariants() :: v.belongs.Some?
  {
    Arms.FirstMatch(EventArms(spec.EventVariants()), event)
  }

  lemma {:induction false} OpenedArmsAppend(a: seq<RequestVariant>, b: seq<RequestVariant>)
    ensures OpenedArms(a + b) == OpenedArms(a) + OpenedArms(b)
  {
    if a == [] {
      assert a + b == b;
    } else {
      assert (a + b)[1..] == a[1..] + b;
      OpenedArmsAppend(a[1..], b);
    }
  }

  /** Every arm comes from an operation that opens a stream. */
  lemma {:induction false} OpenedArmSource(variants: seq<RequestVariant>, key: Ident)
    ensures Arms.FirstMatch(OpenedArms(variants), key).Some? ==>
      exists v | v in variants :: v.name == key && v.opens == Arms.FirstMatch(OpenedArms(variants), key)
  {
    if variants != [] {
      OpenedArmSource(variants[1..], key);
      var head := match variants[0].opens case Some(s) => [(variants[0].name, s)] case None => [];
      Arms.FirstMatchAppend(head, OpenedArms(variants[1..]), key);
      assert variants[0] in variants;
    }
  }

  /** With distinct operation names, the opened stream of an operation is the one its declaration says. */
  lemma {:induction false} OpenedStreamIsDeclared(variants: seq<RequestVariant>, v: RequestVariant)
    requires v in variants
    requires forall w | w in variants && w.name == v.name :: w == v
    ensures Arms.FirstMatch(OpenedArms(variants), v.name) == v.opens
  {
    OpenedArmSource(variants, v.name);
    if v.opens.Some? {
      OpenedArmExists(variants, v);
    }
  }

  lemma {:induction false} OpenedArmExists(variants: seq<RequestVariant>, v: RequestVariant)
    requires v in variants && v.opens.Some?
    ensures Arms.FirstMatch(OpenedArms(variants), v.name).Some?
  {
    var head := match variants[0].opens case Some(s) => [(variants[0].name, s)] case None => [];
    Arms.FirstMatchAppend(head, OpenedArms(variants[1..]), v.name);
    if variants[0] != v {
      OpenedArmExists(variants[1..], v);
    }
  }

  /** Each declared relation is what the generated witnesses answer. */
  lemma WitnessesAnswerDeclarations(spec: ChannelSpec)
    requires WellFormed(spec)
    ensures forall v | v in spec.request.variants :: OpenedStream(spec, v.name) == v.opens
    ensures forall v | v in spec.EventVariants() :: StreamOfEvent(spec, v.name) == v.belongs
  {
    forall v | v in spec.request.variants
      ensures OpenedStream(spec, v.name) == v.opens
    {
      forall w | w in spec.request.variants && w.name == v.name
        ensures w == v
      {
        FoundOperationIsTheOperation(spec, v);
        FoundOperationIsTheOperation(spec, w);
      }
      OpenedStreamIsDeclared(spec.request.variants, v);
    }
    forall v | v in spec.EventVariants()
      ensures StreamOfEvent(spec, v.name) == v.belongs
    {
      var k :| 0 <= k < |spec.EventVariants()| && spec.EventVariants()[k] == v;
      forall j | 0 <= j < k
        ensures EventArms(spec.EventVariants())[j].0 != EventArms(spec.EventVariants())[k].0
      {
        assert spec.EventNames()[j] != spec.EventNames()[k];
      }
      Arms.FirstMatchAt(EventArms(spec.EventVariants()), k);
    }
  }

  /** `closed_stream` names a stream for its close operation exactly when no earlier stream claimed that operation first. */
  lemma CloseReportsStream(spec: ChannelSpec, k: nat)
    requires k < |spec.streams|
    ensures ClosedStream(spec, spec.streams[k].close) == Some(spec.streams[k].name)
       <==> exists j :: 0 <= j <= k && spec.streams[j].close == spec.streams[k].close
              && spec.streams[j].name == spec.streams[k].name
              && forall i | 0 <= i < j :: spec.streams[i].close != spec.streams[k].close
  {
    var arms := ClosedArms(spec.streams);
    assert arms[k].0 == spec.streams[k].close;
    var j := Arms.FirstMatchIndex(arms, spec.streams[k].close);
    assert forall i | 0 <= i < j :: spec.streams[i].close == arms[i].0;
  }

  /** For every operation: the stream reported closed is the first it closes, and none exactly when it closes none. */
  lemma ClosedStreamIsFirst(spec: ChannelSpec, operation: Ident)
    ensures
      match ClosedStream(spec, operation)
      case None => forall s | s in spec.streams :: s.close != operation
      case Some(stream) =>
        exists k :: 0 <= k < |spec.streams|
          && spec.streams[k].close == operation && spec.streams[k].name == stream
          && forall i | 0 <= i < k :: spec.streams[i].close != operation
  {
    var arms := ClosedArms(spec.streams);
    assert forall i | 0 <= i < |arms| :: arms[i] == (spec.streams[i].close, spec.streams[i].name);
    if ClosedStream(spec, operation).Some? {
      var k := Arms.FirstMatchIndex(arms, operation);
      assert spec.streams[k].close == operation;
    } else {
      forall s | s in spec.streams
        ensures s.close != operation
      {
        var i :| 0 <= i < |spec.streams| && spec.streams[i] == s;
        assert arms[i].0 == s.close;
      }
    }
  }

  /** Stream names need not be distinct: repeating any stream of an accepted specification is accepted. */
  lemma RepeatedStreamIsAccepted(spec: ChannelSpec, k: nat)
    requires WellFormed(spec) && k < |spec.streams|
    ensures WellFormed(spec.(streams := spec.streams + [spec.streams[k]]))
  {
    var repeated := spec.(streams := spec.streams + [spec.streams[k]]);
    assert forall s :: s in repeated.streams <==> s in spec.streams;
    assert repeated.OperationNames() == spec.OperationNames();
    assert repeated.ReplyNames() == spec.ReplyNames();
    assert repeated.EventVariants() == spec.EventVariants() && repeated.EventNames() == spec.EventNames();
    assert repeated.StreamNames() == spec.StreamNames();
    forall s | s in repeated.streams
      ensures Opened(repeated, s.name) && StreamResolves(repeated, s)
    {
      assert Opened(spec, s.name) && StreamResolves(spec, s);
      forall e | e in s.events
        ensures HasEventOf(repeated, e, s.name)
      {
        assert HasEventOf(spec, e, s.name);
      }
    }
  }

  function SharedClose(): ChannelSpec {
    var token := NamedType("Token");
    ChannelSpec(
      "Shared", NamedType("Wire"),
      RequestBlock("Operation",
        [RequestVariant("Watch", NamedType("Query"), Some("First")),
         RequestVariant("Follow", NamedType("Query"), Some("Second")),
         RequestVariant("Stop", token, None)]),
      ReplyBlock("Reply", [ReplyVariant("Started", None)]),
      Some(EventBlock("Event",
        [EventVariant("Ticked", NamedType("Tick"), Some("First")),
         EventVariant("Moved", NamedType("Move"), Some("Second"))])),
      [StreamBlock("First", token, "Started", ["Ticked"], "Stop"),
       StreamBlock("Second", token, "Started", ["Moved"], "Stop")],
      None)
  }

  lemma SharedCloseNames()
    ensures DistinctVariants(SharedClose())
    ensures SharedClose().StreamNames() == {"First", "Second"}
  {
  }

  lemma SharedCloseStreamResolves(k: nat)
    requires k < 2
    ensures StreamResolves(SharedClose(), SharedClose().streams[k])
    ensures Opened(SharedClose(), SharedClose().streams[k].name)
  {
    var spec := SharedClose();
    var requests, events := spec.request.variants, spec.EventVariants();
    assert requests[k] in requests && requests[2] in requests && events[k] in events;
    assert spec.reply.variants[0] in spec.reply.variants;
  }

  lemma SharedCloseRelations()
    ensures StreamsRelated(SharedClose())
  {
    SharedCloseNames();
    SharedCloseStreamResolves(0);
    SharedCloseStreamResolves(1);
  }

  /** Two streams may share a close operation, and then the later one is never reported closed. */
  lemma SharedCloseIsAccepted()
    ensures WellFormed(SharedClose())
    ensures ClosedStream(SharedClose(), "Stop") == Some("First")
    ensures forall operation :: ClosedStream(SharedClose(), operation) != Some("Second")
  {
    SharedCloseNames();
    SharedCloseRelations();
    var arms := ClosedArms(SharedClose().streams);
    assert arms == [("Stop", "First"), ("Stop", "Second")];
    Arms.FirstMatchAt(arms, 0);
    forall operation | Arms.FirstMatch(arms, operation).Some?
      ensures Arms.FirstMatch(arms, operation) == Some("First")
    {
      var k := Arms.FirstMatchIndex(arms, operation);
    }
  }

  /**
   * The rewrite is conservative: every operation and event of the author's is witnessed as it was, and only the
   * injected names are witnessed for the injected stream.
   */
  lemma RewriteKeepsWitnesses(spec: ChannelSpec)
    requires WellFormed(spec) && spec.observable.Some?
    ensures EmitterUnwrapsSucceed(Augmented(spec))
    ensures forall name | name in spec.OperationNames() ::
      && OpenedStream(Augmented(spec), name) == OpenedStream(spec, name)
      && ClosedStream(Augmented(spec), name) == ClosedStream(spec, name)
    ensures forall name | name in spec.EventNames() :: StreamOfEvent(Augmented(spec), name) == StreamOfEvent(spec, name)
    ensures forall name :: OpenedStream(Augmented(spec), name) == Some(OBSERVER_STREAM) <==> name == TAP
    ensures forall name :: ClosedStream(Augmented(spec), name) == Some(OBSERVER_STREAM) <==> name == UNTAP
    ensures forall name ::
      StreamOfEvent(Augmented(spec), name) == Some(OBSERVER_STREAM)
      <==> name in spec.observable.value.EventRecords()
  {
    EmissionNeverPanics(spec);
    InjectedNamesAreNew(spec);
    OpenedAfterRewrite(spec);
    ClosedAfterRewrite(spec);
    EventsAfterRewrite(spec);
  }

  lemma OpenedAfterRewrite(spec: ChannelSpec)
    requires WellFormed(spec) && spec.observable.Some?
    ensures forall name | name in spec.OperationNames() ::
      OpenedStream(Augmented(spec), name) == OpenedStream(spec, name)
    ensures forall name :: OpenedStream(Augmented(spec), name) == Some(OBSERVER_STREAM) <==> name == TAP
  {
    var o, variants := spec.observable.value, spec.request.variants;
    InjectedNamesAreNew(spec);
    NamesCoverVariants(spec);
    OpenedArmsAppend(variants, TapVariants(o));
    assert OpenedArms(TapVariants(o)) == [(TAP, OBSERVER_STREAM)] by {
      assert OpenedArms(TapVariants(o)[1..]) == [] by {
        assert OpenedArms(TapVariants(o)[1..][1..]) == [];
      }
    }
    forall name
      ensures OpenedStream(Augmented(spec), name)
           == if OpenedStream(spec, name).Some? then OpenedStream(spec, name)
              else if name == TAP then Some(OBSERVER_STREAM) else None
      ensures OpenedStream(spec, name).Some? ==> name in spec.OperationNames()
      ensures OpenedStream(spec, name) != Some(OBSERVER_STREAM)
    {
      Arms.FirstMatchAppend(OpenedArms(variants), [(TAP, OBSERVER_STREAM)], name);
      OpenedArmSource(variants, name);
    }
  }

  lemma ClosedAfterRewrite(spec: ChannelSpec)
    requires WellFormed(spec) && spec.observable.Some?
    ensures forall name | name in spec.OperationNames() ::
      ClosedStream(Augmented(spec), name) == ClosedStream(spec, name)
    ensures forall name :: ClosedStream(Augmented(spec), name) == Some(OBSERVER_STREAM) <==> name == UNTAP
  {
    InjectedNamesAreNew(spec);
    NamesCoverVariants(spec);
    var arms := ClosedArms(spec.streams);
    assert ClosedArms(Augmented(spec).streams) == arms + [(UNTAP, OBSERVER_STREAM)];
    forall name
      ensures ClosedStream(Augmented(spec), name)
           == if ClosedStream(spec, name).Some? then ClosedStream(spec, name)
              else if name == UNTAP then Some(OBSERVER_STREAM) else None
      ensures ClosedStream(spec, name).Some? ==> name in spec.OperationNames()
      ensures ClosedStream(spec, name) != Some(OBSERVER_STREAM)
    {
      Arms.FirstMatchAppend(arms, [(UNTAP, OBSERVER_STREAM)], name);
      if ClosedStream(spec, name).Some? {
        var k := Arms.FirstMatchIndex(arms, name);
        assert spec.streams[k] in spec.streams && StreamResolves(spec, spec.streams[k]);
      }
    }
  }

  lemma EventsAfterRewrite(spec: ChannelSpec)
    requires WellFormed(spec) && spec.observable.Some?
    ensures EmitterUnwrapsSucceed(Augmented(spec))
    ensures forall name | name in spec.EventNames() :: StreamOfEvent(Augmented(spec), name) == StreamOfEvent(spec, name)
    ensures forall name ::
      StreamOfEvent(Augmented(spec), name) == Some(OBSERVER_STREAM)
      <==> name in spec.observable.value.EventRecords()
  {
    EmissionNeverPanics(spec);
    InjectedNamesAreNew(spec);
    forall name
      ensures StreamOfEvent(spec, name).Some? <==> name in spec.EventNames()
      ensures StreamOfEvent(spec, name) != Some(OBSERVER_STREAM)
      ensures StreamOfEvent(Augmented(spec), name)
           == if StreamOfEvent(spec, name).Some? then StreamOfEvent(spec, name)
              else if name in spec.observable.value.EventRecords() then Some(OBSERVER_STREAM) else None
    {
      DeclaredEventStream(spec, name);
      AddedEventArms(spec, name);
    }
  }

  lemma DeclaredEventStream(spec: ChannelSpec, name: Ident)
    requires WellFormed(spec)
    ensures StreamOfEvent(spec, name).Some? <==> name in spec.EventNames()
    ensures StreamOfEvent(spec, name).Some? ==> StreamOfEvent(spec, name).value in spec.StreamNames()
  {
    var events, arms := spec.EventVariants(), EventArms(spec.EventVariants());
    assert forall i | 0 <= i < |arms| :: arms[i].0 == spec.EventNames()[i];
    if StreamOfEvent(spec, name).Some? {
      var k := Arms.FirstMatchIndex(arms, name);
      assert events[k] in events;
    }
  }

  lemma AddedEventArms(spec: ChannelSpec, name: Ident)
    requires WellFormed(spec) && spec.observable.Some?
    requires EmitterUnwrapsSucceed(Augmented(spec))
    ensures StreamOfEvent(Augmented(spec), name)
         == if StreamOfEvent(spec, name).Some? then StreamOfEvent(spec, name)
            else if name in spec.observable.value.EventRecords() then Some(OBSERVER_STREAM) else None
  {
    var o := spec.observable.value;
    var arms, added := EventArms(spec.EventVariants()), EventArms(ObserverEvents(o));
    assert EventArms(Augmented(spec).EventVariants()) == arms + added;
    assert added == [(o.operationEvent, OBSERVER_STREAM), (o.effectEvent, OBSERVER_STREAM)];
    Arms.FirstMatchAppend(arms, added, name);
  }
}
