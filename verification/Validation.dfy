/** Semantic validation of a channel specification. */
module Validation {
  import opened Wrappers
  import opened Channel

  const TAP: Ident := "Tap"
  const UNTAP: Ident := "Untap"
  const OBSERVER_STREAM: Ident := "ObserverStream"
  const OBSERVER_TOKEN: Ident := "ObserverSubscriptionToken"
  const OBSERVER_OPENED: Ident := "ObserverSubscriptionOpened"
  const RESERVED_RECORD_HEADS: seq<Ident> := [OBSERVER_TOKEN, OBSERVER_OPENED]

  datatype ValidationError =
    | SameObservableEvents(record: Ident)
    | ReservedObservableEvent(record: Ident)
    | OperationCollides(operation: Ident)
    | ReplyCollides(reply: Ident)
    | EventCollides(event: Ident)
    | EventHeadCollides(event: Ident, head: string)
    | StreamCollides(stream: Ident)
    | DuplicateOperation(operation: Ident)
    | DuplicateReply(reply: Ident)
    | DuplicateEvent(event: Ident)
    | StreamsWithoutEvents
    | EventsWithoutStreams
    | UnresolvedOpens(opens: Ident)
    | OrphanStream(stream: Ident)
    | UnresolvedBelongs(belongs: Ident)
    | MissingBelongs(event: Ident)
    | UnresolvedOpened(stream: Ident, reply: Ident)
    | UnresolvedEvent(stream: Ident, event: Ident)
    | EventBelongsElsewhere(stream: Ident, event: Ident, belongs: Ident)
    | UnresolvedClose(stream: Ident, close: Ident)
    | CloseTokenMismatch(stream: Ident, payload: RustType, token: RustType)
  {
    predicate IsCollision() {
      SameObservableEvents? || ReservedObservableEvent? || OperationCollides? || ReplyCollides?
      || EventCollides? || EventHeadCollides? || StreamCollides?
    }

    predicate IsDuplicate() {
      DuplicateOperation? || DuplicateReply? || DuplicateEvent?
    }
  }

  // ---- What acceptance means ----------------------------------------------

  /** None of the names the observable block injects is already taken. */
  ghost predicate NoCollisions(spec: ChannelSpec) {
    spec.observable.Some? ==>
      var o := spec.observable.value;
      && o.operationEvent != o.effectEvent
      && (forall record | record in o.EventRecords() ::
            record != "ObserverSubscriptionToken" && record != "ObserverSubscriptionOpened")
      && (forall v | v in spec.request.variants :: v.name != TAP && v.name != UNTAP)
      && (forall v | v in spec.reply.variants :: v.name != OBSERVER_OPENED)
      && (forall v | v in spec.EventVariants() ::
            v.name !in o.EventRecords() && ProjectedRecordHead(v.payload) !in o.EventRecords())
      && (forall s | s in spec.streams :: s.name != OBSERVER_STREAM)
  }

  ghost predicate DistinctVariants(spec: ChannelSpec) {
    Distinct(spec.OperationNames()) && Distinct(spec.ReplyNames()) && Distinct(spec.EventNames())
  }

  ghost predicate Opened(spec: ChannelSpec, stream: Ident) {
    exists v | v in spec.request.variants :: v.opens == Some(stream)
  }

  ghost predicate HasReply(spec: ChannelSpec, reply: Ident) {
    exists v | v in spec.reply.variants :: v.name == reply
  }

  ghost predicate HasEventOf(spec: ChannelSpec, event: Ident, stream: Ident) {
    exists v | v in spec.EventVariants() :: v.name == event && v.belongs == Some(stream)
  }

  ghost predicate HasOperation(spec: ChannelSpec, operation: Ident, payload: RustType) {
    exists v | v in spec.request.variants :: v.name == operation && v.payload.text == payload.text
  }

  ghost predicate StreamResolves(spec: ChannelSpec, s: StreamBlock) {
    && HasReply(spec, s.openedReply)
    && (forall e | e in s.events :: HasEventOf(spec, e, s.name))
    && HasOperation(spec, s.close, s.token)
  }

  ghost predicate StreamsRelated(spec: ChannelSpec) {
    && (spec.streams != [] <==> spec.event.Some?)
    && (forall v | v in spec.request.variants :: v.opens.Some? ==> v.opens.value in spec.StreamNames())
    && (forall s | s in spec.streams :: Opened(spec, s.name))
    && (forall v | v in spec.EventVariants() :: v.belongs.Some? && v.belongs.value in spec.StreamNames())
    && (forall s | s in spec.streams :: StreamResolves(spec, s))
  }

  /** The specifications the macro accepts. */
  ghost predicate WellFormed(spec: ChannelSpec) {
    NoCollisions(spec) && DistinctVariants(spec) && StreamsRelated(spec)
  }

  // ---- What a diagnostic claims -------------------------------------------

  /** The name that, read from the left, is the first to occur a second time. */
  ghost predicate FirstRepeated(names: seq<Ident>, name: Ident) {
    exists j :: 0 <= j < |names| && names[j] == name && name in names[..j] && Distinct(names[..j])
  }

  ghost predicate RecordsFree(o: ObservableBlock) {
    o.operationEvent != o.effectEvent
    && forall record | record in o.EventRecords() :: record !in RESERVED_RECORD_HEADS
  }

  ghost predicate EventFree(o: ObservableBlock, v: EventVariant) {
    v.name !in o.EventRecords() && ProjectedRecordHead(v.payload) !in o.EventRecords()
  }

  /** The collision the diagnostic names is there, and it is the first in the order in which they are looked for. */
  ghost predicate CollisionIn(spec: ChannelSpec, e: ValidationError)
    requires e.IsCollision()
  {
    spec.observable.Some? &&
    var o := spec.observable.value;
    var operations, events := spec.OperationNames(), spec.EventVariants();
    var operationsFree := TAP !in operations && UNTAP !in operations;
    var repliesFree := OBSERVER_OPENED !in spec.ReplyNames();
    match e
    case SameObservableEvents(record) => o.operationEvent == record && o.effectEvent == record
    case ReservedObservableEvent(record) =>
      && o.operationEvent != o.effectEvent
      && exists i :: 0 <= i < |RESERVED_RECORD_HEADS| && RESERVED_RECORD_HEADS[i] == record
           && record in o.EventRecords() && forall k | 0 <= k < i :: RESERVED_RECORD_HEADS[k] !in o.EventRecords()
    case OperationCollides(name) =>
      && RecordsFree(o) && (name == TAP || name == UNTAP)
      && exists i :: 0 <= i < |operations| && operations[i] == name
           && forall k | 0 <= k < i :: operations[k] != TAP && operations[k] != UNTAP
    case ReplyCollides(name) => RecordsFree(o) && operationsFree && name == OBSERVER_OPENED && name in spec.ReplyNames()
    case EventCollides(name) =>
      && RecordsFree(o) && operationsFree && repliesFree
      && exists i :: 0 <= i < |events| && events[i].name == name && name in o.EventRecords()
           && forall k | 0 <= k < i :: EventFree(o, events[k])
    case EventHeadCollides(name, head) =>
      && RecordsFree(o) && operationsFree && repliesFree
      && exists i :: 0 <= i < |events| && events[i].name == name && name !in o.EventRecords()
           && ProjectedRecordHead(events[i].payload) == head && head in o.EventRecords()
           && forall k | 0 <= k < i :: EventFree(o, events[k])
    case StreamCollides(name) =>
      && RecordsFree(o) && operationsFree && repliesFree && (forall v | v in events :: EventFree(o, v))
      && name == OBSERVER_STREAM && name in spec.StreamNames()
  }

  ghost predicate DuplicateIn(spec: ChannelSpec, e: ValidationError)
    requires e.IsDuplicate()
  {
    match e
    case DuplicateOperation(name) => FirstRepeated(spec.OperationNames(), name)
    case DuplicateReply(name) => Distinct(spec.OperationNames()) && FirstRepeated(spec.ReplyNames(), name)
    case DuplicateEvent(name) =>
      Distinct(spec.OperationNames()) && Distinct(spec.ReplyNames()) && FirstRepeated(spec.EventNames(), name)
  }

  ghost predicate OpensResolves(spec: ChannelSpec, v: RequestVariant) {
    v.opens.Some? ==> v.opens.value in spec.StreamNames()
  }

  ghost predicate OpensRelated(spec: ChannelSpec) {
    && (forall v | v in spec.request.variants :: OpensResolves(spec, v))
    && (forall s | s in spec.streams :: Opened(spec, s.name))
  }

  ghost predicate BelongsResolves(spec: ChannelSpec, v: EventVariant) {
    v.belongs.Some? && v.belongs.value in spec.StreamNames()
  }

  /** What the diagnostic says of one stream block, all that is looked at before it being in order. */
  ghost predicate BrokenStream(spec: ChannelSpec, s: StreamBlock, e: ValidationError) {
    match e
    case UnresolvedOpened(_, name) => s.openedReply == name && !HasReply(spec, name)
    case UnresolvedEvent(_, name) =>
      && HasReply(spec, s.openedReply) && name !in spec.EventNames()
      && exists i :: 0 <= i < |s.events| && s.events[i] == name
           && forall k | 0 <= k < i :: HasEventOf(spec, s.events[k], s.name)
    case EventBelongsElsewhere(_, name, belongs) =>
      && HasReply(spec, s.openedReply) && HasEventOf(spec, name, belongs) && belongs != s.name
      && exists i :: 0 <= i < |s.events| && s.events[i] == name
           && forall k | 0 <= k < i :: HasEventOf(spec, s.events[k], s.name)
    case UnresolvedClose(_, name) =>
      && HasReply(spec, s.openedReply) && (forall event | event in s.events :: HasEventOf(spec, event, s.name))
      && s.close == name && name !in spec.OperationNames()
    case CloseTokenMismatch(_, payload, token) =>
      && HasReply(spec, s.openedReply) && (forall event | event in s.events :: HasEventOf(spec, event, s.name))
      && s.token == token && HasOperation(spec, s.close, payload) && payload.text != token.text
    case _ => false
  }

  ghost function StreamOf(e: ValidationError): Ident
    requires e.UnresolvedOpened? || e.UnresolvedEvent? || e.EventBelongsElsewhere? || e.UnresolvedClose?
             || e.CloseTokenMismatch?
  {
    e.stream
  }

  ghost predicate BrokenOpens(spec: ChannelSpec, e: ValidationError) {
    match e
    case UnresolvedOpens(name) =>
      exists i :: 0 <= i < |spec.request.variants| && spec.request.variants[i].opens == Some(name)
        && name !in spec.StreamNames() && forall k | 0 <= k < i :: OpensResolves(spec, spec.request.variants[k])
    case OrphanStream(name) =>
      && (forall v | v in spec.request.variants :: OpensResolves(spec, v))
      && exists i :: 0 <= i < |spec.streams| && spec.streams[i].name == name
           && !Opened(spec, name) && forall k | 0 <= k < i :: Opened(spec, spec.streams[k].name)
    case _ => false
  }

  ghost predicate BrokenBelongs(spec: ChannelSpec, e: ValidationError) {
    var events := spec.EventVariants();
    match e
    case UnresolvedBelongs(name) =>
      exists i :: 0 <= i < |events| && events[i].belongs == Some(name)
        && name !in spec.StreamNames() && forall k | 0 <= k < i :: BelongsResolves(spec, events[k])
    case MissingBelongs(name) =>
      exists i :: 0 <= i < |events| && events[i].name == name
        && events[i].belongs.None? && forall k | 0 <= k < i :: BelongsResolves(spec, events[k])
    case _ => false
  }

  /** The relation the diagnostic names is broken, and it is the first broken one in the order of the checks. */
  ghost predicate BrokenRelationIn(spec: ChannelSpec, e: ValidationError)
    requires !e.IsCollision() && !e.IsDuplicate()
  {
    if e.StreamsWithoutEvents? then spec.streams != [] && spec.event.None?
    else if e.EventsWithoutStreams? then spec.streams == [] && spec.event.Some?
    else
      && (spec.streams != [] <==> spec.event.Some?)
      && if e.UnresolvedOpens? || e.OrphanStream? then BrokenOpens(spec, e)
         else
           && OpensRelated(spec)
           && if e.UnresolvedBelongs? || e.MissingBelongs? then BrokenBelongs(spec, e)
              else
                && (forall v | v in spec.EventVariants() :: BelongsResolves(spec, v))
                && exists i :: 0 <= i < |spec.streams| && spec.streams[i].name == StreamOf(e)
                     && BrokenStream(spec, spec.streams[i], e)
                     && forall k | 0 <= k < i :: StreamResolves(spec, spec.streams[k])
  }

  /** The diagnostic is true, of the first phase that fails, and of the first fault in it. */
  ghost predicate Diagnosed(spec: ChannelSpec, e: ValidationError) {
    if e.IsCollision() then CollisionIn(spec, e)
    else if e.IsDuplicate() then NoCollisions(spec) && DuplicateIn(spec, e)
    else NoCollisions(spec) && DistinctVariants(spec) && BrokenRelationIn(spec, e)
  }

  // ---- The checks ---------------------------------------------------------

  method ValidateObservableDoesNotCollide(spec: ChannelSpec) returns (r: Result<(), ValidationError>)
    ensures r.Ok? ==> NoCollisions(spec)
    ensures r.Err? ==> r.error.IsCollision() && CollisionIn(spec, r.error)
  {
    if spec.observable.None? {
      return Ok(());
    }
    var o := spec.observable.value;
    if o.operationEvent == o.effectEvent {
      return Err(SameObservableEvents(o.effectEvent));
    }
    for i := 0 to |RESERVED_RECORD_HEADS|
      invariant forall k | 0 <= k < i ::
        o.operationEvent != RESERVED_RECORD_HEADS[k] && o.effectEvent != RESERVED_RECORD_HEADS[k]
    {
      if o.operationEvent == RESERVED_RECORD_HEADS[i] {
        return Err(ReservedObservableEvent(o.operationEvent));
      }
      if o.effectEvent == RESERVED_RECORD_HEADS[i] {
        return Err(ReservedObservableEvent(o.effectEvent));
      }
    }
    assert RESERVED_RECORD_HEADS[0] == OBSERVER_TOKEN && RESERVED_RECORD_HEADS[1] == OBSERVER_OPENED;
    var operations := spec.request.variants;
    for i := 0 to |operations|
      invariant forall k | 0 <= k < i :: operations[k].name != TAP && operations[k].name != UNTAP
    {
      var name := operations[i].name;
      assert spec.OperationNames()[i] == name;
      if name == TAP {
        return Err(OperationCollides(name));
      }
      if name == UNTAP {
        return Err(OperationCollides(name));
      }
    }
    var replies := spec.reply.variants;
    for i := 0 to |replies|
      invariant forall k | 0 <= k < i :: replies[k].name != OBSERVER_OPENED
    {
      assert spec.ReplyNames()[i] == replies[i].name;
      if replies[i].name == OBSERVER_OPENED {
        return Err(ReplyCollides(replies[i].name));
      }
    }
    if spec.event.Some? {
      var events := spec.event.value.variants;
      var observableNames := set record | record in o.EventRecords();
      for i := 0 to |events|
        invariant forall k | 0 <= k < i ::
          events[k].name !in o.EventRecords() && ProjectedRecordHead(events[k].payload) !in o.EventRecords()
      {
        var name := events[i].name;
        assert spec.EventNames()[i] == name;
        if name in observableNames {
          return Err(EventCollides(name));
        }
        var head := ProjectedRecordHead(events[i].payload);
        if head in observableNames {
          return Err(EventHeadCollides(name, head));
        }
      }
    }
    for i := 0 to |spec.streams|
      invariant forall k | 0 <= k < i :: spec.streams[k].name != OBSERVER_STREAM
    {
      if spec.streams[i].name == OBSERVER_STREAM {
        return Err(StreamCollides(spec.streams[i].name));
      }
    }
    return Ok(());
  }

  /** Inserts each name into a growing set; the first name already there is a duplicate. */
  method FirstDuplicate(names: seq<Ident>) returns (r: Option<Ident>)
    ensures r.None? <==> Distinct(names)
    ensures r.Some? ==> FirstRepeated(names, r.value)
  {
    var seen: set<Ident> := {};
    for i := 0 to |names|
      invariant forall name :: name in seen <==> name in names[..i]
      invariant Distinct(names[..i])
    {
      if names[i] in seen {
        return Some(names[i]);
      }
      seen := seen + {names[i]};
      assert names[..i + 1] == names[..i] + [names[i]];
    }
    assert names[..|names|] == names;
    return None;
  }

  method ValidateVariantUniqueness(spec: ChannelSpec) returns (r: Result<(), ValidationError>)
    ensures r.Ok? <==> DistinctVariants(spec)
    ensures r.Err? ==> r.error.IsDuplicate() && DuplicateIn(spec, r.error)
  {
    var duplicate := FirstDuplicate(spec.OperationNames());
    if duplicate.Some? {
      return Err(DuplicateOperation(duplicate.value));
    }
    duplicate := FirstDuplicate(spec.ReplyNames());
    if duplicate.Some? {
      return Err(DuplicateReply(duplicate.value));
    }
    duplicate := FirstDuplicate(spec.EventNames());
    if duplicate.Some? {
      return Err(DuplicateEvent(duplicate.value));
    }
    return Ok(());
  }

  function FindEvent(variants: seq<EventVariant>, name: Ident): (r: Option<EventVariant>)
    ensures r.Some? ==> r.value in variants && r.value.name == name
    ensures r.None? ==> forall v | v in variants :: v.name != name
  {
    if variants == [] then None
    else if variants[0].name == name then Some(variants[0])
    else FindEvent(variants[1..], name)
  }

  function FindOperation(variants: seq<RequestVariant>, name: Ident): (r: Option<RequestVariant>)
    ensures r.Some? ==> r.value in variants && r.value.name == name
    ensures r.None? ==> forall v | v in variants :: v.name != name
  {
    if variants == [] then None
    else if variants[0].name == name then Some(variants[0])
    else FindOperation(variants[1..], name)
  }

  /** Among distinctly named events, the one `find` returns is the one any event of that name is. */
  lemma FoundEventIsTheEvent(spec: ChannelSpec, v: EventVariant)
    requires Distinct(spec.EventNames()) && v in spec.EventVariants()
    ensures FindEvent(spec.EventVariants(), v.name) == Some(v)
  {
    var w := FindEvent(spec.EventVariants(), v.name).value;
    var i :| 0 <= i < |spec.EventVariants()| && spec.EventVariants()[i] == v;
    var j :| 0 <= j < |spec.EventVariants()| && spec.EventVariants()[j] == w;
    assert spec.EventNames()[i] == spec.EventNames()[j];
  }

  lemma FoundOperationIsTheOperation(spec: ChannelSpec, v: RequestVariant)
    requires Distinct(spec.OperationNames()) && v in spec.request.variants
    ensures FindOperation(spec.request.variants, v.name) == Some(v)
  {
    var w := FindOperation(spec.request.variants, v.name).value;
    var i :| 0 <= i < |spec.request.variants| && spec.request.variants[i] == v;
    var j :| 0 <= j < |spec.request.variants| && spec.request.variants[j] == w;
    assert spec.OperationNames()[i] == spec.OperationNames()[j];
  }

  method ValidateOpens(spec: ChannelSpec) returns (r: Result<(), ValidationError>)
    ensures r.Ok? ==> OpensRelated(spec)
    ensures r.Err? ==> BrokenOpens(spec, r.error)
  {
    var streamNames := spec.StreamNames();
    var openedStreamNames: set<Ident> := {};
    var operations := spec.request.variants;
    for i := 0 to |operations|
      invariant forall k | 0 <= k < i :: operations[k].opens.Some? ==> operations[k].opens.value in streamNames
      invariant forall name ::
        name in openedStreamNames <==> exists k :: 0 <= k < i && operations[k].opens == Some(name)
    {
      if operations[i].opens.Some? {
        var opens := operations[i].opens.value;
        if opens !in streamNames {
          assert operations[i] in operations;
          return Err(UnresolvedOpens(opens));
        }
        openedStreamNames := openedStreamNames + {opens};
      }
    }
    for i := 0 to |spec.streams|
      invariant forall k | 0 <= k < i :: Opened(spec, spec.streams[k].name)
    {
      var name := spec.streams[i].name;
      if name !in openedStreamNames {
        return Err(OrphanStream(name));
      }
      var k :| 0 <= k < |operations| && operations[k].opens == Some(name);
      assert operations[k] in operations;
    }
    return Ok(());
  }

  method ValidateBelongs(spec: ChannelSpec) returns (r: Result<(), ValidationError>)
    ensures r.Ok? ==> forall v | v in spec.EventVariants() :: BelongsResolves(spec, v)
    ensures r.Err? ==> BrokenBelongs(spec, r.error)
  {
    var streamNames := spec.StreamNames();
    var events := spec.EventVariants();
    for i := 0 to |events|
      invariant forall k | 0 <= k < i :: events[k].belongs.Some? && events[k].belongs.value in streamNames
    {
      assert events[i] in events;
      match events[i].belongs
      case Some(belongs) =>
        if belongs !in streamNames {
          return Err(UnresolvedBelongs(belongs));
        }
      case None =>
        return Err(MissingBelongs(events[i].name));
    }
    return Ok(());
  }

  /** One stream block's cross references; each `expect` of the source is an assertion here. */
  method ValidateStream(spec: ChannelSpec, s: StreamBlock) returns (r: Result<(), ValidationError>)
    requires s in spec.streams && DistinctVariants(spec)
    requires forall v | v in spec.EventVariants() :: v.belongs.Some?
    ensures r.Ok? <==> StreamResolves(spec, s)
    ensures r.Err? ==> BrokenStream(spec, s, r.error) && StreamOf(r.error) == s.name
  {
    var replyNames := set v | v in spec.reply.variants :: v.name;
    var operationNames := set v | v in spec.request.variants :: v.name;
    var eventNames := set v | v in spec.EventVariants() :: v.name;
    if s.openedReply !in replyNames {
      return Err(UnresolvedOpened(s.name, s.openedReply));
    }
    for i := 0 to |s.events|
      invariant forall k | 0 <= k < i :: HasEventOf(spec, s.events[k], s.name)
    {
      var event := s.events[i];
      if event !in eventNames {
        BrokenStreamRefutes(spec, s, UnresolvedEvent(s.name, event));
        return Err(UnresolvedEvent(s.name, event));
      }
      var found := FindEvent(spec.EventVariants(), event);
      assert found.Some?;
      assert found.value.belongs.Some?;
      var belongs := found.value.belongs.value;
      if belongs != s.name {
        BrokenStreamRefutes(spec, s, EventBelongsElsewhere(s.name, event, belongs));
        return Err(EventBelongsElsewhere(s.name, event, belongs));
      }
    }
    if s.close !in operationNames {
      return Err(UnresolvedClose(s.name, s.close));
    }
    var closing := FindOperation(spec.request.variants, s.close);
    assert closing.Some?;
    if s.token.text != closing.value.payload.text {
      BrokenStreamRefutes(spec, s, CloseTokenMismatch(s.name, closing.value.payload, s.token));
      return Err(CloseTokenMismatch(s.name, closing.value.payload, s.token));
    }
    return Ok(());
  }

  method ValidateStreamRelations(spec: ChannelSpec) returns (r: Result<(), ValidationError>)
    requires DistinctVariants(spec)
    ensures r.Ok? <==> StreamsRelated(spec)
    ensures r.Err? ==> !r.error.IsCollision() && !r.error.IsDuplicate() && BrokenRelationIn(spec, r.error)
  {
    if spec.streams != [] && spec.event.None? {
      return Err(StreamsWithoutEvents);
    }
    if spec.event.Some? && spec.streams == [] {
      return Err(EventsWithoutStreams);
    }
    var opens := ValidateOpens(spec);
    if opens.Err? {
      BrokenRelationRefutes(spec, opens.error);
      return opens;
    }
    var belongs := ValidateBelongs(spec);
    if belongs.Err? {
      BrokenRelationRefutes(spec, belongs.error);
      return belongs;
    }
    for i := 0 to |spec.streams|
      invariant forall k | 0 <= k < i :: StreamResolves(spec, spec.streams[k])
    {
      var stream := ValidateStream(spec, spec.streams[i]);
      if stream.Err? {
        return stream;
      }
    }
    return Ok(());
  }

  /** A diagnostic about a relation is never issued for a specification whose relations hold. */
  lemma BrokenRelationRefutes(spec: ChannelSpec, e: ValidationError)
    requires !e.IsCollision() && !e.IsDuplicate()
    requires DistinctVariants(spec) && BrokenRelationIn(spec, e)
    ensures !StreamsRelated(spec)
  {
    NamesCoverVariants(spec);
    forall s | s in spec.streams && BrokenStream(spec, s, e)
      ensures !StreamResolves(spec, s)
    {
      BrokenStreamRefutes(spec, s, e);
    }
  }

  lemma BrokenStreamRefutes(spec: ChannelSpec, s: StreamBlock, e: ValidationError)
    requires DistinctVariants(spec) && BrokenStream(spec, s, e)
    ensures !StreamResolves(spec, s)
  {
    NamesCoverVariants(spec);
    match e
    case EventBelongsElsewhere(_, name, belongs) =>
      if HasEventOf(spec, name, s.name) {
        var v :| v in spec.EventVariants() && v.name == name && v.belongs == Some(s.name);
        var w :| w in spec.EventVariants() && w.name == name && w.belongs == Some(belongs);
        FoundEventIsTheEvent(spec, v);
        FoundEventIsTheEvent(spec, w);
        assert false;
      }
    case CloseTokenMismatch(_, payload, token) =>
      if HasOperation(spec, s.close, s.token) {
        var v :| v in spec.request.variants && v.name == s.close && v.payload.text == s.token.text;
        var w :| w in spec.request.variants && w.name == s.close && w.payload.text == payload.text;
        FoundOperationIsTheOperation(spec, v);
        FoundOperationIsTheOperation(spec, w);
        assert false;
      }
    case _ =>
  }

  lemma NamesCoverVariants(spec: ChannelSpec)
    ensures forall v | v in spec.request.variants :: v.name in spec.OperationNames()
    ensures forall v | v in spec.reply.variants :: v.name in spec.ReplyNames()
    ensures forall v | v in spec.EventVariants() :: v.name in spec.EventNames()
  {
    forall i | 0 <= i < |spec.request.variants|
      ensures spec.request.variants[i].name in spec.OperationNames()
    {
      assert spec.OperationNames()[i] == spec.request.variants[i].name;
    }
    forall i | 0 <= i < |spec.reply.variants|
      ensures spec.reply.variants[i].name in spec.ReplyNames()
    {
      assert spec.ReplyNames()[i] == spec.reply.variants[i].name;
    }
    forall i | 0 <= i < |spec.EventVariants()|
      ensures spec.EventVariants()[i].name in spec.EventNames()
    {
      assert spec.EventNames()[i] == spec.EventVariants()[i].name;
    }
  }

  /** Acceptance is exactly well-formedness; a refusal is of the first failing phase and its claim is true. */
  method Validate(spec: ChannelSpec) returns (r: Result<(), ValidationError>)
    ensures r.Ok? <==> WellFormed(spec)
    ensures r.Err? ==> Diagnosed(spec, r.error)
  {
    r := ValidateObservableDoesNotCollide(spec);
    if r.Err? {
      return;
    }
    r := ValidateVariantUniqueness(spec);
    if r.Err? {
      return;
    }
    r := ValidateStreamRelations(spec);
  }
}
