/** Printing declarations, and why parsing is its inverse. */
module Printing {
  import opened Wrappers
  import opened Channel
  import opened Grammar

  function PrintType(t: RustType): Token {
    if t.NamedType? then Word(t.text) else TypeTree(t.text)
  }

  function PrintPayload(payload: RustType): Token {
    Group(Parenthesis, [PrintType(payload)])
  }

  function PrintAnnotation(keyword: string, name: Option<Ident>): Tokens {
    if name.Some? then [Word(keyword), Word(name.value)] else []
  }

  function PrintSlot(keyword: string, name: Ident): Tokens {
    [Word(keyword), Word(name), Semicolon]
  }

  function PrintAnnotatedPayload(payload: RustType, keyword: string, name: Option<Ident>): Tokens {
    [PrintPayload(payload)] + PrintAnnotation(keyword, name)
  }

  function PrintRequestVariant(v: RequestVariant): Tokens {
    [Word("operation"), Word(v.name)] + PrintAnnotatedPayload(v.payload, "opens", v.opens)
  }

  function PrintReplyVariant(v: ReplyVariant): Tokens {
    [Word(v.name)] + (if v.payload.Some? then [PrintPayload(v.payload.value)] else [])
  }

  function PrintEventVariant(v: EventVariant): Tokens {
    [Word(v.name)] + PrintAnnotatedPayload(v.payload, "belongs", v.belongs)
  }

  function PrintList<T>(show: T -> Tokens, items: seq<T>, trailing: bool): Tokens {
    if items == [] then []
    else if |items| == 1 then show(items[0]) + (if trailing then [Comma] else [])
    else show(items[0]) + ([Comma] + PrintList(show, items[1..], trailing))
  }

  function PrintEventSlots(events: seq<Ident>): Tokens {
    if events == [] then [] else PrintSlot("event", events[0]) + PrintEventSlots(events[1..])
  }

  function PrintStreamSlots(s: StreamBlock): Tokens {
    PrintSlot("opened", s.openedReply) + (PrintEventSlots(s.events) + PrintSlot("close", s.close))
  }

  function PrintStreamBody(s: StreamBlock): Tokens {
    [Word("token"), PrintType(s.token), Semicolon] + PrintStreamSlots(s)
  }

  function FilterName(filter: FilterDecl): Ident {
    match filter
    case DefaultFilter => "default"
    case NamedFilter(name) => name
  }

  function PrintObservableBody(o: ObservableBlock): Tokens {
    PrintSlot("filter", FilterName(o.filter))
    + (PrintSlot("operation_event", o.operationEvent) + PrintSlot("effect_event", o.effectEvent))
  }

  /** One top-level block, and whether its variant list is written with a comma after its last element. */
  datatype Section =
    | ReplySection(reply: ReplyBlock, comma: bool)
    | EventSection(event: EventBlock, comma: bool)
    | StreamSection(stream: StreamBlock)
    | ObservableSection(observable: ObservableBlock)

  function PrintSection(section: Section): (ts: Tokens)
    ensures ts != []
  {
    match section
    case ReplySection(b, comma) =>
      [Word("reply"), Word(b.name), Group(Brace, PrintList(PrintReplyVariant, b.variants, comma))]
    case EventSection(b, comma) =>
      [Word("event"), Word(b.name), Group(Brace, PrintList(PrintEventVariant, b.variants, comma))]
    case StreamSection(s) => [Word("stream"), Word(s.name), Group(Brace, PrintStreamBody(s))]
    case ObservableSection(o) => [Word("observable"), Group(Brace, PrintObservableBody(o))]
  }

  function PrintSections(sections: seq<Section>): Tokens {
    if sections == [] then [] else PrintSection(sections[0]) + PrintSections(sections[1..])
  }

  function PrintBody(operations: seq<RequestVariant>, comma: bool, sections: seq<Section>): Tokens {
    [Group(Brace, PrintList(PrintRequestVariant, operations, comma))] + PrintSections(sections)
  }

  /** A whole declaration, with its operations' last comma and its blocks in the order given. */
  function PrintChannel(
      name: Ident, contract: RustType, operations: seq<RequestVariant>, comma: bool, sections: seq<Section>): Tokens
  {
    [Word("channel"), Word(name), Word("contract"), PrintType(contract)] + PrintBody(operations, comma, sections)
  }

  // ---- What can be printed so that it reads back ---------------------------

  /** Streams list at least one event; a named filter is not spelled like the default one. */
  predicate PrintableStream(s: StreamBlock) {
    s.events != []
  }

  predicate PrintableObservable(o: ObservableBlock) {
    o.filter != NamedFilter("default")
  }

  predicate PrintableSection(section: Section) {
    match section
    case StreamSection(s) => PrintableStream(s)
    case ObservableSection(o) => PrintableObservable(o)
    case _ => true
  }

  ghost predicate Printable(spec: ChannelSpec) {
    && spec.request.name == "Operation"
    && (forall s | s in spec.streams :: PrintableStream(s))
    && (spec.observable.Some? ==> PrintableObservable(spec.observable.value))
  }

  // ---- Elements -----------------------------------------------------------

  ghost predicate ListBoundary(ts: Tokens) {
    ts == [] || ts[0] == Comma
  }

  ghost predicate ReadsBack<T(!new)>(read: Tokens -> Parsed<T>, show: T -> Tokens) {
    forall item, rest | ListBoundary(rest) :: read(show(item) + rest) == Ok((item, rest))
  }

  lemma PayloadReadsBack(payload: RustType, rest: Tokens)
    ensures ReadPayload([PrintPayload(payload)] + rest) == Ok((payload, rest))
  {
    assert ([PrintPayload(payload)] + rest)[1..] == rest;
  }

  lemma AnnotationReadsBack(keyword: string, name: Option<Ident>, rest: Tokens)
    requires ListBoundary(rest)
    ensures ReadAnnotation(keyword, PrintAnnotation(keyword, name) + rest) == Ok((name, rest))
  {
    if name.Some? {
      var ts := PrintAnnotation(keyword, name) + rest;
      assert ts[1..] == [Word(name.value)] + rest && ts[1..][1..] == rest;
    } else {
      assert PrintAnnotation(keyword, name) + rest == rest;
    }
  }

  lemma SlotReadsBack(keyword: string, name: Ident, rest: Tokens)
    ensures ReadSlot(keyword, PrintSlot(keyword, name) + rest) == Ok((name, rest))
    ensures Peeks(keyword, PrintSlot(keyword, name) + rest)
  {
    var ts := PrintSlot(keyword, name) + rest;
    assert ts[1..] == [Word(name), Semicolon] + rest;
    assert ts[1..][1..] == [Semicolon] + rest && ts[1..][1..][1..] == rest;
  }

  lemma AnnotatedPayloadReadsBack(payload: RustType, keyword: string, name: Option<Ident>, rest: Tokens)
    requires ListBoundary(rest)
    ensures ReadAnnotatedPayload(keyword, PrintAnnotatedPayload(payload, keyword, name) + rest)
         == Ok(((payload, name), rest))
  {
    var tail := PrintAnnotation(keyword, name) + rest;
    assert PrintAnnotatedPayload(payload, keyword, name) + rest == [PrintPayload(payload)] + tail;
    PayloadReadsBack(payload, tail);
    AnnotationReadsBack(keyword, name, rest);
  }

  lemma RequestVariantReadsBack()
    ensures ReadsBack(ReadRequestVariant, PrintRequestVariant)
  {
    forall v, rest: Tokens | ListBoundary(rest)
      ensures ReadRequestVariant(PrintRequestVariant(v) + rest) == Ok((v, rest))
    {
      var tail := PrintAnnotatedPayload(v.payload, "opens", v.opens) + rest;
      var ts := PrintRequestVariant(v) + rest;
      assert ts[1..] == [Word(v.name)] + tail && ts[1..][1..] == tail;
      AnnotatedPayloadReadsBack(v.payload, "opens", v.opens, rest);
    }
  }

  lemma ReplyVariantReadsBack()
    ensures ReadsBack(ReadReplyVariant, PrintReplyVariant)
  {
    forall v, rest: Tokens | ListBoundary(rest)
      ensures ReadReplyVariant(PrintReplyVariant(v) + rest) == Ok((v, rest))
    {
      var ts := PrintReplyVariant(v) + rest;
      if v.payload.Some? {
        assert ts[1..] == [PrintPayload(v.payload.value)] + rest;
        PayloadReadsBack(v.payload.value, rest);
      } else {
        assert ts[1..] == rest;
      }
    }
  }

  lemma EventVariantReadsBack()
    ensures ReadsBack(ReadEventVariant, PrintEventVariant)
  {
    forall v, rest: Tokens | ListBoundary(rest)
      ensures ReadEventVariant(PrintEventVariant(v) + rest) == Ok((v, rest))
    {
      var tail := PrintAnnotatedPayload(v.payload, "belongs", v.belongs) + rest;
      assert (PrintEventVariant(v) + rest)[1..] == tail;
      AnnotatedPayloadReadsBack(v.payload, "belongs", v.belongs, rest);
    }
  }

  /** Any variant list reads back from its print, with or without a comma after its last element. */
  lemma {:induction false} ListReadsBack<T(!new)>(
      read: Tokens -> Parsed<T>, show: T -> Tokens, items: seq<T>, trailing: bool)
    requires Consumes(read) && ReadsBack(read, show)
    ensures ReadList(read, PrintList(show, items, trailing)) == Ok(items)
  {
    if |items| == 1 {
      var end := if trailing then [Comma] else [];
      assert read(show(items[0]) + end) == Ok((items[0], end));
      PrintNotEmpty(read, show, items[0], end);
      assert PrintList(show, items, trailing) == show(items[0]) + end;
      if trailing {
        assert end[1..] == [] && ReadList(read, end[1..]) == Ok([]);
      }
      assert items == [items[0]] == [items[0]] + [];
    } else if |items| > 1 {
      var next := PrintList(show, items[1..], trailing);
      var end := [Comma] + next;
      assert read(show(items[0]) + end) == Ok((items[0], end));
      PrintNotEmpty(read, show, items[0], end);
      assert end[1..] == next;
      ListReadsBack(read, show, items[1..], trailing);
      assert items == [items[0]] + items[1..];
    }
  }

  lemma PrintNotEmpty<T(!new)>(read: Tokens -> Parsed<T>, show: T -> Tokens, item: T, rest: Tokens)
    requires Consumes(read) && ReadsBack(read, show) && ListBoundary(rest)
    ensures show(item) + rest != []
  {
    assert read(show(item) + rest) == Ok((item, rest));
  }

  lemma EventSlotsUnfold(events: seq<Ident>, rest: Tokens)
    requires events != []
    ensures PrintEventSlots(events) + rest == PrintSlot("event", events[0]) + (PrintEventSlots(events[1..]) + rest)
  {
  }

  lemma {:induction false} EventSlotsReadBack(events: seq<Ident>, rest: Tokens)
    requires !Peeks("event", rest)
    ensures ReadEventSlots(PrintEventSlots(events) + rest) == Ok((events, rest))
  {
    if events == [] {
      assert PrintEventSlots(events) + rest == rest;
    } else {
      EventSlotsUnfold(events, rest);
      SlotReadsBack("event", events[0], PrintEventSlots(events[1..]) + rest);
      EventSlotsReadBack(events[1..], rest);
      assert events == [events[0]] + events[1..];
    }
  }

  lemma StreamSlotsReadBack(s: StreamBlock)
    requires PrintableStream(s)
    ensures ReadStreamSlots(s.name, s.token, PrintStreamSlots(s)) == Ok(s)
  {
    var closing := PrintSlot("close", s.close);
    SlotReadsBack("opened", s.openedReply, PrintEventSlots(s.events) + closing);
    EventSlotsReadBack(s.events, closing);
    SlotReadsBack("close", s.close, []);
    assert closing + [] == closing;
  }

  lemma StreamBodyReadsBack(s: StreamBlock)
    requires PrintableStream(s)
    ensures ReadStreamBody(s.name, PrintStreamBody(s)) == Ok(s)
  {
    var slots, ts := PrintStreamSlots(s), PrintStreamBody(s);
    assert ts[1..] == [PrintType(s.token), Semicolon] + slots;
    assert ts[1..][1..] == [Semicolon] + slots && ts[1..][1..][1..] == slots;
    StreamSlotsReadBack(s);
  }

  lemma ObservableBodyReadsBack(o: ObservableBlock)
    requires PrintableObservable(o)
    ensures ReadObservableBody(PrintObservableBody(o)) == Ok(o)
  {
    var effect := PrintSlot("effect_event", o.effectEvent);
    var operation := PrintSlot("operation_event", o.operationEvent) + effect;
    SlotReadsBack("filter", FilterName(o.filter), operation);
    SlotReadsBack("operation_event", o.operationEvent, effect);
    SlotReadsBack("effect_event", o.effectEvent, []);
    assert effect + [] == effect;
  }

  // ---- Blocks in any order ------------------------------------------------

  /** What one more block does to the blocks already read. */
  function AddSection(section: Section, blocks: Blocks): Result<Blocks, ParseError> {
    match section
    case ReplySection(b, _) =>
      if blocks.reply.Some? then Err(DuplicateBlock("reply")) else Ok(blocks.(reply := Some(b)))
    case EventSection(b, _) =>
      if blocks.event.Some? then Err(DuplicateBlock("event")) else Ok(blocks.(event := Some(b)))
    case StreamSection(s) => Ok(blocks.(streams := blocks.streams + [s]))
    case ObservableSection(o) =>
      if blocks.observable.Some? then Err(DuplicateBlock("observable")) else Ok(blocks.(observable := Some(o)))
  }

  function AddSections(sections: seq<Section>, blocks: Blocks): Result<Blocks, ParseError> {
    if sections == [] then Ok(blocks)
    else
      var more :- AddSection(sections[0], blocks);
      AddSections(sections[1..], more)
  }

  lemma NamedGroupReadsBack(keyword: string, name: Ident, body: Tokens, rest: Tokens)
    ensures
      var ts := [Word(keyword), Word(name), Group(Brace, body)] + rest;
      && ReadKeyword(keyword, ts) == Ok(((), ts[1..]))
      && ReadIdent(ts[1..]) == Ok((name, ts[2..]))
      && ReadGroup(Brace, ts[2..]) == Ok((body, rest))
  {
    var ts := [Word(keyword), Word(name), Group(Brace, body)] + rest;
    assert ts[1..][1..] == ts[2..] && ts[2..][1..] == rest;
  }

  lemma ReplyBlockReadsBack(b: ReplyBlock, comma: bool, rest: Tokens)
    ensures ReadReplyBlock(PrintSection(ReplySection(b, comma)) + rest) == Ok((b, rest))
  {
    ReplyVariantReadsBack();
    ListReadsBack(ReadReplyVariant, PrintReplyVariant, b.variants, comma);
    NamedGroupReadsBack("reply", b.name, PrintList(PrintReplyVariant, b.variants, comma), rest);
  }

  lemma EventBlockReadsBack(b: EventBlock, comma: bool, rest: Tokens)
    ensures ReadEventBlock(PrintSection(EventSection(b, comma)) + rest) == Ok((b, rest))
  {
    EventVariantReadsBack();
    ListReadsBack(ReadEventVariant, PrintEventVariant, b.variants, comma);
    NamedGroupReadsBack("event", b.name, PrintList(PrintEventVariant, b.variants, comma), rest);
  }

  lemma StreamBlockReadsBack(s: StreamBlock, rest: Tokens)
    requires PrintableStream(s)
    ensures ReadStreamBlock(PrintSection(StreamSection(s)) + rest) == Ok((s, rest))
  {
    StreamBodyReadsBack(s);
    NamedGroupReadsBack("stream", s.name, PrintStreamBody(s), rest);
  }

  lemma ObservableBlockReadsBack(o: ObservableBlock, rest: Tokens)
    requires PrintableObservable(o)
    ensures ReadObservableBlock(PrintSection(ObservableSection(o)) + rest) == Ok((o, rest))
  {
    ObservableBodyReadsBack(o);
    ObservableGroup([Word("observable"), Group(Brace, PrintObservableBody(o))] + rest, PrintObservableBody(o), rest);
  }

  /** An observable block is its keyword and a braced body, whatever the body reads as. */
  lemma ObservableGroup(ts: Tokens, body: Tokens, rest: Tokens)
    requires ts == [Word("observable"), Group(Brace, body)] + rest
    ensures ReadObservableBlock(ts)
         == if ReadObservableBody(body).Ok? then Ok((ReadObservableBody(body).value, rest))
            else Err(ReadObservableBody(body).error)
  {
    assert ts[1..] == [Group(Brace, body)] + rest && ts[1..][1..] == rest;
  }

  lemma SectionReadsBack(section: Section, rest: Tokens, blocks: Blocks)
    requires PrintableSection(section)
    ensures ReadBlocks(PrintSection(section) + rest, blocks)
         == if AddSection(section, blocks).Ok? then ReadBlocks(rest, AddSection(section, blocks).value)
            else Err(AddSection(section, blocks).error)
  {
    match section
    case ReplySection(b, comma) => ReplyBlockReadsBack(b, comma, rest);
    case EventSection(b, comma) => EventBlockReadsBack(b, comma, rest);
    case StreamSection(s) => StreamBlockReadsBack(s, rest);
    case ObservableSection(o) => ObservableBlockReadsBack(o, rest);
    BlockAtFront(section, rest);
  }

  /** A printed block is recognised by its own keyword alone. */
  lemma BlockAtFront(section: Section, rest: Tokens)
    ensures Peeks("reply", PrintSection(section) + rest) <==> section.ReplySection?
    ensures Peeks("event", PrintSection(section) + rest) <==> section.EventSection?
    ensures Peeks("stream", PrintSection(section) + rest) <==> section.StreamSection?
    ensures Peeks("observable", PrintSection(section) + rest) <==> section.ObservableSection?
  {
    assert (PrintSection(section) + rest)[0] == PrintSection(section)[0];
  }

  lemma {:induction false} SectionsReadBack(sections: seq<Section>, blocks: Blocks)
    requires forall i | 0 <= i < |sections| :: PrintableSection(sections[i])
    ensures ReadBlocks(PrintSections(sections), blocks) == AddSections(sections, blocks)
  {
    if sections != [] {
      SectionReadsBack(sections[0], PrintSections(sections[1..]), blocks);
      var more := AddSection(sections[0], blocks);
      if more.Ok? {
        SectionsReadBack(sections[1..], more.value);
      }
    }
  }

  function AsSeq<T>(o: Option<T>): seq<T> {
    if o.Some? then [o.value] else []
  }

  /** The blocks of one kind, in order. */
  function Select<T>(pick: Section -> Option<T>, sections: seq<Section>): seq<T> {
    if sections == [] then [] else AsSeq(pick(sections[0])) + Select(pick, sections[1..])
  }

  function PickReply(section: Section): Option<ReplyBlock> {
    if section.ReplySection? then Some(section.reply) else None
  }

  function PickEvent(section: Section): Option<EventBlock> {
    if section.EventSection? then Some(section.event) else None
  }

  function PickStream(section: Section): Option<StreamBlock> {
    if section.StreamSection? then Some(section.stream) else None
  }

  function PickObservable(section: Section): Option<ObservableBlock> {
    if section.ObservableSection? then Some(section.observable) else None
  }

  /** Reading blocks succeeds when no kind but `stream` occurs twice, and then keeps each kind's blocks in order. */
  lemma {:induction false} AddSectionsOutcome(sections: seq<Section>, blocks: Blocks)
    ensures AddSections(sections, blocks).Ok? <==>
      && |AsSeq(blocks.reply) + Select(PickReply, sections)| <= 1
      && |AsSeq(blocks.event) + Select(PickEvent, sections)| <= 1
      && |AsSeq(blocks.observable) + Select(PickObservable, sections)| <= 1
    ensures AddSections(sections, blocks).Ok? ==>
      var r := AddSections(sections, blocks).value;
      && AsSeq(r.reply) == AsSeq(blocks.reply) + Select(PickReply, sections)
      && AsSeq(r.event) == AsSeq(blocks.event) + Select(PickEvent, sections)
      && AsSeq(r.observable) == AsSeq(blocks.observable) + Select(PickObservable, sections)
      && r.streams == blocks.streams + Select(PickStream, sections)
  {
    if sections != [] {
      var first, rest, more := sections[0], sections[1..], AddSection(sections[0], blocks);
      SelectFirst(PickReply, sections, AsSeq(blocks.reply));
      SelectFirst(PickEvent, sections, AsSeq(blocks.event));
      SelectFirst(PickObservable, sections, AsSeq(blocks.observable));
      SelectFirst(PickStream, sections, blocks.streams);
      if more.Ok? {
        AddSectionsOutcome(rest, more.value);
        assert AsSeq(more.value.reply) == AsSeq(blocks.reply) + AsSeq(PickReply(first));
        assert AsSeq(more.value.event) == AsSeq(blocks.event) + AsSeq(PickEvent(first));
        assert AsSeq(more.value.observable) == AsSeq(blocks.observable) + AsSeq(PickObservable(first));
        assert more.value.streams == blocks.streams + AsSeq(PickStream(first));
      }
    }
  }

  lemma SelectFirst<T>(pick: Section -> Option<T>, sections: seq<Section>, before: seq<T>)
    requires sections != []
    ensures before + Select(pick, sections) == (before + AsSeq(pick(sections[0]))) + Select(pick, sections[1..])
  {
  }

  // ---- Whole declarations -------------------------------------------------

  /** What the blocks of a declaration amount to. */
  function Assembled(
      name: Ident, contract: RustType, operations: seq<RequestVariant>, sections: seq<Section>)
    : Result<ChannelSpec, ParseError>
  {
    var blocks :- AddSections(sections, NO_BLOCKS);
    if blocks.reply.None? then Err(MissingReply)
    else Ok(ChannelSpec(
      name, contract, RequestBlock("Operation", operations), blocks.reply.value, blocks.event, blocks.streams,
      blocks.observable))
  }

  ghost predicate PrintableSections(sections: seq<Section>) {
    forall i | 0 <= i < |sections| :: PrintableSection(sections[i])
  }

  /** Reading a printed declaration is assembling its blocks. */
  lemma ChannelReadsBack(
      name: Ident, contract: RustType, operations: seq<RequestVariant>, comma: bool, sections: seq<Section>)
    requires PrintableSections(sections)
    ensures ReadChannel(PrintChannel(name, contract, operations, comma, sections))
         == Assembled(name, contract, operations, sections)
  {
    HeaderReadsBack(name, contract, PrintBody(operations, comma, sections));
    OperationsReadBack(operations, comma, PrintSections(sections));
    SectionsReadBack(sections, NO_BLOCKS);
  }

  lemma OperationsReadBack(operations: seq<RequestVariant>, comma: bool, rest: Tokens)
    ensures
      var printed := PrintList(PrintRequestVariant, operations, comma);
      && ReadGroup(Brace, [Group(Brace, printed)] + rest) == Ok((printed, rest))
      && ReadList(ReadRequestVariant, printed) == Ok(operations)
  {
    RequestVariantReadsBack();
    ListReadsBack(ReadRequestVariant, PrintRequestVariant, operations, comma);
    assert ([Group(Brace, PrintList(PrintRequestVariant, operations, comma))] + rest)[1..] == rest;
  }

  lemma HeaderReadsBack(name: Ident, contract: RustType, rest: Tokens)
    ensures
      var ts := [Word("channel"), Word(name), Word("contract"), PrintType(contract)] + rest;
      ReadChannel(ts) == ReadChannelBody(name, contract, rest)
  {
    var ts := [Word("channel"), Word(name), Word("contract"), PrintType(contract)] + rest;
    assert ts[1..][1..] == ts[2..] && ts[2..][1..] == ts[3..] && ts[3..][1..] == rest;
  }

  // ---- The parser accepts nothing else ------------------------------------

  /** Whatever is read was written as the value read, in front of what is left. */
  ghost predicate ReadsOnly<T>(read: Tokens -> Parsed<T>, show: T -> Tokens) {
    forall ts :: read(ts).Ok? ==> ts == show(read(ts).value.0) + read(ts).value.1
  }

  lemma PayloadSpelled(ts: Tokens)
    ensures ReadPayload(ts).Ok? ==> ts == [PrintPayload(ReadPayload(ts).value.0)] + ReadPayload(ts).value.1
  {
    if ReadPayload(ts).Ok? {
      assert ts[0].tokens == [PrintType(ReadPayload(ts).value.0)];
    }
  }

  lemma AnnotationSpelled(keyword: string, ts: Tokens)
    ensures ReadAnnotation(keyword, ts).Ok? ==>
      ts == PrintAnnotation(keyword, ReadAnnotation(keyword, ts).value.0) + ReadAnnotation(keyword, ts).value.1
  {
  }

  lemma SlotSpelled(keyword: string, ts: Tokens)
    ensures ReadSlot(keyword, ts).Ok? ==>
      ts == PrintSlot(keyword, ReadSlot(keyword, ts).value.0) + ReadSlot(keyword, ts).value.1
  {
  }

  lemma AnnotatedPayloadSpelled(keyword: string, ts: Tokens)
    requires ReadAnnotatedPayload(keyword, ts).Ok?
    ensures
      var ((payload, name), rest) := ReadAnnotatedPayload(keyword, ts).value;
      ts == PrintAnnotatedPayload(payload, keyword, name) + rest
  {
    PayloadSpelled(ts);
    AnnotationSpelled(keyword, ReadPayload(ts).value.1);
  }

  lemma RequestVariantSpelled()
    ensures ReadsOnly(ReadRequestVariant, PrintRequestVariant)
  {
    forall ts | ReadRequestVariant(ts).Ok?
      ensures ts == PrintRequestVariant(ReadRequestVariant(ts).value.0) + ReadRequestVariant(ts).value.1
    {
      assert ts[1..][1..] == ts[2..] && ts == [ts[0], ts[1]] + ts[2..];
      AnnotatedPayloadSpelled("opens", ts[2..]);
    }
  }

  lemma ReplyVariantSpelled()
    ensures ReadsOnly(ReadReplyVariant, PrintReplyVariant)
  {
    forall ts | ReadReplyVariant(ts).Ok?
      ensures ts == PrintReplyVariant(ReadReplyVariant(ts).value.0) + ReadReplyVariant(ts).value.1
    {
      PayloadSpelled(ts[1..]);
    }
  }

  lemma EventVariantSpelled()
    ensures ReadsOnly(ReadEventVariant, PrintEventVariant)
  {
    forall ts | ReadEventVariant(ts).Ok?
      ensures ts == PrintEventVariant(ReadEventVariant(ts).value.0) + ReadEventVariant(ts).value.1
    {
      assert ts == [ts[0]] + ts[1..];
      AnnotatedPayloadSpelled("belongs", ts[1..]);
    }
  }

  lemma {:induction false} ListSpelled<T>(read: Tokens -> Parsed<T>, show: T -> Tokens, ts: Tokens)
    returns (comma: bool)
    requires Consumes(read) && ReadsOnly(read, show)
    requires ReadList(read, ts).Ok?
    ensures ts == PrintList(show, ReadList(read, ts).value, comma)
    decreases |ts|
  {
    comma := false;
    if ts != [] {
      var (first, after) := read(ts).value;
      assert ts == show(first) + after;
      if after == [] {
        assert show(first) + [] == show(first);
      } else {
        var rest := after[1..];
        assert after == [Comma] + rest;
        comma := ListSpelled(read, show, rest);
        var others := ReadList(read, rest).value;
        if others == [] {
          comma := true;
          assert rest == [] && [first] + others == [first];
        } else {
          assert ([first] + others)[1..] == others;
        }
      }
    }
  }

  lemma {:induction false} EventSlotsSpelled(ts: Tokens)
    ensures ReadEventSlots(ts).Ok? ==>
      ts == PrintEventSlots(ReadEventSlots(ts).value.0) + ReadEventSlots(ts).value.1
    decreases |ts|
  {
    if Peeks("event", ts) && ReadEventSlots(ts).Ok? {
      SlotSpelled("event", ts);
      var (first, rest) := ReadSlot("event", ts).value;
      EventSlotsSpelled(rest);
      var (others, after) := ReadEventSlots(rest).value;
      assert ([first] + others)[1..] == others;
      assert PrintSlot("event", first) + (PrintEventSlots(others) + after)
          == (PrintSlot("event", first) + PrintEventSlots(others)) + after;
    }
  }

  lemma StreamSlotsSpelled(name: Ident, token: RustType, ts: Tokens)
    ensures
      var r := ReadStreamSlots(name, token, ts);
      r.Ok? ==> ts == PrintStreamSlots(r.value) && r.value.name == name && r.value.token == token
  {
    var r := ReadStreamSlots(name, token, ts);
    if r.Ok? {
      SlotSpelled("opened", ts);
      var afterOpened := ReadSlot("opened", ts).value.1;
      EventSlotsSpelled(afterOpened);
      var afterEvents := ReadEventSlots(afterOpened).value.1;
      SlotSpelled("close", afterEvents);
      assert PrintSlot("close", r.value.close) + [] == PrintSlot("close", r.value.close);
    }
  }

  lemma StreamBodySpelled(name: Ident, ts: Tokens)
    ensures
      var r := ReadStreamBody(name, ts);
      r.Ok? ==> ts == PrintStreamBody(r.value) && r.value.name == name
  {
    var r := ReadStreamBody(name, ts);
    if r.Ok? {
      assert ts[1..][1..] == ts[2..] && ts[2..][1..] == ts[3..];
      StreamSlotsSpelled(name, r.value.token, ts[3..]);
      assert ts == [Word("token"), PrintType(r.value.token), Semicolon] + ts[3..];
    }
  }

  lemma ObservableBodySpelled(ts: Tokens)
    ensures ReadObservableBody(ts).Ok? ==> ts == PrintObservableBody(ReadObservableBody(ts).value)
  {
    var r := ReadObservableBody(ts);
    if r.Ok? {
      SlotSpelled("filter", ts);
      var afterFilter := ReadSlot("filter", ts).value.1;
      SlotSpelled("operation_event", afterFilter);
      var afterOperation := ReadSlot("operation_event", afterFilter).value.1;
      SlotSpelled("effect_event", afterOperation);
      assert PrintSlot("effect_event", r.value.effectEvent) + [] == PrintSlot("effect_event", r.value.effectEvent);
    }
  }

  /** The tokens of a block that was read: its keyword, its name, its braces and what follows. */
  lemma NamedGroupSpelled(keyword: string, ts: Tokens)
    requires Peeks(keyword, ts) && ReadIdent(ts[1..]).Ok? && ReadGroup(Brace, ts[2..]).Ok?
    ensures
      var (body, rest) := ReadGroup(Brace, ts[2..]).value;
      ts == [Word(keyword), Word(ReadIdent(ts[1..]).value.0), Group(Brace, body)] + rest
  {
  }

  lemma ReplyBlockSpelled(ts: Tokens) returns (comma: bool)
    requires ReadReplyBlock(ts).Ok?
    ensures ts == PrintSection(ReplySection(ReadReplyBlock(ts).value.0, comma)) + ReadReplyBlock(ts).value.1
  {
    assert ts[1..][1..] == ts[2..];
    NamedGroupSpelled("reply", ts);
    ReplyVariantSpelled();
    comma := ListSpelled(ReadReplyVariant, PrintReplyVariant, ts[2].tokens);
  }

  lemma EventBlockSpelled(ts: Tokens) returns (comma: bool)
    requires ReadEventBlock(ts).Ok?
    ensures ts == PrintSection(EventSection(ReadEventBlock(ts).value.0, comma)) + ReadEventBlock(ts).value.1
  {
    assert ts[1..][1..] == ts[2..];
    NamedGroupSpelled("event", ts);
    EventVariantSpelled();
    comma := ListSpelled(ReadEventVariant, PrintEventVariant, ts[2].tokens);
  }

  lemma StreamBlockSpelled(ts: Tokens)
    requires ReadStreamBlock(ts).Ok?
    ensures ts == PrintSection(StreamSection(ReadStreamBlock(ts).value.0)) + ReadStreamBlock(ts).value.1
    ensures PrintableStream(ReadStreamBlock(ts).value.0)
  {
    assert ts[1..][1..] == ts[2..];
    NamedGroupSpelled("stream", ts);
    StreamBodySpelled(ReadIdent(ts[1..]).value.0, ts[2].tokens);
  }

  lemma ObservableBlockSpelled(ts: Tokens)
    requires ReadObservableBlock(ts).Ok?
    ensures ts == PrintSection(ObservableSection(ReadObservableBlock(ts).value.0)) + ReadObservableBlock(ts).value.1
    ensures PrintableObservable(ReadObservableBlock(ts).value.0)
  {
    assert ts[0] == Word("observable") && PeeksGroup(Brace, ts[1..]);
    var body, rest := ts[1].tokens, ts[2..];
    assert ts == [Word("observable"), Group(Brace, body)] + rest;
    ObservableGroup(ts, body, rest);
    ObservableBodySpelled(body);
  }

  lemma BlockSpelled(ts: Tokens, blocks: Blocks) returns (section: Section, rest: Tokens)
    requires ts != [] && ReadBlocks(ts, blocks).Ok?
    ensures ts == PrintSection(section) + rest && PrintableSection(section)
    ensures AddSection(section, blocks).Ok? && ReadBlocks(ts, blocks) == ReadBlocks(rest, AddSection(section, blocks).value)
  {
    if Peeks("reply", ts) {
      var comma := ReplyBlockSpelled(ts);
      section, rest := ReplySection(ReadReplyBlock(ts).value.0, comma), ReadReplyBlock(ts).value.1;
    } else if Peeks("event", ts) {
      var comma := EventBlockSpelled(ts);
      section, rest := EventSection(ReadEventBlock(ts).value.0, comma), ReadEventBlock(ts).value.1;
    } else if Peeks("stream", ts) {
      StreamBlockSpelled(ts);
      section, rest := StreamSection(ReadStreamBlock(ts).value.0), ReadStreamBlock(ts).value.1;
    } else {
      ObservableBlockSpelled(ts);
      section, rest := ObservableSection(ReadObservableBlock(ts).value.0), ReadObservableBlock(ts).value.1;
    }
  }

  lemma {:induction false} BlocksSpelled(ts: Tokens, blocks: Blocks) returns (sections: seq<Section>)
    requires ReadBlocks(ts, blocks).Ok?
    ensures ts == PrintSections(sections) && PrintableSections(sections)
    ensures AddSections(sections, blocks) == ReadBlocks(ts, blocks)
    decreases |ts|
  {
    if ts == [] {
      sections := [];
    } else {
      var section, rest := BlockSpelled(ts, blocks);
      var others := BlocksSpelled(rest, AddSection(section, blocks).value);
      sections := [section] + others;
      assert sections[1..] == others;
    }
  }

  lemma HeaderSpelled(ts: Tokens)
    requires ReadChannel(ts).Ok?
    ensures |ts| > 4
    ensures
      var spec := ReadChannel(ts).value;
      && ts == [Word("channel"), Word(spec.name), Word("contract"), PrintType(spec.contract)] + ts[4..]
      && ReadChannel(ts) == ReadChannelBody(spec.name, spec.contract, ts[4..])
  {
    assert ts[1..][1..] == ts[2..] && ts[2..][1..] == ts[3..] && ts[3..][1..] == ts[4..];
  }

  lemma BodySpelled(name: Ident, contract: RustType, ts: Tokens) returns (comma: bool, sections: seq<Section>)
    requires ReadChannelBody(name, contract, ts).Ok?
    ensures PrintableSections(sections)
    ensures
      var spec := ReadChannelBody(name, contract, ts).value;
      && ts == PrintBody(spec.request.variants, comma, sections)
      && Assembled(name, contract, spec.request.variants, sections) == Ok(spec)
  {
    RequestVariantSpelled();
    var body, rest := ts[0].tokens, ts[1..];
    comma := ListSpelled(ReadRequestVariant, PrintRequestVariant, body);
    sections := BlocksSpelled(rest, NO_BLOCKS);
    assert ts == [Group(Brace, body)] + rest;
  }

  lemma ChannelSpelled(ts: Tokens) returns (comma: bool, sections: seq<Section>)
    requires ReadChannel(ts).Ok?
    ensures PrintableSections(sections)
    ensures
      var spec := ReadChannel(ts).value;
      && ts == PrintChannel(spec.name, spec.contract, spec.request.variants, comma, sections)
      && Assembled(spec.name, spec.contract, spec.request.variants, sections) == Ok(spec)
  {
    var spec := ReadChannel(ts).value;
    HeaderSpelled(ts);
    comma, sections := BodySpelled(spec.name, spec.contract, ts[4..]);
  }

  /**
   * The parser accepts exactly the declarations that can be written: the header, the operations with or without a last
   * comma, then blocks in some order that assemble to the specification read.
   */
  lemma ParserAcceptsExactly(ts: Tokens, spec: ChannelSpec)
    ensures ReadChannel(ts) == Ok(spec) <==>
      exists comma, sections ::
        && PrintableSections(sections)
        && Assembled(spec.name, spec.contract, spec.request.variants, sections) == Ok(spec)
        && ts == PrintChannel(spec.name, spec.contract, spec.request.variants, comma, sections)
  {
    if ReadChannel(ts) == Ok(spec) {
      var comma, sections := ChannelSpelled(ts);
    }
    forall comma, sections |
      && PrintableSections(sections)
      && Assembled(spec.name, spec.contract, spec.request.variants, sections) == Ok(spec)
      && ts == PrintChannel(spec.name, spec.contract, spec.request.variants, comma, sections)
      ensures ReadChannel(ts) == Ok(spec)
    {
      ChannelReadsBack(spec.name, spec.contract, spec.request.variants, comma, sections);
    }
  }

  // ---- One canonical print ------------------------------------------------

  /** Which variant lists are written with a comma after their last element. */
  datatype Style = Style(operations: bool, replies: bool, events: bool)

  function StreamSections(streams: seq<StreamBlock>): seq<Section> {
    seq(|streams|, i requires 0 <= i < |streams| => StreamSection(streams[i]))
  }

  /** The blocks of a specification in the order the documentation writes them. */
  function SectionsOf(style: Style, spec: ChannelSpec): seq<Section> {
    var observable := if spec.observable.Some? then [ObservableSection(spec.observable.value)] else [];
    var event := if spec.event.Some? then [EventSection(spec.event.value, style.events)] else [];
    [ReplySection(spec.reply, style.replies)] + (event + (StreamSections(spec.streams) + observable))
  }

  function Print(style: Style, spec: ChannelSpec): Tokens {
    PrintChannel(spec.name, spec.contract, spec.request.variants, style.operations, SectionsOf(style, spec))
  }

  lemma SectionsOfPrintable(style: Style, spec: ChannelSpec)
    requires Printable(spec)
    ensures PrintableSections(SectionsOf(style, spec))
  {
    forall i | 0 <= i < |SectionsOf(style, spec)|
      ensures PrintableSection(SectionsOf(style, spec)[i])
    {
      var section := SectionsOf(style, spec)[i];
      assert section.StreamSection? ==> section.stream in spec.streams;
    }
  }

  lemma {:induction false} AddSectionsAppend(a: seq<Section>, b: seq<Section>, blocks: Blocks)
    ensures AddSections(a + b, blocks)
         == if AddSections(a, blocks).Ok? then AddSections(b, AddSections(a, blocks).value) else AddSections(a, blocks)
  {
    if a == [] {
      assert a + b == b;
    } else {
      assert (a + b)[1..] == a[1..] + b;
      var more := AddSection(a[0], blocks);
      if more.Ok? {
        AddSectionsAppend(a[1..], b, more.value);
      }
    }
  }

  lemma {:induction false} AddStreamSections(streams: seq<StreamBlock>, blocks: Blocks)
    ensures AddSections(StreamSections(streams), blocks) == Ok(blocks.(streams := blocks.streams + streams))
  {
    if streams == [] {
      assert blocks.streams + streams == blocks.streams;
    } else {
      assert StreamSections(streams)[1..] == StreamSections(streams[1..]);
      AddStreamSections(streams[1..], blocks.(streams := blocks.streams + [streams[0]]));
      assert (blocks.streams + [streams[0]]) + streams[1..] == blocks.streams + streams;
    }
  }

  lemma AddOneSection(section: Section, blocks: Blocks)
    ensures AddSections([section], blocks) == AddSection(section, blocks)
  {
    assert [section][1..] == [];
  }

  lemma SectionsOfAddUp(style: Style, spec: ChannelSpec)
    ensures AddSections(SectionsOf(style, spec), NO_BLOCKS)
         == Ok(Blocks(Some(spec.reply), spec.event, spec.streams, spec.observable))
  {
    var observable := if spec.observable.Some? then [ObservableSection(spec.observable.value)] else [];
    var event := if spec.event.Some? then [EventSection(spec.event.value, style.events)] else [];
    var withReply := NO_BLOCKS.(reply := Some(spec.reply));
    var withEvent := withReply.(event := spec.event);
    AddOneSection(ReplySection(spec.reply, style.replies), NO_BLOCKS);
    AddSectionsAppend([ReplySection(spec.reply, style.replies)], event + (StreamSections(spec.streams) + observable), NO_BLOCKS);
    if spec.event.Some? {
      AddOneSection(event[0], withReply);
    }
    AddSectionsAppend(event, StreamSections(spec.streams) + observable, withReply);
    AddStreamSections(spec.streams, withEvent);
    AddSectionsAppend(StreamSections(spec.streams), observable, withEvent);
    assert [] + spec.streams == spec.streams;
    if spec.observable.Some? {
      AddOneSection(observable[0], withEvent.(streams := spec.streams));
    }
  }

  /** Every printable specification reads back from its print, in every comma style. */
  lemma ParseInvertsPrint(style: Style, spec: ChannelSpec)
    requires Printable(spec)
    ensures ReadChannel(Print(style, spec)) == Ok(spec)
  {
    SectionsOfPrintable(style, spec);
    SectionsOfAddUp(style, spec);
    ChannelReadsBack(spec.name, spec.contract, spec.request.variants, style.operations, SectionsOf(style, spec));
  }

  lemma {:induction false} AddSectionsPrintable(sections: seq<Section>, blocks: Blocks)
    requires PrintableSections(sections) && PrintableBlocks(blocks)
    ensures AddSections(sections, blocks).Ok? ==> PrintableBlocks(AddSections(sections, blocks).value)
  {
    if sections != [] && AddSection(sections[0], blocks).Ok? {
      assert PrintableSection(sections[0]);
      AddSectionsPrintable(sections[1..], AddSection(sections[0], blocks).value);
    }
  }

  ghost predicate PrintableBlocks(blocks: Blocks) {
    && (forall s | s in blocks.streams :: PrintableStream(s))
    && (blocks.observable.Some? ==> PrintableObservable(blocks.observable.value))
  }

  /** The printable specifications are exactly the ones the parser can produce. */
  lemma ParserImage(spec: ChannelSpec)
    ensures Printable(spec) <==> exists ts :: ReadChannel(ts) == Ok(spec)
  {
    if Printable(spec) {
      ParseInvertsPrint(Style(false, false, false), spec);
    }
    forall ts | ReadChannel(ts) == Ok(spec)
      ensures Printable(spec)
    {
      var comma, sections := ChannelSpelled(ts);
      AddSectionsPrintable(sections, NO_BLOCKS);
    }
  }

  // ---- Refused declarations -----------------------------------------------

  function BlockKeyword(section: Section): string {
    match section
    case ReplySection(_, _) => "reply"
    case EventSection(_, _) => "event"
    case StreamSection(_) => "stream"
    case ObservableSection(_) => "observable"
  }

  /** The block at `k` is the first that may not be repeated and is: what precedes it has one of its kind already. */
  ghost predicate FirstRepeatedAt(sections: seq<Section>, k: nat) {
    && k < |sections| && Repeats(sections, k)
    && forall j | 0 <= j < k :: !Repeats(sections, j)
  }

  ghost predicate Repeats(sections: seq<Section>, k: nat)
    requires k < |sections|
  {
    !sections[k].StreamSection? && exists i :: 0 <= i < k && BlockKeyword(sections[i]) == BlockKeyword(sections[k])
  }

  /** Which kinds of block have been read. */
  ghost predicate Holds(blocks: Blocks, keyword: string) {
    || (keyword == "reply" && blocks.reply.Some?)
    || (keyword == "event" && blocks.event.Some?)
    || (keyword == "observable" && blocks.observable.Some?)
  }

  lemma NewKindReads(section: Section, blocks: Blocks)
    requires !Holds(blocks, BlockKeyword(section))
    ensures AddSection(section, blocks).Ok?
    ensures
      var more := AddSection(section, blocks).value;
      forall keyword :: Holds(more, keyword) <==>
        Holds(blocks, keyword) || (!section.StreamSection? && keyword == BlockKeyword(section))
  {
  }

  /** Reading up to `k` goes well as long as nothing repeats, and what has been read is what was there. */
  lemma {:induction false} PrefixReads(sections: seq<Section>, k: nat)
    requires k <= |sections| && forall j | 0 <= j < k :: !Repeats(sections, j)
    ensures AddSections(sections[..k], NO_BLOCKS).Ok?
    ensures
      var blocks := AddSections(sections[..k], NO_BLOCKS).value;
      forall keyword :: Holds(blocks, keyword) <==>
        exists i :: 0 <= i < k && !sections[i].StreamSection? && BlockKeyword(sections[i]) == keyword
  {
    if k > 0 {
      PrefixReads(sections, k - 1);
      var section, before := sections[k - 1], AddSections(sections[..k - 1], NO_BLOCKS).value;
      assert sections[..k] == sections[..k - 1] + [section];
      AddSectionsAppend(sections[..k - 1], [section], NO_BLOCKS);
      AddOneSection(section, before);
      assert !Repeats(sections, k - 1);
      NewKindReads(section, before);
    }
  }

  lemma RepeatedBlockRefused(sections: seq<Section>, k: nat)
    requires FirstRepeatedAt(sections, k)
    ensures AddSections(sections, NO_BLOCKS) == Err(DuplicateBlock(BlockKeyword(sections[k])))
  {
    PrefixReads(sections, k);
    assert sections == sections[..k] + sections[k..] && sections[k..][0] == sections[k];
    AddSectionsAppend(sections[..k], sections[k..], NO_BLOCKS);
    var i :| 0 <= i < k && BlockKeyword(sections[i]) == BlockKeyword(sections[k]);
    assert !sections[i].StreamSection?;
    assert Holds(AddSections(sections[..k], NO_BLOCKS).value, BlockKeyword(sections[k]));
  }

  lemma UnrepeatedBlocksRead(sections: seq<Section>)
    requires forall k | 0 <= k < |sections| :: !Repeats(sections, k)
    ensures AddSections(sections, NO_BLOCKS).Ok?
    ensures AddSections(sections, NO_BLOCKS).value.reply.Some?
       <==> exists i :: 0 <= i < |sections| && sections[i].ReplySection?
  {
    assert sections[..|sections|] == sections;
    PrefixReads(sections, |sections|);
    HoldsReply(AddSections(sections, NO_BLOCKS).value);
    ReplyKeyword(sections);
  }

  lemma ReplyKeyword(sections: seq<Section>)
    ensures (exists i :: 0 <= i < |sections| && !sections[i].StreamSection? && BlockKeyword(sections[i]) == "reply")
       <==> exists i :: 0 <= i < |sections| && sections[i].ReplySection?
  {
    forall i | 0 <= i < |sections|
      ensures BlockKeyword(sections[i]) == "reply" <==> sections[i].ReplySection?
    {
      OnlyReplyIsReply(sections[i]);
    }
  }

  lemma HoldsReply(blocks: Blocks)
    ensures Holds(blocks, "reply") <==> blocks.reply.Some?
  {
  }

  lemma OnlyReplyIsReply(section: Section)
    ensures BlockKeyword(section) == "reply" <==> section.ReplySection?
  {
  }

  /** How a declaration is refused for its blocks: the first repeated kind is named, and a reply block must be there. */
  lemma RefusedForBlocks(
      name: Ident, contract: RustType, operations: seq<RequestVariant>, comma: bool, sections: seq<Section>)
    requires PrintableSections(sections)
    ensures
      var read := ReadChannel(PrintChannel(name, contract, operations, comma, sections));
      && (forall k: nat | FirstRepeatedAt(sections, k) :: read == Err(DuplicateBlock(BlockKeyword(sections[k]))))
      && ((forall k | 0 <= k < |sections| :: !Repeats(sections, k)) ==>
            if exists i :: 0 <= i < |sections| && sections[i].ReplySection? then read.Ok? else read == Err(MissingReply))
  {
    ChannelReadsBack(name, contract, operations, comma, sections);
    forall k: nat | FirstRepeatedAt(sections, k)
      ensures AddSections(sections, NO_BLOCKS) == Err(DuplicateBlock(BlockKeyword(sections[k])))
    {
      RepeatedBlockRefused(sections, k);
    }
    if forall k | 0 <= k < |sections| :: !Repeats(sections, k) {
      UnrepeatedBlocksRead(sections);
    }
  }

  /** A stream block whose opened reply is not followed by an event is refused for that. */
  lemma StreamWithoutEvents(name: Ident, token: RustType, openedReply: Ident, rest: Tokens)
    requires !Peeks("event", rest)
    ensures ReadStreamBody(name, [Word("token"), PrintType(token), Semicolon] + (PrintSlot("opened", openedReply) + rest))
         == Err(MissingStreamEvents)
  {
    var slots := PrintSlot("opened", openedReply) + rest;
    var body := [Word("token"), PrintType(token), Semicolon] + slots;
    SlotReadsBack("opened", openedReply, rest);
    assert body[1..][1..][1..] == slots;
  }

  /** Which of its three declarations an observable block is refused for lacking, or for going on after them. */
  lemma IncompleteObservable(filter: Ident, operationEvent: Ident, effectEvent: Ident, rest: Tokens)
    ensures !Peeks("filter", rest) ==> ReadObservableBody(rest) == Err(MissingFilter)
    ensures !Peeks("operation_event", rest) ==>
      ReadObservableBody(PrintSlot("filter", filter) + rest) == Err(MissingOperationEvent)
    ensures !Peeks("effect_event", rest) ==>
      ReadObservableBody(PrintSlot("filter", filter) + (PrintSlot("operation_event", operationEvent) + rest))
      == Err(MissingEffectEvent)
    ensures rest != [] ==>
      ReadObservableBody(
        PrintSlot("filter", filter)
        + (PrintSlot("operation_event", operationEvent) + (PrintSlot("effect_event", effectEvent) + rest)))
      == Err(ExtraObservableDeclaration)
  {
    var last := PrintSlot("effect_event", effectEvent) + rest;
    SlotReadsBack("filter", filter, rest);
    SlotReadsBack("filter", filter, PrintSlot("operation_event", operationEvent) + rest);
    SlotReadsBack("filter", filter, PrintSlot("operation_event", operationEvent) + last);
    SlotReadsBack("operation_event", operationEvent, rest);
    SlotReadsBack("operation_event", operationEvent, last);
    SlotReadsBack("effect_event", effectEvent, rest);
  }

  // ---- Block order --------------------------------------------------------

  lemma {:induction false} SelectAppend<T>(pick: Section -> Option<T>, a: seq<Section>, b: seq<Section>)
    ensures Select(pick, a + b) == Select(pick, a) + Select(pick, b)
  {
    if a == [] {
      assert a + b == b;
    } else {
      assert (a + b)[1..] == a[1..] + b;
      SelectAppend(pick, a[1..], b);
    }
  }

  function Without<T>(items: seq<T>, k: nat): seq<T>
    requires k < |items|
  {
    items[..k] + items[k + 1..]
  }

  lemma WithoutMultiset<T>(items: seq<T>, k: nat)
    requires k < |items|
    ensures multiset(items) == multiset(Without(items, k)) + multiset{items[k]}
  {
    assert items == items[..k] + ([items[k]] + items[k + 1..]);
  }

  lemma MiddleMultiset<T>(a: seq<T>, b: seq<T>, c: seq<T>)
    ensures multiset(a + (b + c)) == multiset(a + c) + multiset(b)
  {
  }

  lemma SelectWithout<T>(pick: Section -> Option<T>, sections: seq<Section>, k: nat)
    requires k < |sections|
    ensures multiset(Select(pick, sections))
         == multiset(Select(pick, Without(sections, k))) + multiset(AsSeq(pick(sections[k])))
  {
    var before, after := sections[..k], sections[k + 1..];
    assert sections == before + sections[k..] && sections[k..][1..] == after;
    SelectAppend(pick, before, sections[k..]);
    SelectAppend(pick, before, after);
    MiddleMultiset(Select(pick, before), AsSeq(pick(sections[k])), Select(pick, after));
  }

  lemma CancelElement<T>(x: multiset<T>, y: multiset<T>, e: T)
    requires x + multiset{e} == y + multiset{e}
    ensures x == y
  {
    assert x == (x + multiset{e}) - multiset{e};
    assert y == (y + multiset{e}) - multiset{e};
  }

  /** Selecting one kind of block from two arrangements of the same blocks selects the same blocks. */
  lemma {:induction false} SelectPermuted<T>(pick: Section -> Option<T>, a: seq<Section>, b: seq<Section>)
    requires multiset(a) == multiset(b)
    ensures multiset(Select(pick, a)) == multiset(Select(pick, b))
    decreases |a|
  {
    assert |a| == |multiset(a)| && |b| == |multiset(b)|;
    if a != [] {
      assert a[0] in multiset(b);
      var k :| 0 <= k < |b| && b[k] == a[0];
      WithoutMultiset(a, 0);
      WithoutMultiset(b, k);
      CancelElement(multiset(Without(a, 0)), multiset(Without(b, k)), a[0]);
      SelectPermuted(pick, Without(a, 0), Without(b, k));
      SelectWithout(pick, a, 0);
      SelectWithout(pick, b, k);
    }
  }

  lemma AtMostOneElement<T>(a: seq<T>, b: seq<T>)
    requires multiset(a) == multiset(b)
    ensures |a| == |b|
    ensures |a| <= 1 ==> a == b
  {
    assert |a| == |multiset(a)| && |b| == |multiset(b)|;
    if |a| == 1 {
      assert a[0] in multiset(b);
    }
  }

  /** A kind that occurs at most once is selected alike from any two arrangements of the same blocks. */
  lemma KindPermuted<T>(pick: Section -> Option<T>, a: seq<Section>, b: seq<Section>)
    requires multiset(a) == multiset(b)
    ensures |Select(pick, a)| == |Select(pick, b)|
    ensures |Select(pick, a)| <= 1 ==> Select(pick, a) == Select(pick, b)
  {
    SelectPermuted(pick, a, b);
    AtMostOneElement(Select(pick, a), Select(pick, b));
  }

  lemma NoBlocksBefore(sections: seq<Section>)
    ensures AsSeq(NO_BLOCKS.reply) + Select(PickReply, sections) == Select(PickReply, sections)
    ensures AsSeq(NO_BLOCKS.event) + Select(PickEvent, sections) == Select(PickEvent, sections)
    ensures AsSeq(NO_BLOCKS.observable) + Select(PickObservable, sections) == Select(PickObservable, sections)
    ensures NO_BLOCKS.streams + Select(PickStream, sections) == Select(PickStream, sections)
  {
  }

  lemma AssemblyPermuted(
      name: Ident, contract: RustType, operations: seq<RequestVariant>, a: seq<Section>, b: seq<Section>)
    requires multiset(a) == multiset(b) && Select(PickStream, a) == Select(PickStream, b)
    ensures
      var left, right := Assembled(name, contract, operations, a), Assembled(name, contract, operations, b);
      && (left.Ok? <==> |Select(PickReply, a)| == 1 && |Select(PickEvent, a)| <= 1 && |Select(PickObservable, a)| <= 1)
      && (left.Ok? <==> right.Ok?)
      && (left.Ok? ==> left == right)
  {
    KindPermuted(PickReply, a, b);
    KindPermuted(PickEvent, a, b);
    KindPermuted(PickObservable, a, b);
    AddSectionsOutcome(a, NO_BLOCKS);
    AddSectionsOutcome(b, NO_BLOCKS);
    NoBlocksBefore(a);
    NoBlocksBefore(b);
  }

  /** Rearranging blocks, streams kept in their order, changes neither acceptance nor the specification read. */
  lemma BlockOrderIrrelevant(
      name: Ident, contract: RustType, operations: seq<RequestVariant>, comma: bool, a: seq<Section>, b: seq<Section>)
    requires PrintableSections(a)
    requires multiset(a) == multiset(b) && Select(PickStream, a) == Select(PickStream, b)
    ensures
      var left := ReadChannel(PrintChannel(name, contract, operations, comma, a));
      var right := ReadChannel(PrintChannel(name, contract, operations, comma, b));
      && (left.Ok? <==> |Select(PickReply, a)| == 1 && |Select(PickEvent, a)| <= 1 && |Select(PickObservable, a)| <= 1)
      && (left.Ok? <==> right.Ok?)
      && (left.Ok? ==> left == right)
  {
    forall i | 0 <= i < |b|
      ensures PrintableSection(b[i])
    {
      assert b[i] in multiset(a);
    }
    AssemblyPermuted(name, contract, operations, a, b);
    ChannelReadsBack(name, contract, operations, comma, a);
    ChannelReadsBack(name, contract, operations, comma, b);
  }
}
