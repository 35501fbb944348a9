/** The observable rewrite as a declaration: everything it adds, written out by hand. */
module Desugared {
  import opened Wrappers
  import opened Channel
  import opened Validation
  import opened Augment
  import opened Grammar
  import opened Printing

  /** The payload of `Tap`: the filter type the author named, or the generated one. */
  function DeclaredFilter(observable: ObservableBlock): Ident {
    match observable.filter
    case NamedFilter(name) => name
    case DefaultFilter => "ObserverFilter"
  }

  function WrittenOperations(spec: ChannelSpec, filter: Ident): Tokens {
    PrintList(PrintRequestVariant, spec.request.variants, true)
    + [Word("operation"), Word("Tap"), Group(Parenthesis, [Word(filter)]), Word("opens"), Word("ObserverStream"),
       Comma,
       Word("operation"), Word("Untap"), Group(Parenthesis, [Word("ObserverSubscriptionToken")])]
  }

  function WrittenReplies(spec: ChannelSpec): Tokens {
    PrintList(PrintReplyVariant, spec.reply.variants, true)
    + [Word("ObserverSubscriptionOpened"), Group(Parenthesis, [Word("ObserverSubscriptionOpened")])]
  }

  function WrittenEvents(spec: ChannelSpec, operationEvent: Ident, effectEvent: Ident): Tokens {
    PrintList(PrintEventVariant, spec.EventVariants(), true)
    + [Word(operationEvent), Group(Parenthesis, [Word(operationEvent)]), Word("belongs"), Word("ObserverStream"),
       Comma,
       Word(effectEvent), Group(Parenthesis, [Word(effectEvent)]), Word("belongs"), Word("ObserverStream")]
  }

  function WrittenStream(operationEvent: Ident, effectEvent: Ident): Tokens {
    [Word("token"), Word("ObserverSubscriptionToken"), Semicolon,
     Word("opened"), Word("ObserverSubscriptionOpened"), Semicolon,
     Word("event"), Word(operationEvent), Semicolon,
     Word("event"), Word(effectEvent), Semicolon,
     Word("close"), Word("Untap"), Semicolon]
  }

  /** The author's declaration with everything injected written out in place of the observable block. */
  function WrittenOut(spec: ChannelSpec, filter: Ident, operationEvent: Ident, effectEvent: Ident): Tokens {
    [Word("channel"), Word(spec.name), Word("contract"), PrintType(spec.contract),
     Group(Brace, WrittenOperations(spec, filter)),
     Word("reply"), Word(spec.reply.name), Group(Brace, WrittenReplies(spec)),
     Word("event"), Word(if spec.event.Some? then spec.event.value.name else "Event"),
     Group(Brace, WrittenEvents(spec, operationEvent, effectEvent))]
    + PrintSections(StreamSections(spec.streams))
    + [Word("stream"), Word("ObserverStream"), Group(Brace, WrittenStream(operationEvent, effectEvent))]
  }

  lemma {:induction false} PrintListAppend<T>(show: T -> Tokens, items: seq<T>, added: seq<T>, trailing: bool)
    requires added != []
    ensures PrintList(show, items + added, trailing) == PrintList(show, items, true) + PrintList(show, added, trailing)
  {
    if items == [] {
      assert items + added == added;
    } else {
      assert (items + added)[1..] == items[1..] + added;
      PrintListAppend(show, items[1..], added, trailing);
      if |items| == 1 {
        assert items[1..] + added == added;
      }
    }
  }

  lemma OperationsWritten(spec: ChannelSpec)
    requires spec.observable.Some?
    ensures PrintList(PrintRequestVariant, Augmented(spec).request.variants, false)
         == WrittenOperations(spec, DeclaredFilter(spec.observable.value))
  {
    var o := spec.observable.value;
    PrintListAppend(PrintRequestVariant, spec.request.variants, TapVariants(o), false);
    VerbsWritten(o);
  }

  lemma VerbsWritten(o: ObservableBlock)
    ensures PrintList(PrintRequestVariant, TapVariants(o), false)
         == [Word("operation"), Word("Tap"), Group(Parenthesis, [Word(DeclaredFilter(o))]), Word("opens"),
             Word("ObserverStream"),
             Comma,
             Word("operation"), Word("Untap"), Group(Parenthesis, [Word("ObserverSubscriptionToken")])]
  {
    var taps := TapVariants(o);
    assert taps[1..] == [taps[1]];
    TapWritten(o);
    UntapWritten(o);
  }

  lemma TapWritten(o: ObservableBlock)
    ensures PrintRequestVariant(TapVariants(o)[0])
         == [Word("operation"), Word("Tap"), Group(Parenthesis, [Word(DeclaredFilter(o))]), Word("opens"),
             Word("ObserverStream")]
  {
  }

  lemma UntapWritten(o: ObservableBlock)
    ensures PrintRequestVariant(TapVariants(o)[1])
         == [Word("operation"), Word("Untap"), Group(Parenthesis, [Word("ObserverSubscriptionToken")])]
  {
  }

  lemma RepliesWritten(spec: ChannelSpec)
    requires spec.observable.Some?
    ensures PrintList(PrintReplyVariant, Augmented(spec).reply.variants, false) == WrittenReplies(spec)
  {
    PrintListAppend(PrintReplyVariant, spec.reply.variants, [ObserverReply()], false);
  }

  lemma EventsWritten(spec: ChannelSpec)
    requires spec.observable.Some?
    ensures
      var o := spec.observable.value;
      PrintList(PrintEventVariant, Augmented(spec).EventVariants(), false)
      == WrittenEvents(spec, o.operationEvent, o.effectEvent)
  {
    var o := spec.observable.value;
    PrintListAppend(PrintEventVariant, spec.EventVariants(), ObserverEvents(o), false);
    RecordsWritten(o);
  }

  lemma RecordsWritten(o: ObservableBlock)
    ensures PrintList(PrintEventVariant, ObserverEvents(o), false)
         == [Word(o.operationEvent), Group(Parenthesis, [Word(o.operationEvent)]), Word("belongs"), Word("ObserverStream"),
             Comma,
             Word(o.effectEvent), Group(Parenthesis, [Word(o.effectEvent)]), Word("belongs"), Word("ObserverStream")]
  {
    var events := ObserverEvents(o);
    assert events[1..] == [events[1]];
    RecordWritten(o.operationEvent);
    RecordWritten(o.effectEvent);
  }

  lemma RecordWritten(record: Ident)
    ensures PrintEventVariant(EventVariant(record, NamedType(record), Some(OBSERVER_STREAM)))
         == [Word(record), Group(Parenthesis, [Word(record)]), Word("belongs"), Word("ObserverStream")]
  {
  }

  lemma StreamWritten(o: ObservableBlock)
    ensures PrintStreamBody(ObserverStreamBlock(o)) == WrittenStream(o.operationEvent, o.effectEvent)
  {
    var records := o.EventRecords();
    assert records[1..] == [o.effectEvent] && records[1..][1..] == [];
    assert PrintEventSlots(records[1..]) == PrintSlot("event", o.effectEvent) + [];
  }

  lemma {:induction false} PrintSectionsAppend(a: seq<Section>, b: seq<Section>)
    ensures PrintSections(a + b) == PrintSections(a) + PrintSections(b)
  {
    if a == [] {
      assert a + b == b;
    } else {
      assert (a + b)[1..] == a[1..] + b;
      PrintSectionsAppend(a[1..], b);
    }
  }

  lemma SectionsWritten(spec: ChannelSpec)
    requires spec.observable.Some?
    ensures
      var aug, o := Augmented(spec), spec.observable.value;
      PrintSections(SectionsOf(Style(false, false, false), aug))
      == PrintSection(ReplySection(aug.reply, false))
         + (PrintSection(EventSection(aug.event.value, false))
            + (PrintSections(StreamSections(spec.streams)) + PrintSection(StreamSection(ObserverStreamBlock(o)))))
  {
    var aug := Augmented(spec);
    var reply, event := ReplySection(aug.reply, false), EventSection(aug.event.value, false);
    var author, added := StreamSections(spec.streams), StreamSection(ObserverStreamBlock(spec.observable.value));
    assert StreamSections(aug.streams) == author + [added];
    assert SectionsOf(Style(false, false, false), aug) == [reply] + ([event] + (author + [added]));
    PrintSectionsAppend([reply], [event] + (author + [added]));
    PrintSectionsAppend([event], author + [added]);
    PrintSectionsAppend(author, [added]);
    PrintOneSection(reply);
    PrintOneSection(event);
    PrintOneSection(added);
  }

  lemma PrintOneSection(section: Section)
    ensures PrintSections([section]) == PrintSection(section)
  {
    assert [section][1..] == [];
  }

  lemma WrittenOutIsPrint(spec: ChannelSpec)
    requires spec.observable.Some?
    ensures
      var o := spec.observable.value;
      WrittenOut(spec, DeclaredFilter(o), o.operationEvent, o.effectEvent)
      == Print(Style(false, false, false), Augmented(spec))
  {
    OperationsWritten(spec);
    RepliesWritten(spec);
    EventsWritten(spec);
    StreamWritten(spec.observable.value);
    SectionsWritten(spec);
  }

  /**
   * The rewrite is what its documentation says it stands for: a declaration with the verbs, the reply, the events and
   * the stream written out in place of the observable block reads as the rewritten specification, item for item.
   */
  lemma RewriteIsWrittenOut(spec: ChannelSpec)
    requires Printable(spec) && spec.observable.Some?
    ensures
      var o := spec.observable.value;
      ReadChannel(WrittenOut(spec, DeclaredFilter(o), o.operationEvent, o.effectEvent)) == Ok(Augmented(spec))
  {
    WrittenOutIsPrint(spec);
    ParseInvertsPrint(Style(false, false, false), Augmented(spec));
  }
}
