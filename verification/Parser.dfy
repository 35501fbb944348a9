/** The parser as it is written: methods that advance a shared cursor, each computing what the grammar says. */
module Parser {
  import opened Wrappers
  import opened Channel
  import opened Grammar

  /** A method's result and the cursor it leaves are those of the grammar function; a failure leaves no cursor to use. */
  ghost predicate Agrees<T>(r: Result<T, ParseError>, rest: Tokens, parsed: Parsed<T>) {
    match parsed
    case Ok((value, after)) => r == Ok(value) && rest == after
    case Err(error) => r == Err(error)
  }

  class ParseStream {
    var rest: Tokens

    constructor (tokens: Tokens)
      ensures rest == tokens
    {
      rest := tokens;
    }

    method Keyword(keyword: string) returns (r: Result<(), ParseError>)
      modifies this
      ensures Agrees(r, rest, ReadKeyword(keyword, old(rest)))
    {
      var read :- ReadKeyword(keyword, rest);
      rest := read.1;
      return Ok(read.0);
    }

    method Punctuation(token: Token) returns (r: Result<(), ParseError>)
      modifies this
      ensures Agrees(r, rest, ReadPunctuation(token, old(rest)))
    {
      var read :- ReadPunctuation(token, rest);
      rest := read.1;
      return Ok(read.0);
    }

    method Name() returns (r: Result<Ident, ParseError>)
      modifies this
      ensures Agrees(r, rest, ReadIdent(old(rest)))
    {
      var read :- ReadIdent(rest);
      rest := read.1;
      return Ok(read.0);
    }

    method Type() returns (r: Result<RustType, ParseError>)
      modifies this
      ensures Agrees(r, rest, ReadType(old(rest)))
    {
      var read :- ReadType(rest);
      rest := read.1;
      return Ok(read.0);
    }

    method Delimited(delimiter: Delimiter) returns (r: Result<Tokens, ParseError>)
      modifies this
      ensures Agrees(r, rest, ReadGroup(delimiter, old(rest)))
    {
      var read :- ReadGroup(delimiter, rest);
      rest := read.1;
      return Ok(read.0);
    }

    method Payload() returns (r: Result<RustType, ParseError>)
      modifies this
      ensures Agrees(r, rest, ReadPayload(old(rest)))
    {
      var tokens :- Delimited(Parenthesis);
      var payload := new ParseStream(tokens);
      var payloadType :- payload.Type();
      var _ :- Finish(payload.rest);
      return Ok(payloadType);
    }

    method Annotation(keyword: string) returns (r: Result<Option<Ident>, ParseError>)
      modifies this
      ensures Agrees(r, rest, ReadAnnotation(keyword, old(rest)))
    {
      if Peeks(keyword, rest) {
        rest := rest[1..];
        var name :- Name();
        return Ok(Some(name));
      }
      return Ok(None);
    }

    method Slot(keyword: string) returns (r: Result<Ident, ParseError>)
      modifies this
      ensures Agrees(r, rest, ReadSlot(keyword, old(rest)))
    {
      var _ :- Keyword(keyword);
      var name :- Name();
      var _ :- Punctuation(Semicolon);
      return Ok(name);
    }
  }

  method ParseRequestVariant(input: ParseStream) returns (r: Result<RequestVariant, ParseError>)
    modifies input
    ensures Agrees(r, input.rest, ReadRequestVariant(old(input.rest)))
  {
    var _ :- input.Keyword("operation");
    var name :- input.Name();
    var payload :- input.Payload();
    var opens :- input.Annotation("opens");
    return Ok(RequestVariant(name, payload, opens));
  }

  method ParseReplyVariant(input: ParseStream) returns (r: Result<ReplyVariant, ParseError>)
    modifies input
    ensures Agrees(r, input.rest, ReadReplyVariant(old(input.rest)))
  {
    var name :- input.Name();
    if PeeksGroup(Parenthesis, input.rest) {
      var payload :- input.Payload();
      return Ok(ReplyVariant(name, Some(payload)));
    }
    return Ok(ReplyVariant(name, None));
  }

  method ParseEventVariant(input: ParseStream) returns (r: Result<EventVariant, ParseError>)
    modifies input
    ensures Agrees(r, input.rest, ReadEventVariant(old(input.rest)))
  {
    var name :- input.Name();
    var payload :- input.Payload();
    var belongs :- input.Annotation("belongs");
    return Ok(EventVariant(name, payload, belongs));
  }

  /** What a list amounts to once some of its elements have already been pushed. */
  ghost function Pushed<T>(items: seq<T>, remaining: Result<seq<T>, ParseError>): Result<seq<T>, ParseError> {
    if remaining.Ok? then Ok(items + remaining.value) else remaining
  }

  lemma PushedEnds<T>(items: seq<T>, remaining: Result<seq<T>, ParseError>)
    ensures Pushed([], remaining) == remaining
    ensures Pushed(items, Ok([])) == Ok(items)
  {
    assert remaining.Ok? ==> [] + remaining.value == remaining.value;
    assert items + [] == items;
  }

  method ParseOperations(body: ParseStream) returns (r: Result<seq<RequestVariant>, ParseError>)
    modifies body
    ensures r == ReadList(ReadRequestVariant, old(body.rest))
  {
    var variants: seq<RequestVariant> := [];
    PushedEnds(variants, ReadList(ReadRequestVariant, body.rest));
    while body.rest != []
      invariant Pushed(variants, ReadList(ReadRequestVariant, body.rest)) == ReadList(ReadRequestVariant, old(body.rest))
      decreases |body.rest|
    {
      ghost var before, pushed := body.rest, variants;
      var variant :- ParseRequestVariant(body);
      variants := variants + [variant];
      if body.rest != [] {
        var _ :- body.Punctuation(Comma);
      }
      PushOne(ReadRequestVariant, pushed, before);
    }
    PushedEnds(variants, Ok([]));
    return Ok(variants);
  }

  method ParseReplies(body: ParseStream) returns (r: Result<seq<ReplyVariant>, ParseError>)
    modifies body
    ensures r == ReadList(ReadReplyVariant, old(body.rest))
  {
    var variants: seq<ReplyVariant> := [];
    PushedEnds(variants, ReadList(ReadReplyVariant, body.rest));
    while body.rest != []
      invariant Pushed(variants, ReadList(ReadReplyVariant, body.rest)) == ReadList(ReadReplyVariant, old(body.rest))
      decreases |body.rest|
    {
      ghost var before, pushed := body.rest, variants;
      var variant :- ParseReplyVariant(body);
      variants := variants + [variant];
      if body.rest != [] {
        var _ :- body.Punctuation(Comma);
      }
      PushOne(ReadReplyVariant, pushed, before);
    }
    PushedEnds(variants, Ok([]));
    return Ok(variants);
  }

  method ParseEvents(body: ParseStream) returns (r: Result<seq<EventVariant>, ParseError>)
    modifies body
    ensures r == ReadList(ReadEventVariant, old(body.rest))
  {
    var variants: seq<EventVariant> := [];
    PushedEnds(variants, ReadList(ReadEventVariant, body.rest));
    while body.rest != []
      invariant Pushed(variants, ReadList(ReadEventVariant, body.rest)) == ReadList(ReadEventVariant, old(body.rest))
      decreases |body.rest|
    {
      ghost var before, pushed := body.rest, variants;
      var variant :- ParseEventVariant(body);
      variants := variants + [variant];
      if body.rest != [] {
        var _ :- body.Punctuation(Comma);
      }
      PushOne(ReadEventVariant, pushed, before);
    }
    PushedEnds(variants, Ok([]));
    return Ok(variants);
  }

  /** One turn of a list loop: pushing the element read leaves the list's meaning as it was. */
  lemma PushOne<T>(read: Tokens -> Parsed<T>, items: seq<T>, ts: Tokens)
    requires Consumes(read) && ts != [] && read(ts).Ok?
    requires read(ts).value.1 == [] || read(ts).value.1[0] == Comma
    ensures
      var (item, after) := read(ts).value;
      Pushed(items, ReadList(read, ts))
      == Pushed(items + [item], ReadList(read, if after == [] then [] else after[1..]))
  {
    var (item, after) := read(ts).value;
    var rest := ReadList(read, if after == [] then [] else after[1..]);
    if rest.Ok? {
      assert items + ([item] + rest.value) == (items + [item]) + rest.value;
      assert after == [] ==> [item] + rest.value == [item];
    }
  }

  method ParseReplyBlock(input: ParseStream) returns (r: Result<ReplyBlock, ParseError>)
    modifies input
    ensures Agrees(r, input.rest, ReadReplyBlock(old(input.rest)))
  {
    var _ :- input.Keyword("reply");
    var name :- input.Name();
    var tokens :- input.Delimited(Brace);
    var body := new ParseStream(tokens);
    var variants :- ParseReplies(body);
    return Ok(ReplyBlock(name, variants));
  }

  method ParseEventBlock(input: ParseStream) returns (r: Result<EventBlock, ParseError>)
    modifies input
    ensures Agrees(r, input.rest, ReadEventBlock(old(input.rest)))
  {
    var _ :- input.Keyword("event");
    var name :- input.Name();
    var tokens :- input.Delimited(Brace);
    var body := new ParseStream(tokens);
    var variants :- ParseEvents(body);
    return Ok(EventBlock(name, variants));
  }

  method ParseEventSlots(body: ParseStream) returns (r: Result<seq<Ident>, ParseError>)
    modifies body
    ensures Agrees(r, body.rest, ReadEventSlots(old(body.rest)))
  {
    var events: seq<Ident> := [];
    while Peeks("event", body.rest)
      invariant
        var (whole, left) := (ReadEventSlots(old(body.rest)), ReadEventSlots(body.rest));
        if left.Ok? then whole.Ok? && whole.value.0 == events + left.value.0 && whole.value.1 == left.value.1
        else whole == left
      decreases |body.rest|
    {
      var event :- body.Slot("event");
      ghost var others := ReadEventSlots(body.rest);
      assert others.Ok? ==> events + ([event] + others.value.0) == (events + [event]) + others.value.0;
      events := events + [event];
    }
    assert events + [] == events;
    return Ok(events);
  }

  method ParseStreamBlock(input: ParseStream) returns (r: Result<StreamBlock, ParseError>)
    modifies input
    ensures Agrees(r, input.rest, ReadStreamBlock(old(input.rest)))
  {
    var _ :- input.Keyword("stream");
    var name :- input.Name();
    var tokens :- input.Delimited(Brace);
    var body := new ParseStream(tokens);
    var _ :- body.Keyword("token");
    var token :- body.Type();
    var _ :- body.Punctuation(Semicolon);
    var openedReply :- body.Slot("opened");
    var events :- ParseEventSlots(body);
    if events == [] {
      return Err(MissingStreamEvents);
    }
    var close :- body.Slot("close");
    var _ :- Finish(body.rest);
    return Ok(StreamBlock(name, token, openedReply, events, close));
  }

  method ParseObservableBlock(input: ParseStream) returns (r: Result<ObservableBlock, ParseError>)
    modifies input
    ensures Agrees(r, input.rest, ReadObservableBlock(old(input.rest)))
  {
    var _ :- input.Keyword("observable");
    var tokens :- input.Delimited(Brace);
    var body := new ParseStream(tokens);
    if !Peeks("filter", body.rest) {
      return Err(MissingFilter);
    }
    var filterToken :- body.Slot("filter");
    if !Peeks("operation_event", body.rest) {
      return Err(MissingOperationEvent);
    }
    var operationEvent :- body.Slot("operation_event");
    if !Peeks("effect_event", body.rest) {
      return Err(MissingEffectEvent);
    }
    var effectEvent :- body.Slot("effect_event");
    if body.rest != [] {
      return Err(ExtraObservableDeclaration);
    }
    return Ok(ObservableBlock(FilterOf(filterToken), operationEvent, effectEvent));
  }

  method ParseBlocks(input: ParseStream) returns (r: Result<Blocks, ParseError>)
    modifies input
    ensures r == ReadBlocks(old(input.rest), NO_BLOCKS)
  {
    var reply: Option<ReplyBlock> := None;
    var event: Option<EventBlock> := None;
    var streams: seq<StreamBlock> := [];
    var observable: Option<ObservableBlock> := None;
    while input.rest != []
      invariant ReadBlocks(input.rest, Blocks(reply, event, streams, observable))
             == ReadBlocks(old(input.rest), NO_BLOCKS)
      decreases |input.rest|
    {
      if Peeks("reply", input.rest) {
        if reply.Some? {
          return Err(DuplicateBlock("reply"));
        }
        var block :- ParseReplyBlock(input);
        reply := Some(block);
      } else if Peeks("event", input.rest) {
        if event.Some? {
          return Err(DuplicateBlock("event"));
        }
        var block :- ParseEventBlock(input);
        event := Some(block);
      } else if Peeks("stream", input.rest) {
        var block :- ParseStreamBlock(input);
        streams := streams + [block];
      } else if Peeks("observable", input.rest) {
        if observable.Some? {
          return Err(DuplicateBlock("observable"));
        }
        var block :- ParseObservableBlock(input);
        observable := Some(block);
      } else {
        return Err(Expected("block"));
      }
    }
    return Ok(Blocks(reply, event, streams, observable));
  }

  method ParseChannel(input: ParseStream) returns (r: Result<ChannelSpec, ParseError>)
    modifies input
    ensures r == ReadChannel(old(input.rest))
  {
    var _ :- input.Keyword("channel");
    var name :- input.Name();
    var _ :- input.Keyword("contract");
    var contract :- input.Type();
    var tokens :- input.Delimited(Brace);
    var operationBody := new ParseStream(tokens);
    var variants :- ParseOperations(operationBody);
    var blocks :- ParseBlocks(input);
    if blocks.reply.None? {
      return Err(MissingReply);
    }
    return Ok(ChannelSpec(
      name, contract, RequestBlock("Operation", variants), blocks.reply.value, blocks.event, blocks.streams,
      blocks.observable));
  }
}
