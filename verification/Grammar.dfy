/** The channel declaration grammar, as functions from a token list to a value and the tokens left. */
module Grammar {
  import opened Wrappers
  import opened Channel

  datatype Delimiter = Parenthesis | Brace | Bracket

  /** `Word` is any identifier the parser accepts as one; `TypeTree` is a whole compound Rust type taken as one token. */
  datatype Token =
    | Word(text: string)
    | TypeTree(text: string)
    | Comma
    | Semicolon
    | Group(delimiter: Delimiter, tokens: seq<Token>)
    | Other(text: string)

  type Tokens = seq<Token>

  datatype ParseError =
    | Expected(what: string)
    | UnexpectedTokens
    | DuplicateBlock(block: string)
    | MissingReply
    | MissingStreamEvents
    | MissingFilter
    | MissingOperationEvent
    | MissingEffectEvent
    | ExtraObservableDeclaration

  type Parsed<T> = Result<(T, Tokens), ParseError>

  // ---- Single tokens ------------------------------------------------------

  predicate Peeks(keyword: string, ts: Tokens) {
    ts != [] && ts[0] == Word(keyword)
  }

  function ReadKeyword(keyword: string, ts: Tokens): (r: Parsed<()>)
    ensures r.Ok? ==> |r.value.1| < |ts|
  {
    if Peeks(keyword, ts) then Ok(((), ts[1..])) else Err(Expected(keyword))
  }

  function ReadPunctuation(token: Token, ts: Tokens): (r: Parsed<()>)
    ensures r.Ok? ==> |r.value.1| < |ts|
  {
    if ts != [] && ts[0] == token then Ok(((), ts[1..])) else Err(Expected("punctuation"))
  }

  function ReadIdent(ts: Tokens): (r: Parsed<Ident>)
    ensures r.Ok? ==> |r.value.1| < |ts|
  {
    if ts != [] && ts[0].Word? then Ok((ts[0].text, ts[1..])) else Err(Expected("identifier"))
  }

  function ReadType(ts: Tokens): (r: Parsed<RustType>)
    ensures r.Ok? ==> |r.value.1| < |ts|
  {
    if ts != [] && ts[0].Word? then Ok((NamedType(ts[0].text), ts[1..]))
    else if ts != [] && ts[0].TypeTree? then Ok((CompoundType(ts[0].text), ts[1..]))
    else Err(Expected("type"))
  }

  predicate PeeksGroup(delimiter: Delimiter, ts: Tokens) {
    ts != [] && ts[0].Group? && ts[0].delimiter == delimiter
  }

  function ReadGroup(delimiter: Delimiter, ts: Tokens): (r: Parsed<Tokens>)
    ensures r.Ok? ==> |r.value.1| < |ts|
  {
    if PeeksGroup(delimiter, ts) then Ok((ts[0].tokens, ts[1..])) else Err(Expected("group"))
  }

  /** A delimited group must be used up by what is parsed inside it. */
  function Finish(ts: Tokens): Result<(), ParseError> {
    if ts == [] then Ok(()) else Err(UnexpectedTokens)
  }

  /** `(Type)`. */
  function ReadPayload(ts: Tokens): (r: Parsed<RustType>)
    ensures r.Ok? ==> |r.value.1| < |ts|
  {
    var (inside, rest) :- ReadGroup(Parenthesis, ts);
    var (payload, left) :- ReadType(inside);
    var _ :- Finish(left);
    Ok((payload, rest))
  }

  /** An annotation `keyword Name`, or nothing when the keyword is not next. */
  function ReadAnnotation(keyword: string, ts: Tokens): (r: Parsed<Option<Ident>>)
    ensures r.Ok? ==> |r.value.1| <= |ts|
  {
    if Peeks(keyword, ts) then
      var (name, rest) :- ReadIdent(ts[1..]);
      Ok((Some(name), rest))
    else Ok((None, ts))
  }

  /** `keyword Name ;`. */
  function ReadSlot(keyword: string, ts: Tokens): (r: Parsed<Ident>)
    ensures r.Ok? ==> |r.value.1| < |ts|
  {
    var (_, afterKeyword) :- ReadKeyword(keyword, ts);
    var (name, afterName) :- ReadIdent(afterKeyword);
    var (_, rest) :- ReadPunctuation(Semicolon, afterName);
    Ok((name, rest))
  }

  // ---- Variants -----------------------------------------------------------

  /** `(Type)` and an annotation after it. */
  function ReadAnnotatedPayload(keyword: string, ts: Tokens): (r: Parsed<(RustType, Option<Ident>)>)
    ensures r.Ok? ==> |r.value.1| < |ts|
  {
    var (payload, afterPayload) :- ReadPayload(ts);
    var (annotation, rest) :- ReadAnnotation(keyword, afterPayload);
    Ok(((payload, annotation), rest))
  }

  function ReadRequestVariant(ts: Tokens): (r: Parsed<RequestVariant>)
    ensures r.Ok? ==> |r.value.1| < |ts|
  {
    var (_, afterKeyword) :- ReadKeyword("operation", ts);
    var (name, afterName) :- ReadIdent(afterKeyword);
    var ((payload, opens), rest) :- ReadAnnotatedPayload("opens", afterName);
    Ok((RequestVariant(name, payload, opens), rest))
  }

  function ReadReplyVariant(ts: Tokens): (r: Parsed<ReplyVariant>)
    ensures r.Ok? ==> |r.value.1| < |ts|
  {
    var (name, afterName) :- ReadIdent(ts);
    if PeeksGroup(Parenthesis, afterName) then
      var (payload, rest) :- ReadPayload(afterName);
      Ok((ReplyVariant(name, Some(payload)), rest))
    else Ok((ReplyVariant(name, None), afterName))
  }

  function ReadEventVariant(ts: Tokens): (r: Parsed<EventVariant>)
    ensures r.Ok? ==> |r.value.1| < |ts|
  {
    var (name, afterName) :- ReadIdent(ts);
    var ((payload, belongs), rest) :- ReadAnnotatedPayload("belongs", afterName);
    Ok((EventVariant(name, payload, belongs), rest))
  }

  ghost predicate Consumes<T>(element: Tokens -> Parsed<T>) {
    forall ts :: element(ts).Ok? ==> |element(ts).value.1| < |ts|
  }

  /** Elements up to the end of the group, each followed by a comma unless it ends the group. */
  function ReadList<T>(element: Tokens -> Parsed<T>, ts: Tokens): Result<seq<T>, ParseError>
    requires Consumes(element)
    decreases |ts|
  {
    if ts == [] then Ok([])
    else
      var (first, afterFirst) :- element(ts);
      if afterFirst == [] then Ok([first])
      else
        var (_, rest) :- ReadPunctuation(Comma, afterFirst);
        var others :- ReadList(element, rest);
        Ok([first] + others)
  }

  // ---- Blocks -------------------------------------------------------------

  function ReadReplyBlock(ts: Tokens): (r: Parsed<ReplyBlock>)
    ensures r.Ok? ==> |r.value.1| < |ts|
  {
    var (_, afterKeyword) :- ReadKeyword("reply", ts);
    var (name, afterName) :- ReadIdent(afterKeyword);
    var (body, rest) :- ReadGroup(Brace, afterName);
    var variants :- ReadList(ReadReplyVariant, body);
    Ok((ReplyBlock(name, variants), rest))
  }

  function ReadEventBlock(ts: Tokens): (r: Parsed<EventBlock>)
    ensures r.Ok? ==> |r.value.1| < |ts|
  {
    var (_, afterKeyword) :- ReadKeyword("event", ts);
    var (name, afterName) :- ReadIdent(afterKeyword);
    var (body, rest) :- ReadGroup(Brace, afterName);
    var variants :- ReadList(ReadEventVariant, body);
    Ok((EventBlock(name, variants), rest))
  }

  function ReadEventSlots(ts: Tokens): (r: Parsed<seq<Ident>>)
    ensures r.Ok? ==> |r.value.1| <= |ts|
    decreases |ts|
  {
    if !Peeks("event", ts) then Ok(([], ts))
    else
      var (first, afterFirst) :- ReadSlot("event", ts);
      var (others, rest) :- ReadEventSlots(afterFirst);
      Ok(([first] + others, rest))
  }

  function ReadStreamSlots(name: Ident, token: RustType, ts: Tokens): Result<StreamBlock, ParseError> {
    var (openedReply, afterOpened) :- ReadSlot("opened", ts);
    var (events, afterEvents) :- ReadEventSlots(afterOpened);
    if events == [] then Err(MissingStreamEvents)
    else
      var (close, left) :- ReadSlot("close", afterEvents);
      var _ :- Finish(left);
      Ok(StreamBlock(name, token, openedReply, events, close))
  }

  function ReadStreamBody(name: Ident, body: Tokens): Result<StreamBlock, ParseError> {
    var (_, afterKeyword) :- ReadKeyword("token", body);
    var (token, afterToken) :- ReadType(afterKeyword);
    var (_, afterTokenSlot) :- ReadPunctuation(Semicolon, afterToken);
    ReadStreamSlots(name, token, afterTokenSlot)
  }

  function ReadStreamBlock(ts: Tokens): (r: Parsed<StreamBlock>)
    ensures r.Ok? ==> |r.value.1| < |ts|
  {
    var (_, afterKeyword) :- ReadKeyword("stream", ts);
    var (name, afterName) :- ReadIdent(afterKeyword);
    var (body, rest) :- ReadGroup(Brace, afterName);
    var stream :- ReadStreamBody(name, body);
    Ok((stream, rest))
  }

  function FilterOf(name: Ident): FilterDecl {
    if name == "default" then DefaultFilter else NamedFilter(name)
  }

  function ReadObservableBody(body: Tokens): Result<ObservableBlock, ParseError> {
    if !Peeks("filter", body) then Err(MissingFilter)
    else
      var (filter, afterFilter) :- ReadSlot("filter", body);
      if !Peeks("operation_event", afterFilter) then Err(MissingOperationEvent)
      else
        var (operationEvent, afterOperation) :- ReadSlot("operation_event", afterFilter);
        if !Peeks("effect_event", afterOperation) then Err(MissingEffectEvent)
        else
          var (effectEvent, left) :- ReadSlot("effect_event", afterOperation);
          if left != [] then Err(ExtraObservableDeclaration)
          else Ok(ObservableBlock(FilterOf(filter), operationEvent, effectEvent))
  }

  function ReadObservableBlock(ts: Tokens): (r: Parsed<ObservableBlock>)
    ensures r.Ok? ==> |r.value.1| < |ts|
  {
    var (_, afterKeyword) :- ReadKeyword("observable", ts);
    var (body, rest) :- ReadGroup(Brace, afterKeyword);
    var observable :- ReadObservableBody(body);
    Ok((observable, rest))
  }

  // ---- Whole declarations -------------------------------------------------

  /** The blocks after the operations, as far as they have been read. */
  datatype Blocks = Blocks(
    reply: Option<ReplyBlock>, event: Option<EventBlock>, streams: seq<StreamBlock>, observable: Option<ObservableBlock>)

  const NO_BLOCKS := Blocks(None, None, [], None)

  function ReadBlocks(ts: Tokens, blocks: Blocks): Result<Blocks, ParseError>
    decreases |ts|
  {
    if ts == [] then Ok(blocks)
    else if Peeks("reply", ts) then
      if blocks.reply.Some? then Err(DuplicateBlock("reply"))
      else
        var (reply, rest) :- ReadReplyBlock(ts);
        ReadBlocks(rest, blocks.(reply := Some(reply)))
    else if Peeks("event", ts) then
      if blocks.event.Some? then Err(DuplicateBlock("event"))
      else
        var (event, rest) :- ReadEventBlock(ts);
        ReadBlocks(rest, blocks.(event := Some(event)))
    else if Peeks("stream", ts) then
      var (stream, rest) :- ReadStreamBlock(ts);
      ReadBlocks(rest, blocks.(streams := blocks.streams + [stream]))
    else if Peeks("observable", ts) then
      if blocks.observable.Some? then Err(DuplicateBlock("observable"))
      else
        var (observable, rest) :- ReadObservableBlock(ts);
        ReadBlocks(rest, blocks.(observable := Some(observable)))
    else Err(Expected("block"))
  }

  function ReadChannelBody(name: Ident, contract: RustType, ts: Tokens): Result<ChannelSpec, ParseError> {
    var (operations, rest) :- ReadGroup(Brace, ts);
    var variants :- ReadList(ReadRequestVariant, operations);
    var blocks :- ReadBlocks(rest, NO_BLOCKS);
    if blocks.reply.None? then Err(MissingReply)
    else Ok(ChannelSpec(
      name, contract, RequestBlock("Operation", variants), blocks.reply.value, blocks.event, blocks.streams,
      blocks.observable))
  }

  function ReadChannel(ts: Tokens): Result<ChannelSpec, ParseError> {
    var (_, afterChannel) :- ReadKeyword("channel", ts);
    var (name, afterName) :- ReadIdent(afterChannel);
    var (_, afterContractKeyword) :- ReadKeyword("contract", afterName);
    var (contract, afterContract) :- ReadType(afterContractKeyword);
    ReadChannelBody(name, contract, afterContract)
  }
}
