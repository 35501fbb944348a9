/** The channel specification a `signal_channel!` declaration denotes. */
module Channel {
  import opened Wrappers
  import Text

  type Ident = string

  /** A Rust type, carried as the text its tokens print to: a bare name, or anything longer. */
  datatype RustType = NamedType(text: Ident) | CompoundType(text: string)

  datatype RequestVariant = RequestVariant(name: Ident, payload: RustType, opens: Option<Ident>)
  datatype RequestBlock = RequestBlock(name: Ident, variants: seq<RequestVariant>)

  datatype ReplyVariant = ReplyVariant(name: Ident, payload: Option<RustType>)
  datatype ReplyBlock = ReplyBlock(name: Ident, variants: seq<ReplyVariant>)

  datatype EventVariant = EventVariant(name: Ident, payload: RustType, belongs: Option<Ident>)
  datatype EventBlock = EventBlock(name: Ident, variants: seq<EventVariant>)

  datatype StreamBlock = StreamBlock(name: Ident, token: RustType, openedReply: Ident, events: seq<Ident>, close: Ident)

  datatype FilterDecl = DefaultFilter | NamedFilter(name: Ident)

  datatype ObservableBlock = ObservableBlock(filter: FilterDecl, operationEvent: Ident, effectEvent: Ident) {
    function EventRecords(): seq<Ident> {
      [operationEvent, effectEvent]
    }
  }

  datatype ChannelSpec = ChannelSpec(
    name: Ident,
    contract: RustType,
    request: RequestBlock,
    reply: ReplyBlock,
    event: Option<EventBlock>,
    streams: seq<StreamBlock>,
    observable: Option<ObservableBlock>)
  {
    predicate IsStreaming() {
      event.Some? || streams != [] || observable.Some?
    }

    function EventVariants(): seq<EventVariant> {
      if event.Some? then event.value.variants else []
    }

    function OperationNames(): (names: seq<Ident>)
      ensures |names| == |request.variants|
    {
      seq(|request.variants|, i requires 0 <= i < |request.variants| => request.variants[i].name)
    }

    function ReplyNames(): (names: seq<Ident>)
      ensures |names| == |reply.variants|
    {
      seq(|reply.variants|, i requires 0 <= i < |reply.variants| => reply.variants[i].name)
    }

    function EventNames(): (names: seq<Ident>)
      ensures |names| == |EventVariants()|
    {
      seq(|EventVariants()|, i requires 0 <= i < |EventVariants()| => EventVariants()[i].name)
    }

    function StreamNames(): set<Ident> {
      set s | s in streams :: s.name
    }
  }

  ghost predicate Distinct<T>(items: seq<T>) {
    forall i, j | 0 <= i < j < |items| :: items[i] != items[j]
  }

  /** Position of the first occurrence of `name`. */
  function IndexOf(names: seq<Ident>, name: Ident): (i: nat)
    requires name in names
    ensures i < |names| && names[i] == name
    ensures forall j | 0 <= j < i :: names[j] != name
  {
    if names[0] == name then 0 else 1 + IndexOf(names[1..], name)
  }

  lemma {:induction false} IndexOfAppended(names: seq<Ident>, added: seq<Ident>, name: Ident)
    requires name in names
    ensures IndexOf(names + added, name) == IndexOf(names, name)
  {
    if names[0] != name {
      assert (names + added)[1..] == names[1..] + added;
      IndexOfAppended(names[1..], added, name);
    }
  }

  function StripSpaces(text: string): (r: string)
    ensures ' ' !in r
  {
    if text == [] then [] else (if text[0] == ' ' then [] else [text[0]]) + StripSpaces(text[1..])
  }

  const PATH_SEPARATOR: string := "::"

  /** The last path segment of a type's text: what the record head of its values is taken to be. */
  function ProjectedRecordHead(payload: RustType): string {
    var text := StripSpaces(payload.text);
    match Text.RFind(text, PATH_SEPARATOR)
    case Some(i) => text[i + |PATH_SEPARATOR|..]
    case None => text
  }

  lemma {:induction false} StripSpacesAppend(a: string, b: string)
    ensures StripSpaces(a + b) == StripSpaces(a) + StripSpaces(b)
  {
    if a == [] {
      assert a + b == b;
    } else {
      var kept: string := if a[0] == ' ' then [] else [a[0]];
      assert (a + b)[0] == a[0] && (a + b)[1..] == a[1..] + b;
      StripSpacesAppend(a[1..], b);
      assert kept + (StripSpaces(a[1..]) + StripSpaces(b)) == kept + StripSpaces(a[1..]) + StripSpaces(b);
    }
  }

  lemma {:induction false} StripSpacesKeeps(text: string)
    requires ' ' !in text
    ensures StripSpaces(text) == text
  {
    if text != [] {
      StripSpacesKeeps(text[1..]);
    }
  }

  lemma StripSpacesDrops(a: string, b: string)
    ensures StripSpaces(a + " " + b) == StripSpaces(a + b)
  {
    var space := [' '];
    assert a + " " + b == a + (space + b) && (space + b)[1..] == b;
    StripSpacesAppend(a, space + b);
    StripSpacesAppend(a, b);
    assert StripSpaces(space + b) == StripSpaces(b);
  }

  /** For any type: what follows the last separator of its text without spaces, or all of that if there is none. */
  lemma ProjectedHeadIsLastSegment(payload: RustType)
    ensures
      var text, head := StripSpaces(payload.text), ProjectedRecordHead(payload);
      if forall i: nat :: !Text.MatchesAt(text, "::", i) then head == text
      else
        && |head| + 2 <= |text| && text == text[..|text| - |head| - 2] + "::" + head
        && forall i: nat | Text.MatchesAt(text, "::", i) :: i + 2 + |head| <= |text|
  {
    var text := StripSpaces(payload.text);
    var r := Text.RFind(text, "::");
    if r.Some? {
      assert Text.MatchesAt(text, "::", r.value);
      assert text == text[..r.value] + text[r.value..r.value + 2] + text[r.value + 2..];
    }
  }

  /** Any path, however its last separator is spaced, projects to its last segment. */
  lemma ProjectedHeadOfPath(prefix: string, separator: string, segment: Ident)
    requires StripSpaces(separator) == PATH_SEPARATOR
    requires ' ' !in segment && ':' !in segment
    ensures ProjectedRecordHead(CompoundType(prefix + (separator + segment))) == segment
  {
    var head := StripSpaces(prefix);
    StripSpacesKeeps(segment);
    StripSpacesAppend(prefix, separator + segment);
    StripSpacesAppend(separator, segment);
    assert head + (PATH_SEPARATOR + segment) == head + PATH_SEPARATOR + segment;
    Text.RFindLast(head, PATH_SEPARATOR, segment);
    assert (head + PATH_SEPARATOR + segment)[|head| + 2..] == segment;
  }

  lemma ProjectedHeadOfName(name: Ident)
    requires ' ' !in name && ':' !in name
    ensures ProjectedRecordHead(NamedType(name)) == name
  {
    StripSpacesKeeps(name);
    Text.FoundCharacter(name, PATH_SEPARATOR);
  }
}
