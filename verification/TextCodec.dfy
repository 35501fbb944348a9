/** The DOTOS codec of emitted enums and requests, on block trees, and routing by request head. */
module TextCodec {
  import opened Wrappers
  import opened Channel
  import opened Validation
  import Arms
  import opened NonEmptySeq
  import Messages
  import opened Dispatch

  datatype Delimiter = Parenthesis | SquareBracket | Brace

  /** What the foreign lexer makes of text. Only atoms read as strings, and only delimited blocks have parts. */
  datatype Block = Atom(text: string) | Delimited(delimiter: Delimiter, children: seq<Block>) {
    function DemoteToString(): Option<string> {
      if Atom? then Some(text) else None
    }

    function AsDelimited(wanted: Delimiter): Option<seq<Block>> {
      if Delimited? && delimiter == wanted then Some(children) else None
    }

    function RootObjectAt(i: nat): Option<Block> {
      if Delimited? && i < |children| then Some(children[i]) else None
    }
  }

  datatype DecodeError =
    | UnknownVariant(enumName: Ident, variant: string)
    | ExpectedAtom(typeName: Ident)
    | ExpectedChildren(typeName: Ident, expected: nat)
    | ExpectedRootCount(typeName: Ident, expected: nat, found: nat)
    | PayloadRefused(reason: string)

  /** The payload types' own codecs, and which values belong to which type. */
  datatype PayloadCodec<!P> = PayloadCodec(
    inhabits: (RustType, P) -> bool,
    encode: (RustType, P) -> Block,
    decode: (RustType, Block) -> Result<P, DecodeError>)

  ghost predicate PayloadsRoundTrip<P(!new)>(codec: PayloadCodec<P>) {
    forall t, p | codec.inhabits(t, p) :: codec.decode(t, codec.encode(t, p)) == Ok(p)
  }

  /** A variant of an emitted enum, with the type of its payload unless it is a unit variant. */
  datatype PayloadKind = PayloadKind(variant: Ident, payload: Option<RustType>)

  datatype EnumValue<+P> = Unit(variant: Ident) | Carrying(variant: Ident, payload: P)

  function VariantNames(kinds: seq<PayloadKind>): (names: seq<Ident>)
    ensures |names| == |kinds|
  {
    seq(|kinds|, i requires 0 <= i < |kinds| => kinds[i].variant)
  }

  predicate DeclaredAs<P>(codec: PayloadCodec<P>, kind: PayloadKind, value: EnumValue<P>) {
    kind.variant == value.variant &&
    match value
    case Unit(_) => kind.payload.None?
    case Carrying(_, payload) => kind.payload.Some? && codec.inhabits(kind.payload.value, payload)
  }

  // ---- Emitted arms -------------------------------------------------------

  function EncodeArms(kinds: seq<PayloadKind>): (arms: seq<(Ident, Option<RustType>)>)
    ensures |arms| == |kinds|
  {
    seq(|kinds|, i requires 0 <= i < |kinds| => (kinds[i].variant, kinds[i].payload))
  }

  function UnitArms(kinds: seq<PayloadKind>): (arms: seq<(Ident, ())>)
    ensures forall i | 0 <= i < |arms| :: PayloadKind(arms[i].0, None) in kinds
    ensures forall kind | kind in kinds && kind.payload.None? :: (kind.variant, ()) in arms
  {
    if kinds == [] then []
    else (if kinds[0].payload.None? then [(kinds[0].variant, ())] else []) + UnitArms(kinds[1..])
  }

  function PayloadArms(kinds: seq<PayloadKind>): (arms: seq<(Ident, RustType)>)
    ensures forall i | 0 <= i < |arms| :: PayloadKind(arms[i].0, Some(arms[i].1)) in kinds
    ensures forall kind | kind in kinds && kind.payload.Some? :: (kind.variant, kind.payload.value) in arms
  {
    if kinds == [] then []
    else
      (if kinds[0].payload.Some? then [(kinds[0].variant, kinds[0].payload.value)] else []) + PayloadArms(kinds[1..])
  }

  /** The emitted `to_dotos`; `None` when no arm fits the value, which Rust's exhaustiveness check rules out. */
  function EncodeEnum<P>(codec: PayloadCodec<P>, kinds: seq<PayloadKind>, value: EnumValue<P>): Option<Block> {
    match Arms.FirstMatch(EncodeArms(kinds), value.variant)
    case None => None
    case Some(declared) =>
      if declared.None? then Some(Atom(value.variant))
      else if value.Unit? then None
      else Some(Delimited(Parenthesis, [Atom(value.variant), codec.encode(declared.value, value.payload)]))
  }

  function ExpectChildren(block: Block, delimiter: Delimiter, typeName: Ident, count: nat)
    : (r: Result<seq<Block>, DecodeError>)
    ensures r.Ok? <==> block.Delimited? && block.delimiter == delimiter && |block.children| == count
    ensures r.Ok? ==> r.value == block.children
  {
    match block.AsDelimited(delimiter)
    case Some(children) => if |children| == count then Ok(children) else Err(ExpectedChildren(typeName, count))
    case None => Err(ExpectedChildren(typeName, count))
  }

  /** The emitted `from_dotos_block`. */
  function DecodeEnum<P>(codec: PayloadCodec<P>, enumName: Ident, kinds: seq<PayloadKind>, block: Block)
    : Result<EnumValue<P>, DecodeError>
  {
    match block.DemoteToString()
    case Some(head) =>
      (match Arms.FirstMatch(UnitArms(kinds), head)
       case Some(_) => Ok(Unit(head))
       case None => Err(UnknownVariant(enumName, head)))
    case None =>
      var children :- ExpectChildren(block, Parenthesis, enumName, 2);
      match children[0].DemoteToString()
      case None => Err(ExpectedAtom(enumName))
      case Some(head) =>
        match Arms.FirstMatch(PayloadArms(kinds), head)
        case Some(t) =>
          var payload :- codec.decode(t, children[1]);
          Ok(Carrying(head, payload))
        case None => Err(UnknownVariant(enumName, head))
  }

  lemma DistinctKind(kinds: seq<PayloadKind>, a: PayloadKind, b: PayloadKind)
    requires Distinct(VariantNames(kinds)) && a in kinds && b in kinds && a.variant == b.variant
    ensures a == b
  {
    var i :| 0 <= i < |kinds| && kinds[i] == a;
    var j :| 0 <= j < |kinds| && kinds[j] == b;
    assert VariantNames(kinds)[i] == VariantNames(kinds)[j];
  }

  /** With distinct names each of the three matches takes the arm of the one kind that has the name. */
  lemma ArmsTaken(kinds: seq<PayloadKind>, kind: PayloadKind)
    requires Distinct(VariantNames(kinds)) && kind in kinds
    ensures Arms.FirstMatch(EncodeArms(kinds), kind.variant) == Some(kind.payload)
    ensures Arms.FirstMatch(UnitArms(kinds), kind.variant).Some? <==> kind.payload.None?
    ensures Arms.FirstMatch(PayloadArms(kinds), kind.variant) == kind.payload
  {
    FirstEncodeArm(kinds, kind);
    if Arms.FirstMatch(UnitArms(kinds), kind.variant).Some? {
      var k := Arms.FirstMatchIndex(UnitArms(kinds), kind.variant);
      DistinctKind(kinds, kind, PayloadKind(kind.variant, None));
    }
    if Arms.FirstMatch(PayloadArms(kinds), kind.variant).Some? {
      var k := Arms.FirstMatchIndex(PayloadArms(kinds), kind.variant);
      DistinctKind(kinds, kind, PayloadKind(kind.variant, Some(PayloadArms(kinds)[k].1)));
    }
    if kind.payload.None? {
      var k :| 0 <= k < |UnitArms(kinds)| && UnitArms(kinds)[k] == (kind.variant, ());
    } else {
      var k :| 0 <= k < |PayloadArms(kinds)| && PayloadArms(kinds)[k] == (kind.variant, kind.payload.value);
    }
  }

  lemma FirstEncodeArm(kinds: seq<PayloadKind>, kind: PayloadKind)
    requires Distinct(VariantNames(kinds)) && kind in kinds
    ensures Arms.FirstMatch(EncodeArms(kinds), kind.variant) == Some(kind.payload)
  {
    var i :| 0 <= i < |kinds| && kinds[i] == kind;
    assert EncodeArms(kinds)[i].0 == kind.variant;
    var k := Arms.FirstMatchIndex(EncodeArms(kinds), kind.variant);
    DistinctKind(kinds, kind, kinds[k]);
  }

  /** Every value of an emitted enum, unit or carrying, decodes from its encoding. */
  lemma EnumRoundTrip<P(!new)>(
      codec: PayloadCodec<P>, enumName: Ident, kinds: seq<PayloadKind>, kind: PayloadKind, value: EnumValue<P>)
    requires PayloadsRoundTrip(codec) && Distinct(VariantNames(kinds))
    requires kind in kinds && DeclaredAs(codec, kind, value)
    ensures EncodeEnum(codec, kinds, value).Some?
    ensures DecodeEnum(codec, enumName, kinds, EncodeEnum(codec, kinds, value).value) == Ok(value)
  {
    ArmsTaken(kinds, kind);
  }

  /** A block that spells `value` under the kind: its atom, or its name in parentheses with a decodable payload. */
  ghost predicate Spells<P>(codec: PayloadCodec<P>, kind: PayloadKind, block: Block, value: EnumValue<P>) {
    kind.variant == value.variant &&
    match value
    case Unit(name) => kind.payload.None? && block == Atom(name)
    case Carrying(name, payload) =>
      && kind.payload.Some? && block.Delimited? && block.delimiter == Parenthesis
      && |block.children| == 2 && block.children[0] == Atom(name)
      && codec.decode(kind.payload.value, block.children[1]) == Ok(payload)
  }

  lemma SpelledDecodes<P>(
      codec: PayloadCodec<P>, enumName: Ident, kinds: seq<PayloadKind>, kind: PayloadKind, block: Block,
      value: EnumValue<P>)
    requires Distinct(VariantNames(kinds)) && kind in kinds && Spells(codec, kind, block, value)
    ensures DecodeEnum(codec, enumName, kinds, block) == Ok(value)
  {
    ArmsTaken(kinds, kind);
  }

  lemma DecodedIsSpelled<P>(
      codec: PayloadCodec<P>, enumName: Ident, kinds: seq<PayloadKind>, block: Block, value: EnumValue<P>)
    returns (kind: PayloadKind)
    requires DecodeEnum(codec, enumName, kinds, block) == Ok(value)
    ensures kind in kinds && Spells(codec, kind, block, value)
  {
    if value.Unit? {
      var k := Arms.FirstMatchIndex(UnitArms(kinds), value.variant);
      kind := PayloadKind(value.variant, None);
    } else {
      var k := Arms.FirstMatchIndex(PayloadArms(kinds), value.variant);
      kind := PayloadKind(value.variant, Some(PayloadArms(kinds)[k].1));
    }
  }

  /** The blocks that decode to a value are exactly those that spell it under one of the declared kinds. */
  lemma DecodesIffSpelled<P>(
      codec: PayloadCodec<P>, enumName: Ident, kinds: seq<PayloadKind>, block: Block, value: EnumValue<P>)
    requires Distinct(VariantNames(kinds))
    ensures DecodeEnum(codec, enumName, kinds, block) == Ok(value)
       <==> exists kind | kind in kinds :: Spells(codec, kind, block, value)
  {
    if DecodeEnum(codec, enumName, kinds, block) == Ok(value) {
      var kind := DecodedIsSpelled(codec, enumName, kinds, block, value);
    }
    forall kind | kind in kinds && Spells(codec, kind, block, value)
      ensures DecodeEnum(codec, enumName, kinds, block) == Ok(value)
    {
      SpelledDecodes(codec, enumName, kinds, kind, block, value);
    }
  }

  /** How a block that spells no value is refused, in the order the decoder looks at it. */
  lemma EnumRefusals<P>(codec: PayloadCodec<P>, enumName: Ident, kinds: seq<PayloadKind>, block: Block)
    requires Distinct(VariantNames(kinds))
    ensures
      var r := DecodeEnum(codec, enumName, kinds, block);
      if block.Atom? then
        if PayloadKind(block.text, None) in kinds then r == Ok(Unit(block.text))
        else r == Err(UnknownVariant(enumName, block.text))
      else if block.delimiter != Parenthesis || |block.children| != 2 then r == Err(ExpectedChildren(enumName, 2))
      else if !block.children[0].Atom? then r == Err(ExpectedAtom(enumName))
      else
        var name := block.children[0].text;
        && ((forall kind | kind in kinds && kind.variant == name :: kind.payload.None?) ==>
              r == Err(UnknownVariant(enumName, name)))
        && (forall kind | kind in kinds && kind.variant == name && kind.payload.Some? ::
              r == match codec.decode(kind.payload.value, block.children[1])
                   case Err(error) => Err(error)
                   case Ok(payload) => Ok(Carrying(name, payload)))
  {
    forall kind | kind in kinds
      ensures FirstMatchesOf(kinds, kind)
    {
      ArmsTaken(kinds, kind);
    }
    if block.Atom? && Arms.FirstMatch(UnitArms(kinds), block.text).Some? {
      var k := Arms.FirstMatchIndex(UnitArms(kinds), block.text);
    }
    if block.Delimited? && |block.children| == 2 && block.children[0].Atom? {
      var name := block.children[0].text;
      if Arms.FirstMatch(PayloadArms(kinds), name).Some? {
        var k := Arms.FirstMatchIndex(PayloadArms(kinds), name);
        assert PayloadKind(name, Some(PayloadArms(kinds)[k].1)) in kinds;
      }
    }
  }

  ghost predicate FirstMatchesOf(kinds: seq<PayloadKind>, kind: PayloadKind) {
    && (Arms.FirstMatch(UnitArms(kinds), kind.variant).Some? <==> kind.payload.None?)
    && Arms.FirstMatch(PayloadArms(kinds), kind.variant) == kind.payload
  }

  /** A carrying variant decodes from its name in parentheses before a payload of its type, and from nothing else. */
  lemma CarryingDecodesIff<P>(
      codec: PayloadCodec<P>, enumName: Ident, kinds: seq<PayloadKind>, name: Ident, t: RustType, block: Block,
      payload: P)
    requires Distinct(VariantNames(kinds)) && PayloadKind(name, Some(t)) in kinds
    ensures DecodeEnum(codec, enumName, kinds, block) == Ok(Carrying(name, payload))
       <==> exists x :: block == Delimited(Parenthesis, [Atom(name), x]) && codec.decode(t, x) == Ok(payload)
  {
    var kind, value := PayloadKind(name, Some(t)), Carrying(name, payload);
    DecodesIffSpelled(codec, enumName, kinds, block, value);
    forall k | k in kinds && Spells(codec, k, block, value)
      ensures k == kind
    {
      DistinctKind(kinds, k, kind);
    }
    if Spells(codec, kind, block, value) {
      assert block == Delimited(Parenthesis, [Atom(name), block.children[1]]);
    }
    if x :| block == Delimited(Parenthesis, [Atom(name), x]) && codec.decode(t, x) == Ok(payload) {
      assert Spells(codec, kind, block, value);
    }
  }

  /** Kinds added under new names do not change what decodes to a value of an old name. */
  lemma AddedKindsKeepDecoding<P>(
      codec: PayloadCodec<P>, enumName: Ident, kinds: seq<PayloadKind>, added: seq<PayloadKind>, block: Block,
      value: EnumValue<P>)
    requires Distinct(VariantNames(kinds + added)) && Distinct(VariantNames(kinds))
    requires value.variant in VariantNames(kinds)
    ensures DecodeEnum(codec, enumName, kinds + added, block) == Ok(value)
       <==> DecodeEnum(codec, enumName, kinds, block) == Ok(value)
  {
    DecodesIffSpelled(codec, enumName, kinds + added, block, value);
    DecodesIffSpelled(codec, enumName, kinds, block, value);
    var i :| 0 <= i < |kinds| && VariantNames(kinds)[i] == value.variant;
    assert kinds[i] in kinds && kinds[i] in kinds + added;
    forall kind | kind in kinds + added && Spells(codec, kind, block, value)
      ensures kind in kinds
    {
      DistinctKind(kinds + added, kind, kinds[i]);
    }
  }

  // ---- Requests -----------------------------------------------------------

  function RequestKinds(spec: ChannelSpec): (kinds: seq<PayloadKind>)
    ensures |kinds| == |spec.request.variants|
    ensures forall kind | kind in kinds :: kind.payload.Some?
    ensures VariantNames(kinds) == spec.OperationNames()
  {
    seq(|spec.request.variants|, i requires 0 <= i < |spec.request.variants| =>
      PayloadKind(spec.request.variants[i].name, Some(spec.request.variants[i].payload)))
  }

  /** An operation whose payload is a value of the type its variant declares. */
  ghost predicate Typed<P>(spec: ChannelSpec, codec: PayloadCodec<P>, operation: Operation<P>) {
    exists kind | kind in RequestKinds(spec) :: DeclaredAs(codec, kind, Carrying(operation.variant, operation.payload))
  }

  function EncodeOperation<P>(spec: ChannelSpec, codec: PayloadCodec<P>, operation: Operation<P>): Option<Block> {
    EncodeEnum(codec, RequestKinds(spec), Carrying(operation.variant, operation.payload))
  }

  lemma {:induction false} NoUnitArms(kinds: seq<PayloadKind>)
    requires forall kind | kind in kinds :: kind.payload.Some?
    ensures UnitArms(kinds) == []
  {
    if kinds != [] {
      NoUnitArms(kinds[1..]);
    }
  }

  lemma NoUnitOperations<P>(spec: ChannelSpec, codec: PayloadCodec<P>, block: Block)
    ensures
      var r := DecodeEnum(codec, spec.request.name, RequestKinds(spec), block);
      r.Ok? ==> r.value.Carrying? && r.value.variant in spec.OperationNames()
  {
    var kinds := RequestKinds(spec);
    var r := DecodeEnum(codec, spec.request.name, kinds, block);
    if r.Ok? && r.value.Carrying? {
      var k := Arms.FirstMatchIndex(PayloadArms(kinds), r.value.variant);
      var i :| 0 <= i < |kinds| && kinds[i] == PayloadKind(r.value.variant, Some(PayloadArms(kinds)[k].1));
      assert VariantNames(kinds)[i] == r.value.variant;
    }
    NoUnitArms(kinds);
  }

  function DecodeOperation<P>(spec: ChannelSpec, codec: PayloadCodec<P>, block: Block)
    : (r: Result<Operation<P>, DecodeError>)
    ensures r.Ok? ==> OfChannel(spec, r.value)
  {
    NoUnitOperations(spec, codec, block);
    var value :- DecodeEnum(codec, spec.request.name, RequestKinds(spec), block);
    Ok(Operation(value.variant, value.payload))
  }

  function EncodeAll<P>(spec: ChannelSpec, codec: PayloadCodec<P>, operations: seq<Operation<P>>): Option<seq<Block>> {
    if operations == [] then Some([])
    else
      match EncodeOperation(spec, codec, operations[0])
      case None => None
      case Some(first) =>
        match EncodeAll(spec, codec, operations[1..])
        case None => None
        case Some(rest) => Some([first] + rest)
  }

  function DecodeAll<P>(spec: ChannelSpec, codec: PayloadCodec<P>, blocks: seq<Block>)
    : Result<seq<Operation<P>>, DecodeError>
  {
    if blocks == [] then Ok([])
    else
      var first :- DecodeOperation(spec, codec, blocks[0]);
      var rest :- DecodeAll(spec, codec, blocks[1..]);
      Ok([first] + rest)
  }

  /** One operation is written bare, several as a bracketed sequence. */
  function EncodeRequest<P>(spec: ChannelSpec, codec: PayloadCodec<P>, request: Messages.Request<Operation<P>>)
    : Option<Block>
  {
    if request.payloads.tail == [] then EncodeOperation(spec, codec, request.payloads.head)
    else
      match EncodeAll(spec, codec, request.payloads.ToSeq())
      case None => None
      case Some(blocks) => Some(Delimited(SquareBracket, blocks))
  }

  function DecodeRequest<P>(spec: ChannelSpec, codec: PayloadCodec<P>, block: Block)
    : Result<Messages.Request<Operation<P>>, DecodeError>
  {
    match block.AsDelimited(SquareBracket)
    case Some(sequence) =>
      var payloads :- DecodeAll(spec, codec, sequence);
      (match FromSeq(payloads)
       case Ok(nonEmpty) => Ok(Messages.Request(None, nonEmpty))
       case Err(Empty) => Err(ExpectedRootCount("Request", 1, 0)))
    case None =>
      var payload :- DecodeOperation(spec, codec, block);
      Ok(Messages.FromPayload(payload))
  }

  lemma OperationRoundTrip<P(!new)>(spec: ChannelSpec, codec: PayloadCodec<P>, operation: Operation<P>)
    requires Distinct(spec.OperationNames()) && PayloadsRoundTrip(codec) && Typed(spec, codec, operation)
    ensures
      var block := EncodeOperation(spec, codec, operation);
      && block.Some? && block.value.AsDelimited(SquareBracket) == None
      && DecodeOperation(spec, codec, block.value) == Ok(operation)
  {
    var value := Carrying(operation.variant, operation.payload);
    var kind :| kind in RequestKinds(spec) && DeclaredAs(codec, kind, value);
    EnumRoundTrip(codec, spec.request.name, RequestKinds(spec), kind, value);
    ArmsTaken(RequestKinds(spec), kind);
  }

  lemma DecodeAllOf<P>(
      spec: ChannelSpec, codec: PayloadCodec<P>, block: Block, blocks: seq<Block>, operation: Operation<P>,
      operations: seq<Operation<P>>)
    requires DecodeOperation(spec, codec, block) == Ok(operation) && DecodeAll(spec, codec, blocks) == Ok(operations)
    ensures DecodeAll(spec, codec, [block] + blocks) == Ok([operation] + operations)
  {
    assert ([block] + blocks)[1..] == blocks;
  }

  ghost predicate EachOperationDecodes<P(!new)>(
      spec: ChannelSpec, codec: PayloadCodec<P>, blocks: seq<Block>, operations: seq<Operation<P>>)
  {
    && |blocks| == |operations|
    && forall i | 0 <= i < |blocks| :: DecodeOperation(spec, codec, blocks[i]) == Ok(operations[i])
  }

  lemma {:induction false} DecodeAllIsEach<P(!new)>(
      spec: ChannelSpec, codec: PayloadCodec<P>, blocks: seq<Block>, operations: seq<Operation<P>>)
    requires DecodeAll(spec, codec, blocks) == Ok(operations)
    ensures EachOperationDecodes(spec, codec, blocks, operations)
  {
    if blocks != [] {
      DecodeAllIsEach(spec, codec, blocks[1..], operations[1..]);
      forall i | 1 <= i < |blocks|
        ensures i < |operations| && DecodeOperation(spec, codec, blocks[i]) == Ok(operations[i])
      {
        assert blocks[i] == blocks[1..][i - 1] && operations[i] == operations[1..][i - 1];
      }
    }
  }

  lemma {:induction false} AllRoundTrip<P(!new)>(spec: ChannelSpec, codec: PayloadCodec<P>, operations: seq<Operation<P>>)
    requires Distinct(spec.OperationNames()) && PayloadsRoundTrip(codec)
    requires forall i | 0 <= i < |operations| :: Typed(spec, codec, operations[i])
    ensures
      var blocks := EncodeAll(spec, codec, operations);
      blocks.Some? && DecodeAll(spec, codec, blocks.value) == Ok(operations)
  {
    if operations != [] {
      OperationRoundTrip(spec, codec, operations[0]);
      AllRoundTrip(spec, codec, operations[1..]);
      var first, rest := EncodeOperation(spec, codec, operations[0]).value, EncodeAll(spec, codec, operations[1..]).value;
      DecodeAllOf(spec, codec, first, rest, operations[0], operations[1..]);
      assert operations == [operations[0]] + operations[1..];
    }
  }

  /** How a request is written: one operation bare, several in a bracket with one block each, in order. */
  ghost predicate WrittenAs<P(!new)>(
      spec: ChannelSpec, codec: PayloadCodec<P>, block: Block, payloads: NonEmpty<Operation<P>>)
  {
    if payloads.tail == [] then
      block.AsDelimited(SquareBracket).None? && DecodeOperation(spec, codec, block) == Ok(payloads.head)
    else
      && block.Delimited? && block.delimiter == SquareBracket
      && EachOperationDecodes(spec, codec, block.children, payloads.ToSeq())
  }

  /** Every request of an accepted channel is written so, and decodes from its text block with its caller dropped. */
  lemma RequestRoundTrip<P(!new)>(spec: ChannelSpec, codec: PayloadCodec<P>, request: Messages.Request<Operation<P>>)
    requires WellFormed(spec) && PayloadsRoundTrip(codec)
    requires forall i | 0 <= i < request.payloads.Len() :: Typed(spec, codec, request.payloads.ToSeq()[i])
    ensures
      var block := EncodeRequest(spec, codec, request);
      && block.Some? && WrittenAs(spec, codec, block.value, request.payloads)
      && DecodeRequest(spec, codec, block.value) == Ok(request.(caller := None))
  {
    var payloads := request.payloads;
    assert payloads.head == payloads.ToSeq()[0];
    if payloads.tail == [] {
      OperationRoundTrip(spec, codec, payloads.head);
    } else {
      AllRoundTrip(spec, codec, payloads.ToSeq());
      DecodeAllIsEach(spec, codec, EncodeAll(spec, codec, payloads.ToSeq()).value, payloads.ToSeq());
      FromSeqInvertsToSeq(payloads.ToSeq(), payloads);
    }
  }

  /** A block that spells an operation: a declared name in parentheses before a payload its type decodes. */
  ghost predicate SpellsOperation<P>(spec: ChannelSpec, codec: PayloadCodec<P>, block: Block, operation: Operation<P>) {
    && block.Delimited? && block.delimiter == Parenthesis
    && |block.children| == 2 && block.children[0] == Atom(operation.variant)
    && exists v | v in spec.request.variants ::
         v.name == operation.variant && codec.decode(v.payload, block.children[1]) == Ok(operation.payload)
  }

  ghost predicate SpellsAll<P>(
      spec: ChannelSpec, codec: PayloadCodec<P>, blocks: seq<Block>, operations: seq<Operation<P>>)
  {
    && |blocks| == |operations|
    && forall i | 0 <= i < |blocks| :: SpellsOperation(spec, codec, blocks[i], operations[i])
  }

  /** One operation bare, or a bracket of operations, one block each. */
  ghost predicate SpellsRequest<P>(
      spec: ChannelSpec, codec: PayloadCodec<P>, block: Block, payloads: NonEmpty<Operation<P>>)
  {
    || (payloads.tail == [] && SpellsOperation(spec, codec, block, payloads.head))
    || (block.Delimited? && block.delimiter == SquareBracket && SpellsAll(spec, codec, block.children, payloads.ToSeq()))
  }

  lemma OperationDecodesIffSpelled<P>(
      spec: ChannelSpec, codec: PayloadCodec<P>, block: Block, operation: Operation<P>)
    requires Distinct(spec.OperationNames())
    ensures DecodeOperation(spec, codec, block) == Ok(operation) <==> SpellsOperation(spec, codec, block, operation)
  {
    var kinds, value := RequestKinds(spec), Carrying(operation.variant, operation.payload);
    NoUnitOperations(spec, codec, block);
    DecodesIffSpelled(codec, spec.request.name, kinds, block, value);
    forall kind | kind in kinds && Spells(codec, kind, block, value)
      ensures SpellsOperation(spec, codec, block, operation)
    {
      var i :| 0 <= i < |kinds| && kinds[i] == kind;
      assert spec.request.variants[i] in spec.request.variants;
    }
    if SpellsOperation(spec, codec, block, operation) {
      var v :| v in spec.request.variants
        && v.name == operation.variant && codec.decode(v.payload, block.children[1]) == Ok(operation.payload);
      var i :| 0 <= i < |kinds| && spec.request.variants[i] == v;
      assert kinds[i] in kinds && Spells(codec, kinds[i], block, value);
    }
  }

  lemma {:induction false} AllDecodeIffSpelled<P>(
      spec: ChannelSpec, codec: PayloadCodec<P>, blocks: seq<Block>, operations: seq<Operation<P>>)
    requires Distinct(spec.OperationNames())
    ensures DecodeAll(spec, codec, blocks) == Ok(operations) <==> SpellsAll(spec, codec, blocks, operations)
  {
    if blocks != [] && operations != [] {
      OperationDecodesIffSpelled(spec, codec, blocks[0], operations[0]);
      AllDecodeIffSpelled(spec, codec, blocks[1..], operations[1..]);
      assert operations == [operations[0]] + operations[1..];
      SpellsAllFirst(spec, codec, blocks, operations);
    }
  }

  lemma SpellsAllFirst<P>(spec: ChannelSpec, codec: PayloadCodec<P>, blocks: seq<Block>, operations: seq<Operation<P>>)
    requires blocks != [] && operations != []
    ensures SpellsAll(spec, codec, blocks, operations)
       <==> SpellsOperation(spec, codec, blocks[0], operations[0]) && SpellsAll(spec, codec, blocks[1..], operations[1..])
  {
    if SpellsAll(spec, codec, blocks[1..], operations[1..]) {
      forall i | 1 <= i < |blocks|
        ensures SpellsOperation(spec, codec, blocks[0], operations[0])
                ==> SpellsOperation(spec, codec, blocks[i], operations[i])
      {
        assert blocks[1..][i - 1] == blocks[i] && operations[1..][i - 1] == operations[i];
      }
    }
  }

  /** Exactly which blocks decode as a request, and as which: no caller, and spelled bare or one for one in a bracket. */
  lemma RequestDecodesIffSpelled<P>(
      spec: ChannelSpec, codec: PayloadCodec<P>, block: Block, request: Messages.Request<Operation<P>>)
    requires Distinct(spec.OperationNames())
    ensures DecodeRequest(spec, codec, block) == Ok(request)
       <==> request.caller.None? && SpellsRequest(spec, codec, block, request.payloads)
  {
    match block.AsDelimited(SquareBracket)
    case Some(sequence) =>
      AllDecodeIffSpelled(spec, codec, sequence, request.payloads.ToSeq());
      var decoded := DecodeAll(spec, codec, sequence);
      if decoded.Ok? {
        FromSeqInvertsToSeq(decoded.value, request.payloads);
      }
    case None => OperationDecodesIffSpelled(spec, codec, block, request.payloads.head);
  }

  /** A request is refused as its first undecodable operation is, or for having none. */
  lemma RequestRefusals<P>(spec: ChannelSpec, codec: PayloadCodec<P>, block: Block)
    requires DecodeRequest(spec, codec, block).Err?
    ensures
      var error := DecodeRequest(spec, codec, block).error;
      if block.Atom? || block.delimiter != SquareBracket then DecodeOperation(spec, codec, block) == Err(error)
      else if block.children == [] then error == ExpectedRootCount("Request", 1, 0)
      else
        exists k :: 0 <= k < |block.children| && DecodeOperation(spec, codec, block.children[k]) == Err(error)
          && forall i | 0 <= i < k :: DecodeOperation(spec, codec, block.children[i]).Ok?
  {
    if block.Delimited? && block.delimiter == SquareBracket && block.children != [] {
      var decoded := DecodeAll(spec, codec, block.children);
      if decoded.Err? {
        var k := FirstRefused(spec, codec, block.children);
      }
    }
  }

  lemma {:induction false} FirstRefused<P>(spec: ChannelSpec, codec: PayloadCodec<P>, blocks: seq<Block>)
    returns (k: nat)
    requires DecodeAll(spec, codec, blocks).Err?
    ensures k < |blocks| && DecodeOperation(spec, codec, blocks[k]) == Err(DecodeAll(spec, codec, blocks).error)
    ensures forall i | 0 <= i < k :: DecodeOperation(spec, codec, blocks[i]).Ok?
  {
    if DecodeOperation(spec, codec, blocks[0]).Err? {
      k := 0;
    } else {
      var rest := FirstRefused(spec, codec, blocks[1..]);
      k := rest + 1;
    }
  }

  // ---- Replies ------------------------------------------------------------

  function ReplyKinds(spec: ChannelSpec): (kinds: seq<PayloadKind>)
    ensures |kinds| == |spec.reply.variants|
    ensures VariantNames(kinds) == spec.ReplyNames()
  {
    seq(|spec.reply.variants|, i requires 0 <= i < |spec.reply.variants| =>
      PayloadKind(spec.reply.variants[i].name, spec.reply.variants[i].payload))
  }

  /** A reply that its enum can hold: a unit variant, or a variant with a value of the type it declares. */
  ghost predicate TypedReply<R>(spec: ChannelSpec, codec: PayloadCodec<R>, reply: EnumValue<R>) {
    exists kind | kind in ReplyKinds(spec) :: DeclaredAs(codec, kind, reply)
  }

  function EncodeReply<R>(spec: ChannelSpec, codec: PayloadCodec<R>, reply: EnumValue<R>): Option<Block> {
    EncodeEnum(codec, ReplyKinds(spec), reply)
  }

  function DecodeReply<R>(spec: ChannelSpec, codec: PayloadCodec<R>, block: Block): Result<EnumValue<R>, DecodeError> {
    DecodeEnum(codec, spec.reply.name, ReplyKinds(spec), block)
  }

  function EncodeEachReply<R>(spec: ChannelSpec, codec: PayloadCodec<R>, replies: seq<EnumValue<R>>)
    : Option<seq<Block>>
  {
    if replies == [] then Some([])
    else
      match EncodeReply(spec, codec, replies[0])
      case None => None
      case Some(first) =>
        match EncodeEachReply(spec, codec, replies[1..])
        case None => None
        case Some(rest) => Some([first] + rest)
  }

  /** What the client prints: one reply bare, several in a bracket. */
  function EncodeReplies<R>(spec: ChannelSpec, codec: PayloadCodec<R>, replies: NonEmpty<EnumValue<R>>)
    : Option<Block>
  {
    if replies.tail == [] then EncodeReply(spec, codec, replies.head)
    else
      match EncodeEachReply(spec, codec, replies.ToSeq())
      case None => None
      case Some(blocks) => Some(Delimited(SquareBracket, blocks))
  }

  lemma ReplyRoundTrip<R(!new)>(spec: ChannelSpec, codec: PayloadCodec<R>, reply: EnumValue<R>)
    requires Distinct(spec.ReplyNames()) && PayloadsRoundTrip(codec) && TypedReply(spec, codec, reply)
    ensures
      var block := EncodeReply(spec, codec, reply);
      && block.Some? && block.value.AsDelimited(SquareBracket) == None
      && DecodeReply(spec, codec, block.value) == Ok(reply)
  {
    var kind :| kind in ReplyKinds(spec) && DeclaredAs(codec, kind, reply);
    EnumRoundTrip(codec, spec.reply.name, ReplyKinds(spec), kind, reply);
    ArmsTaken(ReplyKinds(spec), kind);
  }

  ghost predicate EachDecodes<R(!new)>(
      spec: ChannelSpec, codec: PayloadCodec<R>, blocks: seq<Block>, replies: seq<EnumValue<R>>)
  {
    && |blocks| == |replies|
    && forall i | 0 <= i < |blocks| :: DecodeReply(spec, codec, blocks[i]) == Ok(replies[i])
  }

  lemma {:induction false} EachReplyDecodes<R(!new)>(
      spec: ChannelSpec, codec: PayloadCodec<R>, replies: seq<EnumValue<R>>)
    requires Distinct(spec.ReplyNames()) && PayloadsRoundTrip(codec)
    requires forall i | 0 <= i < |replies| :: TypedReply(spec, codec, replies[i])
    ensures EncodeEachReply(spec, codec, replies).Some?
    ensures EachDecodes(spec, codec, EncodeEachReply(spec, codec, replies).value, replies)
  {
    if replies != [] {
      ReplyRoundTrip(spec, codec, replies[0]);
      EachReplyDecodes(spec, codec, replies[1..]);
      var blocks, rest := EncodeEachReply(spec, codec, replies).value, EncodeEachReply(spec, codec, replies[1..]).value;
      forall i | 1 <= i < |blocks|
        ensures DecodeReply(spec, codec, blocks[i]) == Ok(replies[i])
      {
        assert blocks[i] == rest[i - 1] && replies[i] == replies[1..][i - 1];
      }
    }
  }

  /** A block from which the replies can be read: a bracket with one block for each, or one reply bare. */
  ghost predicate ReadsAsReplies<R(!new)>(
      spec: ChannelSpec, codec: PayloadCodec<R>, block: Block, replies: NonEmpty<EnumValue<R>>)
  {
    match block.AsDelimited(SquareBracket)
    case Some(blocks) => EachDecodes(spec, codec, blocks, replies.ToSeq())
    case None => replies.tail == [] && DecodeReply(spec, codec, block) == Ok(replies.head)
  }

  /** What the client prints for typed replies of an accepted channel can be read back as those replies. */
  lemma RepliesRoundTrip<R(!new)>(spec: ChannelSpec, codec: PayloadCodec<R>, replies: NonEmpty<EnumValue<R>>)
    requires WellFormed(spec) && PayloadsRoundTrip(codec)
    requires forall i | 0 <= i < replies.Len() :: TypedReply(spec, codec, replies.ToSeq()[i])
    ensures
      var block := EncodeReplies(spec, codec, replies);
      && block.Some? && ReadsAsReplies(spec, codec, block.value, replies)
      && (block.value.AsDelimited(SquareBracket) == None <==> replies.tail == [])
  {
    assert replies.head == replies.ToSeq()[0];
    ReplyRoundTrip(spec, codec, replies.head);
    if replies.tail != [] {
      EachReplyDecodes(spec, codec, replies.ToSeq());
    }
  }

  /** No text reads as two different lists of replies. */
  lemma RepliesReadOnce<R(!new)>(
      spec: ChannelSpec, codec: PayloadCodec<R>, block: Block, a: NonEmpty<EnumValue<R>>, b: NonEmpty<EnumValue<R>>)
    requires ReadsAsReplies(spec, codec, block, a) && ReadsAsReplies(spec, codec, block, b)
    ensures a == b
  {
    match block.AsDelimited(SquareBracket)
    case Some(blocks) =>
      forall i | 0 <= i < |blocks|
        ensures a.ToSeq()[i] == b.ToSeq()[i]
      {
        assert DecodeReply(spec, codec, blocks[i]) == Ok(a.ToSeq()[i]);
      }
      assert a.ToSeq() == b.ToSeq();
      FromSeqInvertsToSeq(a.ToSeq(), a);
      FromSeqInvertsToSeq(a.ToSeq(), b);
    case None =>
  }

  // ---- Events -------------------------------------------------------------

  function EventKinds(spec: ChannelSpec): (kinds: seq<PayloadKind>)
    ensures |kinds| == |spec.EventVariants()|
    ensures forall kind | kind in kinds :: kind.payload.Some?
    ensures VariantNames(kinds) == spec.EventNames()
  {
    seq(|spec.EventVariants()|, i requires 0 <= i < |spec.EventVariants()| =>
      PayloadKind(spec.EventVariants()[i].name, Some(spec.EventVariants()[i].payload)))
  }

  function DecodeEvent<E>(spec: ChannelSpec, codec: PayloadCodec<E>, block: Block): Result<EnumValue<E>, DecodeError>
    requires spec.event.Some?
  {
    DecodeEnum(codec, spec.event.value.name, EventKinds(spec), block)
  }

  /** An unknown variant is reported under the name of the enum it was sought in. */
  lemma UnknownVariantsNameTheirEnum<P, R, E>(
      spec: ChannelSpec, operations: PayloadCodec<P>, replies: PayloadCodec<R>, events: PayloadCodec<E>, name: string)
    requires DistinctVariants(spec)
    ensures DecodeOperation(spec, operations, Atom(name)) == Err(UnknownVariant(spec.request.name, name))
    ensures name !in spec.ReplyNames() ==>
      DecodeReply(spec, replies, Atom(name)) == Err(UnknownVariant(spec.reply.name, name))
    ensures spec.event.Some? ==>
      DecodeEvent(spec, events, Atom(name)) == Err(UnknownVariant(spec.event.value.name, name))
  {
    EnumRefusals(operations, spec.request.name, RequestKinds(spec), Atom(name));
    EnumRefusals(replies, spec.reply.name, ReplyKinds(spec), Atom(name));
    if PayloadKind(name, None) in ReplyKinds(spec) {
      var i :| 0 <= i < |ReplyKinds(spec)| && ReplyKinds(spec)[i] == PayloadKind(name, None);
      assert VariantNames(ReplyKinds(spec))[i] == name;
    }
    if spec.event.Some? {
      EnumRefusals(events, spec.event.value.name, EventKinds(spec), Atom(name));
    }
  }

  // ---- Heads --------------------------------------------------------------

  datatype HeadError = ExpectedRequest | ExpectedHead

  /** Follows first elements through nested brackets to the name of a record, without decoding it. */
  function Head(block: Block): Result<string, HeadError>
    decreases block
  {
    match block.AsDelimited(SquareBracket)
    case Some(sequence) => if sequence == [] then Err(ExpectedRequest) else Head(sequence[0])
    case None =>
      var record :=
        match block.RootObjectAt(0)
        case Some(first) => first.DemoteToString()
        case None => None;
      match if record.Some? then record else block.DemoteToString()
      case Some(head) => Ok(head)
      case None => Err(ExpectedHead)
  }

  /** `core` as the first element of as many brackets as there are lists of further elements, outermost first. */
  function FirstWithin(others: seq<seq<Block>>, core: Block): Block {
    if others == [] then core
    else Delimited(SquareBracket, [FirstWithin(others[1..], core)] + others[0])
  }

  /** A name standing alone, or first in parentheses or braces. */
  ghost predicate Names(core: Block, head: string) {
    || core == Atom(head)
    || (core.Delimited? && core.delimiter != SquareBracket && core.children != [] && core.children[0] == Atom(head))
  }

  ghost predicate HasHead(block: Block, head: string) {
    exists others, core :: block == FirstWithin(others, core) && Names(core, head)
  }

  lemma {:induction false} HeadWithin(others: seq<seq<Block>>, core: Block)
    ensures Head(FirstWithin(others, core)) == Head(core)
  {
    if others != [] {
      HeadWithin(others[1..], core);
    }
  }

  /** Every block is some core, not itself a bracket with anything in it, first within brackets. */
  lemma {:induction false} CoreOf(block: Block) returns (others: seq<seq<Block>>, core: Block)
    ensures block == FirstWithin(others, core) && Head(block) == Head(core)
    ensures core.Delimited? && core.delimiter == SquareBracket ==> core.children == []
    decreases block
  {
    if block.Delimited? && block.delimiter == SquareBracket && block.children != [] {
      var inner, deepest := CoreOf(block.children[0]);
      others, core := [block.children[1..]] + inner, deepest;
      assert others[1..] == inner;
      assert block.children == [block.children[0]] + block.children[1..];
    } else {
      others, core := [], block;
    }
  }

  /** Exactly which blocks have which head, and that a missing request and a missing head are told apart. */
  lemma HeadExact(block: Block)
    ensures forall head :: Head(block) == Ok(head) <==> HasHead(block, head)
    ensures Head(block) == Err(ExpectedRequest)
       <==> exists others :: block == FirstWithin(others, Delimited(SquareBracket, []))
  {
    var others, core := CoreOf(block);
    forall head | HasHead(block, head)
      ensures Head(block) == Ok(head)
    {
      var around, named :| block == FirstWithin(around, named) && Names(named, head);
      HeadWithin(around, named);
    }
    forall head | Head(block) == Ok(head)
      ensures HasHead(block, head)
    {
      assert Names(core, head);
    }
    if around :| block == FirstWithin(around, Delimited(SquareBracket, [])) {
      HeadWithin(around, Delimited(SquareBracket, []));
    }
    if Head(block) == Err(ExpectedRequest) {
      assert core == Delimited(SquareBracket, []);
    }
  }

  datatype Socket = Working | Meta

  datatype RouteError = UnknownRequestHead(head: string) | AmbiguousRequestHead(head: string)

  function RouteHead(workingHeads: seq<Ident>, metaHeads: seq<Ident>, head: string): Result<Socket, RouteError> {
    match (head in workingHeads, head in metaHeads)
    case (true, false) => Ok(Working)
    case (false, true) => Ok(Meta)
    case (true, true) => Err(AmbiguousRequestHead(head))
    case (false, false) => Err(UnknownRequestHead(head))
  }

  lemma HeadOfOperation<P>(spec: ChannelSpec, codec: PayloadCodec<P>, block: Block)
    ensures
      var r := DecodeOperation(spec, codec, block);
      r.Ok? ==> block.AsDelimited(SquareBracket).None? && Head(block) == Ok(r.value.variant)
  {
    NoUnitOperations(spec, codec, block);
  }

  /** Whatever decodes as a request has the name of its first operation for a head, and that is a head of the contract. */
  lemma HeadAgreesWithDecoding<P>(spec: ChannelSpec, codec: PayloadCodec<P>, block: Block)
    requires DecodeRequest(spec, codec, block).Ok?
    ensures
      var first := DecodeRequest(spec, codec, block).value.payloads.head.variant;
      Head(block) == Ok(first) && first in spec.OperationNames()
  {
    match block.AsDelimited(SquareBracket)
    case Some(sequence) => HeadOfOperation(spec, codec, sequence[0]);
    case None => HeadOfOperation(spec, codec, block);
  }

  /** A request of one contract goes to that contract's socket, unless the other contract has the head too. */
  lemma RoutingAgreesWithDecoding<W, M>(
      working: ChannelSpec, workingCodec: PayloadCodec<W>, meta: ChannelSpec, metaCodec: PayloadCodec<M>, block: Block)
    requires Head(block).Ok?
    ensures
      var head := Head(block).value;
      var route := RouteHead(working.OperationNames(), meta.OperationNames(), head);
      && (DecodeRequest(working, workingCodec, block).Ok? ==>
            route == if head in meta.OperationNames() then Err(AmbiguousRequestHead(head)) else Ok(Working))
      && (DecodeRequest(meta, metaCodec, block).Ok? ==>
            route == if head in working.OperationNames() then Err(AmbiguousRequestHead(head)) else Ok(Meta))
      && (route == Ok(Working) ==> DecodeRequest(meta, metaCodec, block).Err?)
      && (route == Ok(Meta) ==> DecodeRequest(working, workingCodec, block).Err?)
      && (route == Err(UnknownRequestHead(head)) ==>
            DecodeRequest(working, workingCodec, block).Err? && DecodeRequest(meta, metaCodec, block).Err?)
  {
    if DecodeRequest(working, workingCodec, block).Ok? {
      HeadAgreesWithDecoding(working, workingCodec, block);
    }
    if DecodeRequest(meta, metaCodec, block).Ok? {
      HeadAgreesWithDecoding(meta, metaCodec, block);
    }
  }

  /** The other direction fails: `[[(name payload)]]` is routed to the contract with the name, and neither decodes it. */
  lemma NestedBracketsRouteOnly<W, M>(
      working: ChannelSpec, workingCodec: PayloadCodec<W>, meta: ChannelSpec, metaCodec: PayloadCodec<M>,
      name: Ident, payload: Block)
    requires name in working.OperationNames() <==> name !in meta.OperationNames()
    ensures
      var nested := Delimited(SquareBracket, [Delimited(SquareBracket, [Delimited(Parenthesis, [Atom(name), payload])])]);
      && Head(nested) == Ok(name)
      && RouteHead(working.OperationNames(), meta.OperationNames(), name)
         == Ok(if name in working.OperationNames() then Working else Meta)
      && DecodeRequest(working, workingCodec, nested).Err?
      && DecodeRequest(meta, metaCodec, nested).Err?
  {
    var record := Delimited(Parenthesis, [Atom(name), payload]);
    var inner := Delimited(SquareBracket, [record]);
    assert Head(record) == Ok(name);
    assert Head(inner) == Ok(name);
    HeadOfOperation(working, workingCodec, inner);
    HeadOfOperation(meta, metaCodec, inner);
  }
}
