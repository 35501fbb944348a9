/** The bound frame codec: packed short header, length prefix and guarded body decoding. */
module Frame {
  import opened Wrappers
  import opened Bytes
  import opened Binding

  const SHORT_HEADER_BYTE_COUNT: nat := 8
  const LENGTH_PREFIX_BYTE_COUNT: nat := 4

  // ---- Short header -------------------------------------------------------

  function ContractBits(header: u64): u32 { header % 0x1_0000_0000 }
  function RevisionBits(header: u64): u16 { header / 0x1_0000_0000 % 0x1_0000 }
  function VariantBits(header: u64): u8 { header / 0x1_0000_0000_0000 % 0x100 }
  function RootBits(header: u64): u8 { header / 0x100_0000_0000_0000 % 0x100 }

  /** A header that passed validation: both identifiers are non-zero. */
  type ShortHeader = h: u64 | ContractBits(h) != 0 && RevisionBits(h) != 0 witness 0x1_0000_0001

  /** Packs the four disjoint fields; the shifted fields never overlap, so their bitwise or is their sum. */
  function Bound(binding: ContractBinding, route: WireRoute): (h: ShortHeader)
    ensures BindingOf(h) == binding && RouteOf(h) == route
  {
    PackedFields(binding.contract, binding.revision, route.variant, route.root);
    binding.contract
    + binding.revision * 0x1_0000_0000
    + route.variant * 0x1_0000_0000_0000
    + route.root * 0x100_0000_0000_0000
  }

  lemma PackedFields(contract: u32, revision: u16, variant: u8, root: u8)
    ensures
      var h := contract + revision * 0x1_0000_0000 + variant * 0x1_0000_0000_0000 + root * 0x100_0000_0000_0000;
      && 0 <= h < 0x1_0000_0000_0000_0000
      && ContractBits(h) == contract && RevisionBits(h) == revision
      && VariantBits(h) == variant && RootBits(h) == root
  {
    var h := contract + revision * 0x1_0000_0000 + variant * 0x1_0000_0000_0000 + root * 0x100_0000_0000_0000;
    assert h / 0x1_0000_0000 == revision + variant * 0x1_0000 + root * 0x100_0000;
    assert h / 0x1_0000_0000_0000 == variant + root * 0x100;
    assert h / 0x100_0000_0000_0000 == root;
  }

  function BindingOf(h: ShortHeader): ContractBinding {
    ContractBinding(ContractBits(h), RevisionBits(h))
  }

  function RouteOf(h: ShortHeader): WireRoute {
    WireRoute(RootBits(h), VariantBits(h))
  }

  /** `Bound` and the two projections are mutual inverses: a header is exactly its binding and route. */
  lemma HeaderIsItsParts(h: ShortHeader)
    ensures Bound(BindingOf(h), RouteOf(h)) == h
  {
    FieldsRebuild(h);
  }

  lemma FieldsRebuild(h: u64)
    ensures h == ContractBits(h) + RevisionBits(h) * 0x1_0000_0000
                 + VariantBits(h) * 0x1_0000_0000_0000 + RootBits(h) * 0x100_0000_0000_0000
  {
    var aboveContract := h / 0x1_0000_0000;
    var aboveRevision := aboveContract / 0x1_0000;
    var root := aboveRevision / 0x100;
    assert h / 0x1_0000_0000_0000 == aboveRevision;
    assert h / 0x100_0000_0000_0000 == root && root < 0x100;
    assert h == ContractBits(h) + aboveContract * 0x1_0000_0000;
    assert aboveContract == RevisionBits(h) + aboveRevision * 0x1_0000;
    assert aboveRevision == VariantBits(h) + root * 0x100;
  }

  /** Acceptance of raw header bits; the value itself is kept. */
  function ValidateRaw(raw: u64): (r: Result<ShortHeader, FrameError>)
    ensures r.Ok? ==> r.value == raw
    ensures r.Err? ==> r.error == UnboundHeader && (ContractBits(raw) == 0 || RevisionBits(raw) == 0)
  {
    if TryContractId(ContractBits(raw)).Err? || TryWireRevision(RevisionBits(raw)).Err? then Err(UnboundHeader)
    else Ok(raw)
  }

  function HeaderBytes(h: u64): (bytes: seq<u8>)
    ensures |bytes| == SHORT_HEADER_BYTE_COUNT && LeValue(bytes) == h
  {
    WordRanges();
    LeBytes(h, SHORT_HEADER_BYTE_COUNT)
  }

  lemma HeaderValueByFields(bytes: seq<u8>)
    requires |bytes| == SHORT_HEADER_BYTE_COUNT
    ensures LeValue(bytes) == LeValue(bytes[..4]) + LeValue(bytes[4..6]) * 0x1_0000_0000
                              + bytes[6] as int * 0x1_0000_0000_0000 + bytes[7] as int * 0x100_0000_0000_0000
  {
    var middle, route := bytes[4..6], bytes[6..];
    assert bytes == bytes[..4] + bytes[4..] && bytes[4..] == middle + route;
    LeValueSplit(bytes[..4], bytes[4..]);
    LeValueSplit(middle, route);
    ShiftWords(LeValue(bytes[4..]));
    ShiftWords(LeValue(route));
    assert LeValue(route) == bytes[6] as int + 0x100 * bytes[7] as int by {
      assert route == [bytes[6]] + [bytes[7]];
      LeValueSplit([bytes[6]], [bytes[7]]);
      ShiftWords(LeValue([bytes[7]]));
      assert LeValue([bytes[6]]) == bytes[6] && LeValue([bytes[7]]) == bytes[7];
    }
  }

  /** On the wire the contract is bytes 0 to 3, the revision bytes 4 and 5, the variant byte 6, the root byte 7. */
  lemma HeaderFieldBytes(bytes: seq<u8>)
    requires |bytes| == SHORT_HEADER_BYTE_COUNT
    ensures LeValue(bytes) < 0x1_0000_0000_0000_0000
    ensures ContractBits(LeValue(bytes)) == LittleEndian32(bytes)
    ensures RevisionBits(LeValue(bytes)) == LittleEndian16(bytes[4..])
    ensures VariantBits(LeValue(bytes)) == bytes[6]
    ensures RootBits(LeValue(bytes)) == bytes[7]
  {
    HeaderValueByFields(bytes);
    LeValueOfFour(bytes[..4]);
    LeValueOfTwo(bytes[4..6]);
    PackedFields(LittleEndian32(bytes), LittleEndian16(bytes[4..]), bytes[6], bytes[7]);
  }

  /** The bytes a bound header is written as. */
  lemma BoundHeaderBytes(binding: ContractBinding, route: WireRoute)
    ensures
      var bytes := HeaderBytes(Bound(binding, route));
      && LittleEndian32(bytes) == binding.contract && LittleEndian16(bytes[4..]) == binding.revision
      && bytes[6] == route.variant && bytes[7] == route.root
  {
    var h := Bound(binding, route);
    HeaderFieldBytes(HeaderBytes(h));
    assert BindingOf(h) == binding && RouteOf(h) == route;
  }

  // ---- Length prefix ------------------------------------------------------

  function LengthPrefixed(archive: seq<u8>): Result<seq<u8>, FrameError> {
    WordRanges();
    if |archive| > U32_MAX then Err(LengthMismatch(U32_MAX, |archive|))
    else Ok(BeBytes(|archive|, LENGTH_PREFIX_BYTE_COUNT) + archive)
  }

  function StripLengthPrefix(bytes: seq<u8>): Result<seq<u8>, FrameError> {
    if |bytes| < LENGTH_PREFIX_BYTE_COUNT then Err(ShortLengthPrefix)
    else
      var expected := BeValue(bytes[..LENGTH_PREFIX_BYTE_COUNT]);
      var payload := bytes[LENGTH_PREFIX_BYTE_COUNT..];
      if |payload| != expected then Err(LengthMismatch(expected, |payload|)) else Ok(payload)
  }

  /** Stripping and prefixing describe one relation read in two directions. */
  lemma StripInvertsPrefix(archive: seq<u8>, bytes: seq<u8>)
    ensures StripLengthPrefix(bytes) == Ok(archive) <==> LengthPrefixed(archive) == Ok(bytes)
  {
    WordRanges();
    if LengthPrefixed(archive) == Ok(bytes) {
      assert bytes[..4] == BeBytes(|archive|, 4) && bytes[4..] == archive;
    }
    if StripLengthPrefix(bytes) == Ok(archive) {
      BeValueInjective(bytes[..4], BeBytes(|archive|, 4));
      assert bytes == bytes[..4] + bytes[4..];
    }
  }

  /** Which byte strings carry a prefix, and how the others are refused. */
  lemma StripOutcome(bytes: seq<u8>)
    ensures StripLengthPrefix(bytes) ==
      if |bytes| < 4 then Err(ShortLengthPrefix)
      else if |bytes| - 4 != BigEndian32(bytes) then Err(LengthMismatch(BigEndian32(bytes), |bytes| - 4))
      else Ok(bytes[4..])
  {
    if |bytes| >= 4 {
      BeValueOfFour(bytes[..4]);
    }
  }

  /** Writes the length, most significant byte first, and the archive into one growing buffer. */
  method LengthPrefix(archive: seq<u8>) returns (r: Result<seq<u8>, FrameError>)
    ensures r == LengthPrefixed(archive)
    ensures r.Ok? ==> |r.value| == 4 + |archive| && StripLengthPrefix(r.value) == Ok(archive)
    ensures r.Ok? ==>
      |archive| == 0x100_0000 * r.value[0] as int + 0x1_0000 * r.value[1] as int + 0x100 * r.value[2] as int
                   + r.value[3] as int
    ensures r.Ok? <==> |archive| <= 0xffff_ffff
    ensures r.Err? ==> r.error == LengthMismatch(0xffff_ffff, |archive|)
  {
    if |archive| > U32_MAX {
      return Err(LengthMismatch(U32_MAX, |archive|));
    }
    WordRanges();
    var framed: seq<u8> := [];
    framed := framed + BeBytes(|archive|, LENGTH_PREFIX_BYTE_COUNT);
    framed := framed + archive;
    assert framed == BeBytes(|archive|, LENGTH_PREFIX_BYTE_COUNT) + archive;
    StripInvertsPrefix(archive, framed);
    StripOutcome(framed);
    return Ok(framed);
  }

  // ---- Archives -----------------------------------------------------------

  /** The foreign body serializer, taken as a pair of functions. */
  datatype Codec<!Body> = Codec(
    serialize: Body -> Result<seq<u8>, FrameError>,
    deserialize: seq<u8> -> Result<Body, FrameError>)

  ghost predicate RoundTrips<Body(!new)>(codec: Codec<Body>) {
    forall body :: codec.serialize(body).Ok? ==> codec.deserialize(codec.serialize(body).value) == Ok(body)
  }

  datatype Frame<+Body> = Frame(header: ShortHeader, body: Body)

  function NewFrame<Body>(binding: ContractBinding, route: WireRoute, body: Body): (f: Frame<Body>)
    ensures ConstructibleUnder(binding, f) && RouteOf(f.header) == route && f.body == body
  {
    var f := Frame(Bound(binding, route), body);
    assert f == Frame(Bound(binding, RouteOf(f.header)), f.body);
    f
  }

  /** Frame fields are private and `NewFrame` is the one constructor, so these are all the frames of a contract. */
  ghost predicate ConstructibleUnder<Body>(binding: ContractBinding, frame: Frame<Body>) {
    exists route :: frame == Frame(Bound(binding, route), frame.body)
  }

  function HeaderFromArchive(bytes: seq<u8>): Result<u64, FrameError> {
    if |bytes| < SHORT_HEADER_BYTE_COUNT then Err(ShortHeaderTooShort(|bytes|))
    else
      HeaderFieldBytes(bytes[..SHORT_HEADER_BYTE_COUNT]);
      Ok(LeValue(bytes[..SHORT_HEADER_BYTE_COUNT]))
  }

  /** Copies the leading bytes into a fixed buffer and reads it as a little-endian word. */
  method ShortHeaderFromArchive(bytes: seq<u8>) returns (r: Result<u64, FrameError>)
    ensures r == HeaderFromArchive(bytes)
    ensures r.Ok? ==> HeaderBytes(r.value) == bytes[..SHORT_HEADER_BYTE_COUNT]
  {
    if |bytes| < SHORT_HEADER_BYTE_COUNT {
      return Err(ShortHeaderTooShort(|bytes|));
    }
    var headerBytes := new u8[SHORT_HEADER_BYTE_COUNT](_ => 0);
    for i := 0 to SHORT_HEADER_BYTE_COUNT
      invariant headerBytes[..i] == bytes[..i]
    {
      headerBytes[i] := bytes[i];
    }
    assert headerBytes[..] == bytes[..SHORT_HEADER_BYTE_COUNT];
    HeaderFieldBytes(headerBytes[..]);
    LeValueInjective(HeaderBytes(LeValue(headerBytes[..])), headerBytes[..]);
    return Ok(LeValue(headerBytes[..]));
  }

  function EncodeArchive<Body>(codec: Codec<Body>, frame: Frame<Body>): Result<seq<u8>, FrameError> {
    var body :- codec.serialize(frame.body);
    Ok(HeaderBytes(frame.header) + body)
  }

  method EncodeFrameArchive<Body>(codec: Codec<Body>, header: ShortHeader, body: Body)
    returns (r: Result<seq<u8>, FrameError>)
    ensures r == EncodeArchive(codec, Frame(header, body))
    ensures r.Ok? ==> HeaderFromArchive(r.value) == Ok(header)
    ensures r.Ok? ==> codec.serialize(body) == Ok(r.value[SHORT_HEADER_BYTE_COUNT..])
  {
    var bodyArchive :- codec.serialize(body);
    var frameArchive: seq<u8> := [];
    frameArchive := frameArchive + HeaderBytes(header);
    frameArchive := frameArchive + bodyArchive;
    assert frameArchive[..SHORT_HEADER_BYTE_COUNT] == HeaderBytes(header);
    return Ok(frameArchive);
  }

  function EncodeLengthPrefixed<Body>(codec: Codec<Body>, frame: Frame<Body>): Result<seq<u8>, FrameError> {
    var archive :- EncodeArchive(codec, frame);
    LengthPrefixed(archive)
  }

  /** Why a body cannot be sent: the serializer fails, or header and archive outgrow the length prefix. */
  ghost function WireRefusal<Body>(codec: Codec<Body>, body: Body): Option<FrameError> {
    match codec.serialize(body)
    case Err(error) => Some(error)
    case Ok(archive) =>
      if 8 + |archive| > 0xffff_ffff then Some(LengthMismatch(0xffff_ffff, 8 + |archive|)) else None
  }

  /** What a contract's frame looks like on the wire, byte by byte, unless its body cannot be sent. */
  lemma WireImage<Body>(codec: Codec<Body>, binding: ContractBinding, frame: Frame<Body>)
    requires ConstructibleUnder(binding, frame)
    ensures
      var refusal, encoded := WireRefusal(codec, frame.body), EncodeLengthPrefixed(codec, frame);
      if refusal.Some? then encoded == Err(refusal.value)
      else
        && encoded.Ok? && |encoded.value| >= 12
        && BigEndian32(encoded.value) == |encoded.value| - 4
        && LittleEndian32(encoded.value[4..]) == binding.contract
        && LittleEndian16(encoded.value[8..]) == binding.revision
        && encoded.value[10] == RouteOf(frame.header).variant && encoded.value[11] == RouteOf(frame.header).root
        && codec.serialize(frame.body) == Ok(encoded.value[12..])
  {
    var encoded := EncodeLengthPrefixed(codec, frame);
    if encoded.Ok? {
      var header, archive := HeaderBytes(frame.header), codec.serialize(frame.body).value;
      StripInvertsPrefix(header + archive, encoded.value);
      StripOutcome(encoded.value);
      BoundHeaderBytes(binding, RouteOf(frame.header));
      assert encoded.value[4..] == header + archive;
      assert encoded.value[8..] == header[4..] + archive;
      assert encoded.value[12..] == archive;
    }
  }

  function ValidateHeader(binding: ContractBinding, header: ShortHeader): Result<(), FrameError> {
    var found := BindingOf(header);
    if found.contract != binding.contract then Err(ContractMismatch(binding.contract, found.contract))
    else if found.revision != binding.revision then
      Err(UnsupportedWireRevision(binding.contract, binding.revision, found.revision))
    else Ok(())
  }

  /** Everything that must succeed before the body decoder may see a byte: yields the body archive. */
  function GuardArchive(binding: ContractBinding, bytes: seq<u8>): Result<seq<u8>, FrameError> {
    var raw :- HeaderFromArchive(bytes);
    var header :- ValidateRaw(raw);
    var _ :- ValidateHeader(binding, header);
    Ok(bytes[SHORT_HEADER_BYTE_COUNT..])
  }

  function DecodeArchiveWith<Value>(
      binding: ContractBinding, bytes: seq<u8>, decoder: seq<u8> -> Result<Value, FrameError>)
    : Result<Value, FrameError>
  {
    var body :- GuardArchive(binding, bytes);
    decoder(body)
  }

  /** The caller's decoding closure, with a record of the archives it was run on. */
  class BodyDecoder<Value> {
    const run: seq<u8> -> Result<Value, FrameError>
    var calls: seq<seq<u8>>

    constructor (run: seq<u8> -> Result<Value, FrameError>)
      ensures this.run == run && calls == []
    {
      this.run := run;
      calls := [];
    }

    method Decode(archive: seq<u8>) returns (r: Result<Value, FrameError>)
      modifies this
      ensures calls == old(calls) + [archive] && r == run(archive)
    {
      calls := calls + [archive];
      r := run(archive);
    }
  }

  /** The decoder runs once, on the body archive, when no guard refuses, and not at all otherwise. */
  method DecodeGuarded<Value>(binding: ContractBinding, bytes: seq<u8>, decoder: BodyDecoder<Value>)
    returns (r: Result<Value, FrameError>)
    modifies decoder
    ensures r == DecodeArchiveWith(binding, bytes, decoder.run)
    ensures match Refusal(binding, bytes)
            case Some(error) => r == Err(error) && decoder.calls == old(decoder.calls)
            case None => r == decoder.run(bytes[8..]) && decoder.calls == old(decoder.calls) + [bytes[8..]]
  {
    GuardOutcome(binding, bytes);
    var raw :- ShortHeaderFromArchive(bytes);
    var header :- ValidateRaw(raw);
    var _ :- ValidateHeader(binding, header);
    r := decoder.Decode(bytes[SHORT_HEADER_BYTE_COUNT..]);
  }

  method DecodeLengthPrefixedGuarded<Value>(binding: ContractBinding, bytes: seq<u8>, decoder: BodyDecoder<Value>)
    returns (r: Result<Value, FrameError>)
    modifies decoder
    ensures match StripLengthPrefix(bytes)
            case Err(error) => r == Err(error) && decoder.calls == old(decoder.calls)
            case Ok(archive) =>
              && r == DecodeArchiveWith(binding, archive, decoder.run)
              && match Refusal(binding, archive)
                 case Some(error) => r == Err(error) && decoder.calls == old(decoder.calls)
                 case None => r == decoder.run(archive[8..]) && decoder.calls == old(decoder.calls) + [archive[8..]]
  {
    var archive :- StripLengthPrefix(bytes);
    r := DecodeGuarded(binding, archive, decoder);
  }

  /** Which guard refuses, read off the raw bytes: size, then identifiers, then contract, then revision. */
  ghost function Refusal(binding: ContractBinding, bytes: seq<u8>): Option<FrameError> {
    if |bytes| < 8 then Some(ShortHeaderTooShort(|bytes|))
    else
      var contract, revision := LittleEndian32(bytes), LittleEndian16(bytes[4..]);
      if contract == 0 || revision == 0 then Some(UnboundHeader)
      else if contract != binding.contract then Some(ContractMismatch(binding.contract, contract))
      else if revision != binding.revision then
        Some(UnsupportedWireRevision(binding.contract, binding.revision, revision))
      else None
  }

  lemma GuardOutcome(binding: ContractBinding, bytes: seq<u8>)
    ensures GuardArchive(binding, bytes) ==
      match Refusal(binding, bytes)
      case Some(error) => Err(error)
      case None => Ok(bytes[8..])
  {
    if |bytes| >= 8 {
      HeaderFieldBytes(bytes[..8]);
      assert bytes[..8][4..] == bytes[4..8];
    }
  }

  function DecodeFrame<Body>(binding: ContractBinding, codec: Codec<Body>, bytes: seq<u8>)
    : Result<Frame<Body>, FrameError>
  {
    DecodeArchiveWith(binding, bytes, (archive: seq<u8>) =>
      var body :- codec.deserialize(archive);
      var raw :- HeaderFromArchive(bytes);
      var header :- ValidateRaw(raw);
      Ok(NewFrame(binding, RouteOf(header), body)))
  }

  function DecodeLengthPrefixed<Body>(binding: ContractBinding, codec: Codec<Body>, bytes: seq<u8>)
    : Result<Frame<Body>, FrameError>
  {
    var archive :- StripLengthPrefix(bytes);
    DecodeFrame(binding, codec, archive)
  }

  /** What any archive decodes to: the guard's refusal, the deserializer's, or a frame under the route it carries. */
  lemma DecodeOutcome<Body>(binding: ContractBinding, codec: Codec<Body>, bytes: seq<u8>)
    ensures DecodeFrame(binding, codec, bytes) ==
      match Refusal(binding, bytes)
      case Some(error) => Err(error)
      case None =>
        match codec.deserialize(bytes[8..])
        case Err(error) => Err(error)
        case Ok(body) => Ok(NewFrame(binding, WireRoute(bytes[7], bytes[6]), body))
  {
    GuardOutcome(binding, bytes);
    if Refusal(binding, bytes).None? {
      HeaderFieldBytes(bytes[..8]);
      assert bytes[..8][4..] == bytes[4..8];
    }
  }

  /** Decoding rebuilds the header from the route alone, yet loses none of the first eight bytes. */
  lemma DecodedHeaderIsCanonical<Body>(binding: ContractBinding, codec: Codec<Body>, bytes: seq<u8>)
    requires DecodeFrame(binding, codec, bytes).Ok?
    ensures |bytes| >= SHORT_HEADER_BYTE_COUNT
    ensures
      var frame := DecodeFrame(binding, codec, bytes).value;
      && ConstructibleUnder(binding, frame)
      && HeaderBytes(frame.header) == bytes[..SHORT_HEADER_BYTE_COUNT]
      && codec.deserialize(bytes[SHORT_HEADER_BYTE_COUNT..]) == Ok(frame.body)
  {
    GuardOutcome(binding, bytes);
    HeaderFieldBytes(bytes[..8]);
    var header: ShortHeader := LeValue(bytes[..8]);
    HeaderIsItsParts(header);
    LeValueInjective(HeaderBytes(header), bytes[..8]);
  }

  /** An encoded frame of a contract decodes, under that contract, to itself. */
  lemma FrameRoundTrip<Body(!new)>(binding: ContractBinding, codec: Codec<Body>, frame: Frame<Body>)
    requires RoundTrips(codec) && ConstructibleUnder(binding, frame)
    requires EncodeArchive(codec, frame).Ok?
    ensures DecodeFrame(binding, codec, EncodeArchive(codec, frame).value) == Ok(frame)
  {
    var archive := EncodeArchive(codec, frame).value;
    assert archive[..8] == HeaderBytes(frame.header);
    assert archive[8..] == codec.serialize(frame.body).value;
    HeaderFieldBytes(archive[..8]);
    HeaderIsItsParts(frame.header);
    assert ValidateRaw(frame.header) == Ok(frame.header);
  }

  lemma LengthPrefixedRoundTrip<Body(!new)>(binding: ContractBinding, codec: Codec<Body>, frame: Frame<Body>)
    requires RoundTrips(codec) && ConstructibleUnder(binding, frame)
    requires EncodeLengthPrefixed(codec, frame).Ok?
    ensures DecodeLengthPrefixed(binding, codec, EncodeLengthPrefixed(codec, frame).value) == Ok(frame)
  {
    FrameRoundTrip(binding, codec, frame);
    StripInvertsPrefix(EncodeArchive(codec, frame).value, EncodeLengthPrefixed(codec, frame).value);
  }

  /** A frame of one contract is refused by every other binding before its body is read. */
  lemma ForeignFrameNeverReachesDecoder<Body>(
      sender: ContractBinding, receiver: ContractBinding, codec: Codec<Body>, frame: Frame<Body>)
    requires sender != receiver && ConstructibleUnder(sender, frame)
    requires EncodeArchive(codec, frame).Ok?
    ensures
      var archive := EncodeArchive(codec, frame).value;
      && Refusal(receiver, archive) == Some(
           if sender.contract != receiver.contract then ContractMismatch(receiver.contract, sender.contract)
           else UnsupportedWireRevision(receiver.contract, receiver.revision, sender.revision))
      && DecodeFrame(receiver, codec, archive) == Err(Refusal(receiver, archive).value)
  {
    var archive := EncodeArchive(codec, frame).value;
    assert archive[..8] == HeaderBytes(frame.header);
    HeaderFieldBytes(archive[..8]);
    assert archive[..8][4..] == archive[4..8];
    assert BindingOf(frame.header) == sender;
    DecodeOutcome(receiver, codec, archive);
  }
}
