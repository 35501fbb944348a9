/** Contract identity, wire revision and contract-local route. */
module Binding {
  import opened Wrappers
  import opened Bytes

  /** Zero is reserved for frames that carry no production binding. */
  type ContractId = x: int | 0 < x < 0x1_0000_0000 witness 1
  type WireRevision = x: int | 0 < x < 0x1_0000 witness 1

  datatype ContractBinding = ContractBinding(contract: ContractId, revision: WireRevision)

  datatype WireRoute = WireRoute(root: u8, variant: u8)

  datatype BindingIdentifierError = ReservedContractId | ReservedWireRevision

  datatype WireRouteError = BitsOutsideRoute(value: u64)

  datatype FrameError =
    | ArchiveSerialize
    | ArchiveDeserialize
    | ShortLengthPrefix
    | ShortHeaderTooShort(found: nat)
    | LengthMismatch(expected: nat, length: nat)
    | UnboundHeader
    | ContractMismatch(expectedContract: ContractId, foundContract: ContractId)
    | UnsupportedWireRevision(contract: ContractId, expectedRevision: WireRevision, foundRevision: WireRevision)
    | InvalidRoute(route: WireRouteError)

  function TryContractId(value: u32): (r: Result<ContractId, BindingIdentifierError>)
    ensures r.Ok? <==> value != 0
    ensures if r.Ok? then r.value == value else r.error == ReservedContractId
  {
    if value != 0 then Ok(value) else Err(ReservedContractId)
  }

  function TryWireRevision(value: u16): (r: Result<WireRevision, BindingIdentifierError>)
    ensures r.Ok? <==> value != 0
    ensures if r.Ok? then r.value == value else r.error == ReservedWireRevision
  {
    if value != 0 then Ok(value) else Err(ReservedWireRevision)
  }

  /** A log variant is a route exactly when nothing above its low sixteen bits is set. */
  function RouteFromLogVariant(value: u64): (r: Result<WireRoute, WireRouteError>)
    ensures r.Ok? <==> value < 0x1_0000
    ensures if r.Ok? then value == r.value.root + 0x100 * r.value.variant else r.error == BitsOutsideRoute(value)
  {
    if value / 0x1_0000 != 0 then Err(BitsOutsideRoute(value))
    else Ok(WireRoute(value % 0x100, value / 0x100 % 0x100))
  }
}
