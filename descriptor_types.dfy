/**
 * The standard descriptor-type catalog (Table 9-5 in section 9.4 of the
 * USB 2.0 specification, extended by USB 3.x) and the header peek that
 * every dispatch decision starts from (src/descriptors/mod.rs).
 */
module DescriptorTypes {
  import opened Bytes
  import opened Errors

  /** `USBStandardDescriptorTypes`: the fifteen cataloged type codes. */
  datatype DescriptorType =
    | Device
    | Configuration
    | String
    | Interface
    | Endpoint
    | DeviceQualifier
    | OtherSpeedConfiguration
    | InterfacePower1
    | Otg
    | Debug
    | InterfaceAssociation
    | Bos
    | DeviceCapability
    | SuperSpeedEndpointCompanion
    | SuperSpeedPlusIsochEndpointCompanion
  {
    /** The `bDescriptorType` code of this type (the enum's `repr(u8)`). */
    function Code(): u8 {
      match this
      case Device => 0x01
      case Configuration => 0x02
      case String => 0x03
      case Interface => 0x04
      case Endpoint => 0x05
      case DeviceQualifier => 0x06
      case OtherSpeedConfiguration => 0x07
      case InterfacePower1 => 0x08
      case Otg => 0x09
      case Debug => 0x0A
      case InterfaceAssociation => 0x0B
      case Bos => 0x0F
      case DeviceCapability => 0x10
      case SuperSpeedEndpointCompanion => 0x30
      case SuperSpeedPlusIsochEndpointCompanion => 0x31
    }
  }

  /**
   * `USBStandardDescriptorTypes::from_u8`: the cataloged type with code
   * `c`, if there is one. It is the inverse of `Code`: a result names a
   * type with that code, and no result means no type has it.
   */
  function FromCode(c: u8): (r: Option<DescriptorType>)
    ensures r.Some? ==> r.value.Code() == c
    ensures r.None? ==> forall t: DescriptorType :: t.Code() != c
  {
    if c == 0x01 then Some(Device)
    else if c == 0x02 then Some(Configuration)
    else if c == 0x03 then Some(String)
    else if c == 0x04 then Some(Interface)
    else if c == 0x05 then Some(Endpoint)
    else if c == 0x06 then Some(DeviceQualifier)
    else if c == 0x07 then Some(OtherSpeedConfiguration)
    else if c == 0x08 then Some(InterfacePower1)
    else if c == 0x09 then Some(Otg)
    else if c == 0x0A then Some(Debug)
    else if c == 0x0B then Some(InterfaceAssociation)
    else if c == 0x0F then Some(Bos)
    else if c == 0x10 then Some(DeviceCapability)
    else if c == 0x30 then Some(SuperSpeedEndpointCompanion)
    else if c == 0x31 then Some(SuperSpeedPlusIsochEndpointCompanion)
    else None
  }

  /** Converting a type to its code and back yields the same type. */
  lemma {:induction false} FromCodeOfCode(t: DescriptorType)
    ensures FromCode(t.Code()) == Some(t)
  {
    match t
    case Device =>
    case Configuration =>
    case String =>
    case Interface =>
    case Endpoint =>
    case DeviceQualifier =>
    case OtherSpeedConfiguration =>
    case InterfacePower1 =>
    case Otg =>
    case Debug =>
    case InterfaceAssociation =>
    case Bos =>
    case DeviceCapability =>
    case SuperSpeedEndpointCompanion =>
    case SuperSpeedPlusIsochEndpointCompanion =>
  }

  /** The catalog codes are pairwise distinct. */
  lemma CodesDistinct(t1: DescriptorType, t2: DescriptorType)
    ensures t1.Code() == t2.Code() ==> t1 == t2
  {
    FromCodeOfCode(t1);
    FromCodeOfCode(t2);
  }

  /** The codes outside the catalog: 0, the gaps 0x0C-0x0E and 0x11-0x2F, and everything above 0x31. */
  predicate Uncataloged(c: u8) {
    c == 0 || 0x0C <= c <= 0x0E || 0x11 <= c <= 0x2F || c > 0x31
  }

  /** `from_u8` finds no type exactly for the uncataloged codes. */
  lemma UncatalogedCodes(c: u8)
    ensures Uncataloged(c) <==> FromCode(c).None?
  {
    if FromCode(c).Some? {
      var t := FromCode(c).value;
      match t
      case Device =>
      case Configuration =>
      case String =>
      case Interface =>
      case Endpoint =>
      case DeviceQualifier =>
      case OtherSpeedConfiguration =>
      case InterfacePower1 =>
      case Otg =>
      case Debug =>
      case InterfaceAssociation =>
      case Bos =>
      case DeviceCapability =>
      case SuperSpeedEndpointCompanion =>
      case SuperSpeedPlusIsochEndpointCompanion =>
    }
  }

  /**
   * `peek_type`: read the header at the start of `data` without consuming
   * it. Byte 1 is the type code, byte 0 the declared length. An
   * uncataloged code yields `Ended` when both bytes are zero and
   * `PeekFailed(code)` otherwise. Rust indexes `data[1]` unchecked, so
   * fewer than two bytes panics; the model reports `Truncated`.
   */
  function PeekType(data: seq<u8>): (r: Result<(DescriptorType, u8)>)
    ensures r == Err(Truncated) <==> |data| < 2
    ensures |data| >= 2 ==> (r.Ok? <==> FromCode(data[1]).Some?)
    ensures r.Ok? ==> r.value.0.Code() == data[1] && r.value.1 == data[0]
    ensures r == Err(Ended) <==> |data| >= 2 && data[0] == 0 && data[1] == 0
    ensures |data| >= 2 && FromCode(data[1]).None? && !(data[0] == 0 && data[1] == 0)
            ==> r == Err(PeekFailed(data[1]))
  {
    if |data| < 2 then Err(Truncated)
    else match FromCode(data[1])
      case Some(t) => Ok((t, data[0]))
      case None => if data[0] == 0 && data[1] == 0 then Err(Ended) else Err(PeekFailed(data[1]))
  }

  /** The peek depends on the first two bytes only. */
  lemma PeekReadsTwoBytes(a: seq<u8>, b: seq<u8>)
    requires |a| >= 2 && |b| >= 2 && a[0] == b[0] && a[1] == b[1]
    ensures PeekType(a) == PeekType(b)
  {
  }

  /** A cataloged type with a zero length byte is a normal peek, not the end sentinel. */
  lemma PeekZeroLengthInterface()
    ensures PeekType([0, 4]) == Ok((Interface, 0))
  {
    assert FromCode(4) == Some(Interface);
  }

  /** `PortSpeed`: the root-hub port speed codes. */
  datatype PortSpeed = FullSpeed | LowSpeed | HighSpeed | SuperSpeed | SuperSpeedPlus {
    function Code(): u8 {
      match this
      case FullSpeed => 1
      case LowSpeed => 2
      case HighSpeed => 3
      case SuperSpeed => 4
      case SuperSpeedPlus => 5
    }
  }

  /** `PortSpeed::from_u8`: defined exactly on the codes 1 to 5, and inverse to `Code`. */
  function PortSpeedFromCode(c: u8): (r: Option<PortSpeed>)
    ensures r.Some? <==> 1 <= c <= 5
    ensures r.Some? ==> r.value.Code() == c
  {
    if c == 1 then Some(FullSpeed)
    else if c == 2 then Some(LowSpeed)
    else if c == 3 then Some(HighSpeed)
    else if c == 4 then Some(SuperSpeed)
    else if c == 5 then Some(SuperSpeedPlus)
    else None
  }
}
