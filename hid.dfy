/**
 * The HID class descriptor (section 6.2.1 of HID 1.11) and the HID code
 * tables (src/descriptors/desc_hid.rs).
 */
module HidDesc {
  import opened Bytes
  import opened Errors

  /**
   * `Hid`: nine wire bytes, `hidBcd` and `reportDescriptorLen`
   * little-endian. The descriptor really ends in a list of
   * (type, length) entries; only the first entry is kept.
   */
  datatype Hid = Hid(
    len: u8,
    descriptorType: u8,
    hidBcd: u16,
    countryCode: u8,
    numDescriptions: u8,
    reportDescriptorType: u8,
    reportDescriptorLen: u16)

  const HID_SIZE: nat := 9

  function EncodeHid(h: Hid): (r: seq<u8>)
    ensures |r| == HID_SIZE
  {
    [h.len, h.descriptorType] + Le16Bytes(h.hidBcd)
    + [h.countryCode, h.numDescriptions, h.reportDescriptorType]
    + Le16Bytes(h.reportDescriptorLen)
  }

  /** Checked decoder: fails on fewer than nine bytes, else re-encodes to exactly the bytes read. */
  function DecodeHid(b: seq<u8>): (r: Result<Hid>)
    ensures r.Ok? <==> |b| >= HID_SIZE
    ensures r.Err? ==> r.error == Truncated
    ensures r.Ok? ==> EncodeHid(r.value) == b[..HID_SIZE]
  {
    if |b| < HID_SIZE then Err(Truncated)
    else Ok(Hid(b[0], b[1], Le16(b[2], b[3]), b[4], b[5], b[6], Le16(b[7], b[8])))
  }

  lemma HidRoundTrip(h: Hid)
    ensures DecodeHid(EncodeHid(h)) == Ok(h)
  {
  }

  /** `HIDDescriptorTypes::Hid`: the HID class descriptor's type code. */
  const HID_DESCRIPTOR_TYPE: u8 := 0x21

  /** `USBHIDSubclassDescriptorType`. */
  datatype HidSubclass = NoSubclass | BootInterface {
    function Code(): u8 {
      match this
      case NoSubclass => 0
      case BootInterface => 1
    }
  }

  /** `USBHIDProtocolDescriptorType`. */
  datatype HidProtocol = NoProtocol | KeyBoard | Mouse {
    function Code(): u8 {
      match this
      case NoProtocol => 0
      case KeyBoard => 1
      case Mouse => 2
    }
  }

  /** `USBHIDSubclassDescriptorType::from_u8`: defined exactly on 0 and 1, inverse to `Code`. */
  function HidSubclassFromCode(c: u8): (r: Option<HidSubclass>)
    ensures r.Some? <==> c <= 1
    ensures r.Some? ==> r.value.Code() == c
  {
    if c == 0 then Some(NoSubclass) else if c == 1 then Some(BootInterface) else None
  }

  /** `USBHIDProtocolDescriptorType::from_u8`: defined exactly on 0 to 2, inverse to `Code`. */
  function HidProtocolFromCode(c: u8): (r: Option<HidProtocol>)
    ensures r.Some? <==> c <= 2
    ensures r.Some? ==> r.value.Code() == c
  {
    if c == 0 then Some(NoProtocol)
    else if c == 1 then Some(KeyBoard)
    else if c == 2 then Some(Mouse)
    else None
  }
}
