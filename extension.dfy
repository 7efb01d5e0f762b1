/**
 * Class-specific ("extension") descriptors as the walker sees them: a
 * descriptor type (`desc_type`, the one method of the `TopologyDescriptor`
 * trait in src/lib.rs:50-52) and the number of bytes the descriptor
 * occupies (`actual_len`, which the HID record implements at
 * src/descriptors/desc_hid.rs:22 and the walker calls at
 * src/descriptors/parser.rs:209 and 253).
 *
 * The source stores them as shared trait objects; the model uses a
 * closed datatype: the HID class descriptor, which is the one
 * implementation in the source, and an uninterpreted class-specific
 * record that carries only those two values.
 */
module Extensions {
  import opened Bytes
  import opened HidDesc

  datatype Extension =
    | HidExt(hid: Hid)
    | ClassSpecific(descriptorType: u8, length: nat)
  {
    /** `desc_type`. */
    function DescType(): u8 {
      match this
      case HidExt(h) => h.descriptorType
      case ClassSpecific(t, _) => t
    }

    /** `actual_len`: the bytes the walker skips for this descriptor. */
    function ActualLen(): nat {
      match this
      case HidExt(h) => h.len
      case ClassSpecific(_, n) => n
    }
  }

  /**
   * For a HID descriptor read from the wire, `actual_len` is its length
   * byte and `desc_type` its type byte.
   */
  lemma HidExtensionReadsHeader(b: seq<u8>)
    requires |b| >= HID_SIZE
    ensures HidExt(DecodeHid(b).value).ActualLen() == b[0]
    ensures HidExt(DecodeHid(b).value).DescType() == b[1]
  {
    assert EncodeHid(DecodeHid(b).value)[0] == b[0];
    assert EncodeHid(DecodeHid(b).value)[1] == b[1];
  }
}
