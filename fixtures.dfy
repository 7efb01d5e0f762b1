/**
 * The byte strings of the tests in src/descriptors/parser.rs:289-329,
 * decoded by the model: each leaf record, the device header, the
 * interface group a HID module would read, and `parse_config` over an
 * empty registry and over a registry holding a HID module.
 */
module Fixtures {
  import opened Bytes
  import opened Errors
  import DT = DescriptorTypes
  import opened EndpointDesc
  import opened HidDesc
  import opened Extensions
  import opened InterfaceDesc
  import opened ConfigurationDesc
  import opened DeviceDesc
  import opened Registry
  import opened LeafParsers
  import opened Parser
  import opened InterfaceGroup
  import opened ContainedParsers

  /** The pieces of the configuration buffer of `test_parse_config`. */
  const CONFIG_BYTES: seq<u8> := [9, 2, 34, 0, 1, 1, 6, 160, 50]
  const INTERFACE_BYTES: seq<u8> := [9, 4, 0, 0, 1, 3, 1, 2, 0]
  const HID_BYTES: seq<u8> := [9, 33, 1, 0, 0, 1, 34, 52, 0]
  const ENDPOINT_BYTES: seq<u8> := [7, 5, 129, 3, 4, 0, 7]
  const END_BYTES: seq<u8> := [0, 0]

  /** What follows the configuration header: one interface with its HID descriptor and endpoint. */
  const GROUP_INPUT: seq<u8> := INTERFACE_BYTES + HID_BYTES + ENDPOINT_BYTES + END_BYTES

  /** The configuration buffer of `test_parse_config`. */
  const CONFIG_INPUT: seq<u8> := CONFIG_BYTES + GROUP_INPUT

  /** The device buffer of `test_peek_device`. */
  const DEVICE_INPUT: seq<u8> := [18, 1, 0, 2, 0, 0, 0, 64, 39, 6, 1, 0, 0, 0, 1, 2, 9, 1]

  const CONFIG: Configuration := Configuration(9, 2, 34, 1, 1, 6, 160, 50)
  const IFACE: Interface := Interface(9, 4, 0, 0, 1, 3, 1, 2, 0)
  const HID: Hid := Hid(9, 33, 1, 0, 1, 34, 52)
  const EP: Endpoint := Endpoint(7, 5, 129, 3, 4, 7, None)

  /** The alternate the expected output of `test_parse_config` lists. */
  const ALTERNATE: UsbInterface := UsbInterface(IFACE, [EP], "hid", [HidExt(HID)])

  /** The leaf records of `test_parse_config`, field by field. */
  lemma LeafFixtures()
    ensures DecodeConfiguration(CONFIG_BYTES) == Ok(CONFIG)
    ensures DecodeInterface(INTERFACE_BYTES) == Ok(IFACE) && IFACE.Ty() == (3, 1, 2)
    ensures DecodeHid(HID_BYTES) == Ok(HID) && HidExt(HID).ActualLen() == 9
    ensures DecodeEndpoint(ENDPOINT_BYTES) == Ok(EP) && EndpointTypeOf(EP) == InterruptIn
  {
  }

  /** `test_peek_device`: the device header with version 0x0200 and vendor 1575. */
  lemma DeviceFixture()
    ensures PeekDeviceDesc(DEVICE_INPUT) == Ok(Device(18, 1, 512, 0, 0, 0, 64, 1575, 1, 0, 1, 2, 9, 1))
  {
    DT.FromCodeOfCode(DT.Device);
  }

  /** A probe that recognises the HID class descriptor, as a HID module would pass to the group parser. */
  function HidProbe(s: seq<u8>): Option<Extension> {
    if |s| >= HID_SIZE && s[1] == HID_DESCRIPTOR_TYPE then Some(HidExt(DecodeHid(s).value)) else None
  }

  /** The first turn of the endpoint loop after the interface header: the HID descriptor. */
  lemma HidTurnFixture()
    ensures Classify(GROUP_INPUT, HidProbe, 9) == NextExtra(HidExt(HID))
  {
    var rest := GROUP_INPUT[9..];
    assert rest == HID_BYTES + ENDPOINT_BYTES + END_BYTES;
    assert rest[..HID_SIZE] == HID_BYTES;
    assert DecodeHid(rest) == Ok(HID);
    assert HidProbe(rest) == Some(HidExt(HID));
    assert GROUP_INPUT[10] == 33 && DT.Uncataloged(33);
  }

  /** The second turn: the interrupt endpoint, 7 bytes. */
  lemma EndpointTurnFixture()
    ensures Classify(GROUP_INPUT, HidProbe, 18) == NextEndpoint(EP, 7)
  {
    assert GROUP_INPUT[18..25] == ENDPOINT_BYTES;
  }

  /** The third turn: the zero header, which ends the body. */
  lemma EndTurnFixture()
    ensures Classify(GROUP_INPUT, HidProbe, 25) == NextStop
  {
    assert GROUP_INPUT[25..] == END_BYTES;
  }

  /** The endpoint loop at the zero header: the body ends at byte 25. */
  lemma ScanEndFixture()
    ensures ScanBody(GROUP_INPUT, HidProbe, 25, 0, [EP], [HidExt(HID)]) == Ok(Body([EP], [HidExt(HID)], 0, 25))
  {
    EndTurnFixture();
  }

  /** The endpoint loop at the endpoint: it takes the one endpoint the header announces. */
  lemma ScanEndpointFixture()
    ensures ScanBody(GROUP_INPUT, HidProbe, 18, 1, [], [HidExt(HID)]) == Ok(Body([EP], [HidExt(HID)], 0, 25))
  {
    EndpointTurnFixture();
    ScanEndFixture();
    var eps: seq<Endpoint> := [];
    assert eps + [EP] == [EP];
  }

  /** The endpoint loop from the interface header: the HID descriptor, then the endpoint, then the end. */
  lemma ScanFixture()
    ensures ScanBody(GROUP_INPUT, HidProbe, 9, 1, [], []) == Ok(Body([EP], [HidExt(HID)], 0, 25))
  {
    HidTurnFixture();
    ScanEndpointFixture();
    var exs: seq<Extension> := [];
    assert exs + [HidExt(HID)] == [HidExt(HID)];
  }

  /** The one alternate: its HID descriptor and its endpoint, ending at byte 25. */
  lemma AlternateFixture()
    ensures ParseAlternate(GROUP_INPUT, HidProbe, "hid", IFACE, 9) == Ok((ALTERNATE, 25))
  {
    ScanFixture();
  }

  /**
   * The interface group after the configuration header: one alternate
   * with its endpoint and its HID descriptor, taking 25 bytes; the group
   * stops at the zero header that ends the buffer.
   */
  lemma GroupFixture()
    ensures InterfaceGroupSpec(GROUP_INPUT, HidProbe, 9, "hid") == Ok(([ALTERNATE], 25))
  {
    AlternateFixture();
    assert GROUP_INPUT[..9] == INTERFACE_BYTES;
    assert GROUP_INPUT[25..] == END_BYTES;
    DT.PeekZeroLengthInterface();
    assert DT.PeekType(END_BYTES) == Err(Ended);
    assert GroupFrom(GROUP_INPUT, HidProbe, "hid", 0, 25, [ALTERNATE]) == Ok(([ALTERNATE], 25));
  }

  /**
   * `test_parse_config` builds an empty registry, so the Interface at
   * byte 9 finds no module.
   */
  lemma EmptyRegistryFixture()
    ensures ConfigurationOf([], CONFIG_INPUT) == Err(NoSuitableModule)
  {
    assert CONFIG_INPUT[..9] == CONFIG_BYTES;
  }

  /**
   * With a HID module whose parser reads the interface group above, the
   * configuration holds that one function and the cursor stops at the
   * zero header, byte 34: the output the test expects.
   */
  lemma HidRegistryFixture(parse: seq<u8> -> Result<(UsbFunction, nat)>)
    requires parse(GROUP_INPUT) == Ok((InterfaceFunction([ALTERNATE]), 25))
    ensures ConfigurationOf([HidModule(parse)], CONFIG_INPUT)
            == Ok((TopologyConfigDesc(CONFIG, [InterfaceFunction([ALTERNATE])]), 34))
  {
    var mods := [HidModule(parse)];
    var f := InterfaceFunction([ALTERNATE]);
    assert CONFIG_INPUT[..9] == CONFIG_BYTES;
    assert CONFIG_INPUT[9..] == GROUP_INPUT;
    assert CONFIG_INPUT[34..] == END_BYTES;
    assert Accepts(mods[0], (3, 1, 2));
    assert ConfigStep(mods, CONFIG_INPUT, 34) == Ok(None);
    assert ConfigStep(mods, CONFIG_INPUT, 9) == Ok(Some((f, 25)));
    assert ConfigWalk(mods, CONFIG_INPUT, 9, 34, [(f, 25)]) == Ok(([(f, 25)], 34));
    assert ConfigWalk(mods, CONFIG_INPUT, 9, 9, []) == Ok(([(f, 25)], 34));
    assert Firsts([(f, 25 as nat)]) == [f];
  }
}
