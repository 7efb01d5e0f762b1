/**
 * The Configuration descriptor (section 9.6.3 of USB 2.0) and the
 * configuration node of the decoded tree
 * (src/descriptors/desc_configuration.rs). The source's getters return
 * each field unchanged; Dafny's field selectors play their part.
 */
module ConfigurationDesc {
  import opened Bytes
  import opened Errors
  import opened InterfaceDesc

  /** `Configuration`: nine packed wire bytes, `totalLength` little-endian at bytes 2-3. */
  datatype Configuration = Configuration(
    length: u8,
    ty: u8,
    totalLength: u16,
    numInterfaces: u8,
    configVal: u8,
    configString: u8,
    attributes: u8,
    maxPower: u8)

  const CONFIGURATION_SIZE: nat := 9

  function EncodeConfiguration(c: Configuration): (r: seq<u8>)
    ensures |r| == CONFIGURATION_SIZE
  {
    [c.length, c.ty] + Le16Bytes(c.totalLength)
    + [c.numInterfaces, c.configVal, c.configString, c.attributes, c.maxPower]
  }

  /** Checked decoder: fails on fewer than nine bytes, else re-encodes to exactly the bytes read. */
  function DecodeConfiguration(b: seq<u8>): (r: Result<Configuration>)
    ensures r.Ok? <==> |b| >= CONFIGURATION_SIZE
    ensures r.Err? ==> r.error == Truncated
    ensures r.Ok? ==> EncodeConfiguration(r.value) == b[..CONFIGURATION_SIZE]
  {
    if |b| < CONFIGURATION_SIZE then Err(Truncated)
    else Ok(Configuration(b[0], b[1], Le16(b[2], b[3]), b[4], b[5], b[6], b[7], b[8]))
  }

  lemma ConfigurationRoundTrip(c: Configuration)
    ensures DecodeConfiguration(EncodeConfiguration(c)) == Ok(c)
  {
  }

  /** `total_length` is the little-endian value of wire bytes 2 and 3. */
  lemma TotalLengthFromWire(b: seq<u8>)
    requires |b| >= CONFIGURATION_SIZE
    ensures DecodeConfiguration(b).value.totalLength == b[2] as int + 0x100 * (b[3] as int)
  {
  }

  /** `TopologyConfigDesc`: the header and its functions in stream order. */
  datatype TopologyConfigDesc = TopologyConfigDesc(desc: Configuration, functions: seq<UsbFunction>)
}
