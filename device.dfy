/**
 * The Device descriptor (section 9.6.1 of USB 2.0) and the root of the
 * decoded tree. The source file defining them, desc_device.rs, is not
 * part of this model: the field list follows the Device value that the
 * test at src/descriptors/parser.rs:312-327 expects, which is the
 * standard eighteen-byte layout.
 */
module DeviceDesc {
  import opened Bytes
  import opened Errors
  import opened ConfigurationDesc

  datatype Device = Device(
    len: u8,
    descriptorType: u8,
    cdUsb: u16,
    deviceClass: u8,
    deviceSubclass: u8,
    deviceProtocol: u8,
    maxPacketSize0: u8,
    vendor: u16,
    productId: u16,
    device: u16,
    manufacture: u8,
    product: u8,
    serialNumber: u8,
    numConfigurations: u8)

  const DEVICE_SIZE: nat := 18

  function EncodeDevice(d: Device): (r: seq<u8>)
    ensures |r| == DEVICE_SIZE
  {
    [d.len, d.descriptorType] + Le16Bytes(d.cdUsb)
    + [d.deviceClass, d.deviceSubclass, d.deviceProtocol, d.maxPacketSize0]
    + Le16Bytes(d.vendor) + Le16Bytes(d.productId) + Le16Bytes(d.device)
    + [d.manufacture, d.product, d.serialNumber, d.numConfigurations]
  }

  /** Checked decoder: fails on fewer than eighteen bytes, else re-encodes to exactly the bytes read. */
  function DecodeDevice(b: seq<u8>): (r: Result<Device>)
    ensures r.Ok? <==> |b| >= DEVICE_SIZE
    ensures r.Err? ==> r.error == Truncated
    ensures r.Ok? ==> EncodeDevice(r.value) == b[..DEVICE_SIZE]
  {
    if |b| < DEVICE_SIZE then Err(Truncated)
    else Ok(Device(b[0], b[1], Le16(b[2], b[3]), b[4], b[5], b[6], b[7],
                   Le16(b[8], b[9]), Le16(b[10], b[11]), Le16(b[12], b[13]),
                   b[14], b[15], b[16], b[17]))
  }

  lemma DeviceRoundTrip(d: Device)
    ensures DecodeDevice(EncodeDevice(d)) == Ok(d)
  {
  }

  /** `TopologyDeviceDesc`: the device header and its configurations in stream order. */
  datatype TopologyDeviceDesc = TopologyDeviceDesc(desc: Device, configs: seq<TopologyConfigDesc>)
}
