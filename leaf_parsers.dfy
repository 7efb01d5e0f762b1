/**
 * The single-record parsers of src/descriptors/parser.rs: each peeks the
 * header, insists on one descriptor type, and reads the record from the
 * first `bLength` bytes. The source's unchecked `cast` becomes a checked
 * decoder; a slice shorter than the header (a panic in the source) is
 * `Truncated`.
 */
module LeafParsers {
  import opened Bytes
  import opened Errors
  import DT = DescriptorTypes
  import opened EndpointDesc
  import opened InterfaceDesc
  import opened DeviceDesc

  /** The header at the start of `input` peeks as type `t`. */
  predicate HeaderIs(input: seq<u8>, t: DT.DescriptorType) {
    var p := DT.PeekType(input);
    p.Ok? && p.value.0 == t
  }

  /**
   * `peek_device_desc`: the Device record at the start of `input`.
   * Anything but a Device header is `NotDeviceDescriptor`.
   */
  function PeekDeviceDesc(input: seq<u8>): (r: Result<Device>)
    ensures |input| < 2 ==> r == Err(Truncated)
    ensures |input| >= 2 && !HeaderIs(input, DT.Device) ==> r == Err(NotDeviceDescriptor)
    ensures HeaderIs(input, DT.Device) ==> (r.Ok? <==> DEVICE_SIZE <= input[0] <= |input|)
    ensures r.Ok? ==> input[1] == 0x01 && EncodeDevice(r.value) == input[..DEVICE_SIZE]
  {
    if |input| < 2 then Err(Truncated)
    else if !HeaderIs(input, DT.Device) then Err(NotDeviceDescriptor)
    else
      var b :- Prefix(input, input[0]);
      DecodeDevice(b)
  }

  /**
   * `parse_endpoint`: the Endpoint record at the start of `input` and the
   * bytes it occupies, which is its declared length. Anything but an
   * Endpoint header is `NotEndpoint`.
   */
  function ParseEndpoint(input: seq<u8>): (r: Result<(Endpoint, nat)>)
    ensures |input| < 2 ==> r == Err(Truncated)
    ensures |input| >= 2 && !HeaderIs(input, DT.Endpoint) ==> r == Err(NotEndpoint)
    ensures HeaderIs(input, DT.Endpoint) ==> (r.Ok? <==> ENDPOINT_SIZE <= input[0] <= |input|)
    ensures r.Err? ==> r.error == Truncated || r.error == NotEndpoint
    ensures r.Ok? ==> r.value.1 == input[0] && input[1] == 0x05
    ensures r.Ok? ==> r.value.0.ssc.None? && EncodeEndpoint(r.value.0) == input[..ENDPOINT_SIZE]
  {
    if |input| < 2 then Err(Truncated)
    else if !HeaderIs(input, DT.Endpoint) then Err(NotEndpoint)
    else
      var b :- Prefix(input, input[0]);
      var e :- DecodeEndpoint(b);
      Ok((e, input[0] as nat))
  }

  /** `parse_single_interface`: the Interface record at the start of `input`; any other header is `NotFunction`. */
  function ParseSingleInterface(input: seq<u8>): (r: Result<Interface>)
    ensures |input| < 2 ==> r == Err(Truncated)
    ensures |input| >= 2 && !HeaderIs(input, DT.Interface) ==> r == Err(NotFunction)
    ensures HeaderIs(input, DT.Interface) ==> (r.Ok? <==> INTERFACE_SIZE <= input[0] <= |input|)
    ensures r.Err? ==> r.error == Truncated || r.error == NotFunction
    ensures r.Ok? ==> input[1] == 0x04 && EncodeInterface(r.value) == input[..INTERFACE_SIZE]
  {
    if |input| < 2 then Err(Truncated)
    else if !HeaderIs(input, DT.Interface) then Err(NotFunction)
    else
      var b :- Prefix(input, input[0]);
      DecodeInterface(b)
  }

  /** `parse_interface_association`: the association record at the start of `input`; any other header is `NotFunction`. */
  function ParseInterfaceAssociation(input: seq<u8>): (r: Result<InterfaceAssociation>)
    ensures |input| < 2 ==> r == Err(Truncated)
    ensures |input| >= 2 && !HeaderIs(input, DT.InterfaceAssociation) ==> r == Err(NotFunction)
    ensures HeaderIs(input, DT.InterfaceAssociation)
            ==> (r.Ok? <==> INTERFACE_ASSOCIATION_SIZE <= input[0] <= |input|)
    ensures r.Err? ==> r.error == Truncated || r.error == NotFunction
    ensures r.Ok? ==> input[1] == 0x0B
                      && EncodeInterfaceAssociation(r.value) == input[..INTERFACE_ASSOCIATION_SIZE]
  {
    if |input| < 2 then Err(Truncated)
    else if !HeaderIs(input, DT.InterfaceAssociation) then Err(NotFunction)
    else
      var b :- Prefix(input, input[0]);
      DecodeInterfaceAssociation(b)
  }
}
