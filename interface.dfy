/**
 * Interface (section 9.6.5 of USB 2.0) and Interface Association
 * (section 9.6.4 of USB 3.2) descriptors, and the nodes of the decoded
 * tree built from them (src/descriptors/desc_interface.rs).
 */
module InterfaceDesc {
  import opened Bytes
  import opened Errors
  import opened EndpointDesc
  import opened Extensions

  /** `InterfaceIdentifier`: a (class, subclass, protocol) triple. */
  type Triple = (u8, u8, u8)

  /** `Interface`: nine packed wire bytes in field order. */
  datatype Interface = Interface(
    len: u8,
    descriptorType: u8,
    interfaceNumber: u8,
    alternateSetting: u8,
    numEndpoints: u8,
    interfaceClass: u8,
    interfaceSubclass: u8,
    interfaceProtocol: u8,
    interfaceString: u8)
  {
    /** `ty`. */
    function Ty(): Triple {
      (interfaceClass, interfaceSubclass, interfaceProtocol)
    }
  }

  const INTERFACE_SIZE: nat := 9

  function EncodeInterface(i: Interface): (r: seq<u8>)
    ensures |r| == INTERFACE_SIZE
  {
    [i.len, i.descriptorType, i.interfaceNumber, i.alternateSetting, i.numEndpoints,
     i.interfaceClass, i.interfaceSubclass, i.interfaceProtocol, i.interfaceString]
  }

  /** Checked decoder: fails on fewer than nine bytes, else re-encodes to exactly the bytes read. */
  function DecodeInterface(b: seq<u8>): (r: Result<Interface>)
    ensures r.Ok? <==> |b| >= INTERFACE_SIZE
    ensures r.Err? ==> r.error == Truncated
    ensures r.Ok? ==> EncodeInterface(r.value) == b[..INTERFACE_SIZE]
  {
    if |b| < INTERFACE_SIZE then Err(Truncated)
    else Ok(Interface(b[0], b[1], b[2], b[3], b[4], b[5], b[6], b[7], b[8]))
  }

  lemma InterfaceRoundTrip(i: Interface)
    ensures DecodeInterface(EncodeInterface(i)) == Ok(i)
  {
  }

  /** The triple of a decoded interface is wire bytes 5, 6 and 7. */
  lemma InterfaceTyFromWire(b: seq<u8>)
    requires |b| >= INTERFACE_SIZE
    ensures DecodeInterface(b).value.Ty() == (b[5], b[6], b[7])
  {
    var e := EncodeInterface(DecodeInterface(b).value);
    assert e[5] == b[5] && e[6] == b[6] && e[7] == b[7];
  }

  /** `InterfaceAssociation`: eight packed wire bytes in field order. */
  datatype InterfaceAssociation = InterfaceAssociation(
    len: u8,
    descriptorType: u8,
    firstInterface: u8,
    interfaceCount: u8,
    functionClass: u8,
    functionSubclass: u8,
    functionProtocol: u8,
    functionString: u8)
  {
    /** `ty`. */
    function Ty(): Triple {
      (functionClass, functionSubclass, functionProtocol)
    }
  }

  const INTERFACE_ASSOCIATION_SIZE: nat := 8

  function EncodeInterfaceAssociation(a: InterfaceAssociation): (r: seq<u8>)
    ensures |r| == INTERFACE_ASSOCIATION_SIZE
  {
    [a.len, a.descriptorType, a.firstInterface, a.interfaceCount,
     a.functionClass, a.functionSubclass, a.functionProtocol, a.functionString]
  }

  /** Checked decoder: fails on fewer than eight bytes, else re-encodes to exactly the bytes read. */
  function DecodeInterfaceAssociation(b: seq<u8>): (r: Result<InterfaceAssociation>)
    ensures r.Ok? <==> |b| >= INTERFACE_ASSOCIATION_SIZE
    ensures r.Err? ==> r.error == Truncated
    ensures r.Ok? ==> EncodeInterfaceAssociation(r.value) == b[..INTERFACE_ASSOCIATION_SIZE]
  {
    if |b| < INTERFACE_ASSOCIATION_SIZE then Err(Truncated)
    else Ok(InterfaceAssociation(b[0], b[1], b[2], b[3], b[4], b[5], b[6], b[7]))
  }

  lemma InterfaceAssociationRoundTrip(a: InterfaceAssociation)
    ensures DecodeInterfaceAssociation(EncodeInterfaceAssociation(a)) == Ok(a)
  {
  }

  /** The function triple of a decoded association is wire bytes 4, 5 and 6. */
  lemma InterfaceAssociationTyFromWire(b: seq<u8>)
    requires |b| >= INTERFACE_ASSOCIATION_SIZE
    ensures DecodeInterfaceAssociation(b).value.Ty() == (b[4], b[5], b[6])
  {
    var e := EncodeInterfaceAssociation(DecodeInterfaceAssociation(b).value);
    assert e[4] == b[4] && e[5] == b[5] && e[6] == b[6];
  }

  /**
   * `USBInterface`: one alternate setting, its endpoints and its
   * class-specific descriptors in stream order, and the name of the
   * module that produced it.
   */
  datatype UsbInterface = UsbInterface(
    interface: Interface,
    endpoints: seq<Endpoint>,
    flag: string,
    extra: seq<Extension>)

  /**
   * `TopologyUSBFunction`: a group of alternate settings of one
   * interface, or an association with its nested groups and its own
   * class-specific descriptors.
   */
  datatype UsbFunction =
    | InterfaceFunction(alternates: seq<UsbInterface>)
    | AssociationFunction(header: InterfaceAssociation, groups: seq<seq<UsbInterface>>, extra: seq<Extension>)

  /** `is_alternative`: whether `ident` describes the same interface slot as `u`. */
  predicate IsAlternative(u: UsbInterface, ident: Interface) {
    u.interface.interfaceNumber == ident.interfaceNumber
  }

  /**
   * `is_alternative` is reflexive and symmetric, and ignores the
   * alternate setting and every other field of `ident`.
   */
  lemma IsAlternativeIsSlotEquality(u: UsbInterface, v: UsbInterface, ident: Interface, alt: u8)
    ensures IsAlternative(u, u.interface)
    ensures IsAlternative(u, v.interface) == IsAlternative(v, u.interface)
    ensures IsAlternative(u, ident.(alternateSetting := alt)) == IsAlternative(u, ident)
  {
  }
}
