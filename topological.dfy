/**
 * The topological view of a decoded device
 * (src/descriptors/topological_desc.rs): a device with its
 * configurations, each with its functions, and the two accessors over
 * it. The tree refers to record types that the repository no longer
 * defines (a parser metadata record and a generic descriptor enum), so
 * it is modelled as its own datatype, with the class-specific
 * descriptors of `Extensions` in place of the generic enum.
 */
module Topological {
  import opened Bytes
  import opened Errors
  import opened EndpointDesc
  import opened Extensions
  import opened InterfaceDesc
  import opened ConfigurationDesc
  import opened DeviceDesc

  /** `TopologicalUSBDescriptorEndpoint`: a standard endpoint, or a UVC interrupt endpoint record. */
  datatype TopoEndpoint =
    | Standard(endpoint: Endpoint)
    | VideoControlInterrupt(len: u8, descriptorType: u8, descriptorSubType: u8, maxTransferSize: u16)

  /** One alternate setting: its header, its class-specific descriptors and its endpoints. */
  type Alternate = (Interface, seq<Extension>, seq<TopoEndpoint>)

  /** `TopologicalUSBDescriptorFunction`. */
  datatype TopoFunction =
    | TopoAssociation(association: InterfaceAssociation, children: seq<TopoFunction>)
    | TopoInterface(alternates: seq<Alternate>)

  datatype TopoConfiguration = TopoConfiguration(data: Configuration, child: seq<TopoFunction>)

  datatype TopoDevice = TopoDevice(data: Device, child: seq<TopoConfiguration>)

  /** `TopologicalUSBDescriptorRoot`; the parser metadata it also names is not part of this model. */
  datatype TopoRoot = TopoRoot(device: TopoDevice, others: seq<Extension>)

  /** `USBFunctionExpressions`: the record that describes one function of the device. */
  datatype FunctionExpression =
    | InterfaceExpr(interface: Interface)
    | AssociationExpr(association: InterfaceAssociation)
    | DeviceExpr(device: Device)

  /** `class_subclass_protocol`: the triple of the record the expression refers to. */
  function ClassSubclassProtocol(e: FunctionExpression): Triple {
    match e
    case InterfaceExpr(i) => i.Ty()
    case AssociationExpr(a) => a.Ty()
    case DeviceExpr(d) => (d.deviceClass, d.deviceSubclass, d.deviceProtocol)
  }

  /**
   * For records read from the wire, `class_subclass_protocol` is the
   * triple at the record's own offsets: bytes 5-7 of an Interface, bytes
   * 4-6 of an association and bytes 4-6 of a Device, the same bytes the
   * parser dispatches on.
   */
  lemma ClassSubclassProtocolFromWire(b: seq<u8>)
    requires |b| >= DEVICE_SIZE
    ensures ClassSubclassProtocol(InterfaceExpr(DecodeInterface(b).value)) == (b[5], b[6], b[7])
    ensures ClassSubclassProtocol(AssociationExpr(DecodeInterfaceAssociation(b).value)) == (b[4], b[5], b[6])
    ensures ClassSubclassProtocol(DeviceExpr(DecodeDevice(b).value)) == (b[4], b[5], b[6])
  {
    InterfaceTyFromWire(b);
    InterfaceAssociationTyFromWire(b);
    var e := EncodeDevice(DecodeDevice(b).value);
    assert e[4] == b[4] && e[5] == b[5] && e[6] == b[6];
  }

  /** The expression of one function: an association's header, or a group's first alternate. */
  function Expression(f: TopoFunction): FunctionExpression
    requires f.TopoInterface? ==> |f.alternates| > 0
  {
    match f
    case TopoAssociation(ia, _) => AssociationExpr(ia)
    case TopoInterface(alts) => InterfaceExpr(alts[0].0)
  }

  /** Every Interface function has an alternate, which the source `expect`s. */
  predicate GroupsNonEmpty(fs: seq<TopoFunction>) {
    forall f | f in fs :: f.TopoInterface? ==> |f.alternates| > 0
  }

  /** The `map` of `interfaces`: one expression per function, in order. */
  function Expressions(fs: seq<TopoFunction>): (r: seq<FunctionExpression>)
    requires GroupsNonEmpty(fs)
    ensures |r| == |fs|
    ensures forall i | 0 <= i < |fs| ::
              (fs[i].TopoAssociation? ==> r[i] == AssociationExpr(fs[i].association))
              && (fs[i].TopoInterface? ==> r[i] == InterfaceExpr(fs[i].alternates[0].0))
    decreases |fs|
  {
    if |fs| == 0 then [] else [Expression(fs[0])] + Expressions(fs[1..])
  }

  /**
   * What `interfaces` needs to avoid its two `expect`s: when the device
   * refers to interfaces, a first configuration, whose Interface
   * functions each have an alternate.
   */
  predicate InterfacesDefined(root: TopoRoot, referInterface: bool) {
    referInterface ==> |root.device.child| > 0 && GroupsNonEmpty(root.device.child[0].child)
  }

  /**
   * `interfaces`: with `referInterface` (the device's
   * `is_refer_interface`, whose definition is not part of this model),
   * one expression per function of the first configuration, in order;
   * otherwise the device itself.
   */
  function Interfaces(root: TopoRoot, referInterface: bool): (r: seq<FunctionExpression>)
    requires InterfacesDefined(root, referInterface)
    ensures !referInterface ==> r == [DeviceExpr(root.device.data)]
    ensures referInterface ==>
              var fs := root.device.child[0].child;
              |r| == |fs|
              && forall i | 0 <= i < |fs| ::
                   (fs[i].TopoAssociation? ==> r[i] == AssociationExpr(fs[i].association))
                   && (fs[i].TopoInterface? ==> r[i] == InterfaceExpr(fs[i].alternates[0].0))
    ensures referInterface ==> forall e | e in r :: !e.DeviceExpr?
  {
    if referInterface then Expressions(root.device.child[0].child)
    else [DeviceExpr(root.device.data)]
  }

  /**
   * The triples of `interfaces`: for a device that refers to
   * interfaces, each function's triple is that of its first alternate or
   * of its association header, the function's own header record;
   * otherwise the device's own class, subclass and protocol.
   */
  lemma InterfacesTriples(root: TopoRoot, referInterface: bool)
    requires InterfacesDefined(root, referInterface)
    ensures var r := Interfaces(root, referInterface);
            referInterface ==>
              var fs := root.device.child[0].child;
              forall i | 0 <= i < |fs| ::
                ClassSubclassProtocol(r[i])
                == if fs[i].TopoInterface? then fs[i].alternates[0].0.Ty() else fs[i].association.Ty()
    ensures !referInterface ==>
              var d := root.device.data;
              Interfaces(root, referInterface) == [DeviceExpr(d)]
              && ClassSubclassProtocol(Interfaces(root, referInterface)[0])
                 == (d.deviceClass, d.deviceSubclass, d.deviceProtocol)
  {
  }

  /** The `map` of `configs`: each configuration's header, in order. */
  function Headers(cs: seq<TopoConfiguration>): (r: seq<Configuration>)
    ensures |r| == |cs|
    ensures forall i | 0 <= i < |cs| :: r[i] == cs[i].data
    decreases |cs|
  {
    if |cs| == 0 then [] else [cs[0].data] + Headers(cs[1..])
  }

  /** `configs`: one header per configuration of the device, in order. */
  function Configs(root: TopoRoot): (r: seq<Configuration>)
    ensures |r| == |root.device.child|
    ensures forall i | 0 <= i < |r| :: r[i] == root.device.child[i].data
  {
    Headers(root.device.child)
  }
}
