/**
 * The standard Endpoint descriptor (section 9.6.6 of USB 2.0) and the
 * bit-field arithmetic a host controller driver derives from it: the
 * transfer type and the Device Context Index of xHCI 1.2 (sections 6.2.3
 * and 4.5.1), the xHCI interval, Mult and MaxPStreams
 * (src/descriptors/desc_endpoint.rs).
 */
module EndpointDesc {
  import opened Bytes
  import opened Errors
  import DT = DescriptorTypes

  /** `SuperSpeedCmp`: the SuperSpeed endpoint companion record. */
  datatype SuperSpeedCmp = SuperSpeedCmp(kind: u8, maxBurst: u8, attributes: u8, bytesPerInterval: u16)

  /**
   * `Endpoint`: seven wire bytes (`maxPacketSize` little-endian) plus the
   * in-memory companion `ssc`, which is not part of the wire layout.
   */
  datatype Endpoint = Endpoint(
    len: u8,
    descriptorType: u8,
    endpointAddress: u8,
    attributes: u8,
    maxPacketSize: u16,
    interval: u8,
    ssc: Option<SuperSpeedCmp>)

  /** Bytes of an Endpoint descriptor on the wire. */
  const ENDPOINT_SIZE: nat := 7

  /** The wire bytes of an endpoint's fixed fields. */
  function EncodeEndpoint(e: Endpoint): (r: seq<u8>)
    ensures |r| == ENDPOINT_SIZE
  {
    [e.len, e.descriptorType, e.endpointAddress, e.attributes]
    + Le16Bytes(e.maxPacketSize) + [e.interval]
  }

  /**
   * Checked decoder replacing the unchecked `cast`: fails on fewer than
   * seven bytes; otherwise the record re-encodes to exactly the seven
   * bytes it was read from, and carries no companion.
   */
  function DecodeEndpoint(b: seq<u8>): (r: Result<Endpoint>)
    ensures r.Ok? <==> |b| >= ENDPOINT_SIZE
    ensures r.Err? ==> r.error == Truncated
    ensures r.Ok? ==> r.value.ssc.None? && EncodeEndpoint(r.value) == b[..ENDPOINT_SIZE]
  {
    if |b| < ENDPOINT_SIZE then Err(Truncated)
    else Ok(Endpoint(b[0], b[1], b[2], b[3], Le16(b[4], b[5]), b[6], None))
  }

  /** Decoding the encoding of a companion-less endpoint gives it back. */
  lemma EndpointRoundTrip(e: Endpoint)
    requires e.ssc.None?
    ensures DecodeEndpoint(EncodeEndpoint(e)) == Ok(e)
  {
  }

  /** `EndpointType`: the xHCI Endpoint Type field values (section 6.2.3 of xHCI 1.2). */
  datatype EndpointType =
    | NotValid
    | IsochOut
    | BulkOut
    | InterruptOut
    | Control
    | IsochIn
    | BulkIn
    | InterruptIn
  {
    function Code(): nat {
      match this
      case NotValid => 0
      case IsochOut => 1
      case BulkOut => 2
      case InterruptOut => 3
      case Control => 4
      case IsochIn => 5
      case BulkIn => 6
      case InterruptIn => 7
    }
  }

  /** `EndpointType::from_u8`: defined exactly on 0..7, and inverse to `Code`. */
  function EndpointTypeFromCode(c: int): (r: Option<EndpointType>)
    ensures r.Some? <==> 0 <= c < 8
    ensures r.Some? ==> r.value.Code() == c
  {
    if c == 0 then Some(NotValid)
    else if c == 1 then Some(IsochOut)
    else if c == 2 then Some(BulkOut)
    else if c == 3 then Some(InterruptOut)
    else if c == 4 then Some(Control)
    else if c == 5 then Some(IsochIn)
    else if c == 6 then Some(BulkIn)
    else if c == 7 then Some(InterruptIn)
    else None
  }

  /**
   * `endpoint_type`: Control when `attributes` is 0; otherwise the
   * transfer kind is bits 0..=1 of `attributes` and bit 7 of the address
   * (IN) adds 4. The code is always below 8, so the conversion the source
   * guards with `expect` always succeeds.
   */
  function EndpointTypeOf(e: Endpoint): (r: EndpointType)
    ensures e.attributes == 0 ==> r == Control
    ensures e.attributes != 0 ==> r.Code() % 4 == e.attributes % 4
    ensures e.attributes != 0 ==> (r.Code() >= 4 <==> e.endpointAddress >= 0x80)
  {
    var code := if e.attributes == 0 then 4
                else e.attributes % 4 + (if e.endpointAddress / 0x80 == 1 then 4 else 0);
    EndpointTypeFromCode(code).value
  }

  predicate IsIsoch(t: EndpointType) {
    t == IsochOut || t == IsochIn
  }

  /** 2 to the power `n`. */
  function Pow2(n: nat): (r: nat)
    ensures r >= 1
  {
    if n == 0 then 1 else 2 * Pow2(n - 1)
  }

  /**
   * `calc_actual_interval`: the xHCI Interval field. At full and low
   * speed it is `interval + 2` for isochronous endpoints and
   * `interval + 3` otherwise; at any other speed `interval - 1`. The
   * source computes in `u8` without a check, so the caller must keep the
   * sum below 256 and, at high speed and above, `interval` at least 1.
   */
  function CalcActualInterval(e: Endpoint, speed: DT.PortSpeed): (r: u8)
    requires (speed == DT.FullSpeed || speed == DT.LowSpeed) && IsIsoch(EndpointTypeOf(e)) ==> e.interval <= 253
    requires (speed == DT.FullSpeed || speed == DT.LowSpeed) && !IsIsoch(EndpointTypeOf(e)) ==> e.interval <= 252
    requires speed != DT.FullSpeed && speed != DT.LowSpeed ==> e.interval >= 1
    ensures (speed == DT.FullSpeed || speed == DT.LowSpeed) && IsIsoch(EndpointTypeOf(e)) ==> r == e.interval + 2
    ensures (speed == DT.FullSpeed || speed == DT.LowSpeed) && !IsIsoch(EndpointTypeOf(e)) ==> r == e.interval + 3
    ensures speed != DT.FullSpeed && speed != DT.LowSpeed ==> r + 1 == e.interval
  {
    if speed == DT.FullSpeed || speed == DT.LowSpeed then
      if IsIsoch(EndpointTypeOf(e)) then e.interval + 2 else e.interval + 3
    else
      e.interval - 1
  }

  /**
   * The xHCI interval describes the same service period as `bInterval`:
   * an isochronous full- or low-speed endpoint is served every
   * 2^(bInterval-1) frames of 1 ms, and a high-speed or faster endpoint
   * every 2^(bInterval-1) microframes; xHCI counts in 125 us units.
   * Nothing is stated for the `interval + 3` arm: a full- or low-speed
   * interrupt endpoint's `bInterval` counts frames linearly.
   */
  lemma {:induction false} IntervalKeepsPeriod(e: Endpoint, speed: DT.PortSpeed)
    requires 1 <= e.interval <= 252
    ensures (speed == DT.FullSpeed || speed == DT.LowSpeed) && IsIsoch(EndpointTypeOf(e))
            ==> Pow2(CalcActualInterval(e, speed)) == 8 * Pow2(e.interval - 1)
    ensures speed != DT.FullSpeed && speed != DT.LowSpeed
            ==> Pow2(CalcActualInterval(e, speed)) == Pow2(e.interval - 1)
  {
    var n := e.interval - 1;
    assert Pow2(n + 3) == 2 * Pow2(n + 2) == 4 * Pow2(n + 1) == 8 * Pow2(n);
  }

  predicate IsBulkOut(e: Endpoint) {
    EndpointTypeOf(e) == BulkOut
  }

  /**
   * `calculate_max_streams`: the MaxStreams bits (0..=4) of the companion's
   * attributes for a bulk OUT endpoint, 0 for any other. `unwrap` panics
   * without a companion, so one is required.
   */
  function CalculateMaxStreams(e: Endpoint): (r: u8)
    requires e.ssc.Some?
    ensures r <= 31
    ensures IsBulkOut(e) ==> r == e.ssc.value.attributes % 32
    ensures !IsBulkOut(e) ==> r == 0
  {
    if IsBulkOut(e) then e.ssc.value.attributes % 0x20 else 0
  }

  /**
   * `max_streams`: a value exactly for bulk OUT endpoints, namely the
   * companion's MaxStreams field, at most 31.
   */
  function MaxStreams(e: Endpoint): (r: Option<u8>)
    requires IsBulkOut(e) ==> e.ssc.Some?
    ensures r.Some? <==> EndpointTypeOf(e) == BulkOut
    ensures r.Some? ==> r.value == e.ssc.value.attributes % 32 && r.value <= 31
  {
    if IsBulkOut(e) then Some(CalculateMaxStreams(e)) else None
  }

  /**
   * `mult`: the Mult field, at most 3. It is 0 when `lec` is set, when the
   * endpoint is not isochronous OUT, or when there is no companion;
   * otherwise bits 0..=1 of the companion's attributes. The source also
   * returns 0 for SuperSpeedPlus endpoints, but its `is_superspeedplus`
   * always answers false, so that branch never runs and is not modelled.
   */
  function Mult(e: Endpoint, lec: bool): (r: u8)
    ensures r <= 3
    ensures lec || EndpointTypeOf(e) != IsochOut || e.ssc.None? ==> r == 0
    ensures !lec && EndpointTypeOf(e) == IsochOut && e.ssc.Some? ==> r == e.ssc.value.attributes % 4
  {
    if !lec && EndpointTypeOf(e) == IsochOut then
      match e.ssc
        case Some(ssc) => ssc.attributes % 4
        case None => 0
    else 0
  }

  /**
   * `doorbell_value_aka_dci`: the Device Context Index, twice the
   * endpoint number (address bits 0..=3) plus the direction bit (bit 7).
   * It lies in 0..31 and gives both parts back: halving yields the
   * endpoint number, the parity yields the direction.
   */
  function DoorbellValueAkaDci(e: Endpoint): (r: nat)
    ensures r <= 31
    ensures r / 2 == e.endpointAddress % 16
    ensures r % 2 == e.endpointAddress / 0x80
  {
    2 * (e.endpointAddress % 16) + e.endpointAddress / 0x80
  }
}
