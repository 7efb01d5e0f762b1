/**
 * `parse_interface_group` (src/descriptors/parser.rs:182-280): the
 * helper a class module calls to read one interface and its alternate
 * settings. Starting just after an Interface header, it collects the
 * endpoints and the class-specific descriptors that follow, checks the
 * endpoint count, and then keeps reading alternates while the next
 * header is an Interface with the same interface number.
 *
 * The source reads the "next" header at line 235 from the start of the
 * buffer instead of at the cursor. `GroupFrom` reads it at the cursor,
 * which is what `is_alternative` describes; `GroupFromAsWritten` keeps
 * the source's reading, and the `ReReadWitness` lemmas show an input on which
 * the two differ.
 */
module InterfaceGroup {
  import opened Bytes
  import opened Errors
  import DT = DescriptorTypes
  import opened EndpointDesc
  import opened Extensions
  import opened InterfaceDesc
  import opened LeafParsers

  /** The `extra_parser` argument: recognises a class-specific descriptor at the start of the bytes. */
  type Probe = seq<u8> -> Option<Extension>

  /** Bytes occupied by a run of endpoints. */
  function EndpointBytes(eps: seq<Endpoint>): nat {
    if |eps| == 0 then 0 else EndpointBytes(eps[..|eps| - 1]) + eps[|eps| - 1].len
  }

  /** Bytes occupied by a run of class-specific descriptors, by their `actual_len`. */
  function ExtensionBytes(exs: seq<Extension>): nat {
    if |exs| == 0 then 0 else ExtensionBytes(exs[..|exs| - 1]) + exs[|exs| - 1].ActualLen()
  }

  /** Bytes occupied by the descriptors after an alternate's header. */
  function BodyBytes(u: UsbInterface): nat {
    EndpointBytes(u.endpoints) + ExtensionBytes(u.extra)
  }

  /** Bytes occupied by a run of alternates, headers included. */
  function GroupBytes(alts: seq<UsbInterface>): nat {
    if |alts| == 0 then 0
    else GroupBytes(alts[..|alts| - 1]) + alts[|alts| - 1].interface.len + BodyBytes(alts[|alts| - 1])
  }

  /** The state of the endpoint loop: what it collected, the count still expected, and the cursor. */
  datatype Body = Body(endpoints: seq<Endpoint>, extra: seq<Extension>, remain: nat, cursor: nat)

  /**
   * The descriptor at `at` ends an alternate's body: at least a header's
   * two bytes remain, and it is neither an Endpoint nor an uncataloged
   * descriptor that the probe accepts.
   */
  predicate BodyEnds(input: seq<u8>, probe: Probe, at: nat)
    requires at <= |input|
  {
    var p := DT.PeekType(input[at..]);
    |input| - at >= 2
    && !HeaderIs(input[at..], DT.Endpoint)
    && !(p.Err? && p.error.PeekFailed? && probe(input[at..]).Some?)
  }

  /** What one turn of the endpoint loop finds at the cursor. */
  datatype Next =
    | NextEndpoint(endpoint: Endpoint, len: nat)
    | NextExtra(extension: Extension)
    | NextStop
    | NextFail(error: ParserError)

  /**
   * The arms of the endpoint loop's `match` (parser.rs:199-212,
   * 243-256), read off the header bytes at the cursor: an Endpoint header
   * is parsed; an uncataloged descriptor that the probe accepts is taken
   * as a class-specific descriptor; any other descriptor stops the loop.
   * Fewer than two bytes at the cursor panic in the source (`Truncated`),
   * as does a record reaching past the buffer; an extension of length 0
   * would stall the cursor. `ClassifyMeaning` ties the arms to
   * `peek_type`, `parse_endpoint` and the probe.
   */
  function Classify(input: seq<u8>, probe: Probe, at: nat): (n: Next)
    requires at <= |input|
    ensures n.NextEndpoint? ==> n.len == n.endpoint.len && 0 < n.len && at + n.len <= |input|
    ensures n.NextExtra? ==> 0 < n.extension.ActualLen() && at + n.extension.ActualLen() <= |input|
    ensures n.NextFail? ==> n.error == Truncated || n.error == NoProgress
  {
    if |input| - at < 2 then NextFail(Truncated)
    else if input[at + 1] == 0x05 then
      var len := input[at];
      if len < ENDPOINT_SIZE || at + len > |input| then NextFail(Truncated)
      else NextEndpoint(Endpoint(input[at], input[at + 1], input[at + 2], input[at + 3],
                                 Le16(input[at + 4], input[at + 5]), input[at + 6], None), len)
    else if DT.Uncataloged(input[at + 1]) && !(input[at] == 0 && input[at + 1] == 0)
            && probe(input[at..]).Some? then
      var x := probe(input[at..]).value;
      if x.ActualLen() == 0 then NextFail(NoProgress)
      else if at + x.ActualLen() > |input| then NextFail(Truncated)
      else NextExtra(x)
    else NextStop
  }

  /**
   * `Classify` reads the arms of the source's `match`: an endpoint is what
   * `parse_endpoint` returns at the cursor, an extension is what the probe
   * returns for an uncataloged descriptor, and the loop stops exactly
   * where the descriptor ends the body.
   */
  lemma ClassifyMeaning(input: seq<u8>, probe: Probe, at: nat)
    requires at <= |input|
    ensures var n := Classify(input, probe, at);
            n.NextEndpoint? ==> ParseEndpoint(input[at..]) == Ok((n.endpoint, n.len))
    ensures var n := Classify(input, probe, at);
            n.NextExtra? ==> DT.PeekType(input[at..]).Err? && DT.PeekType(input[at..]).error.PeekFailed?
                             && probe(input[at..]) == Some(n.extension)
    ensures Classify(input, probe, at).NextStop? <==> BodyEnds(input, probe, at)
  {
    if |input| - at >= 2 {
      DT.UncatalogedCodes(input[at + 1]);
    }
  }

  /**
   * The endpoint loop (parser.rs:198-214, 242-258), from cursor `at` with
   * `remain` endpoints still expected and `eps`, `exs` collected so far.
   * An endpoint consumes its declared length and is counted; one more
   * endpoint than expected would take the `u8` counter below zero. A
   * class-specific descriptor consumes its `actual_len`.
   */
  function ScanBody(input: seq<u8>, probe: Probe, at: nat, remain: nat,
                    eps: seq<Endpoint>, exs: seq<Extension>): (r: Result<Body>)
    requires at <= |input|
    ensures r.Ok? ==> at <= r.value.cursor <= |input|
    decreases |input| - at
  {
    match Classify(input, probe, at)
    case NextFail(e) => Err(e)
    case NextStop => Ok(Body(eps, exs, remain, at))
    case NextEndpoint(e, len) =>
      if remain == 0 then Err(TooManyEndpoints)
      else ScanBody(input, probe, at + len, remain - 1, eps + [e], exs)
    case NextExtra(x) => ScanBody(input, probe, at + x.ActualLen(), remain, eps, exs + [x])
  }

  /** The endpoint loop only appends, and every endpoint it takes is counted against `remain`. */
  lemma {:induction false} ScanBodyAppends(input: seq<u8>, probe: Probe, at: nat, remain: nat,
      eps: seq<Endpoint>, exs: seq<Extension>)
    requires at <= |input|
    ensures var r := ScanBody(input, probe, at, remain, eps, exs);
            r.Ok? ==> eps <= r.value.endpoints && exs <= r.value.extra
                      && |r.value.endpoints| + r.value.remain == |eps| + remain
    decreases |input| - at
  {
    match Classify(input, probe, at)
    case NextFail(_) =>
    case NextStop =>
    case NextEndpoint(e, len) =>
      if remain != 0 {
        var eps' := eps + [e];
        assert eps'[..|eps'| - 1] == eps;
        ScanBodyAppends(input, probe, at + len, remain - 1, eps', exs);
      }
    case NextExtra(x) =>
      var exs' := exs + [x];
      assert exs'[..|exs'| - 1] == exs;
      ScanBodyAppends(input, probe, at + x.ActualLen(), remain, eps, exs');
  }

  /** The endpoint loop moves the cursor by exactly the bytes of the endpoints and extensions it takes. */
  lemma {:induction false} ScanBodyAdvance(input: seq<u8>, probe: Probe, at: nat, remain: nat,
      eps: seq<Endpoint>, exs: seq<Extension>)
    requires at <= |input|
    ensures var r := ScanBody(input, probe, at, remain, eps, exs);
            r.Ok? ==> r.value.cursor + EndpointBytes(eps) + ExtensionBytes(exs)
                      == at + EndpointBytes(r.value.endpoints) + ExtensionBytes(r.value.extra)
    decreases |input| - at
  {
    match Classify(input, probe, at)
    case NextFail(_) =>
    case NextStop =>
    case NextEndpoint(e, len) =>
      if remain != 0 {
        var eps' := eps + [e];
        assert eps'[..|eps'| - 1] == eps;
        assert EndpointBytes(eps') == EndpointBytes(eps) + len;
        ScanBodyAdvance(input, probe, at + len, remain - 1, eps', exs);
      }
    case NextExtra(x) =>
      var exs' := exs + [x];
      assert exs'[..|exs'| - 1] == exs;
      assert ExtensionBytes(exs') == ExtensionBytes(exs) + x.ActualLen();
      ScanBodyAdvance(input, probe, at + x.ActualLen(), remain, eps, exs');
  }

  /** The endpoint loop stops only where the descriptor at the cursor ends the body. */
  lemma {:induction false} ScanBodyStops(input: seq<u8>, probe: Probe, at: nat, remain: nat,
      eps: seq<Endpoint>, exs: seq<Extension>)
    requires at <= |input|
    ensures var r := ScanBody(input, probe, at, remain, eps, exs);
            r.Ok? ==> BodyEnds(input, probe, r.value.cursor)
    decreases |input| - at
  {
    match Classify(input, probe, at)
    case NextFail(_) =>
    case NextStop =>
      ClassifyMeaning(input, probe, at);
    case NextEndpoint(e, len) =>
      if remain != 0 {
        var eps' := eps + [e];
        assert eps'[..|eps'| - 1] == eps;
        ScanBodyStops(input, probe, at + len, remain - 1, eps', exs);
      }
    case NextExtra(x) =>
      var exs' := exs + [x];
      assert exs'[..|exs'| - 1] == exs;
      ScanBodyStops(input, probe, at + x.ActualLen(), remain, eps, exs');
  }

  /** The endpoint loop fails only on a short buffer, a surplus endpoint or a stalled cursor. */
  lemma {:induction false} ScanBodyErrors(input: seq<u8>, probe: Probe, at: nat, remain: nat,
      eps: seq<Endpoint>, exs: seq<Extension>)
    requires at <= |input|
    ensures var r := ScanBody(input, probe, at, remain, eps, exs);
            r.Err? ==> r.error == Truncated || r.error == TooManyEndpoints || r.error == NoProgress
    decreases |input| - at
  {
    match Classify(input, probe, at)
    case NextFail(_) =>
    case NextStop =>
    case NextEndpoint(e, len) =>
      if remain != 0 {
        var eps' := eps + [e];
        assert eps'[..|eps'| - 1] == eps;
        ScanBodyErrors(input, probe, at + len, remain - 1, eps', exs);
      }
    case NextExtra(x) =>
      var exs' := exs + [x];
      assert exs'[..|exs'| - 1] == exs;
      ScanBodyErrors(input, probe, at + x.ActualLen(), remain, eps, exs');
  }

  /** An emitted alternate: exactly as many endpoints as its header announces, and the caller's flag. */
  predicate WellFormedAlternate(u: UsbInterface, flag: string) {
    |u.endpoints| == u.interface.numEndpoints && u.flag == flag
  }

  /**
   * One alternate whose header `header` ended at `start`: its body, then
   * `NotEnoughEndpoints` unless the count was met (parser.rs:216-219,
   * 260-263). The result carries the header and flag unchanged and ends
   * where the body ends.
   */
  function ParseAlternate(input: seq<u8>, probe: Probe, flag: string, header: Interface, start: nat)
    : (r: Result<(UsbInterface, nat)>)
    requires start <= |input|
    ensures r.Ok? ==> r.value.0.interface == header && WellFormedAlternate(r.value.0, flag)
    ensures r.Ok? ==> start <= r.value.1 <= |input| && r.value.1 == start + BodyBytes(r.value.0)
    ensures r.Ok? ==> BodyEnds(input, probe, r.value.1)
    ensures ScanBody(input, probe, start, header.numEndpoints, [], []).Ok?
            && ScanBody(input, probe, start, header.numEndpoints, [], []).value.remain != 0
            ==> r == Err(NotEnoughEndpoints)
  {
    ScanBodyAppends(input, probe, start, header.numEndpoints, [], []);
    ScanBodyAdvance(input, probe, start, header.numEndpoints, [], []);
    ScanBodyStops(input, probe, start, header.numEndpoints, [], []);
    var body :- ScanBody(input, probe, start, header.numEndpoints, [], []);
    if body.remain != 0 then Err(NotEnoughEndpoints)
    else Ok((UsbInterface(header, body.endpoints, flag, body.extra), body.cursor))
  }

  /**
   * The descriptor at `at` ends the group: it is not an Interface header,
   * or it is a complete Interface record of another number. (A short
   * Interface record, of any number, is `Truncated` instead.)
   */
  predicate GroupEnds(input: seq<u8>, at: nat, number: u8)
    requires at <= |input|
  {
    var h := ParseSingleInterface(input[at..]);
    h == Err(NotFunction) || (h.Ok? && h.value.interfaceNumber != number)
  }

  /**
   * The alternate loop (parser.rs:231-277) with the next header read at
   * the cursor: each further Interface of number `number` adds one
   * alternate, and the group ends at the first descriptor that is not one.
   */
  function GroupFrom(input: seq<u8>, probe: Probe, flag: string, number: u8, at: nat,
                     alts: seq<UsbInterface>): (r: Result<(seq<UsbInterface>, nat)>)
    requires at <= |input|
    ensures r.Ok? ==> alts <= r.value.0 && at <= r.value.1 <= |input|
    ensures r.Ok? ==> forall i :: |alts| <= i < |r.value.0| ==>
                        WellFormedAlternate(r.value.0[i], flag) && r.value.0[i].interface.interfaceNumber == number
    ensures r.Ok? ==> r.value.1 + GroupBytes(alts) == at + GroupBytes(r.value.0)
    ensures r.Ok? ==> GroupEnds(input, r.value.1, number)
    decreases |input| - at
  {
    var h := ParseSingleInterface(input[at..]);
    if h == Err(NotFunction) then Ok((alts, at))
    else
      var header :- h;
      if header.interfaceNumber != number then Ok((alts, at))
      else
        assert header.len == input[at] by {
          assert EncodeInterface(header)[0] == input[at..][0];
        }
        var alt :- ParseAlternate(input, probe, flag, header, at + input[at]);
        GroupFrom(input, probe, flag, number, alt.1, alts + [alt.0])
  }

  /**
   * `parse_interface_group`, corrected: the Interface header occupies the
   * first `offset` bytes (the caller has checked that an Interface heads
   * the input); the result is one or more alternates of one interface
   * number, each with its announced endpoints and the caller's flag, and
   * the cursor after them, which is exactly the bytes they occupy.
   */
  function InterfaceGroupSpec(input: seq<u8>, probe: Probe, offset: nat, flag: string)
    : (r: Result<(seq<UsbInterface>, nat)>)
    requires |input| >= 2 && input[1] == 0x04 && offset == input[0]
    ensures r.Ok? ==> |r.value.0| >= 1 && |input| >= INTERFACE_SIZE
                      && EncodeInterface(r.value.0[0].interface) == input[..INTERFACE_SIZE]
    ensures r.Ok? ==> forall i :: 0 <= i < |r.value.0| ==>
                        WellFormedAlternate(r.value.0[i], flag) && IsAlternative(r.value.0[0], r.value.0[i].interface)
    ensures r.Ok? ==> r.value.1 == GroupBytes(r.value.0) && r.value.1 <= |input|
    ensures r.Ok? ==> GroupEnds(input, r.value.1, r.value.0[0].interface.interfaceNumber)
  {
    var hb :- Prefix(input, offset);
    var header :- DecodeInterface(hb);
    assert header.len == input[0] by {
      assert EncodeInterface(header)[0] == input[0];
    }
    var first :- ParseAlternate(input, probe, flag, header, offset);
    assert GroupBytes([first.0]) == first.1 by {
      assert [first.0][..0] == [];
    }
    GroupFrom(input, probe, flag, header.interfaceNumber, first.1, [first.0])
  }

  /**
   * `alts` is what the alternate loop reads from cursor `at` up to `end`:
   * each alternate's header is the Interface record at the cursor, its
   * body is parsed right after that header, and the next alternate
   * starts where the body ended.
   */
  predicate AlternatesChained(input: seq<u8>, probe: Probe, flag: string, at: nat,
                              alts: seq<UsbInterface>, end: nat)
    decreases |alts|
  {
    if |alts| == 0 then at == end
    else
      at <= |input| && ParseSingleInterface(input[at..]).Ok?
      && |input| - at >= 2 && at + input[at] <= |input|
      && var alt := ParseAlternate(input, probe, flag, ParseSingleInterface(input[at..]).value, at + input[at]);
         alt.Ok? && alt.value.0 == alts[0] && AlternatesChained(input, probe, flag, alt.value.1, alts[1..], end)
  }

  /** The alternates `GroupFrom` appends are chained from the cursor it starts at to the cursor it returns. */
  lemma {:induction false} GroupFromChained(input: seq<u8>, probe: Probe, flag: string, number: u8, at: nat,
                                           alts: seq<UsbInterface>)
    requires at <= |input|
    ensures var r := GroupFrom(input, probe, flag, number, at, alts);
            r.Ok? ==> AlternatesChained(input, probe, flag, at, r.value.0[|alts|..], r.value.1)
    decreases |input| - at
  {
    var r := GroupFrom(input, probe, flag, number, at, alts);
    var h := ParseSingleInterface(input[at..]);
    if r.Ok? {
      if h == Err(NotFunction) || (h.Ok? && h.value.interfaceNumber != number) {
        assert r.value == (alts, at);
        assert r.value.0[|alts|..] == [];
      } else {
        var header := h.value;
        assert header.len == input[at] by {
          assert EncodeInterface(header)[0] == input[at..][0];
        }
        var alt := ParseAlternate(input, probe, flag, header, at + input[at]).value;
        var alts' := alts + [alt.0];
        GroupFromChained(input, probe, flag, number, alt.1, alts');
        var out := r.value.0;
        assert out[..|alts'|] == alts';
        assert out[|alts|..][0] == alt.0;
        assert out[|alts|..][1..] == out[|alts'|..];
      }
    }
  }

  /**
   * The corrected group is chained from the start of the buffer: every
   * alternate, the first included, is the Interface record at the cursor
   * where the previous one ended, followed by its own body, and the
   * returned cursor is where the last body ended.
   */
  lemma InterfaceGroupChained(input: seq<u8>, probe: Probe, offset: nat, flag: string)
    requires |input| >= 2 && input[1] == 0x04 && offset == input[0]
    ensures var r := InterfaceGroupSpec(input, probe, offset, flag);
            r.Ok? ==> AlternatesChained(input, probe, flag, 0, r.value.0, r.value.1)
  {
    var r := InterfaceGroupSpec(input, probe, offset, flag);
    if r.Ok? {
      DT.FromCodeOfCode(DT.Interface);
      assert input[0..] == input;
      assert HeaderIs(input, DT.Interface);
      var header := DecodeInterface(input[..offset]).value;
      assert ParseSingleInterface(input[0..]) == Ok(header);
      assert header.len == input[0] by {
        assert EncodeInterface(header)[0] == input[0];
      }
      var first := ParseAlternate(input, probe, flag, header, offset).value;
      GroupFromChained(input, probe, flag, header.interfaceNumber, first.1, [first.0]);
      var out := r.value.0;
      assert out[..1] == [first.0];
      assert out[1..] == out[|[first.0]|..];
      assert out[0] == first.0;
    }
  }

  /**
   * The alternate loop as written: the header compared at parser.rs:236
   * is decoded from `input[..*offset]`, that is from the start of the
   * buffer, so it is always the group's first header. The header's length
   * still comes from the peek at the cursor; a cursor that would not move
   * makes the source loop forever (`NoProgress`).
   */
  function GroupFromAsWritten(input: seq<u8>, probe: Probe, flag: string, number: u8, at: nat,
                              alts: seq<UsbInterface>): (r: Result<(seq<UsbInterface>, nat)>)
    requires at <= |input|
    ensures r.Ok? ==> alts <= r.value.0 && at <= r.value.1 <= |input|
    decreases |input| - at
  {
    var rest := input[at..];
    if DT.PeekType(rest) == Err(Truncated) then Err(Truncated)
    else if !HeaderIs(rest, DT.Interface) then Ok((alts, at))
    else
      var header :- DecodeInterface(input[..at]);
      if header.interfaceNumber != number then Ok((alts, at))
      else if at + input[at] > |input| then Err(Truncated)
      else
        var alt :- ParseAlternate(input, probe, flag, header, at + input[at]);
        if alt.1 == at then Err(NoProgress)
        else GroupFromAsWritten(input, probe, flag, number, alt.1, alts + [alt.0])
  }

  /** `parse_interface_group` as written, with the re-read of parser.rs:235. */
  function InterfaceGroupAsWritten(input: seq<u8>, probe: Probe, offset: nat, flag: string)
    : (r: Result<(seq<UsbInterface>, nat)>)
    requires |input| >= 2 && input[1] == 0x04 && offset == input[0]
    ensures r.Ok? ==> |r.value.0| >= 1 && r.value.1 <= |input|
  {
    var hb :- Prefix(input, offset);
    var header :- DecodeInterface(hb);
    var first :- ParseAlternate(input, probe, flag, header, offset);
    GroupFromAsWritten(input, probe, flag, header.interfaceNumber, first.1, [first.0])
  }

  /**
   * Interface 0 with no endpoints, followed by interface 1 with no
   * endpoints, followed by the end marker.
   */
  const RE_READ_WITNESS: seq<u8> :=
    [9, 4, 0, 0, 0, 3, 0, 0, 0,
     9, 4, 1, 0, 0, 3, 0, 0, 0,
     0, 0]

  /** The first alternate of `RE_READ_WITNESS`: interface 0 with no endpoints, ending at byte 9. */
  lemma ReReadWitnessFirst(probe: Probe)
    ensures DecodeInterface(RE_READ_WITNESS[..9]) == Ok(Interface(9, 4, 0, 0, 0, 3, 0, 0, 0))
    ensures ParseAlternate(RE_READ_WITNESS, probe, "hid", Interface(9, 4, 0, 0, 0, 3, 0, 0, 0), 9)
            == Ok((UsbInterface(Interface(9, 4, 0, 0, 0, 3, 0, 0, 0), [], "hid", []), 9))
    ensures ParseSingleInterface(RE_READ_WITNESS[9..]) == Ok(Interface(9, 4, 1, 0, 0, 3, 0, 0, 0))
  {
    var input := RE_READ_WITNESS;
    assert DT.FromCode(4) == Some(DT.Interface);
    assert input[9..][..9] == [9, 4, 1, 0, 0, 3, 0, 0, 0];
    assert DT.PeekType(input[9..]) == Ok((DT.Interface, 9));
    assert ScanBody(input, probe, 9, 0, [], []) == Ok(Body([], [], 0, 9));
  }

  /**
   * On `RE_READ_WITNESS`, whatever the probe, the corrected group is
   * interface 0 alone and ends at byte 9, where interface 1 begins.
   */
  lemma ReReadWitnessCorrected(probe: Probe)
    ensures InterfaceGroupSpec(RE_READ_WITNESS, probe, 9, "hid").Ok?
    ensures InterfaceGroupSpec(RE_READ_WITNESS, probe, 9, "hid").value.1 == 9
    ensures |InterfaceGroupSpec(RE_READ_WITNESS, probe, 9, "hid").value.0| == 1
  {
    ReReadWitnessFirst(probe);
    var alt := UsbInterface(Interface(9, 4, 0, 0, 0, 3, 0, 0, 0), [], "hid", []);
    assert GroupFrom(RE_READ_WITNESS, probe, "hid", 0, 9, [alt]) == Ok(([alt], 9));
  }

  /**
   * On `RE_READ_WITNESS`, as written, interface 1's header is taken for an
   * alternate of interface 0: the group holds interface 0's header twice,
   * swallows interface 1 and ends at byte 18.
   */
  lemma ReReadWitnessAsWritten(probe: Probe)
    ensures InterfaceGroupAsWritten(RE_READ_WITNESS, probe, 9, "hid").Ok?
    ensures InterfaceGroupAsWritten(RE_READ_WITNESS, probe, 9, "hid").value.1 == 18
    ensures |InterfaceGroupAsWritten(RE_READ_WITNESS, probe, 9, "hid").value.0| == 2
  {
    ReReadWitnessFirst(probe);
    var input := RE_READ_WITNESS;
    var header := Interface(9, 4, 0, 0, 0, 3, 0, 0, 0);
    var alt := UsbInterface(header, [], "hid", []);
    assert input[18..] == [0, 0];
    assert DT.PeekType(input[18..]) == Err(Ended);
    assert ScanBody(input, probe, 18, 0, [], []) == Ok(Body([], [], 0, 18));
    assert ParseAlternate(input, probe, "hid", header, 18) == Ok((alt, 18));
    assert GroupFromAsWritten(input, probe, "hid", 0, 18, [alt, alt]) == Ok(([alt, alt], 18));
    assert input[9] == 9 && HeaderIs(input[9..], DT.Interface);
    assert [alt] + [alt] == [alt, alt];
    assert GroupFromAsWritten(input, probe, "hid", 0, 9, [alt]) == Ok(([alt, alt], 18));
  }

  /**
   * The as-written result on `RE_READ_WITNESS`, interface 0's alternate
   * twice up to byte 18, is not chained: the record at byte 9 is
   * interface 1, so the contract of the corrected group rules it out.
   */
  lemma ReReadWitnessNotChained(probe: Probe)
    ensures var alt := UsbInterface(Interface(9, 4, 0, 0, 0, 3, 0, 0, 0), [], "hid", []);
            !AlternatesChained(RE_READ_WITNESS, probe, "hid", 0, [alt, alt], 18)
  {
    ReReadWitnessFirst(probe);
    var input := RE_READ_WITNESS;
    var alt := UsbInterface(Interface(9, 4, 0, 0, 0, 3, 0, 0, 0), [], "hid", []);
    assert input[0..] == input;
    assert ParseSingleInterface(input[0..]) == Ok(alt.interface) by {
      assert input[..9] == RE_READ_WITNESS[..9];
    }
    assert [alt, alt][1..] == [alt];
    var second := ParseAlternate(input, probe, "hid", Interface(9, 4, 1, 0, 0, 3, 0, 0, 0), 18);
    assert second.Ok? ==> second.value.0.interface.interfaceNumber == 1;
  }

  /** The endpoint loop (parser.rs:198-214), which the source repeats at :242-258. */
  method ScanAlternateBody(input: seq<u8>, probe: Probe, start: nat, expected: nat) returns (r: Result<Body>)
    requires start <= |input|
    ensures r == ScanBody(input, probe, start, expected, [], [])
  {
    var offset := start;
    var remain := expected;
    var endpoints: seq<Endpoint> := [];
    var extra: seq<Extension> := [];
    while true
      invariant start <= offset <= |input|
      invariant ScanBody(input, probe, offset, remain, endpoints, extra)
                == ScanBody(input, probe, start, expected, [], [])
      decreases |input| - offset
    {
      match Classify(input, probe, offset)
      case NextFail(e) =>
        return Err(e);
      case NextStop =>
        break;
      case NextEndpoint(ep, len) =>
        if remain == 0 {
          return Err(TooManyEndpoints);
        }
        offset := offset + len;
        remain := remain - 1;
        endpoints := endpoints + [ep];
      case NextExtra(parsed) =>
        offset := offset + parsed.ActualLen();
        extra := extra + [parsed];
    }
    return Ok(Body(endpoints, extra, remain, offset));
  }

  /**
   * `parse_interface_group`, corrected at parser.rs:235: the cursor
   * starts after the first header, moves over each alternate's body and
   * each further header, and is returned with the alternates. The result
   * is `InterfaceGroupSpec`, so by `InterfaceGroupChained` each alternate
   * is the Interface record and body found where the previous one ended.
   */
  method ParseInterfaceGroup(input: seq<u8>, probe: Probe, offset: nat, flag: string)
    returns (r: Result<(seq<UsbInterface>, nat)>)
    requires |input| >= 2 && input[1] == 0x04 && offset == input[0]
    ensures r == InterfaceGroupSpec(input, probe, offset, flag)
  {
    if offset > |input| {
      return Err(Truncated);
    }
    var first := DecodeInterface(input[..offset]);
    if first.Err? {
      return Err(first.error);
    }
    var interface := first.value;
    var body := ScanAlternateBody(input, probe, offset, interface.numEndpoints);
    if body.Err? {
      return Err(body.error);
    }
    if body.value.remain != 0 {
      return Err(NotEnoughEndpoints);
    }
    var result := [UsbInterface(interface, body.value.endpoints, flag, body.value.extra)];
    var cursor := body.value.cursor;
    var requiredNumber := interface.interfaceNumber;
    while true
      invariant cursor <= |input|
      invariant GroupFrom(input, probe, flag, requiredNumber, cursor, result)
                == InterfaceGroupSpec(input, probe, offset, flag)
      decreases |input| - cursor
    {
      var next := ParseSingleInterface(input[cursor..]);
      if next == Err(NotFunction) {
        break;
      }
      if next.Err? {
        return Err(next.error);
      }
      interface := next.value;
      if interface.interfaceNumber != requiredNumber {
        break;
      }
      body := ScanAlternateBody(input, probe, cursor + input[cursor], interface.numEndpoints);
      if body.Err? {
        return Err(body.error);
      }
      if body.value.remain != 0 {
        return Err(NotEnoughEndpoints);
      }
      result := result + [UsbInterface(interface, body.value.endpoints, flag, body.value.extra)];
      cursor := body.value.cursor;
    }
    return Ok((result, cursor));
  }
}
