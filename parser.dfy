/**
 * The descriptor walker of src/descriptors/parser.rs: module dispatch
 * (`try_parse_function`, `try_parse_function_interface_association`), the
 * function loop of `parse_config` and the configuration loop of `parse`.
 *
 * Each loop is specified by a recursive function over the cursor
 * (`ConfigWalk`, `ConfigsFrom`) and implemented by a method whose
 * postcondition ties its result to that function. The registry is passed
 * as the decoder's module sequence, in ascending name order.
 */
module Parser {
  import opened Bytes
  import opened Errors
  import DT = DescriptorTypes
  import opened InterfaceDesc
  import opened ConfigurationDesc
  import opened DeviceDesc
  import opened Registry
  import opened LeafParsers

  /** A parsed function and the bytes its module reported consuming. */
  type Step = (UsbFunction, nat)

  /** Bytes consumed by a run of steps. */
  function Total<T>(s: seq<(T, nat)>): nat {
    if |s| == 0 then 0 else Total(s[..|s| - 1]) + s[|s| - 1].1
  }

  /** The first components of a run of steps, in order. */
  function Firsts<T>(s: seq<(T, nat)>): (r: seq<T>)
    ensures |r| == |s| && forall i :: 0 <= i < |s| ==> r[i] == s[i].0
  {
    seq(|s|, i requires 0 <= i < |s| => s[i].0)
  }

  lemma TotalAppend<T>(s: seq<(T, nat)>, x: (T, nat))
    ensures Total(s + [x]) == Total(s) + x.1
  {
    assert (s + [x])[..|s|] == s;
  }

  /** `filter_triple` of module `m` on the triple `t`. */
  predicate Accepts(m: Module, t: Triple) {
    m.filterTriple(t.0, t.1, t.2)
  }

  /**
   * The `.values().filter(..).next()` of parser.rs:111-122: the index of
   * the first module, in registry order, whose filter accepts `t`.
   */
  function FirstAccepting(mods: seq<Module>, t: Triple): (r: Option<nat>)
    ensures r.Some? ==> r.value < |mods| && Accepts(mods[r.value], t)
    ensures r.Some? ==> forall j :: 0 <= j < r.value ==> !Accepts(mods[j], t)
    ensures r.None? ==> forall j :: 0 <= j < |mods| ==> !Accepts(mods[j], t)
    decreases |mods|
  {
    if |mods| == 0 then None
    else if Accepts(mods[0], t) then Some(0)
    else match FirstAccepting(mods[1..], t)
      case None => None
      case Some(k) => Some(k + 1)
  }

  /**
   * Hand the bytes to the first module that accepts the triple, or fail
   * with `NoSuitableModule` when none does (parser.rs:111-123).
   */
  function Dispatch(mods: seq<Module>, t: Triple, input: seq<u8>): Result<Step> {
    match FirstAccepting(mods, t)
    case None => Err(NoSuitableModule)
    case Some(k) => mods[k].parse(input)
  }

  /**
   * Dispatch fails with `NoSuitableModule` when no module accepts the
   * triple, and otherwise returns the parse of the first module, in
   * registry order, that accepts it.
   */
  lemma DispatchMeaning(mods: seq<Module>, t: Triple, input: seq<u8>)
    ensures (forall j :: 0 <= j < |mods| ==> !Accepts(mods[j], t)) ==> Dispatch(mods, t, input) == Err(NoSuitableModule)
    ensures forall k :: 0 <= k < |mods| && Accepts(mods[k], t) && (forall j :: 0 <= j < k ==> !Accepts(mods[j], t))
                        ==> Dispatch(mods, t, input) == mods[k].parse(input)
  {
  }

  /** A string ordering fact: `NameLess` is asymmetric. */
  lemma NameLessAsymmetric(a: string, b: string)
    requires NameLess(a, b)
    ensures !NameLess(b, a)
  {
    if NameLess(b, a) {
      NameLessTransitive(a, b, a);
      NameLessIrreflexive(a);
    }
  }

  /**
   * In a registry kept in ascending name order, the module dispatch picks
   * is the accepting module of least name in the map the registry holds.
   */
  lemma {:induction false} DispatchPicksLeastName(mods: seq<Module>, t: Triple)
    requires Ascending(mods) && FirstAccepting(mods, t).Some?
    ensures var k := FirstAccepting(mods, t).value;
            mods[k].name in AsMap(mods) && AsMap(mods)[mods[k].name] == mods[k]
    ensures var k := FirstAccepting(mods, t).value;
            forall n :: n in AsMap(mods) && Accepts(AsMap(mods)[n], t) ==> !NameLess(n, mods[k].name)
  {
    var k := FirstAccepting(mods, t).value;
    AsMapAt(mods, k);
    AsMapKeys(mods);
    forall n | n in AsMap(mods) && Accepts(AsMap(mods)[n], t)
      ensures !NameLess(n, mods[k].name)
    {
      assert n in Names(mods);
      var i :| 0 <= i < |mods| && mods[i].name == n;
      AsMapAt(mods, i);
      if i == k {
        NameLessIrreflexive(n);
      } else if k < i {
        NameLessAsymmetric(mods[k].name, n);
      }
    }
  }

  /**
   * `try_parse_function`: the Interface record in the first `len` bytes
   * gives the triple, and the chosen module parses from the start of
   * `input`. A `len` past the buffer, or shorter than an Interface
   * record, is `Truncated`.
   */
  function TryParseFunction(mods: seq<Module>, input: seq<u8>, len: nat): (r: Result<Step>)
    ensures len > |input| || len < INTERFACE_SIZE ==> r == Err(Truncated)
    ensures INTERFACE_SIZE <= len <= |input| ==> r == Dispatch(mods, (input[5], input[6], input[7]), input)
  {
    var b :- Prefix(input, len);
    var header :- DecodeInterface(b);
    InterfaceTyFromWire(b);
    Dispatch(mods, header.Ty(), input)
  }

  /**
   * `try_parse_function_interface_association`: as `TryParseFunction`,
   * with the function triple of an association record.
   */
  function TryParseFunctionInterfaceAssociation(mods: seq<Module>, input: seq<u8>, len: nat): (r: Result<Step>)
    ensures len > |input| || len < INTERFACE_ASSOCIATION_SIZE ==> r == Err(Truncated)
    ensures INTERFACE_ASSOCIATION_SIZE <= len <= |input|
            ==> r == Dispatch(mods, (input[4], input[5], input[6]), input)
  {
    var b :- Prefix(input, len);
    var header :- DecodeInterfaceAssociation(b);
    InterfaceAssociationTyFromWire(b);
    Dispatch(mods, header.Ty(), input)
  }

  /**
   * A module's result at the cursor, with `room` bytes left: an error
   * passes through; a report of 0 bytes would make the source loop
   * forever (`NoProgress`); a report of more bytes than remain panics at
   * the next peek (`Truncated`).
   */
  function Advance(d: Result<Step>, room: nat): (r: Result<Option<Step>>)
    ensures d.Err? ==> r == Err(d.error)
    ensures d.Ok? ==> (r.Ok? <==> 0 < d.value.1 <= room)
    ensures r.Ok? ==> r == Ok(Some(d.value))
    ensures r.Err? && d.Ok? ==> r.error == (if d.value.1 == 0 then NoProgress else Truncated)
  {
    match d
    case Err(e) => Err(e)
    case Ok(step) =>
      if step.1 == 0 then Err(NoProgress)
      else if step.1 > room then Err(Truncated)
      else Ok(Some(step))
  }

  /**
   * One turn of the function loop of `parse_config` (parser.rs:65-87) at
   * cursor `at`, read off the header bytes: an Interface or Interface
   * Association header is dispatched on its triple to a module; any other
   * descriptor is `None`, which ends the loop. Fewer than two bytes at the
   * cursor panic in the source (`Truncated`), as does a header reaching
   * past the buffer. `ConfigStepMeaning` ties the arms to `peek_type` and
   * `try_parse_function*`.
   */
  function ConfigStep(mods: seq<Module>, input: seq<u8>, at: nat): (r: Result<Option<Step>>)
    requires at <= |input|
    ensures r.Ok? && r.value.Some? ==> 0 < r.value.value.1 && at + r.value.value.1 <= |input|
  {
    if |input| - at < 2 then Err(Truncated)
    else if input[at + 1] == 0x04 then
      var len := input[at];
      if len < INTERFACE_SIZE || at + len > |input| then Err(Truncated)
      else Advance(Dispatch(mods, (input[at + 5], input[at + 6], input[at + 7]), input[at..]), |input| - at)
    else if input[at + 1] == 0x0B then
      var len := input[at];
      if len < INTERFACE_ASSOCIATION_SIZE || at + len > |input| then Err(Truncated)
      else Advance(Dispatch(mods, (input[at + 4], input[at + 5], input[at + 6]), input[at..]), |input| - at)
    else Ok(None)
  }

  /**
   * The arms of `ConfigStep` are those of the source's `match` on
   * `peek_type` at the cursor.
   */
  lemma ConfigStepMeaning(mods: seq<Module>, input: seq<u8>, at: nat)
    requires at <= |input|
    ensures |input| - at < 2 ==> ConfigStep(mods, input, at) == Err(Truncated)
    ensures var p := DT.PeekType(input[at..]);
            p.Ok? && p.value.0 == DT.Interface
            ==> ConfigStep(mods, input, at) == Advance(TryParseFunction(mods, input[at..], p.value.1), |input| - at)
    ensures var p := DT.PeekType(input[at..]);
            p.Ok? && p.value.0 == DT.InterfaceAssociation
            ==> ConfigStep(mods, input, at)
                == Advance(TryParseFunctionInterfaceAssociation(mods, input[at..], p.value.1), |input| - at)
    ensures var p := DT.PeekType(input[at..]);
            |input| - at >= 2 && !(p.Ok? && p.value.0 in {DT.Interface, DT.InterfaceAssociation})
            ==> ConfigStep(mods, input, at) == Ok(None)
  {
    if |input| - at >= 2 {
      var p := DT.PeekType(input[at..]);
      if p.Ok? {
        DT.CodesDistinct(p.value.0, DT.Interface);
        DT.CodesDistinct(p.value.0, DT.InterfaceAssociation);
      } else {
        DT.FromCodeOfCode(DT.Interface);
        DT.FromCodeOfCode(DT.InterfaceAssociation);
      }
    }
  }

  /**
   * The function loop of `parse_config` from cursor `at`, with `steps`
   * taken so far; `headerLen` is the configuration header's length. The
   * loop ends at the first descriptor that is neither an Interface nor an
   * association, and that is `NotFunction` if nothing followed the
   * header. `wTotalLength` is not consulted.
   */
  function ConfigWalk(mods: seq<Module>, input: seq<u8>, headerLen: nat, at: nat, steps: seq<Step>)
    : (r: Result<(seq<Step>, nat)>)
    requires headerLen <= at <= |input|
    ensures r.Ok? ==> steps <= r.value.0 && at <= r.value.1 <= |input|
    ensures r.Ok? ==> r.value.1 + Total(steps) == at + Total(r.value.0)
    ensures r.Ok? ==> ConfigStep(mods, input, r.value.1) == Ok(None) && r.value.1 != headerLen
    ensures at == headerLen && ConfigStep(mods, input, at) == Ok(None) ==> r == Err(NotFunction)
    decreases |input| - at
  {
    match ConfigStep(mods, input, at)
    case Err(e) => Err(e)
    case Ok(None) => if at != headerLen then Ok((steps, at)) else Err(NotFunction)
    case Ok(Some(step)) =>
      TotalAppend(steps, step);
      ConfigWalk(mods, input, headerLen, at + step.1, steps + [step])
  }

  /** One turn of the function loop: a module result moves the cursor past it. */
  lemma ConfigWalkStep(mods: seq<Module>, input: seq<u8>, headerLen: nat, at: nat, steps: seq<Step>, step: Step)
    requires headerLen <= at <= |input| && ConfigStep(mods, input, at) == Ok(Some(step))
    ensures ConfigWalk(mods, input, headerLen, at, steps) == ConfigWalk(mods, input, headerLen, at + step.1, steps + [step])
  {
  }

  /**
   * `steps` is what the function loop takes from cursor `at` on: each
   * step is the module result at the cursor where the previous step's
   * reported length ended.
   */
  predicate Chained(mods: seq<Module>, input: seq<u8>, at: nat, steps: seq<Step>)
    decreases |steps|
  {
    |steps| == 0
    || (at <= |input| && ConfigStep(mods, input, at) == Ok(Some(steps[0]))
        && Chained(mods, input, at + steps[0].1, steps[1..]))
  }

  /**
   * The steps the function loop appends from cursor `at` are chained from
   * `at`: functions come in stream order, each parsed where the previous
   * one ended.
   */
  lemma {:induction false} ConfigWalkChained(mods: seq<Module>, input: seq<u8>, headerLen: nat, at: nat,
                                            steps: seq<Step>)
    requires headerLen <= at <= |input|
    ensures var r := ConfigWalk(mods, input, headerLen, at, steps);
            r.Ok? ==> Chained(mods, input, at, r.value.0[|steps|..])
    decreases |input| - at
  {
    var r := ConfigWalk(mods, input, headerLen, at, steps);
    match ConfigStep(mods, input, at)
    case Err(e) =>
    case Ok(None) =>
      if r.Ok? {
        assert r.value.0[|steps|..] == [];
      }
    case Ok(Some(step)) =>
      var steps' := steps + [step];
      ConfigWalkChained(mods, input, headerLen, at + step.1, steps');
      if r.Ok? {
        var out := r.value.0;
        assert out[..|steps'|] == steps';
        assert out[|steps|..][1..] == out[|steps'|..];
      }
  }

  /**
   * The function loop of `parse_config` from the end of a header of
   * `headerLen` bytes: the functions the modules returned, in stream
   * order, and the cursor where the loop stopped.
   */
  function FunctionsFrom(mods: seq<Module>, input: seq<u8>, headerLen: nat): (r: Result<(seq<UsbFunction>, nat)>)
    requires headerLen <= |input|
  {
    var walk :- ConfigWalk(mods, input, headerLen, headerLen, []);
    Ok((Firsts(walk.0), walk.1))
  }

  /**
   * `parse_config` (parser.rs:57-103): a Configuration header, then the
   * function loop from the end of the header. The result is the header,
   * the functions in stream order, and the cursor after them, which lies
   * past the header. The header test reads the type byte;
   * `ConfigurationOfHeader` ties it to `peek_type`.
   */
  function ConfigurationOf(mods: seq<Module>, input: seq<u8>): (r: Result<(TopologyConfigDesc, nat)>)
    ensures r.Ok? ==> |input| >= 2 && CONFIGURATION_SIZE <= input[0] < r.value.1 <= |input|
  {
    if |input| < 2 then Err(Truncated)
    else if input[1] != 0x02 then Err(NotConfigDescriptor)
    else
      var b :- Prefix(input, input[0]);
      var desc :- DecodeConfiguration(b);
      var fs :- FunctionsFrom(mods, input, input[0]);
      Ok((TopologyConfigDesc(desc, fs.0), fs.1))
  }

  /**
   * The outcomes of `parse_config` decided by the header: fewer than two
   * bytes panic (`Truncated`); anything but a Configuration header is
   * `NotConfigDescriptor`; a header with no function after it is
   * `NotFunction`; on success the header is the decoding of the first
   * nine bytes.
   */
  lemma ConfigurationOfHeader(mods: seq<Module>, input: seq<u8>)
    ensures |input| < 2 ==> ConfigurationOf(mods, input) == Err(Truncated)
    ensures |input| >= 2 && !HeaderIs(input, DT.Configuration)
            ==> ConfigurationOf(mods, input) == Err(NotConfigDescriptor)
    ensures (|input| >= 2 && HeaderIs(input, DT.Configuration) && CONFIGURATION_SIZE <= input[0] <= |input|
             && ConfigStep(mods, input, input[0]) == Ok(None))
            ==> ConfigurationOf(mods, input) == Err(NotFunction)
    ensures ConfigurationOf(mods, input).Ok? ==>
              HeaderIs(input, DT.Configuration) && |input| >= CONFIGURATION_SIZE
              && EncodeConfiguration(ConfigurationOf(mods, input).value.0.desc) == input[..CONFIGURATION_SIZE]
  {
    if |input| >= 2 {
      DT.FromCodeOfCode(DT.Configuration);
      if DT.PeekType(input).Ok? {
        DT.CodesDistinct(DT.PeekType(input).value.0, DT.Configuration);
      }
    }
  }

  /**
   * On success, the functions of `parse_config` are the chained module
   * results from the end of the header, and the cursor is the header
   * length plus the lengths the modules reported; the loop stopped at a
   * descriptor that is neither an Interface nor an association.
   */
  lemma ConfigurationOfFunctions(mods: seq<Module>, input: seq<u8>)
    requires ConfigurationOf(mods, input).Ok?
    ensures var (c, end) := ConfigurationOf(mods, input).value;
            exists steps :: Chained(mods, input, input[0], steps)
                            && c.functions == Firsts(steps) && end == input[0] + Total(steps)
    ensures ConfigStep(mods, input, ConfigurationOf(mods, input).value.1) == Ok(None)
  {
    var walk := ConfigWalk(mods, input, input[0], input[0], []).value;
    ConfigWalkChained(mods, input, input[0], input[0], []);
    assert walk.0[0..] == walk.0;
  }

  /**
   * `ConfigStep` reads only the bytes from the cursor on, so the function
   * loop cannot see anything before it.
   */
  lemma ConfigStepReadsSuffix(mods: seq<Module>, a: seq<u8>, b: seq<u8>, at: nat)
    requires at <= |a| == |b| && a[at..] == b[at..]
    ensures ConfigStep(mods, a, at) == ConfigStep(mods, b, at)
  {
    if |a| - at >= 2 {
      assert a[at + 1] == a[at..][1] == b[at + 1];
      forall j | at <= j < |a| ensures a[j] == b[j] {
        assert a[j] == a[at..][j - at];
      }
    }
  }

  lemma {:induction false} ConfigWalkReadsSuffix(mods: seq<Module>, a: seq<u8>, b: seq<u8>, k: nat,
                                                headerLen: nat, at: nat, steps: seq<Step>)
    requires k <= headerLen <= at <= |a| == |b| && a[k..] == b[k..]
    ensures ConfigWalk(mods, a, headerLen, at, steps) == ConfigWalk(mods, b, headerLen, at, steps)
    decreases |a| - at
  {
    assert a[at..] == a[k..][at - k..] == b[k..][at - k..] == b[at..];
    ConfigStepReadsSuffix(mods, a, b, at);
    match ConfigStep(mods, a, at)
    case Err(_) =>
    case Ok(None) =>
    case Ok(Some(step)) =>
      ConfigWalkReadsSuffix(mods, a, b, k, headerLen, at + step.1, steps + [step]);
  }

  /**
   * `wTotalLength` is never consulted: two buffers that differ only in
   * bytes 2 and 3 give the same outcome, the same functions and the same
   * cursor, and headers that differ only in `total_length`.
   */
  lemma TotalLengthIgnored(mods: seq<Module>, a: seq<u8>, b: seq<u8>)
    requires |a| == |b| && |a| >= 4 && a[..2] == b[..2] && a[4..] == b[4..]
    ensures ConfigurationOf(mods, a).Ok? <==> ConfigurationOf(mods, b).Ok?
    ensures ConfigurationOf(mods, a).Err? ==> ConfigurationOf(mods, b) == ConfigurationOf(mods, a)
    ensures ConfigurationOf(mods, a).Ok? ==>
              var (ca, ea) := ConfigurationOf(mods, a).value;
              var (cb, eb) := ConfigurationOf(mods, b).value;
              ca.functions == cb.functions && ea == eb
              && ca.desc.(totalLength := 0) == cb.desc.(totalLength := 0)
  {
    assert a[0] == a[..2][0] == b[0] && a[1] == a[..2][1] == b[1];
    DT.PeekReadsTwoBytes(a, b);
    if HeaderIs(a, DT.Configuration) && CONFIGURATION_SIZE <= a[0] <= |a| {
      ConfigWalkReadsSuffix(mods, a, b, 4, a[0], a[0], []);
      var da := DecodeConfiguration(a[..a[0]]).value;
      var db := DecodeConfiguration(b[..b[0]]).value;
      assert EncodeConfiguration(da) == a[..CONFIGURATION_SIZE];
      assert EncodeConfiguration(db) == b[..CONFIGURATION_SIZE];
      forall j | 0 <= j < CONFIGURATION_SIZE && j != 2 && j != 3 ensures a[j] == b[j] {
        if j >= 4 { assert a[j] == a[4..][j - 4]; }
      }
    }
  }

  /** A configuration parser: the header and functions at the start of the bytes, and the bytes it took. */
  type ConfigParser = seq<u8> -> Result<(TopologyConfigDesc, nat)>

  /** The parser the device loop runs: `parse_config` over the registry. */
  function ParseConfigWith(mods: seq<Module>): ConfigParser
  {
    s => ConfigurationOf(mods, s)
  }

  lemma ParseConfigWithApplies(mods: seq<Module>, s: seq<u8>)
    ensures ParseConfigWith(mods)(s) == ConfigurationOf(mods, s)
  {
  }

  /**
   * The configuration loop of `parse` (parser.rs:26-31) from cursor `at`
   * with `count` configurations still to read: each is parsed by `parse`
   * from the cursor and moves it by the length reported. A cursor past
   * the buffer panics at the next slice (`Truncated`).
   */
  function ConfigsFrom(parse: ConfigParser, input: seq<u8>, at: nat, count: nat,
                       acc: seq<(TopologyConfigDesc, nat)>): (r: Result<seq<(TopologyConfigDesc, nat)>>)
    ensures r.Ok? ==> acc <= r.value && |r.value| == |acc| + count
    decreases count
  {
    if count == 0 then Ok(acc)
    else if at > |input| then Err(Truncated)
    else
      var c :- parse(input[at..]);
      ConfigsFrom(parse, input, at + c.1, count - 1, acc + [c])
  }

  /** One turn of the configuration loop, for any parser. */
  lemma ConfigsFromStep(parse: ConfigParser, input: seq<u8>, at: nat, count: nat,
                        acc: seq<(TopologyConfigDesc, nat)>)
    requires count > 0 && at <= |input|
    ensures parse(input[at..]).Err? ==> ConfigsFrom(parse, input, at, count, acc) == Err(parse(input[at..]).error)
    ensures parse(input[at..]).Ok? ==>
              var c := parse(input[at..]).value;
              ConfigsFrom(parse, input, at, count, acc) == ConfigsFrom(parse, input, at + c.1, count - 1, acc + [c])
  {
  }

  /**
   * `cs` is what the configuration loop reads from cursor `at` on: each
   * configuration is parsed at the cursor where the previous one ended.
   */
  predicate ConfigsChained(parse: ConfigParser, input: seq<u8>, at: nat, cs: seq<(TopologyConfigDesc, nat)>)
    decreases |cs|
  {
    |cs| == 0
    || (at <= |input| && parse(input[at..]) == Ok(cs[0])
        && ConfigsChained(parse, input, at + cs[0].1, cs[1..]))
  }

  lemma {:induction false} ConfigsFromChained(parse: ConfigParser, input: seq<u8>, at: nat, count: nat,
                                             acc: seq<(TopologyConfigDesc, nat)>)
    ensures var r := ConfigsFrom(parse, input, at, count, acc);
            r.Ok? ==> ConfigsChained(parse, input, at, r.value[|acc|..])
    decreases count
  {
    var r := ConfigsFrom(parse, input, at, count, acc);
    if count == 0 {
      if r.Ok? { assert r.value[|acc|..] == []; }
    } else if at <= |input| {
      var c := parse(input[at..]);
      if c.Ok? {
        var acc' := acc + [c.value];
        ConfigsFromChained(parse, input, at + c.value.1, count - 1, acc');
        if r.Ok? {
          assert r.value[..|acc'|] == acc';
          assert r.value[|acc|..][1..] == r.value[|acc'|..];
        }
      }
    }
  }

  /**
   * The configurations the loop of `parse` reads with configuration
   * parser `parse`: `count` of them, from cursor `at`, each where the
   * previous one ended.
   */
  function ConfigsOf(parse: ConfigParser, input: seq<u8>, at: nat, count: nat): (r: Result<seq<TopologyConfigDesc>>)
    ensures r.Ok? ==> |r.value| == count
    ensures r.Ok? ==> exists cs :: ConfigsChained(parse, input, at, cs) && r.value == Firsts(cs)
  {
    var cs :- ConfigsFrom(parse, input, at, count, []);
    ConfigsFromChained(parse, input, at, count, []);
    assert cs[0..] == cs;
    Ok(Firsts(cs))
  }

  /**
   * `parse` (parser.rs:20-40): a Device header, then exactly
   * `bNumConfigurations` configurations, each read where the previous one
   * ended.
   */
  function DeviceOf(mods: seq<Module>, input: seq<u8>): (r: Result<TopologyDeviceDesc>)
    ensures |input| < 2 ==> r == Err(Truncated)
    ensures |input| >= 2 && !HeaderIs(input, DT.Device) ==> r == Err(NotDeviceDescriptor)
    ensures r.Ok? ==> input[1] == 0x01 && |input| >= DEVICE_SIZE
                      && EncodeDevice(r.value.desc) == input[..DEVICE_SIZE]
    ensures r.Ok? ==> |r.value.configs| == r.value.desc.numConfigurations
    ensures r.Ok? ==> exists cs :: ConfigsChained(ParseConfigWith(mods), input, input[0], cs)
                                   && r.value.configs == Firsts(cs)
  {
    var desc :- PeekDeviceDesc(input);
    assert desc.len == input[0] by {
      assert EncodeDevice(desc)[0] == input[0];
    }
    var configs :- ConfigsOf(ParseConfigWith(mods), input, input[0], desc.numConfigurations);
    Ok(TopologyDeviceDesc(desc, configs))
  }
}
