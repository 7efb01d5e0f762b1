/**
 * `DescriptorDecoder` (src/lib.rs:14-29 and the `impl` of
 * src/descriptors/parser.rs:19-146): the object that owns the module
 * registry, updated in place by `add_module`, and whose `parse` and
 * `parse_config` walk a descriptor buffer. Each walking method is proved
 * to compute the function of the same name in `Parser`.
 */
module Decoder {
  import opened Bytes
  import opened Errors
  import DT = DescriptorTypes
  import opened InterfaceDesc
  import opened ConfigurationDesc
  import opened DeviceDesc
  import opened Registry
  import opened LeafParsers
  import opened Parser

  class DescriptorDecoder {
    /** The registry, in ascending name order. */
    var modules: seq<Module>

    ghost predicate Valid()
      reads this
    {
      Ascending(modules)
    }

    /** `new`: an empty registry. */
    constructor()
      ensures Valid() && modules == [] && AsMap(modules) == map[]
    {
      modules := [];
    }

    /**
     * `add_module`: store `m` under its name. A module of the same name is
     * replaced, every other name keeps its module, and the registry grows
     * by at most one.
     */
    method AddModule(m: Module)
      requires Valid()
      modifies this
      ensures Valid()
      ensures modules == Insert(old(modules), m)
      ensures AsMap(modules) == AsMap(old(modules))[m.name := m]
      ensures Names(modules) == Names(old(modules)) + {m.name}
      ensures |modules| <= |old(modules)| + 1
    {
      InsertAscending(modules, m);
      InsertNames(modules, m);
      InsertAsMap(modules, m);
      modules := Insert(modules, m);
    }

    /**
     * One turn of the function loop of `parse_config` at `offset`: peek
     * the header there and, for an Interface or an association, hand the
     * bytes to a module (parser.rs:65-79).
     */
    method FunctionAt(input: seq<u8>, offset: nat) returns (s: Result<Option<Step>>)
      requires offset <= |input|
      ensures s == ConfigStep(modules, input, offset)
    {
      ConfigStepMeaning(modules, input, offset);
      if |input| - offset < 2 {
        return Err(Truncated);
      }
      var peek := DT.PeekType(input[offset..]);
      var parsed: Result<Step>;
      if peek.Ok? && peek.value.0 == DT.Interface {
        parsed := TryParseFunction(modules, input[offset..], peek.value.1);
      } else if peek.Ok? && peek.value.0 == DT.InterfaceAssociation {
        parsed := TryParseFunctionInterfaceAssociation(modules, input[offset..], peek.value.1);
      } else {
        return Ok(None);
      }
      if parsed.Err? {
        return Err(parsed.error);
      }
      if parsed.value.1 == 0 {
        return Err(NoProgress);
      }
      if parsed.value.1 > |input| - offset {
        return Err(Truncated);
      }
      return Ok(Some(parsed.value));
    }

    /**
     * `parse_config`: peek the Configuration header, then run the
     * function loop, pushing each function a module returns, until a
     * descriptor that is neither an Interface nor an association.
     */
    method ParseConfig(input: seq<u8>) returns (r: Result<(TopologyConfigDesc, nat)>)
      ensures r == ConfigurationOf(modules, input)
    {
      if |input| < 2 {
        ConfigurationOfHeader(modules, input);
        return Err(Truncated);
      }
      var head := DT.PeekType(input);
      if !(head.Ok? && head.value.0 == DT.Configuration) {
        ConfigurationOfHeader(modules, input);
        return Err(NotConfigDescriptor);
      }
      var len := head.value.1;
      DT.FromCodeOfCode(DT.Configuration);
      assert len == input[0] && input[1] == 0x02;
      if len > |input| {
        return Err(Truncated);
      }
      var config := DecodeConfiguration(input[..len]);
      if config.Err? {
        return Err(config.error);
      }
      var functions := ParseFunctions(input, len);
      if functions.Err? {
        return Err(functions.error);
      }
      return Ok((TopologyConfigDesc(config.value, functions.value.0), functions.value.1));
    }

    /**
     * The function loop of `parse_config` (parser.rs:65-87), from the end
     * of the header: push each function a module returns and move past
     * it, until a descriptor that is neither an Interface nor an
     * association.
     */
    method ParseFunctions(input: seq<u8>, len: nat) returns (r: Result<(seq<UsbFunction>, nat)>)
      requires len <= |input|
      ensures r == FunctionsFrom(modules, input, len)
    {
      var functions: seq<UsbFunction> := [];
      ghost var steps: seq<Step> := [];
      var offset: nat := len;
      ghost var walk := ConfigWalk(modules, input, len, len, []);
      while true
        invariant len <= offset <= |input|
        invariant functions == Firsts(steps)
        invariant ConfigWalk(modules, input, len, offset, steps) == walk
        decreases |input| - offset
      {
        var next := FunctionAt(input, offset);
        match next
        case Err(e) =>
          return Err(e);
        case Ok(None) =>
          if offset != len {
            break;
          }
          return Err(NotFunction);
        case Ok(Some(step)) =>
          ConfigWalkStep(modules, input, len, offset, steps, step);
          TotalAppend(steps, step);
          functions := functions + [step.0];
          steps := steps + [step];
          offset := offset + step.1;
      }
      return Ok((functions, offset));
    }

    /** `parse_config` on the bytes from `offset` on, as the configuration loop calls it. */
    method ParseConfigAt(ghost parse: ConfigParser, input: seq<u8>, offset: nat)
      returns (c: Result<(TopologyConfigDesc, nat)>)
      requires offset <= |input|
      requires forall s {:trigger ConfigurationOf(modules, s)} :: parse(s) == ConfigurationOf(modules, s)
      ensures c == parse(input[offset..])
    {
      c := ParseConfig(input[offset..]);
    }

    /**
     * The configuration loop of `parse` (parser.rs:26-31): `count`
     * configurations, each parsed from where the previous one ended. The
     * ghost `parse` stands for `parse_config` over this registry.
     */
    method ParseConfigs(ghost parse: ConfigParser, input: seq<u8>, start: nat, count: nat)
      returns (r: Result<seq<TopologyConfigDesc>>)
      requires forall s {:trigger ConfigurationOf(modules, s)} :: parse(s) == ConfigurationOf(modules, s)
      ensures r == ConfigsOf(parse, input, start, count)
    {
      var configs: seq<TopologyConfigDesc> := [];
      ghost var parsed: seq<(TopologyConfigDesc, nat)> := [];
      var offset: nat := start;
      var remaining := count;
      while remaining > 0
        invariant configs == Firsts(parsed)
        invariant ConfigsFrom(parse, input, offset, remaining, parsed) == ConfigsFrom(parse, input, start, count, [])
      {
        if offset > |input| {
          return Err(Truncated);
        }
        var c := ParseConfigAt(parse, input, offset);
        ConfigsFromStep(parse, input, offset, remaining, parsed);
        if c.Err? {
          return Err(c.error);
        }
        configs := configs + [c.value.0];
        parsed := parsed + [c.value];
        offset := offset + c.value.1;
        remaining := remaining - 1;
      }
      return Ok(configs);
    }

    /**
     * `parse`: peek the Device header, then parse `bNumConfigurations`
     * configurations after it.
     */
    method Parse(input: seq<u8>) returns (r: Result<TopologyDeviceDesc>)
      ensures r == DeviceOf(modules, input)
    {
      var peeked := PeekDeviceDesc(input);
      if peeked.Err? {
        return Err(peeked.error);
      }
      var device := peeked.value;
      assert device.len == input[0] by {
        assert EncodeDevice(device)[0] == input[0];
      }
      forall s ensures ParseConfigWith(modules)(s) == ConfigurationOf(modules, s) {
        ParseConfigWithApplies(modules, s);
      }
      var configs := ParseConfigs(ParseConfigWith(modules), input, device.len, device.numConfigurations);
      if configs.Err? {
        return Err(configs.error);
      }
      return Ok(TopologyDeviceDesc(device, configs.value));
    }
  }
}
