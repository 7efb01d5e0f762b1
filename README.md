# USB descriptor decoder, modelled in Dafny

This project models the descriptor decoder of `usb-descriptor-decoder-rs`.
The decoder is a `no_std` Rust library that turns the raw descriptor bytes
a USB device returns into a tree: a device, its configurations, and each
configuration's functions.

The decoder holds a registry of class modules. The registry is a
`BTreeMap` from a module's name to the module. Each module has:

- a name;
- a filter on the (class, subclass, protocol) triple;
- a parser for the bytes of one function.

The walk works as follows:

- It peeks each descriptor header: byte 0 is the length, byte 1 the type.
- For every Interface or Interface Association header, it hands the rest
  of the buffer to the first module, in name order, whose filter accepts
  the header's triple.
- It stops at the first descriptor that is neither of those.

The helper `parse_interface_group` is what a class module uses. It reads
one interface's alternate settings with their endpoints and their
class-specific descriptors.

## Project layout

Each file is one module:

| file | module | contents |
|---|---|---|
| `bytes.dfy` | `Bytes` | `u8`, `u16` and the little-endian layout of 16-bit fields |
| `errors.dfy` | `Errors` | `ParserError`, `Option` and `Result` |
| `descriptor_types.dfy` | `DescriptorTypes` | the descriptor-type catalog, `peek_type` and `PortSpeed` |
| `endpoint.dfy` | `EndpointDesc` | the Endpoint record and its xHCI arithmetic |
| `hid.dfy` | `HidDesc` | the HID record and the HID code tables |
| `extension.dfy` | `Extensions` | class-specific descriptors (the `TopologyDescriptor` capability) |
| `interface.dfy` | `InterfaceDesc` | the Interface record, the Interface Association record and the function tree |
| `configuration.dfy` | `ConfigurationDesc` | the Configuration record |
| `device.dfy` | `DeviceDesc` | the Device record |
| `leaf_parsers.dfy` | `LeafParsers` | the single-record parsers |
| `registry.dfy` | `Registry` | the name-ordered module map |
| `parser.dfy` | `Parser` | dispatch, and the loops of `parse_config` and `parse` as recursive functions |
| `decoder.dfy` | `Decoder` | the `DescriptorDecoder` class, whose methods run those loops |
| `interface_group.dfy` | `InterfaceGroup` | `parse_interface_group` |
| `topological.dfy` | `Topological` | the topological view and its accessors |
| `contained_parsers.dfy` | `ContainedParsers` | the bundled HID and UVC modules, and `load_embed_parsers` |
| `fixtures.dfy` | `Fixtures` | the byte strings of the repository's two tests, decoded |

Modelling choices:

- **Registry.** The `BTreeMap` is a sequence of modules whose names
  strictly ascend. `Registry.Insert` is `BTreeMap::insert` on that
  representation. `Registry.AsMap` is the map it stands for.
- **Decoder object.** `DescriptorDecoder` is a class whose `modules` field
  `add_module` updates in place.
- **Loops.** Each loop of the source is a method with a `while` loop. Its
  postcondition equates its result with a recursive specification
  function. The properties are proved about those functions.
- **Unchecked casts.** The source's `cast` reinterprets memory without a
  bounds check. Here it is a checked decoder, and each record decoder is
  proved to re-encode to exactly the bytes it read.
- **Panics.** A slice or index past the end of the buffer panics in the
  source. Here it is the error `Truncated`. Two other outcomes have no
  error value in the source and get one here:
  - `TooManyEndpoints`: the `u8` endpoint counter would go below zero.
  - `NoProgress`: a module or a probe reports 0 bytes consumed, so the
    source would loop forever.

## Model

| member | source | states |
|---|---|---|
| Bytes.Le16 | src/descriptors/desc_configuration.rs:11 | a packed `u16` field is its low byte plus 256 times its high byte |
| Bytes.Le16Bytes | src/descriptors/desc_configuration.rs:11 | the two little-endian bytes of a `u16` read back as that value |
| Bytes.Le16RoundTrip | src/descriptors/desc_configuration.rs:11 | writing then reading a `u16`, and reading then writing two bytes, are both the identity |
| Errors.Prefix | src/descriptors/parser.rs:60 | `&input[..len]` succeeds exactly when `len` fits and is then the first `len` bytes; otherwise `Truncated` |
| DescriptorTypes.FromCode | src/descriptors/mod.rs:19-41 | `from_u8` returns the type with that code, or nothing when no cataloged type has it |
| DescriptorTypes.FromCodeOfCode | src/descriptors/mod.rs:19-41 | `from_u8` of each type's own code gives that type back |
| DescriptorTypes.CodesDistinct | src/descriptors/mod.rs:19-41 | no two cataloged types share a code |
| DescriptorTypes.UncatalogedCodes | src/descriptors/mod.rs:19-41 | the codes outside the catalog are exactly 0, 0x0C-0x0E, 0x11-0x2F and everything above 0x31 |
| DescriptorTypes.PeekType | src/descriptors/mod.rs:43-55 | a cataloged type code gives (type, length byte); two zero bytes give `Ended`; any other code gives `PeekFailed(code)`; fewer than two bytes give `Truncated` |
| DescriptorTypes.PeekReadsTwoBytes | src/descriptors/mod.rs:43-55 | the peek depends only on the first two bytes |
| DescriptorTypes.PeekZeroLengthInterface | src/descriptors/mod.rs:43-55 | a zero length byte with a cataloged type is a normal peek, not `Ended` |
| DescriptorTypes.PortSpeedFromCode | src/descriptors/mod.rs:58-66 | `PortSpeed::from_u8` is defined exactly on 1 to 5 and inverts the codes |
| EndpointDesc.EncodeEndpoint | src/descriptors/desc_endpoint.rs:7-17 | an endpoint's wire form is seven bytes |
| EndpointDesc.DecodeEndpoint | src/descriptors/desc_endpoint.rs:7-17 | decoding succeeds exactly on seven or more bytes, has no companion record, and re-encodes to the seven bytes read |
| EndpointDesc.EndpointRoundTrip | src/descriptors/desc_endpoint.rs:7-17 | decoding the encoding of an endpoint without a companion gives it back |
| EndpointDesc.EndpointTypeFromCode | src/descriptors/desc_endpoint.rs:106-125 | `EndpointType::from_u8` is defined exactly on 0 to 7 and inverts the codes |
| EndpointDesc.EndpointTypeOf | src/descriptors/desc_endpoint.rs:29-41 | attributes 0 gives Control; otherwise the type's low two bits are the transfer bits of `attributes`, and the type is IN exactly when address bit 7 is set; the `expect` never fires |
| EndpointDesc.CalcActualInterval | src/descriptors/desc_endpoint.rs:43-53 | `interval + 2` for isochronous and `interval + 3` for other endpoints at full or low speed, and `interval - 1` at any other speed |
| EndpointDesc.IntervalKeepsPeriod | src/descriptors/desc_endpoint.rs:43-53 | for an isochronous endpoint at full or low speed, and for any endpoint above full speed, the xHCI interval, in 125 us units, denotes the same service period as `bInterval`; nothing is claimed for the `interval + 3` arm |
| EndpointDesc.CalculateMaxStreams | src/descriptors/desc_endpoint.rs:68-80 | for a bulk OUT endpoint, bits 0-4 of the companion's attributes; otherwise 0; at most 31 |
| EndpointDesc.MaxStreams | src/descriptors/desc_endpoint.rs:55-62 | a value exactly for bulk OUT endpoints, namely the companion's MaxStreams field |
| EndpointDesc.Mult | src/descriptors/desc_endpoint.rs:86-98 | bits 0-1 of the companion's attributes for an isochronous OUT endpoint with a companion and `lec` unset; otherwise 0 |
| EndpointDesc.DoorbellValueAkaDci | src/descriptors/desc_endpoint.rs:100-103 | the DCI lies in 0..31; halving it gives the endpoint number and its parity gives the direction |
| HidDesc.EncodeHid | src/descriptors/desc_hid.rs:5-15 | a HID record's wire form is nine bytes |
| HidDesc.DecodeHid | src/descriptors/desc_hid.rs:5-15 | decoding succeeds exactly on nine or more bytes and re-encodes to the nine bytes read |
| HidDesc.HidRoundTrip | src/descriptors/desc_hid.rs:5-15 | decoding the encoding of a HID record gives it back |
| HidDesc.HidSubclassFromCode | src/descriptors/desc_hid.rs:27-32 | defined exactly on 0 and 1, inverse to the codes |
| HidDesc.HidProtocolFromCode | src/descriptors/desc_hid.rs:34-41 | defined exactly on 0 to 2, inverse to the codes |
| Extensions.HidExtensionReadsHeader | src/descriptors/desc_hid.rs:17-25 | for a HID record read from the wire, `actual_len` is byte 0 and `desc_type` is byte 1 |
| InterfaceDesc.EncodeInterface | src/descriptors/desc_interface.rs:8-20 | an Interface record's wire form is nine bytes |
| InterfaceDesc.DecodeInterface | src/descriptors/desc_interface.rs:8-20 | decoding succeeds exactly on nine or more bytes and re-encodes to the nine bytes read |
| InterfaceDesc.InterfaceRoundTrip | src/descriptors/desc_interface.rs:8-20 | decoding the encoding of an Interface record gives it back |
| InterfaceDesc.InterfaceTyFromWire | src/descriptors/desc_interface.rs:21-29 | `ty` of a decoded Interface is wire bytes 5, 6 and 7 |
| InterfaceDesc.EncodeInterfaceAssociation | src/descriptors/desc_interface.rs:31-42 | an association record's wire form is eight bytes |
| InterfaceDesc.DecodeInterfaceAssociation | src/descriptors/desc_interface.rs:31-42 | decoding succeeds exactly on eight or more bytes and re-encodes to the eight bytes read |
| InterfaceDesc.InterfaceAssociationRoundTrip | src/descriptors/desc_interface.rs:31-42 | decoding the encoding of an association record gives it back |
| InterfaceDesc.InterfaceAssociationTyFromWire | src/descriptors/desc_interface.rs:43-51 | `ty` of a decoded association is wire bytes 4, 5 and 6 |
| InterfaceDesc.IsAlternativeIsSlotEquality | src/descriptors/desc_interface.rs:73-77 | `is_alternative` is reflexive and symmetric, and ignores the alternate setting |
| ConfigurationDesc.EncodeConfiguration | src/descriptors/desc_configuration.rs:5-16 | a Configuration record's wire form is nine bytes |
| ConfigurationDesc.DecodeConfiguration | src/descriptors/desc_configuration.rs:5-16 | decoding succeeds exactly on nine or more bytes and re-encodes to the nine bytes read |
| ConfigurationDesc.ConfigurationRoundTrip | src/descriptors/desc_configuration.rs:5-16 | decoding the encoding of a Configuration record gives it back |
| ConfigurationDesc.TotalLengthFromWire | src/descriptors/desc_configuration.rs:27-29 | `total_length` is the little-endian value of wire bytes 2 and 3 |
| DeviceDesc.EncodeDevice | src/descriptors/parser.rs:312-327 | a Device record's wire form is eighteen bytes |
| DeviceDesc.DecodeDevice | src/descriptors/parser.rs:312-327 | decoding succeeds exactly on eighteen or more bytes and re-encodes to the eighteen bytes read |
| DeviceDesc.DeviceRoundTrip | src/descriptors/parser.rs:312-327 | decoding the encoding of a Device record gives it back |
| LeafParsers.PeekDeviceDesc | src/descriptors/parser.rs:42-50 | a Device header gives the record, which re-encodes to the buffer's first eighteen bytes; any other header gives `NotDeviceDescriptor`; a short buffer gives `Truncated` |
| LeafParsers.ParseEndpoint | src/descriptors/parser.rs:148-157 | an Endpoint header gives the record and its declared length; any other header gives `NotEndpoint`; a short buffer gives `Truncated` |
| LeafParsers.ParseSingleInterface | src/descriptors/parser.rs:159-168 | an Interface header gives the record; any other header gives `NotFunction`; a short buffer gives `Truncated` |
| LeafParsers.ParseInterfaceAssociation | src/descriptors/parser.rs:170-179 | an association header gives the record; any other header gives `NotFunction`; a short buffer gives `Truncated` |
| Registry.NameLessIrreflexive | src/lib.rs:15 | the `String` order of the map keys is irreflexive |
| Registry.NameLessTransitive | src/lib.rs:15 | the `String` order of the map keys is transitive |
| Registry.NameLessTotal | src/lib.rs:15 | any two different names are ordered one way or the other |
| Registry.AsMapKeys | src/lib.rs:15 | the keys of the map are the names present in the registry |
| Registry.AsMapAt | src/lib.rs:15 | in an ascending registry each module is what the map holds under its name |
| Registry.InsertNames | src/lib.rs:25-28 | `insert` adds the module's name, and grows the registry by one exactly when the name is new |
| Registry.InsertAscending | src/lib.rs:25-28 | `insert` keeps the names strictly ascending |
| Registry.InsertAsMap | src/lib.rs:25-28 | `insert` is the map update: the new name maps to the module and every other name is unchanged |
| Parser.FirstAccepting | src/descriptors/parser.rs:111-122 | the first module in registry order whose filter accepts the triple, or none when none does |
| Parser.DispatchMeaning | src/descriptors/parser.rs:111-123 | no accepting module gives `NoSuitableModule`; otherwise the first accepting module's parse of the bytes |
| Parser.DispatchPicksLeastName | src/descriptors/parser.rs:111-122 | the module dispatch picks is the accepting module of least name in the map |
| Parser.TryParseFunction | src/descriptors/parser.rs:105-124 | a header length past the buffer or shorter than a record gives `Truncated`; otherwise dispatch on wire bytes 5-7, passing the whole remaining buffer |
| Parser.TryParseFunctionInterfaceAssociation | src/descriptors/parser.rs:126-145 | the same, on the association's wire bytes 4-6 |
| Parser.Advance | src/descriptors/parser.rs:67-70 | a module's error passes through; a reported length of 0, or one past the buffer, is an error; any other result moves the cursor |
| Parser.ConfigStep | src/descriptors/parser.rs:65-87 | a function found at the cursor lies within the buffer and moves the cursor forward |
| Parser.ConfigStepMeaning | src/descriptors/parser.rs:65-87 | the arms of one turn are those of the `match` on `peek_type`: Interface and association headers go to `try_parse_function*`, any other header ends the loop |
| Parser.ConfigWalk | src/descriptors/parser.rs:64-88 | the function loop only appends; the cursor advances by the lengths the modules report; it stops past the header at a descriptor that is no function; stopping right at the header is `NotFunction` |
| Parser.ConfigWalkStep | src/descriptors/parser.rs:64-88 | one turn: a module's result moves the cursor past it and is appended |
| Parser.ConfigWalkChained | src/descriptors/parser.rs:64-88 | the functions come in stream order, each parsed where the previous one ended |
| Parser.ConfigurationOf | src/descriptors/parser.rs:57-103 | on success the buffer heads with a Configuration header, and the returned cursor lies past it and within the buffer |
| Parser.ConfigurationOfHeader | src/descriptors/parser.rs:57-103 | a short buffer gives `Truncated`; a non-Configuration header gives `NotConfigDescriptor`; a header with no function after it gives `NotFunction`; on success the header re-encodes to the first nine bytes |
| Parser.ConfigurationOfFunctions | src/descriptors/parser.rs:57-103 | on success the functions are the chained module results from the end of the header, the cursor is the header length plus their lengths, and the loop stopped at a non-function |
| Parser.ConfigStepReadsSuffix | src/descriptors/parser.rs:65 | one turn reads only the bytes from the cursor on |
| Parser.ConfigWalkReadsSuffix | src/descriptors/parser.rs:64-88 | the function loop reads only the bytes from the header's end on |
| Parser.TotalLengthIgnored | src/descriptors/parser.rs:57-103 | `wTotalLength` is never consulted: changing it changes neither the outcome, nor the functions, nor the cursor |
| Parser.ParseConfigWithApplies | src/descriptors/parser.rs:28 | the device loop's configuration parser is `parse_config` over the registry |
| Parser.ConfigsFrom | src/descriptors/parser.rs:26-31 | the configuration loop only appends, exactly `count` times |
| Parser.ConfigsFromStep | src/descriptors/parser.rs:26-31 | one turn: a parser error ends the loop with that error; otherwise the configuration is appended and the cursor moves by its length |
| Parser.ConfigsFromChained | src/descriptors/parser.rs:26-31 | the configurations come in stream order, each parsed where the previous one ended |
| Parser.ConfigsOf | src/descriptors/parser.rs:24-31 | exactly `count` configurations, chained from the cursor |
| Parser.DeviceOf | src/descriptors/parser.rs:20-40 | a non-Device header gives `NotDeviceDescriptor`; on success the device re-encodes to the first eighteen bytes, and there are exactly `bNumConfigurations` configurations, chained from the end of the Device header |
| Decoder.DescriptorDecoder.constructor | src/lib.rs:19-23 | `new` gives an empty registry |
| Decoder.DescriptorDecoder.AddModule | src/lib.rs:25-28 | `add_module` stores the module under its name, replaces any module of that name, keeps every other name, and keeps the registry ascending |
| Decoder.DescriptorDecoder.FunctionAt | src/descriptors/parser.rs:65-79 | one turn of the function loop, as `ConfigStep` states |
| Decoder.DescriptorDecoder.ParseConfig | src/descriptors/parser.rs:57-103 | `parse_config` computes `ConfigurationOf` over the registry |
| Decoder.DescriptorDecoder.ParseFunctions | src/descriptors/parser.rs:61-96 | the function loop computes the functions and cursor of `ConfigWalk` |
| Decoder.DescriptorDecoder.ParseConfigAt | src/descriptors/parser.rs:28 | one call of `parse_config` from the cursor |
| Decoder.DescriptorDecoder.ParseConfigs | src/descriptors/parser.rs:24-31 | the configuration loop computes `ConfigsOf` |
| Decoder.DescriptorDecoder.Parse | src/descriptors/parser.rs:20-40 | `parse` computes `DeviceOf` over the registry |
| InterfaceGroup.Classify | src/descriptors/parser.rs:199-212 | an endpoint found at the cursor has its declared length and fits the buffer; an extension found there has positive length and fits; a failure is `Truncated` or `NoProgress` |
| InterfaceGroup.ClassifyMeaning | src/descriptors/parser.rs:199-212 | an endpoint is what `parse_endpoint` returns at the cursor; an extension is what the probe returns on a `PeekFailed` header; the loop stops exactly where the descriptor ends the body |
| InterfaceGroup.ScanBody | src/descriptors/parser.rs:198-214 | the endpoint loop's cursor stays within the buffer |
| InterfaceGroup.ScanBodyAppends | src/descriptors/parser.rs:198-214 | the endpoint loop only appends, and each endpoint is counted against the announced number |
| InterfaceGroup.ScanBodyAdvance | src/descriptors/parser.rs:198-214 | the cursor moves by exactly the bytes of the endpoints and extensions taken |
| InterfaceGroup.ScanBodyStops | src/descriptors/parser.rs:198-214 | the loop stops only at a descriptor that ends the body |
| InterfaceGroup.ScanBodyErrors | src/descriptors/parser.rs:198-214 | the loop fails only on a short buffer, a surplus endpoint or a stalled cursor |
| InterfaceGroup.ParseAlternate | src/descriptors/parser.rs:195-227 | an alternate keeps its header and flag, has exactly the announced endpoints, ends where its body ends, and a shortfall is `NotEnoughEndpoints` |
| InterfaceGroup.GroupFrom | src/descriptors/parser.rs:231-277 | further alternates all have the group's interface number; the cursor moves by exactly their bytes; the group ends at a descriptor that is not another alternate of that number |
| InterfaceGroup.InterfaceGroupSpec | src/descriptors/parser.rs:182-280 | at least one alternate, the first being the header at the start; all are alternates of one interface with their announced endpoints; the cursor is exactly the bytes they occupy |
| InterfaceGroup.GroupFromChained | src/descriptors/parser.rs:231-277 | each further alternate is the Interface record read at the cursor together with the body scanned from the end of that record, and the next one starts where it ends |
| InterfaceGroup.InterfaceGroupChained | src/descriptors/parser.rs:182-280 | every alternate of the group, the first included, is the Interface record and body found where the previous one ended, from byte 0 up to the returned cursor |
| InterfaceGroup.GroupFromAsWritten | src/descriptors/parser.rs:231-277 | the alternate loop as written only appends and keeps the cursor within the buffer |
| InterfaceGroup.InterfaceGroupAsWritten | src/descriptors/parser.rs:182-280 | as written, the result has at least one alternate and a cursor within the buffer |
| InterfaceGroup.ReReadWitnessFirst | src/descriptors/parser.rs:193-229 | on the witness input, the first alternate is interface 0 with no endpoints, and an Interface 1 header follows it |
| InterfaceGroup.ReReadWitnessCorrected | src/descriptors/parser.rs:231-277 | on the witness input, the corrected group is interface 0 alone and ends at byte 9 |
| InterfaceGroup.ReReadWitnessAsWritten | src/descriptors/parser.rs:235-236 | on the witness input, as written, the group swallows interface 1 and ends at byte 18 |
| InterfaceGroup.ReReadWitnessNotChained | src/descriptors/parser.rs:235-236 | the as-written result on the witness input, interface 0 read twice, is not chained: the second alternate is not what the bytes at the cursor hold |
| InterfaceGroup.ScanAlternateBody | src/descriptors/parser.rs:198-214 | the endpoint loop computes `ScanBody` |
| InterfaceGroup.ParseInterfaceGroup | src/descriptors/parser.rs:182-280 | `parse_interface_group`, with the next header read at the cursor, computes `InterfaceGroupSpec`, whose alternates `InterfaceGroupChained` proves chained from the start of the input |
| Topological.ClassSubclassProtocolFromWire | src/descriptors/topological_desc.rs:91-107 | for records read from the wire, the triple is that record's own class bytes |
| Topological.Expressions | src/descriptors/topological_desc.rs:65-78 | one expression per function, in order: an association's header or a group's first alternate |
| Topological.Interfaces | src/descriptors/topological_desc.rs:57-83 | with `is_refer_interface`, one expression per function of the first configuration and never the device; otherwise the device alone |
| Topological.InterfacesTriples | src/descriptors/topological_desc.rs:57-83 | each expression's triple is that of the function's own header record: its first alternate's Interface record or its association header |
| Topological.Headers | src/descriptors/topological_desc.rs:85-87 | one header per configuration, in order |
| Topological.Configs | src/descriptors/topological_desc.rs:85-87 | `configs` lists each configuration's header, in order |
| ContainedParsers.HidModule | src/contained_parsers/hid.rs:7-28 | the HID module is named "hid" and accepts exactly class 0x03 |
| ContainedParsers.UvcModule | src/contained_parsers/uvc.rs:7-29 | the UVC module is named "uvc" and accepts exactly class 0x0E |
| ContainedParsers.FiltersReadClassOnly | src/contained_parsers/uvc.rs:12-15 | both filters ignore subclass and protocol, and neither accepts the Audio/Video class 0x10 |
| ContainedParsers.FiltersDisjoint | src/contained_parsers/hid.rs:12-14 | no triple is accepted by both bundled modules |
| ContainedParsers.BundledDispatch | src/contained_parsers/mod.rs:9-20 | with both modules registered, HID goes to the HID parser, Video to the UVC parser and anything else is `NoSuitableModule`, in either registry order |
| ContainedParsers.LoadEmbedParsers | src/contained_parsers/mod.rs:9-20 | the registry is the old one with the HID module added if enabled and then the UVC module if enabled; each enabled module is stored under its name; every other name, a disabled module's included, keeps its module |
| Fixtures.LeafFixtures | src/descriptors/parser.rs:289-302 | the test's Configuration, Interface, HID and Endpoint bytes decode to the records its expected output lists |
| Fixtures.DeviceFixture | src/descriptors/parser.rs:304-329 | `peek_device_desc` on the test bytes gives the expected Device |
| Fixtures.HidTurnFixture | src/descriptors/parser.rs:289-302 | after the test's interface header, the endpoint loop takes the HID descriptor |
| Fixtures.EndpointTurnFixture | src/descriptors/parser.rs:289-302 | next it takes the interrupt IN endpoint of 7 bytes |
| Fixtures.EndTurnFixture | src/descriptors/parser.rs:289-302 | then it stops at the zero header |
| Fixtures.ScanEndFixture | src/descriptors/parser.rs:289-302 | the endpoint loop ends at byte 25 |
| Fixtures.ScanEndpointFixture | src/descriptors/parser.rs:289-302 | from the endpoint, the loop takes it and ends at byte 25 |
| Fixtures.ScanFixture | src/descriptors/parser.rs:289-302 | the endpoint loop from the interface header collects one endpoint and one HID descriptor |
| Fixtures.AlternateFixture | src/descriptors/parser.rs:289-302 | the test's alternate is the expected `USBInterface` |
| Fixtures.GroupFixture | src/descriptors/parser.rs:289-302 | the interface group is that one alternate, 25 bytes long |
| Fixtures.EmptyRegistryFixture | src/descriptors/parser.rs:296-297 | the test builds an empty registry, so `parse_config` on its bytes is `NoSuitableModule` |
| Fixtures.HidRegistryFixture | src/descriptors/parser.rs:289-302 | with a HID module that reads the group, `parse_config` gives the expected configuration and offset 34 |

## Left out

- Logging (`error!`) is not modelled.
- `cast` is not modelled as a memory reinterpretation. Each record has a
  checked decoder and an encoder, proved inverse.
- InterfaceGroup.GroupFrom: an Interface header of another number whose
  length byte is below nine or runs past the buffer gives `Truncated`.
  The checked decoder cannot read its interface number, so the group does
  not end there as a comparison of numbers would.
- Cargo features are not modelled. `load_embed_parsers` takes one boolean
  per feature instead of `#[cfg]`.
- The bundled modules' `parse` bodies are `todo!()`. Each module
  constructor takes its parser as a parameter.
- The cursor after an error is not modelled. `parse_interface_group`
  advances a caller's `&mut usize`. After an error, where that cursor
  stands is left unspecified. The model returns the cursor only with a
  successful result.
- `ParserError` in src/lib.rs:41-48 lacks `Ended` and `NotEnoughEndpoints`,
  which the code raises. The model's error type is the union.
- src/descriptors/desc_device.rs is not part of this model. The Device
  field list follows the test at src/descriptors/parser.rs:312-327.
  `is_refer_interface` is a parameter of `Topological.Interfaces`.
- The parser metadata record and the generic descriptor enum that
  topological_desc.rs names are not part of this model.
  `Topological.TopoRoot` has no metadata, and class-specific descriptors
  are `Extensions.Extension`.
- The UVC interrupt endpoint record is only its raw fields.
- Extensions.Extension: every class-specific descriptor has an
  `actual_len`. The `TopologyDescriptor` trait in src/lib.rs:50-52
  declares only `desc_type`. `actual_len` is implemented by the HID
  record (src/descriptors/desc_hid.rs:22) and called by the walker
  (src/descriptors/parser.rs:209, 253).
- No association body is scanned. The source reads an association's
  functions only through a module.
- `move` semantics are not modelled: `load_embed_parsers` takes the
  decoder by value and returns it, while `LoadEmbedParsers` updates it in
  place.
- Decoder.DescriptorDecoder.ParseConfigs: the ghost parameter `parse`
  stands for `parse_config` over the registry. The loop's specification
  is stated for any configuration parser equal to it.
- EndpointDesc.CalcActualInterval: requires the `u8` sum not to overflow,
  and `interval` to be at least 1 above full speed. The source's debug
  panic and release wrap-around are not modelled.
- EndpointDesc.CalculateMaxStreams: requires a companion record, where
  the source's `unwrap` panics.
- EndpointDesc.MaxStreams: requires a companion record for a bulk OUT
  endpoint, where the source's `unwrap` panics.
- EndpointDesc.IntervalKeepsPeriod: no period is stated for a
  non-isochronous endpoint at full or low speed, which gets
  `interval + 3` (src/descriptors/desc_endpoint.rs:48). There `bInterval`
  counts frames linearly, so 2^(bInterval + 3) units of 125 us is not its
  period: `bInterval` 10 means 10 ms, and the xHCI value means 1024 ms.
- EndpointDesc.Mult: the SuperSpeedPlus branch is not modelled, because
  `is_superspeedplus` always returns false.
- Topological.Interfaces: requires a first configuration whose Interface
  functions each have an alternate, where the source's `expect` panics.
- InterfaceGroup.InterfaceGroupSpec: requires an Interface header at the
  start whose length is `offset`, as the source's doc comment demands of
  callers.

## Findings

| source | as written | input that shows it | evidently intended | confidence | as-written member | corrected member |
|---|---|---|---|---|---|---|
| src/descriptors/parser.rs:235 | The next alternate's header is decoded from `&input[..*offset]`, the start of the buffer, so the interface number compared is always the first header's. | `InterfaceGroup.RE_READ_WITNESS`: interface 0 with no endpoints, then interface 1 with no endpoints, then `0, 0`. As written, interface 1 is taken for a second alternate of interface 0 and the group ends at byte 18. | Decode the header at the cursor, `&input[*offset..]`, as `is_alternative` describes. The group is interface 0 alone and ends at byte 9. | high, not executed | InterfaceGroup.ReReadWitnessAsWritten | InterfaceGroup.ReReadWitnessCorrected |
