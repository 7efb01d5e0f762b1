/**
 * The bundled class modules (src/contained_parsers): HID and UVC, each a
 * name and a predicate on the class code, and `load_embed_parsers`,
 * which registers the ones whose feature is enabled. The modules'
 * `parse` bodies are unimplemented in the repository, so each
 * constructor takes the parser as a parameter; the cargo features
 * become boolean parameters.
 */
module ContainedParsers {
  import opened Bytes
  import opened Errors
  import opened InterfaceDesc
  import opened Registry
  import opened Parser
  import opened Decoder

  /** Class codes of the USB-IF class-code list, as `StandardUSBDeviceClassCode` names them. */
  const HID_CLASS: u8 := 0x03
  const VIDEO_CLASS: u8 := 0x0E
  const AUDIO_VIDEO_CLASS: u8 := 0x10

  /** `HIDParserModule::filter_triple`. */
  predicate HidFilterTriple(classCode: u8, subclass: u8, protocol: u8) {
    classCode == HID_CLASS
  }

  /** `UVCParserModule::filter_triple`: Video, and not the Audio/Video device class. */
  predicate UvcFilterTriple(classCode: u8, subclass: u8, protocol: u8) {
    classCode == VIDEO_CLASS
  }

  /** `HIDParserModule`, registered under "hid", accepting exactly the HID class. */
  function HidModule(parse: seq<u8> -> Result<(UsbFunction, nat)>): (m: Module)
    ensures m.name == "hid" && m.parse == parse
    ensures forall c, s, p :: m.filterTriple(c, s, p) <==> c == 0x03
  {
    Module("hid", (c: u8, s: u8, p: u8) => HidFilterTriple(c, s, p), parse)
  }

  /** `UVCParserModule`, registered under "uvc", accepting exactly the Video class. */
  function UvcModule(parse: seq<u8> -> Result<(UsbFunction, nat)>): (m: Module)
    ensures m.name == "uvc" && m.parse == parse
    ensures forall c, s, p :: m.filterTriple(c, s, p) <==> c == 0x0E
  {
    Module("uvc", (c: u8, s: u8, p: u8) => UvcFilterTriple(c, s, p), parse)
  }

  /**
   * Both predicates read the class only, and the UVC one turns down the
   * Audio/Video device class.
   */
  lemma FiltersReadClassOnly(c: u8, s: u8, p: u8, s': u8, p': u8)
    ensures HidFilterTriple(c, s, p) == HidFilterTriple(c, s', p')
    ensures UvcFilterTriple(c, s, p) == UvcFilterTriple(c, s', p')
    ensures !UvcFilterTriple(AUDIO_VIDEO_CLASS, s, p) && !HidFilterTriple(AUDIO_VIDEO_CLASS, s, p)
  {
  }

  /** No triple is accepted by both bundled modules. */
  lemma FiltersDisjoint(c: u8, s: u8, p: u8)
    ensures !(HidFilterTriple(c, s, p) && UvcFilterTriple(c, s, p))
  {
  }

  /**
   * With the two bundled modules registered, dispatch hands HID functions
   * to the HID parser, Video functions to the UVC parser and refuses the
   * rest, whichever order the modules are kept in: their predicates are
   * disjoint, so name order never decides.
   */
  lemma BundledDispatch(hidParse: seq<u8> -> Result<(UsbFunction, nat)>,
                        uvcParse: seq<u8> -> Result<(UsbFunction, nat)>, t: Triple, input: seq<u8>)
    ensures var expected := if t.0 == HID_CLASS then hidParse(input)
                            else if t.0 == VIDEO_CLASS then uvcParse(input)
                            else Err(NoSuitableModule);
            Dispatch([HidModule(hidParse), UvcModule(uvcParse)], t, input) == expected
            && Dispatch([UvcModule(uvcParse), HidModule(hidParse)], t, input) == expected
  {
    var h := HidModule(hidParse);
    var u := UvcModule(uvcParse);
    assert Accepts(h, t) <==> t.0 == HID_CLASS;
    assert Accepts(u, t) <==> t.0 == VIDEO_CLASS;
    var hu := [h, u];
    var uh := [u, h];
    assert hu[0] == h && hu[1] == u && uh[0] == u && uh[1] == h;
  }

  /**
   * `load_embed_parsers`: register the HID module when `hidEnabled` and
   * then the UVC module when `uvcEnabled`. A module already registered
   * under an enabled module's name is replaced, every other name (the
   * name of a disabled module included) keeps its module, and with
   * neither feature the registry is left as it was.
   */
  method LoadEmbedParsers(decoder: DescriptorDecoder, hidEnabled: bool, uvcEnabled: bool,
                          hidParse: seq<u8> -> Result<(UsbFunction, nat)>,
                          uvcParse: seq<u8> -> Result<(UsbFunction, nat)>)
    requires decoder.Valid()
    modifies decoder
    ensures decoder.Valid()
    ensures !hidEnabled && !uvcEnabled ==> decoder.modules == old(decoder.modules)
    ensures hidEnabled ==> "hid" in AsMap(decoder.modules) && AsMap(decoder.modules)["hid"] == HidModule(hidParse)
    ensures uvcEnabled ==> "uvc" in AsMap(decoder.modules) && AsMap(decoder.modules)["uvc"] == UvcModule(uvcParse)
    ensures forall n | (n != "hid" || !hidEnabled) && (n != "uvc" || !uvcEnabled) ::
              (n in AsMap(decoder.modules) <==> n in AsMap(old(decoder.modules)))
              && (n in AsMap(decoder.modules) ==> AsMap(decoder.modules)[n] == AsMap(old(decoder.modules))[n])
    ensures var afterHid := if hidEnabled then Insert(old(decoder.modules), HidModule(hidParse))
                            else old(decoder.modules);
            decoder.modules == if uvcEnabled then Insert(afterHid, UvcModule(uvcParse)) else afterHid
    ensures |decoder.modules| <= |old(decoder.modules)| + 2
  {
    if hidEnabled {
      decoder.AddModule(HidModule(hidParse));
    }
    if uvcEnabled {
      decoder.AddModule(UvcModule(uvcParse));
    }
  }
}
