/**
 * Classification of device signals and package pins into label variants, the
 * parser for composite function names such as "TCA0_WO3_ALT2", and the short
 * text every label variant draws on its pin (dx_functions.py).
 *
 * The source builds one object per label, of a class chosen by a factory; here
 * a label is a value that records its variant and the record it was made from,
 * and every per-class property is a function over that value.
 */
module DxFunctions {
  import opened Wrappers
  import opened Strings

  /** A peripheral signal as the device description lists it: the composite
      function name, the sub-signal group, its channel index and the pad it is
      routed to. */
  datatype Signal = Signal(functionId: string, group: string, index: nat, pad: string)

  /** The signal label classes, in the order they are declared. */
  datatype SignalVariant =
    | Ptc | Analog | Opamp | AsyncSerial | SyncSerial | I2C | Spi | Adc | Comparator
    | Dac | Zcd | SystemSignal | OtherSignal | Clock | Pwm | Tca | Tcb | Tcd
    | Logic | Evsys | Ccl | Control | Skip | Spacer

  /** The pin label classes, in the order they are declared. */
  datatype PinVariant = Port | MvioPort | MvioVdd | Vss | Vdd | SystemPin | OtherPin

  datatype Variant = OfPin(pin: PinVariant) | OfSignal(sig: SignalVariant)

  /** A label attached to a pad: made from a signal or from the pad's own name. */
  datatype FunctionLabel =
    | SignalFunction(variant: SignalVariant, signal: Signal)
    | PinFunction(pinVariant: PinVariant, pinName: string)

  // ---------------------------------------------------------------------------
  // Signal classification

  /** The type token: the function name up to its first `_`, trailing digits
      removed, lower-cased. */
  function SignalToken(functionId: string): string {
    Lower(RStripDigits(Partition(functionId, "_").before))
  }

  /** The factory's chain of tests, in source order; the first that holds wins.
      The second to fourth tests can never hold once the first has failed. */
  function SignalVariantOf(token: string): SignalVariant {
    if token in ["tca", "tcb", "tcd"] then Pwm
    else if token in ["tca"] then Tca
    else if token in ["tcb"] then Tcb
    else if token in ["tcd"] then Tcd
    else if token in ["ptc"] then Ptc
    else if token in ["ain", "dac", "vrefa"] then Analog
    else if token in ["opamp"] then Opamp
    else if token in ["ac", "zcd"] then Comparator
    else if token in ["usart"] then AsyncSerial
    else if token in ["twi", "spi", "i2c"] then SyncSerial
    else if token in ["ccl", "evsys"] then Logic
    else if token in ["clkctrl", "other", "updi"] then SystemSignal
    else if token in ["ioport"] then Skip
    else OtherSignal
  }

  /** The label the signal factory builds: total, and it keeps the signal as given. */
  function SignalFunctionFactory(signal: Signal): (f: FunctionLabel)
    ensures f.SignalFunction? && f.signal == signal
    ensures f.variant in {Pwm, Ptc, Analog, Opamp, Comparator, AsyncSerial, SyncSerial,
                          Logic, SystemSignal, Skip, OtherSignal}
  {
    SignalFunction(SignalVariantOf(SignalToken(signal.functionId)), signal)
  }

  /** The tokens the dispatch table assigns to each variant; variants the
      factory never builds have none. */
  function DispatchTokens(v: SignalVariant): set<string> {
    match v
    case Pwm => {"tca", "tcb", "tcd"}
    case Ptc => {"ptc"}
    case Analog => {"ain", "dac", "vrefa"}
    case Opamp => {"opamp"}
    case Comparator => {"ac", "zcd"}
    case AsyncSerial => {"usart"}
    case SyncSerial => {"twi", "spi", "i2c"}
    case Logic => {"ccl", "evsys"}
    case SystemSignal => {"clkctrl", "other", "updi"}
    case Skip => {"ioport"}
    case _ => {}
  }

  /** Every listed variant is chosen exactly for its own tokens, and anything
      else falls through to OtherSignal. In particular the TCA, TCB and TCD
      variants are never chosen. */
  lemma SignalDispatch(token: string, v: SignalVariant)
    ensures v != OtherSignal ==> (SignalVariantOf(token) == v <==> token in DispatchTokens(v))
    ensures SignalVariantOf(token) == OtherSignal <==> forall w :: token !in DispatchTokens(w)
  {
    if SignalVariantOf(token) != OtherSignal {
      assert token in DispatchTokens(SignalVariantOf(token));
    }
  }

  /** The token does not depend on letter case. */
  lemma SignalTokenCaseInsensitive(f: string, g: string)
    requires Lower(f) == Lower(g)
    ensures SignalToken(f) == SignalToken(g)
  {
    LowerPartitionUnderscore(f);
    LowerPartitionUnderscore(g);
    LowerRStripDigits(Partition(f, "_").before);
    LowerRStripDigits(Partition(g, "_").before);
  }

  /** Two signals whose names differ only in letter case get the same variant. */
  lemma ClassifySignalCaseInsensitive(s: Signal, t: Signal)
    requires Lower(s.functionId) == Lower(t.functionId)
    ensures SignalFunctionFactory(s).variant == SignalFunctionFactory(t).variant
  {
    SignalTokenCaseInsensitive(s.functionId, t.functionId);
  }

  // ---------------------------------------------------------------------------
  // Pin classification

  /** The pin token: the pin name without trailing digits, lower-cased. */
  function PinToken(pinName: string): string {
    Lower(RStripDigits(pinName))
  }

  /** The pin factory's chain of tests, in source order. */
  function PinVariantOf(token: string): PinVariant {
    if token in ["vddio"] then MvioVdd
    else if StartsWith(token, "pc") then MvioPort
    else if StartsWith(token, "p") then Port
    else if token in ["agnd", "gnd"] then Vss
    else if token in ["avdd", "vdd"] then Vdd
    else if token in ["updi"] then SystemPin
    else OtherPin
  }

  /** The label the pin factory builds: total, and it keeps the pin name as given. */
  function PinFunctionFactory(pinName: string): (f: FunctionLabel)
    ensures f.PinFunction? && f.pinName == pinName
  {
    PinFunction(PinVariantOf(PinToken(pinName)), pinName)
  }

  /** Which pin variant each token selects, both ways: `vddio` wins before the
      `pc` prefix, which wins before the generic `p` prefix. */
  lemma PinDispatch(token: string)
    ensures PinVariantOf(token) == MvioVdd <==> token == "vddio"
    ensures PinVariantOf(token) == MvioPort <==> StartsWith(token, "pc")
    ensures PinVariantOf(token) == Port <==> StartsWith(token, "p") && !StartsWith(token, "pc")
    ensures PinVariantOf(token) == Vss <==> token == "agnd" || token == "gnd"
    ensures PinVariantOf(token) == Vdd <==> token == "avdd" || token == "vdd"
    ensures PinVariantOf(token) == SystemPin <==> token == "updi"
    ensures PinVariantOf(token) == OtherPin <==>
      !StartsWith(token, "p") && token !in ["vddio", "agnd", "gnd", "avdd", "vdd", "updi"]
  {
    IsPrefixSlice("pc", token);
    IsPrefixSlice("p", token);
    if StartsWith(token, "pc") {
      assert token[..1] == token[..2][..1];
    }
    if token == "vddio" {
      assert token[..1] == "v";
    }
  }

  // ---------------------------------------------------------------------------
  // Composite function names

  datatype ParsedName = ParsedName(name: string, instance: nat, altPosition: nat)

  /** `parse_function`: split at the first `_ALT`; the part before loses its
      trailing digits to give the name, and those digits are the instance; the
      part after is the alternate position. Numbers that do not parse are 0. */
  function ParseFunction(functionId: string): ParsedName {
    var parts := Partition(functionId, "_ALT");
    var name := RStripDigits(parts.before);
    var instance := ReplaceAll(parts.before, name, "");
    ParsedName(name, ParseNat(instance).GetOr(0), ParseNat(parts.after).GetOr(0))
  }

  /** Removing the digit-stripped name from a string leaves exactly its digit suffix. */
  lemma ReplaceStrippedName(inst: string)
    ensures ReplaceAll(inst, RStripDigits(inst), "") == DigitSuffix(inst)
  {
    var name, d := RStripDigits(inst), DigitSuffix(inst);
    assert inst == name + d;
    if name == [] {
      ReplaceEmptyByEmpty(inst);
    } else {
      ReplaceLeading(name, d, "");
      forall k ensures !OccursAt(d, name, k) {
        OccursAtSlice(d, name, k);
        if 0 <= k && k + |name| <= |d| {
          assert d[k..k + |name|][|name| - 1] == d[k + |name| - 1];
        }
      }
      ReplaceAbsent(d, name, "");
    }
  }

  /** The name and instance that `ParseFunction` returns recompose the part of
      the function name before `_ALT`. */
  lemma ParseFunctionInstance(functionId: string)
    ensures var inst := Partition(functionId, "_ALT").before;
            var p := ParseFunction(functionId);
            && p.name + DigitSuffix(inst) == inst
            && (p.name == [] || !IsDigit(p.name[|p.name| - 1]))
            && p.instance == if DigitSuffix(inst) == [] then 0 else DigitsValue(DigitSuffix(inst))
  {
    ReplaceStrippedName(Partition(functionId, "_ALT").before);
  }

  /** The first `_ALT` of `x + "_ALT" + a` is the appended one when `x` has none:
      the marker cannot overlap itself. */
  lemma FirstAltMarker(x: string, a: string)
    requires !Contains(x, "_ALT")
    ensures OccursAt(x + "_ALT" + a, "_ALT", |x|)
    ensures forall k :: k < |x| ==> !OccursAt(x + "_ALT" + a, "_ALT", k)
  {
    var s := x + "_ALT" + a;
    assert s[|x|..|x| + 4] == "_ALT";
    OccursAtSlice(s, "_ALT", |x|);
    forall k | k < |x| ensures !OccursAt(s, "_ALT", k) {
      OccursAtSlice(s, "_ALT", k);
      OccursAtSlice(x, "_ALT", k);
      if 0 <= k && k + 4 <= |x| {
        assert s[k..k + 4] == x[k..k + 4];
      } else if 0 <= k {
        assert s[|x|] == '_';
        assert s[|x|] == s[k..k + 4][|x| - k];
      }
    }
  }

  /** Appending `_ALT` and a suffix to a name without `_ALT` keeps its name and
      instance and makes the suffix's value (0 if it is not a number) the
      alternate position. */
  lemma ParseFunctionAlt(x: string, a: string)
    requires !Contains(x, "_ALT")
    ensures ParseFunction(x + "_ALT" + a) ==
            ParsedName(ParseFunction(x).name, ParseFunction(x).instance, ParseNat(a).GetOr(0))
  {
    var s := x + "_ALT" + a;
    FirstAltMarker(x, a);
    assert Find(s, "_ALT") == Some(|x|);
    assert s[..|x|] == x;
    assert s[|x| + 4..] == a;
  }

  /** `X_ALT<n>` has alternate position n and the name and instance of `X`. */
  lemma ParseFunctionAltNumber(x: string, n: nat)
    requires !Contains(x, "_ALT")
    ensures ParseFunction(x + "_ALT" + NatToString(n)) ==
            ParsedName(ParseFunction(x).name, ParseFunction(x).instance, n)
  {
    ParseFunctionAlt(x, NatToString(n));
  }

  /** A name without `_ALT` made of a digit-free-ending stem and digits
      parses to the stem, with the digits as instance. */
  lemma ParseFunctionNumbered(x: string, d: string)
    requires !Contains(x + d, "_ALT")
    requires x == [] || !IsDigit(x[|x| - 1])
    requires AllDigits(d)
    ensures ParseFunction(x + d) == ParsedName(x, ParseNat(d).GetOr(0), 0)
  {
    RStripDigitsOf(x, d);
    ParseFunctionInstance(x + d);
    assert (x + d)[|x|..] == d;
  }

  /** A name that neither ends in a digit nor holds `_ALT` parses to itself
      with instance 0 and alternate position 0. */
  lemma ParseFunctionPlainName(x: string)
    requires !Contains(x, "_ALT")
    requires x == [] || !IsDigit(x[|x| - 1])
    ensures ParseFunction(x) == ParsedName(x, 0, 0)
  {
    RStripDigitsOf(x, []);
    assert x + [] == x;
    if x != [] {
      ReplaceLeading(x, [], "");
    }
  }

  // ---------------------------------------------------------------------------
  // Label properties

  /** `name`: the parsed name of a signal label, the raw name of a pin label. */
  function LabelName(f: FunctionLabel): string {
    match f
    case SignalFunction(_, s) => ParseFunction(s.functionId).name
    case PinFunction(_, n) => n
  }

  /** `instance`: 0 for every pin label. */
  function LabelInstance(f: FunctionLabel): nat {
    match f
    case SignalFunction(_, s) => ParseFunction(s.functionId).instance
    case PinFunction(_, _) => 0
  }

  /** `alt_position`: 0 for every pin label. */
  function LabelAltPosition(f: FunctionLabel): nat {
    match f
    case SignalFunction(_, s) => ParseFunction(s.functionId).altPosition
    case PinFunction(_, _) => 0
  }

  /** `is_alt` */
  predicate LabelIsAlt(f: FunctionLabel) {
    match f
    case SignalFunction(_, s) => ParseFunction(s.functionId).altPosition > 0
    case PinFunction(_, _) => false
  }

  /** `skip`: only the Skip variant sets it. */
  predicate IsSkipped(f: FunctionLabel) {
    f.SignalFunction? && f.variant == Skip
  }

  /** A label is left off the drawing exactly when its signal's token is `ioport`. */
  lemma SkipIffIoport(s: Signal)
    ensures IsSkipped(SignalFunctionFactory(s)) <==> SignalToken(s.functionId) == "ioport"
  {
    SignalDispatch(SignalToken(s.functionId), Skip);
  }

  // ---------------------------------------------------------------------------
  // Label text

  function InstanceText(instance: nat): string {
    if instance > 0 then NatToString(instance) else ""
  }

  /** The `/n` suffix an alternate mapping shows (`is_alt` holds exactly when n > 0). */
  function AltText(altPosition: nat): string {
    if altPosition > 0 then "/" + NatToString(altPosition) else ""
  }

  /** Default signal text: group, then the instance if non-zero, then `/alt` if non-zero. */
  function DefaultText(s: Signal): string {
    var p := ParseFunction(s.functionId);
    s.group + InstanceText(p.instance) + AltText(p.altPosition)
  }

  /** Touch text: group, `.`, index. */
  function PtcText(s: Signal): string {
    s.group + "." + NatToString(s.index)
  }

  /** Analog text: an ADC or DAC channel number, or else the name itself. */
  function AnalogText(s: Signal): string {
    var name := ParseFunction(s.functionId).name;
    if Contains(name, "AIN") then "ADC." + NatToString(s.index)
    else if Contains(name, "DAC") then "DAC." + NatToString(s.index)
    else name
  }

  /** OpAmp text: only the first of the three rewrites that applies is made. */
  function OpampText(s: Signal): string {
    var text := s.group;
    if Contains(text, "INP") then ReplaceAll(text, "INP", ".IN+")
    else if Contains(text, "INN") then ReplaceAll(text, "INN", ".IN-")
    else if Contains(text, "OUT") then ReplaceAll(text, "OUT", ".OUT")
    else text
  }

  function Polarity(group: string): string {
    if group == "N" then "-" else if group == "P" then "+" else ""
  }

  /** Comparator text: the raw function name with every `_ALT` removed, then the polarity. */
  function ComparatorText(s: Signal): string {
    var name := if Contains(s.functionId, "_ALT") then ReplaceAll(s.functionId, "_ALT", "") else s.functionId;
    name + Polarity(s.group)
  }

  /** PWM (and TCD) text: name, instance if non-zero, `.`, group, `/alt` if alternate. */
  function PwmText(s: Signal): string {
    var p := ParseFunction(s.functionId);
    p.name + InstanceText(p.instance) + "." + s.group + AltText(p.altPosition)
  }

  /** TCA text: as PWM, with the channel index after the group. */
  function TcaText(s: Signal): string {
    var p := ParseFunction(s.functionId);
    p.name + InstanceText(p.instance) + "." + s.group + NatToString(s.index) + AltText(p.altPosition)
  }

  /** TCB text: name and instance, the instance written even when it is 0. */
  function TcbText(s: Signal): string {
    var p := ParseFunction(s.functionId);
    p.name + NatToString(p.instance) + AltText(p.altPosition)
  }

  /** Logic text: `EVOUT` first, then `_OUT`, then `_IN`, else `x` for the index. */
  function LogicText(s: Signal): string {
    var group := s.group;
    if group == "EVOUT" then "EV.OUT" + NatToString(s.index)
    else if Contains(group, "_OUT") then ReplaceAll(group, "_OUT", ".OUT") + NatToString(s.index)
    else if Contains(group, "_IN") then ReplaceAll(group, "_IN", ".IN") + NatToString(s.index)
    else group + "x"
  }

  /** Clock-system text: `XTAL` shortened to `XTL`. */
  function ControlText(s: Signal): string {
    ReplaceAll(s.group, "XTAL", "XTL")
  }

  /** `text`: the short label drawn on the pin, by variant. */
  function Text(f: FunctionLabel): string {
    match f
    case PinFunction(_, name) => name
    case SignalFunction(v, s) =>
      match v
      case Ptc => PtcText(s)
      case Analog => AnalogText(s)
      case Opamp => OpampText(s)
      case Comparator => ComparatorText(s)
      case Pwm => PwmText(s)
      case Tca => TcaText(s)
      case Tcb => TcbText(s)
      case Tcd => PwmText(s)
      case Logic => LogicText(s)
      case Control => ControlText(s)
      case _ => DefaultText(s)
  }

  /** A pin label shows the raw pin name verbatim, is never alternate, has
      instance 0 and is never skipped. */
  lemma PinLabelVerbatim(pinName: string)
    ensures var f := PinFunctionFactory(pinName);
            && Text(f) == pinName && LabelName(f) == pinName
            && LabelInstance(f) == 0 && LabelAltPosition(f) == 0
            && !LabelIsAlt(f) && !IsSkipped(f)
  {
  }

  /** A name without `_ALT` has alternate position 0. */
  lemma ParseFunctionNoAlt(x: string)
    requires !Contains(x, "_ALT")
    ensures ParseFunction(x).altPosition == 0
  {
  }

  /** For the default, PWM (and TCD), TCA and TCB texts, the label of
      `X_ALT<a>` is the label of `X` followed by `/a` (nothing when `a` is
      empty or not a number). */
  lemma DefaultTextOfAlternate(x: string, a: string, group: string, index: nat, pad: string)
    requires !Contains(x, "_ALT")
    ensures DefaultText(Signal(x + "_ALT" + a, group, index, pad)) ==
            DefaultText(Signal(x, group, index, pad)) + AltText(ParseNat(a).GetOr(0))
  {
    ParseFunctionAlt(x, a);
    ParseFunctionNoAlt(x);
  }

  lemma PwmTextOfAlternate(x: string, a: string, group: string, index: nat, pad: string)
    requires !Contains(x, "_ALT")
    ensures PwmText(Signal(x + "_ALT" + a, group, index, pad)) ==
            PwmText(Signal(x, group, index, pad)) + AltText(ParseNat(a).GetOr(0))
  {
    ParseFunctionAlt(x, a);
    ParseFunctionNoAlt(x);
  }

  lemma TcaTextOfAlternate(x: string, a: string, group: string, index: nat, pad: string)
    requires !Contains(x, "_ALT")
    ensures TcaText(Signal(x + "_ALT" + a, group, index, pad)) ==
            TcaText(Signal(x, group, index, pad)) + AltText(ParseNat(a).GetOr(0))
  {
    ParseFunctionAlt(x, a);
    ParseFunctionNoAlt(x);
  }

  lemma TcbTextOfAlternate(x: string, a: string, group: string, index: nat, pad: string)
    requires !Contains(x, "_ALT")
    ensures TcbText(Signal(x + "_ALT" + a, group, index, pad)) ==
            TcbText(Signal(x, group, index, pad)) + AltText(ParseNat(a).GetOr(0))
  {
    ParseFunctionAlt(x, a);
    ParseFunctionNoAlt(x);
  }

  /** Analog text depends on the name only, which an `_ALT` suffix leaves alone. */
  lemma AnalogTextOfAlternate(x: string, a: string, group: string, index: nat, pad: string)
    requires !Contains(x, "_ALT")
    ensures AnalogText(Signal(x + "_ALT" + a, group, index, pad)) == AnalogText(Signal(x, group, index, pad))
  {
    ParseFunctionAlt(x, a);
  }


  /** Removing every `_ALT` from `_ALT<d>`, `d` all digits, leaves `d`. */
  lemma RemoveLeadingAltMarker(d: string)
    requires AllDigits(d)
    ensures ReplaceAll("_ALT" + d, "_ALT", "") == d
  {
    ReplaceLeading("_ALT", d, "");
    AbsentByFirstChar(d, "_ALT");
    ReplaceAbsent(d, "_ALT", "");
  }

  /** Removing every `_ALT` from `X_ALT<d>`, with `X` free of the marker and
      `d` all digits, leaves `X<d>`. */
  lemma RemoveAltMarker(x: string, d: string)
    requires !Contains(x, "_ALT")
    requires AllDigits(d)
    ensures ReplaceAll(x + "_ALT" + d, "_ALT", "") == x + d
  {
    var y := "_ALT" + d;
    FirstAltMarker(x, d);
    assert x + "_ALT" + d == x + y;
    ReplaceKeepsCleanPrefix(x, y, "_ALT", "");
    RemoveLeadingAltMarker(d);
  }

  /** The comparator drops the `_ALT` marker but keeps the digits after it. */
  lemma ComparatorTextOfAlternate(x: string, d: string, group: string, index: nat, pad: string)
    requires !Contains(x, "_ALT")
    requires AllDigits(d)
    ensures ComparatorText(Signal(x, group, index, pad)) == x + Polarity(group)
    ensures ComparatorText(Signal(x + "_ALT" + d, group, index, pad)) == x + d + Polarity(group)
  {
    FirstAltMarker(x, d);
    assert Contains(x + "_ALT" + d, "_ALT");
    RemoveAltMarker(x, d);
  }

  // ---------------------------------------------------------------------------
  // Concrete cases

  /** The token of a name `<x><d>_<rest>`, with `x` free of `_` and of
      trailing digits and `d` all digits, is `x` lower-cased. */
  lemma SignalTokenOf(x: string, d: string, rest: string)
    requires '_' !in x && '_' !in d
    requires x == [] || !IsDigit(x[|x| - 1])
    requires AllDigits(d)
    ensures SignalToken(x + d + "_" + rest) == Lower(x)
  {
    PartitionFirstChar(x + d, '_', rest);
    RStripDigitsOf(x, d);
  }

  /** The token of a name `<x><d>` without `_`, with `x` free of trailing
      digits and `d` all digits, is `x` lower-cased. */
  lemma SignalTokenOfPlain(x: string, d: string)
    requires '_' !in x + d
    requires x == [] || !IsDigit(x[|x| - 1])
    requires AllDigits(d)
    ensures SignalToken(x + d) == Lower(x)
  {
    ContainsChar(x + d, '_');
    RStripDigitsOf(x, d);
  }

  /** The pin variant of `<x><d>`, `x` free of trailing digits and `d` all
      digits, is chosen by `x` lower-cased. */
  lemma PinVariantOfName(x: string, d: string)
    requires x == [] || !IsDigit(x[|x| - 1])
    requires AllDigits(d)
    ensures PinFunctionFactory(x + d).pinVariant == PinVariantOf(Lower(x))
  {
    RStripDigitsOf(x, d);
  }

  lemma ExamplePwmVariant()
    ensures SignalFunctionFactory(Signal("TCA0_WO3_ALT2", "WO", 3, "PA3")).variant == Pwm
  {
    assert Lower("TCA") == "tca";
    assert SignalVariantOf("tca") == Pwm;
    assert "TCA" + "0" + "_" + "WO3_ALT2" == "TCA0_WO3_ALT2";
    SignalTokenOf("TCA", "0", "WO3_ALT2");
  }

  /** The whole function id is parsed: name `TCA0_WO`, instance 3, alternate 2. */
  lemma ExamplePwmParse()
    ensures ParseFunction("TCA0_WO3_ALT2") == ParsedName("TCA0_WO", 3, 2)
  {
    assert "_ALT"[2] == 'L' && 'L' !in "TCA0_WO3";
    assert DigitsValue("3") == 3;
    assert "TCA0_WO3" + "_ALT" + NatToString(2) == "TCA0_WO3_ALT2";
    assert "TCA0_WO" + "3" == "TCA0_WO3";
    AbsentByChar("TCA0_WO3", "_ALT", 2);
    ParseFunctionAltNumber("TCA0_WO3", 2);
    ParseFunctionNumbered("TCA0_WO", "3");
  }

  lemma ExamplePwmText()
    ensures PwmText(Signal("TCA0_WO3_ALT2", "WO", 3, "PA3")) == "TCA0_WO3.WO/2"
  {
    assert "TCA0_WO" + "3" + "." + "WO" + "/2" == "TCA0_WO3.WO/2";
    assert InstanceText(3) == "3" && AltText(2) == "/2";
    ExamplePwmParse();
    assert PwmText(Signal("TCA0_WO3_ALT2", "WO", 3, "PA3")) == "TCA0_WO" + "3" + "." + "WO" + "/2";
  }

  /** `USART0_TXD` is an asynchronous serial signal. */
  lemma ExampleUsartVariant()
    ensures SignalFunctionFactory(Signal("USART0_TXD", "TXD", 0, "PA0")).variant == AsyncSerial
  {
    assert Lower("USART") == "usart";
    assert SignalVariantOf("usart") == AsyncSerial;
    assert "USART" + "0" + "_" + "TXD" == "USART0_TXD";
    SignalTokenOf("USART", "0", "TXD");
  }

  /** The digits inside `USART0_TXD` are not its instance: the name is the whole id. */
  lemma ExampleUsartParse()
    ensures ParseFunction("USART0_TXD") == ParsedName("USART0_TXD", 0, 0)
  {
    assert "_ALT"[2] == 'L' && 'L' !in "USART0_TXD";
    AbsentByChar("USART0_TXD", "_ALT", 2);
    ParseFunctionPlainName("USART0_TXD");
  }

  lemma ExampleUsartText()
    ensures DefaultText(Signal("USART0_TXD", "TXD", 0, "PA0")) == "TXD"
  {
    ExampleUsartParse();
  }

  /** Classification ignores letter case. */
  lemma ExampleUsartLowerCase()
    ensures SignalFunctionFactory(Signal("usart0_txd", "TXD", 0, "PA0")).variant == AsyncSerial
  {
    assert Lower("usart0_txd") == Lower("USART0_TXD");
    ClassifySignalCaseInsensitive(Signal("usart0_txd", "TXD", 0, "PA0"), Signal("USART0_TXD", "TXD", 0, "PA0"));
    ExampleUsartVariant();
  }

  lemma ExampleAnalogVariant()
    ensures SignalFunctionFactory(Signal("AIN5", "AIN", 5, "PD5")).variant == Analog
  {
    assert Lower("AIN") == "ain";
    assert SignalVariantOf("ain") == Analog;
    assert "AIN" + "5" == "AIN5";
    SignalTokenOfPlain("AIN", "5");
  }

  /** An ADC input shows its channel number. */
  lemma ExampleAnalogText()
    ensures AnalogText(Signal("AIN5", "AIN", 5, "PD5")) == "ADC.5"
  {
    assert Contains("AIN", "AIN");
    assert NatToString(5) == "5";
    ExampleAnalogParse();
  }

  lemma ExampleAnalogParse()
    ensures ParseFunction("AIN5") == ParsedName("AIN", 5, 0)
  {
    assert "AIN" + "5" == "AIN5";
    assert "_ALT"[0] == '_' && '_' !in "AIN5";
    assert DigitsValue("5") == 5;
    AbsentByChar("AIN5", "_ALT", 0);
    ParseFunctionNumbered("AIN", "5");
  }

  /** General-purpose I/O signals are skipped. */
  lemma ExampleIoport()
    ensures IsSkipped(SignalFunctionFactory(Signal("IOPORT_PA0", "PA", 0, "PA0")))
  {
    assert Lower("IOPORT") == "ioport";
    assert "IOPORT" + "" + "_" + "PA0" == "IOPORT_PA0";
    SignalTokenOf("IOPORT", "", "PA0");
    SkipIffIoport(Signal("IOPORT_PA0", "PA", 0, "PA0"));
  }

  /** `vddio` is tested before the `pc` prefix, and `pc` before `p`. */
  lemma ExampleMvioPort()
    ensures PinFunctionFactory("PC3").pinVariant == MvioPort
  {
    assert PinVariantOf("pc") == MvioPort;
    assert Lower("PC") == "pc";
    assert "PC" + "3" == "PC3";
    PinVariantOfName("PC", "3");
  }

  lemma ExamplePort()
    ensures PinFunctionFactory("PA3").pinVariant == Port
  {
    assert PinVariantOf("pa") == Port;
    assert Lower("PA") == "pa";
    assert "PA" + "3" == "PA3";
    PinVariantOfName("PA", "3");
  }

  lemma ExampleMvioVdd()
    ensures PinFunctionFactory("VDDIO2").pinVariant == MvioVdd
  {
    assert PinVariantOf("vddio") == MvioVdd;
    assert Lower("VDDIO") == "vddio";
    assert "VDDIO" + "2" == "VDDIO2";
    PinVariantOfName("VDDIO", "2");
  }

  lemma ExampleVss()
    ensures PinFunctionFactory("GND").pinVariant == Vss
  {
    assert PinVariantOf("gnd") == Vss;
    assert Lower("GND") == "gnd";
    assert "GND" + "" == "GND";
    PinVariantOfName("GND", "");
  }

  lemma ExampleOtherPin()
    ensures PinFunctionFactory("RESET").pinVariant == OtherPin
  {
    assert PinVariantOf("reset") == OtherPin;
    assert Lower("RESET") == "reset";
    assert "RESET" + "" == "RESET";
    PinVariantOfName("RESET", "");
  }

  /** An op-amp group holding `INP` has that `INP` written `.IN+`, whatever
      else it holds: the later rules are not applied. */
  lemma OpampTextInp(x: string, y: string, f: string, index: nat, pad: string)
    requires !Contains(x, "INP") && !Contains(y, "INP")
    ensures OpampText(Signal(f, x + "INP" + y, index, pad)) == x + ".IN+" + y
  {
    assert "INP"[0] !in "INP"[1..];
    ReplaceSingle(x, "INP", y, ".IN+");
  }

  /** Without `INP`, an `INN` is written `.IN-` and any `OUT` is left alone. */
  lemma OpampTextInn(x: string, y: string, f: string, index: nat, pad: string)
    requires !Contains(x + "INN" + y, "INP")
    requires !Contains(x, "INN") && !Contains(y, "INN")
    ensures OpampText(Signal(f, x + "INN" + y, index, pad)) == x + ".IN-" + y
  {
    assert "INN"[0] !in "INN"[1..];
    ReplaceSingle(x, "INN", y, ".IN-");
  }

  /** Without `INP` or `INN`, an `OUT` is written `.OUT`. */
  lemma OpampTextOut(x: string, y: string, f: string, index: nat, pad: string)
    requires !Contains(x + "OUT" + y, "INP") && !Contains(x + "OUT" + y, "INN")
    requires !Contains(x, "OUT") && !Contains(y, "OUT")
    ensures OpampText(Signal(f, x + "OUT" + y, index, pad)) == x + ".OUT" + y
  {
    assert "OUT"[0] !in "OUT"[1..];
    ReplaceSingle(x, "OUT", y, ".OUT");
  }

  /** A logic group holding `_OUT` has it written `.OUT`, followed by the
      index, even when it also holds `_IN`. */
  lemma LogicTextOut(x: string, y: string, f: string, index: nat, pad: string)
    requires !Contains(x, "_OUT") && !Contains(y, "_OUT")
    ensures LogicText(Signal(f, x + "_OUT" + y, index, pad)) == x + ".OUT" + y + NatToString(index)
  {
    var g := x + "_OUT" + y;
    assert g[|x|] == '_' && '_' !in "EVOUT";
    assert "_OUT"[0] !in "_OUT"[1..];
    ReplaceSingle(x, "_OUT", y, ".OUT");
  }

  /** The `_OUT` case where the marker ends the group. */
  lemma LogicTextOutLast(x: string, s: Signal)
    requires !Contains(x, "_OUT") && s.group == x + "_OUT"
    ensures LogicText(s) == x + ".OUT" + NatToString(s.index)
  {
    assert s.group == x + "_OUT" + "";
    assert "_OUT"[0] !in "" ;
    AbsentByChar("", "_OUT", 0);
    LogicTextOut(x, "", s.functionId, s.index, s.pad);
    assert s == Signal(s.functionId, x + "_OUT" + "", s.index, s.pad);
    assert x + ".OUT" + "" == x + ".OUT";
  }

  /** A logic group with `_IN` and no `_OUT` has the `_IN` written `.IN`,
      followed by the index. */
  lemma LogicTextIn(x: string, y: string, f: string, index: nat, pad: string)
    requires !Contains(x + "_IN" + y, "_OUT")
    requires !Contains(x, "_IN") && !Contains(y, "_IN")
    ensures LogicText(Signal(f, x + "_IN" + y, index, pad)) == x + ".IN" + y + NatToString(index)
  {
    var g := x + "_IN" + y;
    assert g[|x|] == '_' && '_' !in "EVOUT";
    assert "_IN"[0] !in "_IN"[1..];
    ReplaceSingle(x, "_IN", y, ".IN");
  }

  /** The clock-system text shortens an `XTAL` to `XTL` and keeps the rest. */
  lemma ControlTextXtal(x: string, y: string, f: string, index: nat, pad: string)
    requires !Contains(x, "XTAL") && !Contains(y, "XTAL")
    ensures ControlText(Signal(f, x + "XTAL" + y, index, pad)) == x + "XTL" + y
  {
    assert "XTAL"[0] !in "XTAL"[1..];
    ReplaceSingle(x, "XTAL", y, "XTL");
  }

  /** The touch text reads back: the group before the first `.`, then the
      channel index. */
  lemma PtcTextReadsBack(s: Signal)
    requires '.' !in s.group
    ensures Partition(PtcText(s), ".") == Partitioned(s.group, true, NatToString(s.index))
    ensures ParseNat(Partition(PtcText(s), ".").after) == Some(s.index)
  {
    assert PtcText(s) == s.group + ['.'] + NatToString(s.index);
    PartitionFirstChar(s.group, '.', NatToString(s.index));
    ParseNatToString(s.index);
  }

  /** Only the first of the op-amp rewrites that applies is made. */
  lemma ExampleOpamp()
    ensures OpampText(Signal("OPAMP0_INP", "INP", 0, "PD1")) == ".IN+"
    ensures OpampText(Signal("OPAMP0_OUT", "OUT", 0, "PD2")) == ".OUT"
  {
  }

  /** Event outputs are written `EV.OUT<index>`. */
  lemma ExampleLogicEventOut()
    ensures LogicText(Signal("EVSYS_EVOUTA", "EVOUT", 2, "PA2")) == "EV.OUT2"
  {
  }

  /** `INP_OUT` keeps its `OUT`: the `INP` rule alone applies. */
  lemma ExampleOpampFirstRuleOnly(s: Signal)
    requires s.group == "INP_OUT"
    ensures OpampText(s) == ".IN+_OUT"
  {
    var x, y := "", "_OUT";
    assert "INP"[0] == 'I' && 'I' !in x && 'I' !in y;
    AbsentByChar(x, "INP", 0);
    AbsentByChar(y, "INP", 0);
    assert s == Signal(s.functionId, x + "INP" + y, s.index, s.pad);
    OpampTextInp(x, y, s.functionId, s.index, s.pad);
    calc {
      OpampText(s);
      x + ".IN+" + y;
      ".IN+_OUT";
    }
  }

  /** `_OUT` is tested before `_IN`: `LUT0_IN_OUT` keeps its `_IN`. */
  lemma ExampleLogicOutBeforeIn(s: Signal)
    requires s.group == "LUT0_IN_OUT" && s.index == 1
    ensures LogicText(s) == "LUT0_IN.OUT1"
  {
    var x := "LUT0_IN";
    assert "_OUT"[1] == 'O' && 'O' !in x;
    AbsentByChar(x, "_OUT", 1);
    LogicTextOutLast(x, s);
    assert NatToString(1) == "1";
  }

  /** Without `_OUT`, the `_IN` rule applies. */
  lemma ExampleLogicIn(s: Signal)
    requires s.group == "LUT0_IN0" && s.index == 2
    ensures LogicText(s) == "LUT0.IN02"
  {
    var x, y := "LUT0", "0";
    assert "_OUT"[1] == 'O' && 'O' !in x + "_IN" + y;
    AbsentByChar(x + "_IN" + y, "_OUT", 1);
    assert "_IN"[0] == '_' && '_' !in x && '_' !in y;
    AbsentByChar(x, "_IN", 0);
    AbsentByChar(y, "_IN", 0);
    assert s == Signal(s.functionId, x + "_IN" + y, 2, s.pad);
    LogicTextIn(x, y, s.functionId, 2, s.pad);
    assert NatToString(2) == "2";
    calc {
      LogicText(s);
      x + ".IN" + y + NatToString(2);
      "LUT0.IN02";
    }
  }

  /** `XTALHF1` is shortened to `XTLHF1`. */
  lemma ExampleControlXtal()
    ensures ControlText(Signal("CLKCTRL_XTALHF1", "XTALHF1", 0, "PA0")) == "XTLHF1"
  {
    assert "XTAL"[0] == 'X' && 'X' !in "" && 'X' !in "HF1";
    AbsentByChar("", "XTAL", 0);
    AbsentByChar("HF1", "XTAL", 0);
    assert "" + "XTAL" + "HF1" == "XTALHF1";
    ControlTextXtal("", "HF1", "CLKCTRL_XTALHF1", 0, "PA0");
  }

  /** A group without `_OUT` or `_IN` is followed by `x`. */
  lemma ExampleLogicPlain()
    ensures LogicText(Signal("CCL_LUT0", "IN", 0, "PA0")) == "INx"
  {
  }

  // ---------------------------------------------------------------------------
  // Legend ordering

  /** The label classes in the order the module declares them; each
      declaration first bumps the module's counter. */
  const DeclarationOrder: seq<Variant> := [
    OfPin(Port), OfPin(MvioPort), OfPin(MvioVdd), OfPin(Vss), OfPin(Vdd),
    OfPin(SystemPin), OfPin(OtherPin),
    OfSignal(Ptc), OfSignal(Analog), OfSignal(Opamp), OfSignal(AsyncSerial),
    OfSignal(SyncSerial), OfSignal(I2C), OfSignal(Spi), OfSignal(Adc),
    OfSignal(Comparator), OfSignal(Dac), OfSignal(Zcd), OfSignal(SystemSignal),
    OfSignal(OtherSignal), OfSignal(Clock), OfSignal(Pwm), OfSignal(Tca),
    OfSignal(Tcb), OfSignal(Tcd), OfSignal(Logic), OfSignal(Evsys), OfSignal(Ccl),
    OfSignal(Control), OfSignal(Skip), OfSignal(Spacer)
  ]

  /** `type_index` as written: the SPI class stores the counter under another
      attribute and so keeps the base class's value 0. */
  function TypeIndexAsWritten(v: Variant): nat {
    if v == OfSignal(Spi) then 0 else TypeIndex(v)
  }

  /** `type_index`: the counter's value at each class's declaration. */
  function TypeIndex(v: Variant): nat {
    match v
    case OfPin(p) => (
      match p
      case Port => 1 case MvioPort => 2 case MvioVdd => 3 case Vss => 4
      case Vdd => 5 case SystemPin => 6 case OtherPin => 7)
    case OfSignal(s) => (
      match s
      case Ptc => 8 case Analog => 9 case Opamp => 10 case AsyncSerial => 11
      case SyncSerial => 12 case I2C => 13 case Spi => 14 case Adc => 15
      case Comparator => 16 case Dac => 17 case Zcd => 18 case SystemSignal => 19
      case OtherSignal => 20 case Clock => 21 case Pwm => 22 case Tca => 23
      case Tcb => 24 case Tcd => 25 case Logic => 26 case Evsys => 27
      case Ccl => 28 case Control => 29 case Skip => 30 case Spacer => 31)
  }

  /** Each class's index is its rank in declaration order, counting from 1. */
  lemma TypeIndexIsDeclarationRank(i: nat)
    requires i < |DeclarationOrder|
    ensures TypeIndex(DeclarationOrder[i]) == i + 1
  {
  }

  lemma DeclarationOrderComplete(v: Variant)
    ensures v in DeclarationOrder
  {
    assert DeclarationOrder[TypeIndex(v) - 1] == v;
  }

  /** No two label classes share an index. */
  lemma TypeIndexUnique(v: Variant, w: Variant)
    requires TypeIndex(v) == TypeIndex(w)
    ensures v == w
  {
    DeclarationOrderComplete(v);
    DeclarationOrderComplete(w);
    var i :| 0 <= i < |DeclarationOrder| && DeclarationOrder[i] == v;
    var j :| 0 <= j < |DeclarationOrder| && DeclarationOrder[j] == w;
    TypeIndexIsDeclarationRank(i);
    TypeIndexIsDeclarationRank(j);
  }

  /** As written, SPI is off its declaration rank and sorts ahead of every pin class. */
  lemma SpiTypeIndexAsWritten()
    ensures DeclarationOrder[13] == OfSignal(Spi)
    ensures TypeIndexAsWritten(DeclarationOrder[13]) != 13 + 1
    ensures forall p: PinVariant :: TypeIndexAsWritten(OfSignal(Spi)) < TypeIndexAsWritten(OfPin(p))
  {
  }
}
