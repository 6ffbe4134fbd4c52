/**
 * The older starter script (starter.py): its own package name parser, which
 * does not drop a `-` between the family and the pin count, and its own copy
 * of the pin map, which appends signal labels the same way the page pin map
 * does but attaches no footnotes.
 */
module Starter {
  import opened Wrappers
  import opened Strings
  import opened DxFunctions
  import opened Pinout

  // ---------------------------------------------------------------------------
  // Package names

  /** `parse_variant_package` of the starter: lower-case the name, split off
      its trailing digits as the pin count, and map what is left, unchanged,
      to a base shape. */
  function ParseVariantPackage(packageName: string): (r: Result<Package, PackageError>)
    ensures r.Success? ==> r.value.shape in BaseShapes
    ensures r.Success? ==> ParseNat(DigitSuffix(Lower(packageName))) == Some(r.value.pinCount)
    ensures r.Failure? && r.error.InvalidPinCount? <==> DigitSuffix(Lower(packageName)) == []
  {
    var lower := Lower(packageName);
    var shape := RStripDigits(lower);
    var digits := lower[|shape|..];
    match ParseNat(digits)
    case None => Failure(InvalidPinCount(digits))
    case Some(pinCount) =>
      match CanonicalShape(shape)
      case None => Failure(UnrecognizedShape(shape))
      case Some(s) => Success(Package(s, pinCount))
  }

  /** No known family name ends in `-`. */
  lemma DashedShapeUnknown(shape: string)
    requires shape != [] && shape[|shape| - 1] == '-'
    ensures CanonicalShape(shape).None?
  {
    assert forall k :: k in BaseShapes ==> k[|k| - 1] != '-';
    assert forall k :: k in PackageAliases ==> k[|k| - 1] != '-';
  }

  /** When no `-` precedes the pin count, the starter parses a name exactly
      as the page parser does. */
  lemma AgreesWithoutDash(packageName: string)
    requires var shape := RStripDigits(Lower(packageName)); shape == [] || shape[|shape| - 1] != '-'
    ensures ParseVariantPackage(packageName) == Pinout.ParseVariantPackage(packageName)
  {
    var shape := RStripDigits(Lower(packageName));
    var r := RStripChar(shape, '-');
    assert r == shape;
  }

  /** A `-` before the pin count stays part of the shape, so a name with
      one is refused with that shape. */
  lemma RejectsDash(packageName: string)
    requires DigitSuffix(Lower(packageName)) != []
    requires var shape := RStripDigits(Lower(packageName)); shape != [] && shape[|shape| - 1] == '-'
    ensures ParseVariantPackage(packageName) == Failure(UnrecognizedShape(RStripDigits(Lower(packageName))))
  {
    DashedShapeUnknown(RStripDigits(Lower(packageName)));
  }

  /** `tqfp32` is a 32-pin quad flat package, as for the page parser. */
  lemma ExampleUndashed()
    ensures ParseVariantPackage("tqfp32") == Success(Package("qfp", 32))
  {
    assert Lower("tqfp32") == "tqfp" + "" + "32";
    SplitPackageName(Lower("tqfp32"), "tqfp", "", "32");
    Pinout.ExamplePackages();
    AgreesWithoutDash("tqfp32");
  }

  /** `tqfp-32` is refused with the shape `tqfp-`. */
  lemma ExampleDashed()
    ensures ParseVariantPackage("tqfp-32") == Failure(UnrecognizedShape("tqfp-"))
  {
    assert Lower("tqfp-32") == "tqfp" + "-" + "32";
    assert "tqfp" + "-" == "tqfp-";
    SplitPackageName(Lower("tqfp-32"), "tqfp", "-", "32");
    RejectsDash("tqfp-32");
  }

  // ---------------------------------------------------------------------------
  // The pin map

  /** The starter's `DxPinmap`: positions to pads and pad names to positions. */
  class DxPinmap {
    var reverseMap: map<string, nat>
    var data: map<nat, seq<FunctionLabel>>

    ghost predicate Valid()
      reads this
    {
      NamesResolve(reverseMap, data)
    }

    /** Visits the pins in order: each records its pad name's position and
        puts a new pad holding the pin's own label at that position. */
    constructor(pinmap: seq<PinMapping>)
      ensures reverseMap == ReverseMapOf(pinmap)
      ensures data == PadsOf(pinmap)
      ensures Valid()
    {
      reverseMap := map[];
      data := map[];
      new;
      for i := 0 to |pinmap|
        invariant reverseMap == ReverseMapOf(pinmap[..i])
        invariant data == PadsOf(pinmap[..i])
      {
        assert pinmap[..i + 1][..i] == pinmap[..i];
        var mapping := pinmap[i];
        reverseMap := reverseMap[mapping.pad := mapping.position];
        var pinLabel := PinFunctionFactory(mapping.pad);
        data := data[mapping.position := [pinLabel]];
      }
      assert pinmap[..|pinmap|] == pinmap;
      PinmapNamesResolve(pinmap);
    }

    /** `get_pad_by_position`: the pad at a position, if there is one. */
    function GetPadByPosition(index: nat): (r: Option<seq<FunctionLabel>>)
      reads this
      ensures r.Some? <==> index in data
      ensures r.Some? ==> r.value == data[index]
    {
      if index in data then Some(data[index]) else None
    }

    /** `get_pad_by_name`: the pad at the position recorded for the name. */
    function GetPadByName(padName: string): (r: Option<seq<FunctionLabel>>)
      reads this
      ensures Valid() ==> (r.Some? <==> padName in reverseMap)
      ensures padName in reverseMap ==> r == GetPadByPosition(reverseMap[padName])
    {
      if padName in reverseMap then GetPadByPosition(reverseMap[padName]) else None
    }

    /** `append_module`: every signal of every instance with signals gets
        the factory's label appended to the pad it names, in order; an
        unknown pad name stops the walk. */
    method AppendModule(m: Module) returns (missing: Option<string>)
      requires Valid()
      modifies this
      ensures reverseMap == old(reverseMap)
      ensures AppendLabels(reverseMap, old(data), ModulePlacements(m.instances, SignalFunctionFactory)) ==
              AppendOutcome(data, missing)
      ensures Valid()
    {
      ghost var total := AppendLabels(reverseMap, data, ModulePlacements(m.instances, SignalFunctionFactory));
      for i := 0 to |m.instances|
        invariant reverseMap == old(reverseMap) && Valid()
        invariant total == AppendLabels(reverseMap, data, ModulePlacements(m.instances[i..], SignalFunctionFactory))
      {
        var instance := m.instances[i];
        assert m.instances[i..][0] == instance && m.instances[i..][1..] == m.instances[i + 1..];
        ghost var placed := Placements(instance.signals, SignalFunctionFactory);
        ghost var rest := ModulePlacements(m.instances[i + 1..], SignalFunctionFactory);
        if |instance.signals| != 0 {
          AppendLabelsConcat(reverseMap, data, placed, rest);
          missing := AppendSignals(instance.signals);
          if missing.Some? {
            return;
          }
        } else {
          assert placed + rest == rest;
        }
      }
      return None;
    }

    /** The inner loop of `append_module`: the signals of one instance, in order. */
    method AppendSignals(signals: seq<Signal>) returns (missing: Option<string>)
      requires Valid()
      modifies this
      ensures reverseMap == old(reverseMap)
      ensures AppendLabels(reverseMap, old(data), Placements(signals, SignalFunctionFactory)) ==
              AppendOutcome(data, missing)
      ensures Valid()
    {
      ghost var placed := Placements(signals, SignalFunctionFactory);
      ghost var total := AppendLabels(reverseMap, data, placed);
      for j := 0 to |signals|
        invariant reverseMap == old(reverseMap) && Valid()
        invariant total == AppendLabels(reverseMap, data, placed[j..])
      {
        var signal := signals[j];
        var func := SignalFunctionFactory(signal);
        assert placed[j..][0] == Placement(signal.pad, func);
        assert placed[j..][1..] == placed[j + 1..];
        if signal.pad !in reverseMap {
          return Some(signal.pad);
        }
        var position := reverseMap[signal.pad];
        data := data[position := data[position] + [func]];
      }
      return None;
    }
  }
}
