/**
 * The variant package name parser, the pin map a page is drawn from and the
 * merge of a variant's notes over the page's notes (pinout.py).
 *
 * A pad is the sequence of labels drawn on one package pin: the pin's own
 * label first, then one label per signal routed to it, in the order they were
 * appended.
 */
module Pinout {
  import opened Wrappers
  import opened Strings
  import opened DxFunctions

  // ---------------------------------------------------------------------------
  // Package names

  datatype Package = Package(shape: string, pinCount: nat)

  /** Why a package name is refused: no pin count after the shape (the
      ValueError of `int`), or a shape outside the known ones. */
  datatype PackageError = InvalidPinCount(digits: string) | UnrecognizedShape(shape: string)

  /** The drawing shapes a package can have. */
  const BaseShapes: set<string> := {"sop", "qfp", "qfn"}

  /** Package families drawn with one of the base shapes. */
  const PackageAliases: map<string, string> :=
    map["spdip" := "sop", "soic" := "sop", "ssop" := "sop", "tqfp" := "qfp", "vqfn" := "qfn"]

  /** The shape a family name is drawn with: a base shape stands for itself,
      an alias for its base shape; anything else is unknown. */
  function CanonicalShape(shape: string): (r: Option<string>)
    ensures r.Some? <==> shape in BaseShapes || shape in PackageAliases
    ensures r.Some? ==> r.value in BaseShapes
    ensures shape in BaseShapes ==> r == Some(shape)
    ensures shape in PackageAliases ==> r == Some(PackageAliases[shape])
  {
    if shape in ["sop", "qfp", "qfn"] then Some(shape)
    else if shape in PackageAliases then Some(PackageAliases[shape])
    else None
  }

  /** `parse_variant_package`: lower-case the name, split off its trailing
      digits as the pin count, drop any `-` left at the end of the shape, and
      map the shape to a base shape. */
  function ParseVariantPackage(packageName: string): (r: Result<Package, PackageError>)
    ensures r.Success? ==> r.value.shape in BaseShapes
    ensures r.Success? ==> ParseNat(DigitSuffix(Lower(packageName))) == Some(r.value.pinCount)
    ensures r.Failure? && r.error.InvalidPinCount? <==> DigitSuffix(Lower(packageName)) == []
  {
    var lower := Lower(packageName);
    var shape := RStripDigits(lower);
    var digits := lower[|shape|..];
    match ParseNat(digits)
    case None => Failure(InvalidPinCount(digits))
    case Some(pinCount) =>
      var base := RStripChar(shape, '-');
      match CanonicalShape(base)
      case None => Failure(UnrecognizedShape(base))
      case Some(s) => Success(Package(s, pinCount))
  }

  predicate AllDashes(s: string) {
    forall i :: 0 <= i < |s| ==> s[i] == '-'
  }

  /** A family name that ends in neither a digit nor `-`. */
  predicate IsFamilyName(family: string) {
    family != [] && !IsDigit(family[|family| - 1]) && family[|family| - 1] != '-'
  }

  /** Stripping `-` from a family name followed by dashes gives the family name back. */
  lemma RStripDashesOf(family: string, dashes: string)
    requires IsFamilyName(family)
    requires AllDashes(dashes)
    ensures RStripChar(family + dashes, '-') == family
  {
    var s := family + dashes;
    var r := RStripChar(s, '-');
    assert forall i :: |family| <= i < |s| ==> s[i] == '-';
    assert r != [] ==> r[|r| - 1] == s[|r| - 1];
    assert family[|family| - 1] == s[|family| - 1];
    assert |r| == |family|;
    assert r == s[..|family|];
  }

  /** The split of a lower-cased name `<family><dashes><digits>`: the digits
      come off as the pin count, then the dashes come off the shape. */
  lemma SplitPackageName(lower: string, family: string, dashes: string, digits: string)
    requires lower == family + dashes + digits
    requires IsFamilyName(family) && AllDashes(dashes)
    requires AllDigits(digits)
    ensures RStripDigits(lower) == family + dashes
    ensures lower[|family + dashes|..] == digits
    ensures RStripChar(family + dashes, '-') == family
  {
    var shape := family + dashes;
    if dashes == [] {
      assert shape == family;
    } else {
      assert shape[|shape| - 1] == '-';
    }
    RStripDigitsOf(shape, digits);
    RStripDashesOf(family, dashes);
  }

  /** The name is split into family, dashes and pin count however it is
      spelt: `<family><dashes><digits>`, in any letter case, parses to the
      family's shape and the digits' value, or is refused for its family. */
  lemma ParseVariantPackageOf(packageName: string, family: string, dashes: string, digits: string)
    requires Lower(packageName) == family + dashes + digits
    requires IsFamilyName(family) && AllDashes(dashes)
    requires |digits| > 0 && AllDigits(digits)
    ensures CanonicalShape(family).Some? ==>
              ParseVariantPackage(packageName) ==
              Success(Package(CanonicalShape(family).value, DigitsValue(digits)))
    ensures CanonicalShape(family).None? ==>
              ParseVariantPackage(packageName) == Failure(UnrecognizedShape(family))
  {
    SplitPackageName(Lower(packageName), family, dashes, digits);
    assert ParseNat(digits) == Some(DigitsValue(digits));
  }

  /** Any name with a pin count, whatever its family looks like (empty, or
      ending in a digit before the dashes): the family is what is left once
      the digits and then the dashes are stripped, and the name is drawn with
      that family's shape or refused for it. */
  lemma ParseVariantPackageByFamily(packageName: string)
    requires DigitSuffix(Lower(packageName)) != []
    ensures var family := RStripChar(RStripDigits(Lower(packageName)), '-');
            var digits := DigitSuffix(Lower(packageName));
            && (CanonicalShape(family).Some? ==>
                  ParseVariantPackage(packageName) ==
                  Success(Package(CanonicalShape(family).value, DigitsValue(digits))))
            && (CanonicalShape(family).None? ==>
                  ParseVariantPackage(packageName) == Failure(UnrecognizedShape(family)))
  {
    var digits := DigitSuffix(Lower(packageName));
    assert ParseNat(digits) == Some(DigitsValue(digits));
  }

  /** `tqfp32` and `TQFP-32` are both a 32-pin quad flat package. */
  lemma ExamplePackages()
    ensures ParseVariantPackage("tqfp32") == Success(Package("qfp", 32))
    ensures ParseVariantPackage("TQFP-32") == Success(Package("qfp", 32))
  {
    assert Lower("tqfp32") == "tqfp" + "" + "32";
    assert Lower("TQFP-32") == "tqfp" + "-" + "32";
    assert CanonicalShape("tqfp") == Some("qfp");
    assert DigitsValue("32") == 32;
    ParseVariantPackageOf("tqfp32", "tqfp", "", "32");
    ParseVariantPackageOf("TQFP-32", "tqfp", "-", "32");
  }

  // ---------------------------------------------------------------------------
  // The pin map

  /** One pin of the package: the pad's name and the pin position it is bonded to. */
  datatype PinMapping = PinMapping(pad: string, position: nat)

  /** A peripheral instance with the signals it routes to pads. */
  datatype Instance = Instance(name: string, signals: seq<Signal>)

  /** A peripheral module and its instances, in the order the device lists them. */
  datatype Module = Module(name: string, instances: seq<Instance>)

  /** The reverse map after visiting `ms` in order: a later pad of the same
      name overwrites an earlier one. */
  function ReverseMapOf(ms: seq<PinMapping>): map<string, nat> {
    if ms == [] then map[]
    else ReverseMapOf(ms[..|ms| - 1])[ms[|ms| - 1].pad := ms[|ms| - 1].position]
  }

  /** The pads after visiting `ms` in order: each position holds a new pad
      with the label of the last pin mapped to it. */
  function PadsOf(ms: seq<PinMapping>): map<nat, seq<FunctionLabel>> {
    if ms == [] then map[]
    else PadsOf(ms[..|ms| - 1])[ms[|ms| - 1].position := [PinFunctionFactory(ms[|ms| - 1].pad)]]
  }

  /** A pad name is known exactly when some pin has it, and it maps to the
      position of the last such pin. */
  lemma {:induction false} ReverseMapOfLookup(ms: seq<PinMapping>, i: nat)
    requires i < |ms|
    requires forall j :: i < j < |ms| ==> ms[j].pad != ms[i].pad
    ensures ms[i].pad in ReverseMapOf(ms)
    ensures ReverseMapOf(ms)[ms[i].pad] == ms[i].position
  {
    if i < |ms| - 1 {
      ReverseMapOfLookup(ms[..|ms| - 1], i);
    }
  }

  lemma {:induction false} ReverseMapOfDomain(ms: seq<PinMapping>, pad: string)
    ensures pad in ReverseMapOf(ms) <==> exists i :: 0 <= i < |ms| && ms[i].pad == pad
  {
    if ms != [] {
      ReverseMapOfDomain(ms[..|ms| - 1], pad);
      if pad in ReverseMapOf(ms[..|ms| - 1]) {
        var i :| 0 <= i < |ms| - 1 && ms[..|ms| - 1][i].pad == pad;
        assert ms[i].pad == pad;
      }
      if exists i :: 0 <= i < |ms| && ms[i].pad == pad {
        var i :| 0 <= i < |ms| && ms[i].pad == pad;
        if i < |ms| - 1 {
          assert ms[..|ms| - 1][i].pad == pad;
        }
      }
    }
  }

  /** A position holds a pad exactly when some pin is bonded to it, and that
      pad holds only the label of the last such pin. */
  lemma {:induction false} PadsOfLookup(ms: seq<PinMapping>, i: nat)
    requires i < |ms|
    requires forall j :: i < j < |ms| ==> ms[j].position != ms[i].position
    ensures ms[i].position in PadsOf(ms)
    ensures PadsOf(ms)[ms[i].position] == [PinFunctionFactory(ms[i].pad)]
  {
    if i < |ms| - 1 {
      PadsOfLookup(ms[..|ms| - 1], i);
    }
  }

  lemma {:induction false} PadsOfDomain(ms: seq<PinMapping>, position: nat)
    ensures position in PadsOf(ms) <==> exists i :: 0 <= i < |ms| && ms[i].position == position
  {
    if ms != [] {
      PadsOfDomain(ms[..|ms| - 1], position);
      if position in PadsOf(ms[..|ms| - 1]) {
        var i :| 0 <= i < |ms| - 1 && ms[..|ms| - 1][i].position == position;
        assert ms[i].position == position;
      }
      if exists i :: 0 <= i < |ms| && ms[i].position == position {
        var i :| 0 <= i < |ms| && ms[i].position == position;
        if i < |ms| - 1 {
          assert ms[..|ms| - 1][i].position == position;
        }
      }
    }
  }

  /** Every known pad name leads to a pad. */
  predicate NamesResolve(reverseMap: map<string, nat>, data: map<nat, seq<FunctionLabel>>) {
    forall name :: name in reverseMap ==> reverseMap[name] in data
  }

  lemma {:induction false} PinmapNamesResolve(ms: seq<PinMapping>)
    ensures NamesResolve(ReverseMapOf(ms), PadsOf(ms))
  {
    if ms != [] {
      PinmapNamesResolve(ms[..|ms| - 1]);
    }
  }

  /** A label to be appended to the pad of the given name. */
  datatype Placement = Placement(pad: string, func: FunctionLabel)

  /** The label `labelOf` makes for each signal, bound for the pad the signal
      names, in signal order. The pin map uses the signal factory as `labelOf`. */
  function Placements(signals: seq<Signal>, labelOf: Signal -> FunctionLabel): (ps: seq<Placement>)
    ensures |ps| == |signals|
    ensures forall i :: 0 <= i < |signals| ==> ps[i] == Placement(signals[i].pad, labelOf(signals[i]))
  {
    seq(|signals|, i requires 0 <= i < |signals| => Placement(signals[i].pad, labelOf(signals[i])))
  }

  /** The placements of a module: instance by instance, each instance's
      signals in order. */
  function ModulePlacements(instances: seq<Instance>, labelOf: Signal -> FunctionLabel): seq<Placement> {
    if instances == [] then []
    else Placements(instances[0].signals, labelOf) + ModulePlacements(instances[1..], labelOf)
  }

  /** The labels that end up on the pad at `position`, in order. */
  function LabelsAt(reverseMap: map<string, nat>, ps: seq<Placement>, position: nat): seq<FunctionLabel> {
    if ps == [] then []
    else
      (if ps[0].pad in reverseMap && reverseMap[ps[0].pad] == position then [ps[0].func] else []) +
      LabelsAt(reverseMap, ps[1..], position)
  }

  /** The pads after the labels were appended, and the first pad name that
      was not found, at which appending stopped. */
  datatype AppendOutcome = AppendOutcome(data: map<nat, seq<FunctionLabel>>, missing: Option<string>)

  /** Appending labels one by one, each to the pad it names; an unknown pad
      name stops the walk (the KeyError of the lookup). */
  function AppendLabels(reverseMap: map<string, nat>, data: map<nat, seq<FunctionLabel>>,
                        ps: seq<Placement>): AppendOutcome
  {
    if ps == [] then AppendOutcome(data, None)
    else if ps[0].pad in reverseMap && reverseMap[ps[0].pad] in data then
      var p := reverseMap[ps[0].pad];
      AppendLabels(reverseMap, data[p := data[p] + [ps[0].func]], ps[1..])
    else AppendOutcome(data, Some(ps[0].pad))
  }

  /** Appending in two parts is appending the first, then the second from
      where the first left off. */
  lemma {:induction false} AppendLabelsConcat(reverseMap: map<string, nat>, data: map<nat, seq<FunctionLabel>>,
                                              a: seq<Placement>, b: seq<Placement>)
    ensures var first := AppendLabels(reverseMap, data, a);
            AppendLabels(reverseMap, data, a + b) ==
            if first.missing.None? then AppendLabels(reverseMap, first.data, b) else first
  {
    if a != [] {
      assert (a + b)[0] == a[0];
      assert (a + b)[1..] == a[1..] + b;
      if a[0].pad in reverseMap && reverseMap[a[0].pad] in data {
        var p := reverseMap[a[0].pad];
        AppendLabelsConcat(reverseMap, data[p := data[p] + [a[0].func]], a[1..], b);
      }
    } else {
      assert a + b == b;
    }
  }

  /** With every pad name resolving, appending stops exactly at the first
      label whose pad name is unknown, and only there. */
  lemma {:induction false} AppendLabelsMissing(reverseMap: map<string, nat>, data: map<nat, seq<FunctionLabel>>,
                                               ps: seq<Placement>)
    requires NamesResolve(reverseMap, data)
    ensures var out := AppendLabels(reverseMap, data, ps);
            && (out.missing.None? <==> forall i :: 0 <= i < |ps| ==> ps[i].pad in reverseMap)
            && (out.missing.Some? ==>
                 && out.missing.value !in reverseMap
                 && exists i :: 0 <= i < |ps| && ps[i].pad == out.missing.value
                      && forall j :: 0 <= j < i ==> ps[j].pad in reverseMap)
  {
    if ps != [] && ps[0].pad in reverseMap {
      var p := reverseMap[ps[0].pad];
      var data' := data[p := data[p] + [ps[0].func]];
      var rest := ps[1..];
      assert NamesResolve(reverseMap, data');
      AppendLabelsMissing(reverseMap, data', rest);
      var out := AppendLabels(reverseMap, data, ps);
      if out.missing.Some? {
        var i :| 0 <= i < |rest| && rest[i].pad == out.missing.value
                 && forall j :: 0 <= j < i ==> rest[j].pad in reverseMap;
        assert ps[i + 1] == rest[i];
        forall j | 0 <= j < i + 1 ensures ps[j].pad in reverseMap {
          if j > 0 {
            assert ps[j] == rest[j - 1];
          }
        }
      }
      assert (forall i :: 0 <= i < |ps| ==> ps[i].pad in reverseMap) <==>
             (forall i :: 0 <= i < |rest| ==> rest[i].pad in reverseMap) by {
        forall i | 0 <= i < |rest| ensures rest[i] == ps[i + 1] {}
        forall i | 0 < i < |ps| ensures ps[i] == rest[i - 1] {}
      }
    }
  }

  /** When every pad name is known, each pad gains exactly the labels bound
      for it, in order, and no pad is added or removed: pads that receive
      nothing keep their contents. */
  lemma {:induction false} AppendLabelsPerPad(reverseMap: map<string, nat>, data: map<nat, seq<FunctionLabel>>,
                                              ps: seq<Placement>)
    requires NamesResolve(reverseMap, data)
    requires forall i :: 0 <= i < |ps| ==> ps[i].pad in reverseMap
    ensures var out := AppendLabels(reverseMap, data, ps);
            && out.missing.None?
            && out.data.Keys == data.Keys
            && forall p :: p in data ==> out.data[p] == data[p] + LabelsAt(reverseMap, ps, p)
  {
    if ps != [] {
      var p := reverseMap[ps[0].pad];
      var data' := data[p := data[p] + [ps[0].func]];
      var rest := ps[1..];
      KnownTail(reverseMap, ps);
      AppendLabelsPerPad(reverseMap, data', rest);
      var out := AppendLabels(reverseMap, data', rest);
      assert AppendLabels(reverseMap, data, ps) == out;
      forall q | q in data ensures out.data[q] == data[q] + LabelsAt(reverseMap, ps, q) {
        LabelsAtStep(reverseMap, ps, q);
        AppendAt(data, p, ps[0].func, q);
      }
    }
  }

  /** Every pad name of the tail of a fully known walk is known. */
  lemma KnownTail(reverseMap: map<string, nat>, ps: seq<Placement>)
    requires ps != []
    requires forall i :: 0 <= i < |ps| ==> ps[i].pad in reverseMap
    ensures forall i :: 0 <= i < |ps[1..]| ==> ps[1..][i].pad in reverseMap
  {
    forall i | 0 <= i < |ps[1..]| ensures ps[1..][i].pad in reverseMap {
      assert ps[1..][i] == ps[i + 1];
    }
  }

  /** The labels bound for a pad are those of the first placement, when it
      names that pad, followed by those of the rest. */
  lemma LabelsAtStep(reverseMap: map<string, nat>, ps: seq<Placement>, q: nat)
    requires ps != [] && ps[0].pad in reverseMap
    ensures LabelsAt(reverseMap, ps, q)
            == (if reverseMap[ps[0].pad] == q then [ps[0].func] else []) + LabelsAt(reverseMap, ps[1..], q)
  {
  }

  /** Appending one label to pad p changes pad p alone. */
  lemma AppendAt(data: map<nat, seq<FunctionLabel>>, p: nat, f: FunctionLabel, q: nat)
    requires p in data && q in data
    ensures data[p := data[p] + [f]][q] == data[q] + (if p == q then [f] else [])
  {
  }

  /** Instances without signals contribute nothing, so skipping them does not
      change what is appended. */
  lemma {:induction false} ModulePlacementsSkipEmpty(instances: seq<Instance>, labelOf: Signal -> FunctionLabel, i: nat)
    requires i < |instances| && instances[i].signals == []
    ensures ModulePlacements(instances, labelOf) == ModulePlacements(instances[..i] + instances[i + 1..], labelOf)
  {
    if i == 0 {
      assert instances[..0] + instances[1..] == instances[1..];
    } else {
      var tail := instances[1..];
      ModulePlacementsSkipEmpty(tail, labelOf, i - 1);
      var shorter := instances[..i] + instances[i + 1..];
      assert shorter[0] == instances[0];
      assert shorter[1..] == tail[..i - 1] + tail[i..];
    }
  }

  /** `DxPinmap`: positions to pads and pad names to positions. */
  class DxPinmap {
    var reverseMap: map<string, nat>
    var data: map<nat, seq<FunctionLabel>>

    ghost predicate Valid()
      reads this
    {
      NamesResolve(reverseMap, data)
    }

    /** Visits the pins in order: each records its pad name's position and
        puts a new pad holding the pin's own label at that position. */
    constructor(pinmap: seq<PinMapping>)
      ensures reverseMap == ReverseMapOf(pinmap)
      ensures data == PadsOf(pinmap)
      ensures Valid()
    {
      reverseMap := map[];
      data := map[];
      new;
      for i := 0 to |pinmap|
        invariant reverseMap == ReverseMapOf(pinmap[..i])
        invariant data == PadsOf(pinmap[..i])
      {
        assert pinmap[..i + 1][..i] == pinmap[..i];
        var mapping := pinmap[i];
        reverseMap := reverseMap[mapping.pad := mapping.position];
        var pinLabel := PinFunctionFactory(mapping.pad);
        data := data[mapping.position := [pinLabel]];
      }
      assert pinmap[..|pinmap|] == pinmap;
      PinmapNamesResolve(pinmap);
    }

    /** `get_pad_by_position`: the pad at a position; a position without one is
        the KeyError case. */
    function GetPadByPosition(index: nat): (r: Option<seq<FunctionLabel>>)
      reads this
      ensures r.Some? <==> index in data
      ensures r.Some? ==> r.value == data[index]
    {
      if index in data then Some(data[index]) else None
    }

    /** `get_pad_by_name`: the pad at the position recorded for the name. Every
        known name finds a pad; an unknown one is the KeyError case. */
    function GetPadByName(padName: string): (r: Option<seq<FunctionLabel>>)
      reads this
      ensures Valid() ==> (r.Some? <==> padName in reverseMap)
      ensures padName in reverseMap ==> r == GetPadByPosition(reverseMap[padName])
    {
      if padName in reverseMap then GetPadByPosition(reverseMap[padName]) else None
    }

    /** `append_module`: walks the instances in order, skips those without
        signals, and appends the factory's label for each signal to the pad
        the signal names. An unknown pad name stops the walk and is returned;
        what was appended before it stays. */
    method AppendModule(m: Module) returns (missing: Option<string>)
      requires Valid()
      modifies this
      ensures reverseMap == old(reverseMap)
      ensures AppendLabels(reverseMap, old(data), ModulePlacements(m.instances, SignalFunctionFactory)) ==
              AppendOutcome(data, missing)
      ensures Valid()
    {
      var instances := m.instances;
      ghost var total := AppendLabels(reverseMap, data, ModulePlacements(instances, SignalFunctionFactory));
      var i := 0;
      while i < |instances|
        invariant 0 <= i <= |instances|
        invariant reverseMap == old(reverseMap) && Valid()
        invariant total == AppendLabels(reverseMap, data, ModulePlacements(instances[i..], SignalFunctionFactory))
      {
        var instance := instances[i];
        assert instances[i..][0] == instance && instances[i..][1..] == instances[i + 1..];
        ghost var placed := Placements(instance.signals, SignalFunctionFactory);
        ghost var rest := ModulePlacements(instances[i + 1..], SignalFunctionFactory);
        if |instance.signals| == 0 {
          assert placed + rest == rest;
          i := i + 1;
          continue;
        }
        AppendLabelsConcat(reverseMap, data, placed, rest);
        missing := AppendSignals(instance.signals);
        if missing.Some? {
          return;
        }
        i := i + 1;
      }
      return None;
    }

    /** The inner loop of `append_module`: the signals of one instance, in order. */
    method AppendSignals(signals: seq<Signal>) returns (missing: Option<string>)
      requires Valid()
      modifies this
      ensures reverseMap == old(reverseMap)
      ensures AppendLabels(reverseMap, old(data), Placements(signals, SignalFunctionFactory)) ==
              AppendOutcome(data, missing)
      ensures Valid()
    {
      ghost var placed := Placements(signals, SignalFunctionFactory);
      ghost var total := AppendLabels(reverseMap, data, placed);
      for j := 0 to |signals|
        invariant reverseMap == old(reverseMap) && Valid()
        invariant total == AppendLabels(reverseMap, data, placed[j..])
      {
        var signal := signals[j];
        var func := SignalFunctionFactory(signal);
        assert placed[j..][0] == Placement(signal.pad, func);
        assert placed[j..][1..] == placed[j + 1..];
        if signal.pad !in reverseMap {
          return Some(signal.pad);
        }
        var position := reverseMap[signal.pad];
        data := data[position := data[position] + [func]];
      }
      return None;
    }
  }

  // ---------------------------------------------------------------------------
  // Page notes

  /** The page's notes after the variant's notes are merged over them: a
      non-empty variant note replaces the page note at the same index. */
  function MergedNotes(pageNotes: seq<string>, variantNotes: seq<string>): (r: seq<string>)
    ensures |r| == |pageNotes|
  {
    seq(|pageNotes|, i requires 0 <= i < |pageNotes| =>
      if i < |variantNotes| && |variantNotes[i]| > 0 then variantNotes[i] else pageNotes[i])
  }

  /** The first non-empty variant note that has no page note to replace: the
      IndexError case. */
  function FirstOverflow(pageCount: nat, variantNotes: seq<string>, from: nat): (r: Option<nat>)
    requires from <= |variantNotes|
    ensures r.Some? ==> from <= r.value < |variantNotes| && r.value >= pageCount
                        && |variantNotes[r.value]| > 0
    ensures forall i :: from <= i < |variantNotes| && (r.None? || i < r.value) ==>
              i < pageCount || |variantNotes[i]| == 0
    decreases |variantNotes| - from
  {
    if from == |variantNotes| then None
    else if from >= pageCount && |variantNotes[from]| > 0 then Some(from)
    else FirstOverflow(pageCount, variantNotes, from + 1)
  }

  /** The merge loop of the page constructor: for each non-empty variant note,
      overwrite the page note at its index. A non-empty note past the end of
      the page's notes raises, and its index is returned; every page note has
      been merged by then. */
  method MergeVariantNotes(pageNotes: array<string>, variantNotes: seq<string>) returns (overflow: Option<nat>)
    modifies pageNotes
    ensures pageNotes[..] == MergedNotes(old(pageNotes[..]), variantNotes)
    ensures overflow == FirstOverflow(pageNotes.Length, variantNotes, 0)
  {
    ghost var original := pageNotes[..];
    for i := 0 to |variantNotes|
      invariant forall k :: 0 <= k < pageNotes.Length ==>
                  pageNotes[k] == if k < i && k < |variantNotes| && |variantNotes[k]| > 0
                                  then variantNotes[k] else original[k]
      invariant FirstOverflow(pageNotes.Length, variantNotes, 0) == FirstOverflow(pageNotes.Length, variantNotes, i)
    {
      var note := variantNotes[i];
      if |note| > 0 {
        if i >= pageNotes.Length {
          assert pageNotes[..] == MergedNotes(original, variantNotes);
          return Some(i);
        }
        pageNotes[i] := note;
      }
    }
    assert pageNotes[..] == MergedNotes(original, variantNotes);
    return None;
  }

  /** Merging the same variant notes twice changes nothing more. */
  lemma MergedNotesIdempotent(pageNotes: seq<string>, variantNotes: seq<string>)
    ensures MergedNotes(MergedNotes(pageNotes, variantNotes), variantNotes) == MergedNotes(pageNotes, variantNotes)
  {
  }

  /** Empty variant notes leave the page's notes as they are. */
  lemma MergedNotesEmptyKeeps(pageNotes: seq<string>, variantNotes: seq<string>)
    requires forall i :: 0 <= i < |variantNotes| ==> variantNotes[i] == []
    ensures MergedNotes(pageNotes, variantNotes) == pageNotes
  {
  }
}
