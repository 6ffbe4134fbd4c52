# dx-pinouts in Dafny

A model of the core of dx-pinouts. dx-pinouts draws pinout diagrams for
Microchip AVR DA/DB/DD ("Dx") microcontrollers. The model covers four parts:

- **Label classification** (`dx_functions.py`, module `DxFunctions`) has two parts.
  - The signal factory picks a label class for each device signal, from its
    type token: the function name before the first `_`, trailing digits
    removed, lower-cased.
  - The pin factory picks a label class for each package pin, from its name.

  The rest of the file is modelled too: the parser for composite function
  names such as `TCA0_WO3_ALT2`, the `name`/`instance`/`alt_position`/`is_alt`
  properties, the `skip` flag, the short `text` each label class draws, and the
  `type_index` counter that orders the legend. A label is a value here: it
  records its class and the signal or pin name it was made from.
- **Package names and the pin map** (`pinout.py`, module `Pinout`).
  - `parse_variant_package` turns a name like `TQFP-32` into a drawing shape
    and a pin count.
  - The `DxPinmap` class keeps two tables, pad name to position and position to
    pad, and appends signal labels to pads module by module.
  - The page constructor merges the variant's notes over the page's notes.
- **The starter script** (`starter.py`, module `Starter`).
  - It has an older package parser. This one does not drop the `-`, so a
    dashed name is refused.
  - It has its own copy of the pin map.
- **Footnotes** (`notes.py`, module `Notes`).
  - Footnotes are numbered lazily from a counter shared by all footnotes.
  - A collection supports append and a stable sort by number.
  - Generation lists the footnotes that were referenced, as `"<n>. <text>"`.

Two support modules hold no source logic. `Wrappers` has `Option` and `Result`.
`Strings` has the Python string operations the source uses: `rstrip` of
digits or of one character, ASCII `lower`, `partition`, `replace`, `in`,
`int` on ASCII digits and `'{}'.format` of a number.

How the side effects are treated:

- State changes keep their imperative form. `DxPinmap`, `IdCounter`, `Footnote`
  and `Footnotes` are classes whose methods update their fields. The notes
  merge works on an array.
- Each method is proved against a pure specification function:
  - `ReverseMapOf`/`PadsOf` for the pin map;
  - `AppendLabels` for appending;
  - `MergedNotes` for the notes merge;
  - `SortByKey` for sorting;
  - `Lines` for generation.
- Python's exceptions become values. A missing key or a failed `int` becomes
  `None`/`Failure`, or the pad name at which the walk stopped.

## Model

| member | source | states |
|---|---|---|
| DxFunctions.SignalToken | dx_functions.py:13-14 | Definition, no contract: the function name before its first `_`, trailing digits removed, lower-cased. `SignalTokenOf`, `SignalTokenOfPlain` and `SignalTokenCaseInsensitive` state its properties. |
| DxFunctions.SignalVariantOf | dx_functions.py:16-55 | Definition, no contract: the factory's chain of token tests in source order, first match wins, Other last. `SignalDispatch` states what it selects. |
| DxFunctions.SignalFunctionFactory | dx_functions.py:10-55 | The factory is total and keeps the signal it was given. Only the eleven reachable classes are ever built. |
| DxFunctions.SignalDispatch | dx_functions.py:16-55 | Every listed class is chosen exactly for its own tokens: tca/tcb/tcd go to PWM, ioport to Skip, and so on. A token is classed as Other exactly when no list names it. So the TCA, TCB and TCD classes are never chosen. |
| DxFunctions.SignalTokenCaseInsensitive | dx_functions.py:13-14 | Two function names that agree after lower-casing have the same type token. |
| DxFunctions.ClassifySignalCaseInsensitive | dx_functions.py:10-55 | Two signals whose function names agree after lower-casing get the same label class. |
| DxFunctions.SignalTokenOf | dx_functions.py:13-14 | For `<x><digits>_<rest>` with a digit-free end of x and no `_` in x, the token is lower(x). |
| DxFunctions.SignalTokenOfPlain | dx_functions.py:13-14 | For a name without `_`, the token is the lower-cased name with its digit suffix removed. |
| DxFunctions.PinToken | dx_functions.py:60 | Definition, no contract: the pin name without trailing digits, lower-cased. `PinVariantOfName` states its use. |
| DxFunctions.PinVariantOf | dx_functions.py:62-80 | Definition, no contract: the pin factory's chain of tests in source order. `PinDispatch` states what it selects. |
| DxFunctions.PinFunctionFactory | dx_functions.py:57-80 | The pin factory is total and keeps the pin name. |
| DxFunctions.PinDispatch | dx_functions.py:60-80 | Each pin class is chosen exactly when its test wins among those before it: `vddio` before the `pc` prefix, the `pc` prefix before the `p` prefix. Vss, Vdd and System follow, and Other takes everything else. |
| DxFunctions.PinVariantOfName | dx_functions.py:60 | The pin class depends only on the lower-cased name with its trailing digits removed. |
| DxFunctions.ParseFunction | dx_functions.py:95-111 | Definition, no contract: split at the first `_ALT`, strip the digits of the part before, remove that name from it with `replace`, and read both numbers with `int`, 0 on failure. The lemmas below state its properties. |
| DxFunctions.ReplaceStrippedName | dx_functions.py:98-99 | Removing the digit-stripped name from the instance part leaves exactly its digit suffix. |
| DxFunctions.ParseFunctionInstance | dx_functions.py:95-104 | The name plus the digit suffix is the text before the first `_ALT`. The name does not end in a digit. The instance is the suffix's value, or 0 when there is no suffix. |
| DxFunctions.ParseFunctionAlt | dx_functions.py:95-111 | `X_ALT<a>` (X without `_ALT`) has the name and instance of X. Its alternate position is int(a), or 0 when a is empty or not a number. |
| DxFunctions.ParseFunctionAltNumber | dx_functions.py:95-111 | `X_ALT<n>` has alternate position n and the name and instance of X. |
| DxFunctions.ParseFunctionNumbered | dx_functions.py:95-111 | `<x><digits>` without `_ALT` parses to name x, instance int(digits) and alternate position 0. |
| DxFunctions.ParseFunctionPlainName | dx_functions.py:95-111 | A name without `_ALT` and without a trailing digit parses to (name, 0, 0). |
| DxFunctions.ParseFunctionNoAlt | dx_functions.py:106-111 | Without `_ALT` the alternate position is 0. |
| DxFunctions.LabelName | dx_functions.py:137-140 | Definition, no contract: the parsed name of the whole function id for a signal label, the raw name for a pin label (lines 181-183). |
| DxFunctions.LabelInstance | dx_functions.py:142-145 | Definition, no contract: the parsed instance of a signal label, 0 for a pin label (lines 193-195). |
| DxFunctions.LabelIsAlt | dx_functions.py:147-150 | Definition, no contract: a signal label is alternate exactly when its parsed alternate position is above 0, a pin label never (lines 185-187). |
| DxFunctions.LabelAltPosition | dx_functions.py:152-155 | Definition, no contract: the parsed alternate position of a signal label, 0 for a pin label (lines 189-191). |
| DxFunctions.IsSkipped | dx_functions.py:849-856 | Definition, no contract: only the Skip class sets `skip`. |
| DxFunctions.SkipIffIoport | dx_functions.py:52-53 | A signal label is skipped exactly when its token is `ioport`. |
| DxFunctions.DefaultText | dx_functions.py:123-135 | Definition, no contract: the group, the instance when above 0, then `/alt` when above 0. This is also the exact text of the I2C, SPI, ADC, DAC, ZCD, EVSYS, CCL, clock and spacer classes, which inherit it. |
| DxFunctions.PtcText | dx_functions.py:351-354 | Definition, no contract: `group.index`. `PtcTextReadsBack` states its property. |
| DxFunctions.AnalogText | dx_functions.py:374-386 | Definition, no contract: `ADC.index` when the name holds `AIN`, else `DAC.index` when it holds `DAC`, else the name. |
| DxFunctions.OpampText | dx_functions.py:406-416 | Definition, no contract: only the first of the `INP`, `INN`, `OUT` rewrites that applies is made. `OpampTextInp`/`Inn`/`Out` state it. |
| DxFunctions.ComparatorText | dx_functions.py:527-539 | Definition, no contract: the raw function id with every `_ALT` removed, then `-` for group N or `+` for group P. |
| DxFunctions.PwmText | dx_functions.py:649-660 | Definition, no contract: name, instance when above 0, `.`, group, `/alt` when alternate. The TCD class has the same rule (lines 738-749). |
| DxFunctions.TcaText | dx_functions.py:681-692 | Definition, no contract: as PWM, with the channel index after the group. |
| DxFunctions.TcbText | dx_functions.py:712-718 | Definition, no contract: name and instance, the instance written even when 0, then `/alt` when alternate. |
| DxFunctions.LogicText | dx_functions.py:769-785 | Definition, no contract: `EVOUT` first, then `_OUT`, then `_IN`, else `x` for the index. `LogicTextOut` and `LogicTextIn` state the order. |
| DxFunctions.ControlText | dx_functions.py:841-846 | Definition, no contract: every `XTAL` in the group shortened to `XTL`. `ControlTextXtal` states it. |
| DxFunctions.Text | dx_functions.py:123-846 | Definition, no contract: the `text` property of each label class, chosen by its variant; the classes without a rule of their own use the inherited default. |
| DxFunctions.PinLabelVerbatim | dx_functions.py:176-195 | A pin label's text and name are the raw pin name. Its instance and alternate position are 0, it is never alternate, and it is not skipped. |
| DxFunctions.DefaultTextOfAlternate | dx_functions.py:123-135 | The default text of `X_ALT<a>` is the text of X followed by `/a`, and by nothing when a is 0 or not a number. |
| DxFunctions.PwmTextOfAlternate | dx_functions.py:649-660 | The PWM text of `X_ALT<a>` is the PWM text of X followed by `/a` exactly when the label is alternate. |
| DxFunctions.TcaTextOfAlternate | dx_functions.py:681-692 | The same alternate suffix rule for the TCA text, with the channel index after the group. |
| DxFunctions.TcbTextOfAlternate | dx_functions.py:712-718 | The same alternate suffix rule for the TCB text, which writes the instance even when it is 0. |
| DxFunctions.AnalogTextOfAlternate | dx_functions.py:374-386 | The analog text does not depend on an `_ALT` suffix. |
| DxFunctions.RemoveAltMarker | dx_functions.py:530-532 | Removing every `_ALT` from `X_ALT<digits>` gives X followed by the digits. |
| DxFunctions.ComparatorTextOfAlternate | dx_functions.py:527-539 | The comparator text is the raw function name with `_ALT` removed, then `-` for group N or `+` for group P. |
| DxFunctions.OpampTextInp | dx_functions.py:409-410 | A group `x INP y` with no other `INP` becomes `x .IN+ y`, whatever else it holds: the `INN` and `OUT` rules are not applied. |
| DxFunctions.OpampTextInn | dx_functions.py:411-412 | Without `INP`, a single `INN` becomes `.IN-` and the rest, `OUT` included, is kept. |
| DxFunctions.OpampTextOut | dx_functions.py:413-414 | Without `INP` or `INN`, a single `OUT` becomes `.OUT`. |
| DxFunctions.LogicTextOut | dx_functions.py:775-777 | A group `x _OUT y` with no other `_OUT` becomes `x .OUT y` followed by the index, even when it also holds `_IN`. |
| DxFunctions.LogicTextOutLast | dx_functions.py:775-777 | The same rule when `_OUT` ends the group. |
| DxFunctions.LogicTextIn | dx_functions.py:778-780 | A group with no `_OUT` and a single `_IN` has it written `.IN`, followed by the index. |
| DxFunctions.ControlTextXtal | dx_functions.py:843-844 | A group holding one `XTAL` has it written `XTL`, the rest unchanged. |
| DxFunctions.PtcTextReadsBack | dx_functions.py:352-353 | For a group without `.`, the touch text splits at its first `.` into the group and the index, and the index reads back with `int`. |
| DxFunctions.ExamplePwmVariant | dx_functions.py:16-17 | `TCA0_WO3_ALT2` is a PWM label. |
| DxFunctions.ExamplePwmParse | dx_functions.py:95-111 | `TCA0_WO3_ALT2` parses to name `TCA0_WO`, instance 3 and alternate 2. |
| DxFunctions.ExamplePwmText | dx_functions.py:649-660 | Its PWM text is `TCA0_WO3.WO/2`. |
| DxFunctions.ExampleUsartVariant | dx_functions.py:40-41 | `USART0_TXD` is an asynchronous serial label. |
| DxFunctions.ExampleUsartLowerCase | dx_functions.py:13-14 | `usart0_txd` is classified the same way. |
| DxFunctions.ExampleUsartParse | dx_functions.py:95-111 | `USART0_TXD` parses to (`USART0_TXD`, 0, 0): the whole name is parsed, so the instance digit is not split off. |
| DxFunctions.ExampleUsartText | dx_functions.py:123-135 | Its default text is the group `TXD`. |
| DxFunctions.ExampleAnalogVariant | dx_functions.py:31-32 | `AIN5` is an analog label. |
| DxFunctions.ExampleAnalogParse | dx_functions.py:95-111 | `AIN5` parses to (`AIN`, 5, 0). |
| DxFunctions.ExampleAnalogText | dx_functions.py:374-386 | Its text is `ADC.5`. |
| DxFunctions.ExampleIoport | dx_functions.py:52-53 | An `IOPORT_PA0` signal gives a skipped label. |
| DxFunctions.ExampleMvioVdd | dx_functions.py:62-63 | `VDDIO2` is an MVIO supply pin. |
| DxFunctions.ExampleMvioPort | dx_functions.py:65-66 | `PC3` is an MVIO port pin. |
| DxFunctions.ExamplePort | dx_functions.py:68-69 | `PA3` is a port pin. |
| DxFunctions.ExampleVss | dx_functions.py:71-72 | `GND` is a ground pin. |
| DxFunctions.ExampleOtherPin | dx_functions.py:80 | `RESET` falls through to Other. |
| DxFunctions.ExampleOpamp | dx_functions.py:406-416 | `INP` becomes `.IN+` and `OUT` becomes `.OUT`. |
| DxFunctions.ExampleOpampFirstRuleOnly | dx_functions.py:406-416 | Group `INP_OUT` gives `.IN+_OUT`: the `OUT` rule is not applied after the `INP` rule. |
| DxFunctions.ExampleLogicEventOut | dx_functions.py:769-785 | Group `EVOUT` with index 2 gives `EV.OUT2`. |
| DxFunctions.ExampleLogicPlain | dx_functions.py:769-785 | A group with neither `_OUT` nor `_IN` gets `x` in place of the index. |
| DxFunctions.ExampleLogicOutBeforeIn | dx_functions.py:775-780 | Group `LUT0_IN_OUT` with index 1 gives `LUT0_IN.OUT1`: `_OUT` is tested first and the `_IN` stays. |
| DxFunctions.ExampleLogicIn | dx_functions.py:778-780 | Group `LUT0_IN0` with index 2 gives `LUT0.IN02`. |
| DxFunctions.ExampleControlXtal | dx_functions.py:841-846 | Group `XTALHF1` gives `XTLHF1`. |
| DxFunctions.TypeIndex | dx_functions.py:83-860 | Definition, no contract: the value of the module counter when each class is declared, 1 for the first pin class up to 31 for the spacer. |
| DxFunctions.TypeIndexAsWritten | dx_functions.py:472-474 | Definition, no contract: as `TypeIndex`, except that the SPI class keeps the base class value 0 (line 87). |
| DxFunctions.TypeIndexIsDeclarationRank | dx_functions.py:202-866 | Each label class's index is its rank in declaration order, counting from 1. |
| DxFunctions.DeclarationOrderComplete | dx_functions.py:202-866 | Every label class is declared. |
| DxFunctions.TypeIndexUnique | dx_functions.py:202-866 | No two label classes share an index. |
| DxFunctions.SpiTypeIndexAsWritten | dx_functions.py:472-474 | As written, SPI keeps index 0, which is off its rank and ahead of every pin class. |
| Strings.LowerRStripDigits | dx_functions.py:14 | Stripping digits and lower-casing commute. So the factory's strip-then-lower matches the package parser's lower-then-strip. |
| Strings.Partition | dx_functions.py:96 | `partition`: a result is found exactly when the separator occurs. The parts then surround its first occurrence. Otherwise the whole string comes first and the rest is empty. |
| Strings.ParseNatToString | dx_functions.py:102 | int() of a formatted number gives the number back. |
| Pinout.CanonicalShape | pinout.py:54-60 | A shape is known exactly when it is a base shape or an alias. A base shape maps to itself, an alias to its entry in the table (`spdip`/`soic`/`ssop` to `sop`, `tqfp` to `qfp`, `vqfn` to `qfn`), so a known shape always maps to a base shape. |
| Pinout.ParseVariantPackage | pinout.py:46-62 | A success has a base shape and the digit suffix's value as pin count. A missing digit suffix, and only that, is the pin count error. |
| Pinout.ParseVariantPackageOf | pinout.py:50-62 | `<family><dashes><digits>` in any letter case parses to the family's base shape and the digits' value. An unknown family is refused with the family as the unrecognised shape. |
| Pinout.ParseVariantPackageByFamily | pinout.py:50-60 | For any name with a pin count, including an empty family or one ending in a digit before the dashes: the family is the name stripped of its digits and then of its dashes. A known family gives its shape and the digits' value; an unknown one is refused with that family as the unrecognised shape. |
| Pinout.ExamplePackages | pinout.py:46-62 | `tqfp32` and `TQFP-32` both give (`qfp`, 32). |
| Pinout.ReverseMapOfLookup | pinout.py:68-70 | The last pin of a given pad name decides the position recorded for it. |
| Pinout.ReverseMapOfDomain | pinout.py:68-70 | Exactly the mapped pad names are recorded. |
| Pinout.PadsOfLookup | pinout.py:72-74 | The last pin at a given position decides its pad, which holds exactly that pin's label. |
| Pinout.PadsOfDomain | pinout.py:72-74 | Exactly the mapped positions hold a pad. |
| Pinout.PinmapNamesResolve | pinout.py:65-76 | After construction every recorded name's position holds a pad. |
| Pinout.DxPinmap.constructor | pinout.py:65-76 | The loop builds exactly the reverse map and pads of the pin list. |
| Pinout.DxPinmap.GetPadByPosition | pinout.py:81-82 | The pad at a position, or None for the KeyError case. |
| Pinout.DxPinmap.GetPadByName | pinout.py:78-79 | The lookup by name is the lookup by the name's recorded position. A known name always finds a pad. |
| Pinout.AppendLabelsConcat | pinout.py:92-100 | Appending two runs of labels is appending the first, then the second from where the first stopped. |
| Pinout.AppendLabelsMissing | pinout.py:100 | The walk stops exactly when some pad name is unknown. It stops at the first unknown name. |
| Pinout.AppendLabelsPerPad | pinout.py:92-100 | When every name is known, each pad gains exactly the labels bound for it, in order. No pad is added or removed. |
| Pinout.ModulePlacementsSkipEmpty | pinout.py:93-94 | Skipping an instance without signals changes nothing. |
| Pinout.DxPinmap.AppendSignals | pinout.py:96-100 | The inner loop appends each signal's label to its named pad and returns the first unknown pad name. The reverse map is unchanged. |
| Pinout.DxPinmap.AppendModule | pinout.py:84-102 | The nested loops give exactly the outcome of appending the module's labels instance by instance, empty instances skipped. The reverse map is unchanged. |
| Pinout.FirstOverflow | pinout.py:110-113 | The first non-empty variant note that has no page note to overwrite (the IndexError). |
| Pinout.MergeVariantNotes | pinout.py:110-113 | After the loop, each page note with a non-empty variant note at its index holds that note, and every other page note is unchanged. The overflow index is reported. |
| Pinout.MergedNotesIdempotent | pinout.py:110-113 | Merging the same variant notes twice is merging them once. |
| Pinout.MergedNotesEmptyKeeps | pinout.py:112-113 | Empty variant notes leave the page notes untouched. |
| Starter.ParseVariantPackage | starter.py:27-42 | The same success and pin count guarantees as the page parser. |
| Starter.DashedShapeUnknown | starter.py:34-40 | No shape that ends in `-` is known. |
| Starter.AgreesWithoutDash | starter.py:31-42 | For names with no `-` before the pin count, the starter parser equals the page parser. |
| Starter.RejectsDash | starter.py:31-40 | A name with a pin count and a `-` before it is refused, with the dashed shape as the unrecognised shape. |
| Starter.ExampleUndashed | starter.py:27-42 | `tqfp32` gives (`qfp`, 32). |
| Starter.ExampleDashed | starter.py:31-40 | `tqfp-32` is refused with shape `tqfp-`. |
| Starter.DxPinmap.constructor | starter.py:45-56 | The loop builds exactly the reverse map and pads of the pin list. |
| Starter.DxPinmap.GetPadByPosition | starter.py:61-62 | The pad at a position, or None. |
| Starter.DxPinmap.GetPadByName | starter.py:58-59 | The lookup by name is the lookup by the recorded position. A known name always finds a pad. |
| Starter.DxPinmap.AppendSignals | starter.py:73-75 | Each signal's label is appended to its named pad. The walk stops at the first unknown name. |
| Starter.DxPinmap.AppendModule | starter.py:64-77 | The outcome of appending the module's labels in order, empty instances skipped. |
| Notes.IdCounter.constructor | notes.py:26 | The counter starts at 0. |
| Notes.IdCounter.NextId | notes.py:57-60 | The counter increases by one and its new value is returned. |
| Notes.Footnote.constructor | notes.py:28-32 | A new footnote has number 0 and is not used. |
| Notes.Footnote.IsUsed | notes.py:34-36 | Definition, no contract: a footnote is used exactly when it has a number (id > 0). |
| Notes.Footnote.Id | notes.py:38-43 | The first read takes the counter's next value. Later reads return the same number and leave the counter alone. The result is always positive. |
| Notes.Footnotes.constructor | notes.py:64-71 | A collection holds one new footnote per given entry, or none. |
| Notes.Footnotes.Append | notes.py:77-81 | One new unreferenced footnote per entry is added at the end, in order. The earlier footnotes are kept. |
| Notes.Footnotes.ReadId | notes.py:38-43 | Reading one footnote's number inside a collection keeps the numbers distinct and no higher than the counter. No other footnote's number changes. |
| Notes.Footnotes.Sort | notes.py:83-91 | The footnotes become the stable sort of the list by number. |
| Notes.SortByKeySorted | notes.py:90 | The sort is ordered by number and keeps the length. |
| Notes.SortByKeyPermutes | notes.py:90 | The sort is a permutation. |
| Notes.SortByKeyStable | notes.py:90 | For every number, the footnotes with that number keep their relative order. |
| Notes.SortByKeyUnusedFirst | notes.py:90 | Unused footnotes come first in their original order. The used ones follow in ascending order. |
| Notes.SortByKeyDistinct | notes.py:83-91 | Sorting keeps the footnotes distinct. |
| Notes.FootnoteLineNumber | notes.py:105 | A listed line reads back as its number before the first `.`, with the text after `. `. |
| Notes.LinesAppend | notes.py:103-105 | Listing one more footnote adds its line exactly when it is used. |
| Notes.UsedAscending | notes.py:102-105 | After sorting, the listed footnotes have strictly ascending numbers. |
| Notes.UsedPermutes | notes.py:102-105 | After sorting, the listed footnotes are exactly the used ones. |
| Notes.GenerateLines | notes.py:102-105 | Generation lists one line per used footnote, exactly the used ones, in strictly ascending number order. |
| Notes.Footnotes.UsedLines | notes.py:103-105 | The loop lists `"<n>. <text>"` for the used footnotes, in list order. |
| Notes.Footnotes.Generate | notes.py:93-112 | The footnotes are sorted, then the lines of the used ones are listed in sorted order. |

## Left out

- Colours and styles: `get_colors`, `box_style`, `text_style`, `title`,
  `description` and `width` are cosmetic drawing data.
- What the page draws: the SVG drawing, text wrapping and font metrics in
  text.py and page.py, the `dw.Text`/`wrap_string` part of
  `Footnotes.generate`, and the height it computes.
- `Overview.Pinmap`, `Overview.Pad`, the device file parser, the JSON
  configuration and the command-line scripts are external. A pad is modelled
  as the sequence of its labels, the device's modules and pins as values.
  Both pin map constructors start from an empty `data` map: the model assumes
  that `Overview.Pinmap.__init__` (pinout.py:66, starter.py:46) leaves
  `self.data` empty.
- Pinout.DxPinmap.AppendModule: does not model `function.footnotes = footnotes`
  (pinout.py:98). The footnote list is only attached to each label for later
  drawing and changes no pad.
- Pinout.ParseVariantPackage: the message printed before the error on an
  unrecognised shape (pinout.py:59) is logging output and is not modelled;
  the error itself is the `Failure` result.
- Starter.ParseVariantPackage: the same printed message (starter.py:39) is not
  modelled either.
- Pinout.DxPinmap.GetPadByPosition: takes a natural number. The `int(index)`
  conversion of strings is not modelled, nor is `int(mapping.position)` in the
  constructor.
- `Footnotes(reset=True)` at pinout.py:115 does not match the constructor's
  signature at notes.py:64. No reset is modelled, and the page constructor's
  footnote setup is not part of the model.
- The selector, key and text accessors of `Footnote` and `Footnotes.__iter__`
  are plain reads of the stored entry and list.
- Notes.IdCounter: the class attribute `_next_id` is an object that a
  collection holds as a constant field and every footnote read passes along.
  The `Footnotes` constructor accepts any counter, so the model does not force
  one counter for all collections of a run: passing the same counter to every
  collection is the caller's duty. No member of the model resets a counter.
- Strings.Lower: case folding is ASCII only. Python's Unicode `lower()` is not
  modelled.
- Strings.ParseNat: `int()` is modelled on ASCII digit strings only. Its
  leading/trailing whitespace, sign, underscores and non-ASCII digits are not
  modelled.
- The label classes the factory never builds (I2C, SPI, ADC, DAC, ZCD, EVSYS,
  CCL, clock, spacer) have no `text` rule of their own: they inherit the
  default signal text, so `DefaultText` is their exact text in `Text`. Their
  constructors hold only titles and colours. The clock-system class that does
  have a rule (`ControlSignalFunction`) is modelled as `ControlText`, and the
  TCA, TCB and TCD rules as `TcaText`, `TcbText` and `PwmText`, though the
  factory never reaches any of them.
- DxFunctions.DefaultTextOfAlternate: the alternate-suffix property is stated
  for each text function separately, not for `Text` over a symbolic class.
- Pinout.Placements: the label factory is a parameter of the specification
  functions. The pin map classes always pass the signal factory.

## Findings

| source | as written | input that shows it | evidently intended | confidence | as-written member | corrected member |
|---|---|---|---|---|---|---|
| dx_functions.py:474 | `SpiSignalFunction` sets `index = sort_index`, so its `type_index` stays the base class's 0 | the SPI class: index 0, below every pin class, while its rank in declaration order is 14 | `type_index = sort_index`, like every other label class | not executed; the factory never builds SPI labels, so no output changes | DxFunctions.SpiTypeIndexAsWritten | DxFunctions.TypeIndexIsDeclarationRank |
