# ICARUS geometry, channel mapping and signal utilities, in Dafny

A model of the core of `icarusalg`, the ICARUS plug-in of the LArSoft
framework, with proofs of what its code promises.  What is modelled:

- **Wire readout channel mapping.** This is the code of
  `ICARUSWireReadoutGeom`, of `WireReadoutGeomICARUS` (the same code) and of
  the older `ICARUSChannelMapAlg`.
  - `channel_layout.dfy` defines the channel numbering as functions.
    Readout planes (ROPs) take consecutive blocks of channels from 0, with
    "wireless" channels before and after each block, and each wire plane of
    a ROP takes its wires' channels in turn.
  - `icarus_channel_map.dfy` holds the classes that fill the maps step by
    step (`fillChannelToWireMap`, `Initialize`, `Uninitialize`), together
    with the queries (`Nchannels`, `ChannelToWire`, `PlaneWireToChannel`,
    `TPCtoTPCset`, `ROPtoTPCs`, ...).
- **TPC-set and readout-plane builder** (`ROPandTPCsetBuildingAlg`).
  - `plane_grouping.dfy` groups wire planes by drift coordinate.
  - `stable_merger.dfy` holds the `StableMerger` that turns the TPC lists
    of the ROPs into TPC sets.
  - `rop_number_dispatcher.dfy` models the `ROPnumberDispatcher`.
  - `rop_tpcset_building.dfy` and `rop_filling.dfy` number the TPC sets and
    ROPs.
  - `readout_maps.dfy` inverts the tables into TPC-to-TPC-set and
    plane-to-ROP maps.
  - `rop_tpcset_building_alg.dfy` composes the whole `run()`.
- **Geometry object sorting**: `auxdet_sorting.dfy` covers the CRT module
  and strip numbers read from volume names, and the sorts by them.
- **Utilities**:
  - `FixedBins`, `BinningSpecs` and `Binner`;
  - `TimeInterval`, its configuration, and `TrackTimeInterval`;
  - `sortLike`, `sortBy`, `GroupByIndex`;
  - the binary and hexadecimal dumps of `BinaryDumpUtils.h`;
  - `SampledFunction` and `NonRandomCounter`.
- **PMT waveform code**:
  - the `SharedWaveformBaseline` algorithm;
  - the pure parts of the `DrawPMTwaveforms` gallery example;
  - the `expandInputFiles` list expansion;
  - the `PMTconfigToSettings.py` and `WaveformBaselines.py` scripts.

Modelling conventions:

- Objects whose fields the code updates in place are classes. Their methods
  are proved against functions on values, and lemmas state the properties
  of those functions.
- Loops are methods with invariants. Pure code is functions.
- Exceptions, null pointers and invalid IDs are `Result` or `Option` values
  (`wrappers.dfy`).
- Geometry is not modelled. Where the code measures positions
  (`NearestWireID`, `DistanceFromPlane`, the drift coordinate), the model
  takes the result as an input: a matched wire, a distance function, a
  group key.
- Integers are unbounded. The 64-bit counter of `NonRandomCounter` wraps
  explicitly.
- Doubles are reals.

## Model

| member | source | states |
|---|---|---|
| AuxDetNames.Substr | icarusalg/Geometry/AuxDetGeoObjectSorterICARUS.cxx:49-50 | `substr(pos, count)` fails exactly when `pos` is past the end, and otherwise gives the at most `count` characters of the name from `pos`, fewer only at the end of the name |
| AuxDetNames.SkipSpaces | icarusalg/Geometry/AuxDetGeoObjectSorterICARUS.cxx:49-50 | what `atoi` skips first: the result is a suffix of the text that does not start with white space |
| AuxDetNames.LeadingDigits | icarusalg/Geometry/AuxDetGeoObjectSorterICARUS.cxx:49-50 | the digits `atoi` reads: the longest all-digit prefix, followed by the end or by a non-digit |
| AuxDetNames.DigitsValue | icarusalg/Geometry/AuxDetGeoObjectSorterICARUS.cxx:49-50 | the value of `n` decimal digits is below `10^n` |
| AuxDetNames.Atoi | icarusalg/Geometry/AuxDetGeoObjectSorterICARUS.cxx:49-50 | `atoi` of a text of `n` characters stays strictly between `-10^n` and `10^n`, so the three- and two-character fields never overflow |
| AuxDetNames.NumberAt | icarusalg/Geometry/AuxDetGeoObjectSorterICARUS.cxx:49-50 | `atoi(name.substr(pos, count))` throws exactly when `pos` is past the end of the name, and otherwise reads a number of at most `count` digits |
| AuxDetNames.ModuleNumber | icarusalg/Geometry/AuxDetGeoObjectSorterICARUS.cxx:26-50 | the module number is read after `volAuxDet<type>module`, the type coming from the strip count; it fails exactly when the name is shorter than that prefix, and has at most three digits |
| AuxDetNames.SensitiveType | icarusalg/Geometry/AuxDetGeoObjectSorterICARUS.cxx:65-70 | the type of a strip: "DC" when its name holds "DC", else "CERN" when it holds "CERN", else "MINOS" when it holds "MINOS", else empty, and empty only then |
| AuxDetNames.ContainsMeans | icarusalg/Geometry/AuxDetGeoObjectSorterICARUS.cxx:65-70 | `find(p) != npos` holds exactly when `p` occurs at some position of the name |
| AuxDetNames.SensitiveModuleNumber | icarusalg/Geometry/AuxDetGeoObjectSorterICARUS.cxx:73-83 | the strip's module number is read after `volAuxDetSensitive<type>module`, fails exactly when the name is shorter than that, and has at most three digits |
| AuxDetNames.StripNumber | icarusalg/Geometry/AuxDetGeoObjectSorterICARUS.cxx:74-88 | the strip number is read after `volAuxDetSensitive<type>module###strip`, fails exactly when the name is shorter than that, and has at most two digits |
| AuxDetNames.PaddedDigits | icarusalg/Geometry/AuxDetGeoObjectSorterICARUS.cxx:41 | the `###` of a name: exactly `width` decimal digits |
| AuxDetNames.PaddedDigitsValue | icarusalg/Geometry/AuxDetGeoObjectSorterICARUS.cxx:41 | zero-padded digits have the value of the number written |
| AuxDetNames.AtoiOfPadded | icarusalg/Geometry/AuxDetGeoObjectSorterICARUS.cxx:49-50 | `atoi` reads a zero-padded number back |
| AuxDetNames.AtoiOfDigits | icarusalg/Geometry/AuxDetGeoObjectSorterICARUS.cxx:49-50 | `atoi` of a digit string is the value of its digits |
| AuxDetNames.AtoiOfNonNumber | icarusalg/Geometry/AuxDetGeoObjectSorterICARUS.cxx:49-50 | a field starting with a character that is not a space, a sign or a digit reads as 0: names are not validated |
| AuxDetNames.ModuleNumberOfLayout | icarusalg/Geometry/AuxDetGeoObjectSorterICARUS.cxx:41-50 | a module named `volAuxDet<type>module###<region>` yields the number `###`, whatever the region |
| AuxDetNames.SensitiveNumbersOfLayout | icarusalg/Geometry/AuxDetGeoObjectSorterICARUS.cxx:72-88 | a strip named `volAuxDetSensitive<type>module###strip##` yields the module number `###` and the strip number `##` |
| AuxDetNames.ModuleThenStripIsLexicographic | icarusalg/Geometry/AuxDetGeoObjectSorterICARUS.cxx:82-91 | with readable module numbers, strips compare by module number, and between strips of one module by strip number, which is read only then |
| AuxDetGeoObjectSorterICARUS.EraseUnderscores | icarusalg/Geometry/AuxDetGeoObjectSorterICARUS.cxx:46-47 | `erase(remove(..., '_'))` leaves no underscore and keeps every other character as often as it occurred |
| AuxDetGeoObjectSorterICARUS.EraseIsIdempotent | icarusalg/Geometry/AuxDetGeoObjectSorterICARUS.cxx:46-47 | erasing underscores twice is erasing them once |
| AuxDetGeoObjectSorterICARUS.NoUnderscoreKept | icarusalg/Geometry/AuxDetGeoObjectSorterICARUS.cxx:46-47 | a name without underscores is left unchanged |
| AuxDetGeoObjectSorterICARUS.EraseKeepsOrder | icarusalg/Geometry/AuxDetGeoObjectSorterICARUS.cxx:46-47 | erasing distributes over concatenation, so the other characters keep their order |
| AuxDetGeoObjectSorterICARUS.CompareAuxDets | icarusalg/Geometry/AuxDetGeoObjectSorterICARUS.cxx:24-53 | `compareAuxDets` throws exactly when one of the underscore-free names is too short to hold its module number |
| AuxDetGeoObjectSorterICARUS.CompareAuxDetSensitives | icarusalg/Geometry/AuxDetGeoObjectSorterICARUS.cxx:56-92 | `compareAuxDetSensitives` throws exactly when an underscore-free name is too short for its module number, or, between strips of the same module, too short for its strip number; when it says the first strip comes first, swapping the two strips says the other does not |
| AuxDetGeoObjectSorterICARUS.LegacyNamesSortAlike | icarusalg/Geometry/AuxDetGeoObjectSorterICARUS.cxx:45-47 | legacy names with underscores compare exactly as their underscore-free versions |
| AuxDetGeoObjectSorterICARUS.CompareAuxDetsOfLayout | icarusalg/Geometry/AuxDetGeoObjectSorterICARUS.cxx:24-53 | two modules named as the code assumes compare by the module numbers in their names, underscores anywhere ignored |
| AuxDetGeoObjectSorterICARUS.CompareAuxDetSensitivesOfLayout | icarusalg/Geometry/AuxDetGeoObjectSorterICARUS.cxx:56-92 | two strips named as the code assumes compare lexicographically by (module number, strip number) |
| AuxDetSorting.AuxDetStandardSortingRule | icarusalg/Geometry/details/AuxDetSorting.cxx:26-56 | the standard module rule throws exactly when one of the names, read as it is, is too short to hold its module number |
| AuxDetSorting.AuxDetSensitiveStandardSortingRule | icarusalg/Geometry/details/AuxDetSorting.cxx:61-95 | the standard strip rule throws exactly when a name, read as it is, is too short for its module number, or, between strips of the same module, too short for its strip number; when it puts the first strip first, swapped it does not |
| AuxDetSorting.ModuleRuleIsKeyOrder | icarusalg/Geometry/details/AuxDetSorting.cxx:26-56 | on readable names the module rule is the order of the module numbers |
| AuxDetSorting.SensitiveRuleIsKeyOrder | icarusalg/Geometry/details/AuxDetSorting.cxx:61-95 | when it reads what it needs, the strip rule is the order of the (module, strip) keys |
| AuxDetSorting.SortByKey | icarusalg/Geometry/details/AuxDetSorting.cxx:105-113 | the in-place sort leaves the array ordered by key and a permutation of what it held |
| AuxDetSorting.ModuleKeyOrderIsRuleOrder | icarusalg/Geometry/details/AuxDetSorting.cxx:104-106 | modules sorted by key, all readable, are sorted by the module rule: no later module compares before an earlier one |
| AuxDetSorting.SortAuxDetsStandard | icarusalg/Geometry/details/AuxDetSorting.cxx:104-106 | `SortAuxDetsStandard` throws exactly when some module name cannot be read; otherwise it permutes the modules into module-rule order. On the exception the model keeps the old order, which `std::sort` does not promise (see Left out) |
| AuxDetSorting.StripReadable | icarusalg/Geometry/details/AuxDetSorting.cxx:87-93 | in any arrangement of strips the rule does not throw on, two strips of one module both have readable strip numbers |
| AuxDetSorting.SensitiveKeyOrderIsRuleOrder | icarusalg/Geometry/details/AuxDetSorting.cxx:110-114 | strips sorted by key, from an arrangement the rule does not throw on, are sorted by the strip rule |
| AuxDetSorting.CheckModules | icarusalg/Geometry/details/AuxDetSorting.cxx:83-84 | an error is reported exactly when some strip's module number cannot be read |
| AuxDetSorting.CheckStrips | icarusalg/Geometry/details/AuxDetSorting.cxx:87-90 | an error is reported exactly when some strip's strip number cannot be read while another strip shares its module |
| AuxDetSorting.CheckSensitive | icarusalg/Geometry/details/AuxDetSorting.cxx:61-95 | an error is reported exactly when sorting two or more strips with the strip rule throws |
| AuxDetSorting.SortAuxDetSensitiveStandard | icarusalg/Geometry/details/AuxDetSorting.cxx:110-114 | `SortAuxDetSensitiveStandard` throws exactly when the strip rule would; otherwise it permutes the strips into strip-rule order. On the exception the model keeps the old order, which `std::sort` does not promise (see Left out) |
| AuxDetSorting.StandardRuleMatchesICARUS | icarusalg/Geometry/details/AuxDetSorting.cxx:26-56 | on names without underscores the standard module rule and `compareAuxDets` agree |
| AuxDetSorting.SensitiveRuleMatchesICARUS | icarusalg/Geometry/details/AuxDetSorting.cxx:61-95 | on names without underscores the standard strip rule and `compareAuxDetSensitives` agree |
| BinaryDump.Digit | icarusalg/Utilities/BinaryDumpUtils.h:409 | a digit in `base` is below `base`, as `& 0xF` or a one-bit test gives |
| BinaryDump.Render | icarusalg/Utilities/BinaryDumpUtils.h:405-410 | the rendering of digits `hi - 1` down to `lo` has one character per digit |
| BinaryDump.IndexOfDigit | icarusalg/Utilities/BinaryDumpUtils.h:23-24 | in a table of distinct digits, looking up a digit's character finds that digit again |
| BinaryDump.ParseRender | icarusalg/Utilities/BinaryDumpUtils.h:405-410 | reading `n` rendered digits back gives the value modulo `base^n`: no digit is lost or misplaced |
| BinaryDump.PrintHex | icarusalg/Utilities/BinaryDumpUtils.h:399-411 | `printHex` writes all `2 * size` nibbles, most significant first, and with a table of distinct digits they read back to the value modulo `16^(2 * size)`, two's complement for negative values |
| BinaryDump.BinRangeLength | icarusalg/Utilities/BinaryDumpUtils.h:163-166 | `n` bits take `n` characters plus one space per complete group of four below the first bit |
| BinaryDump.WithoutSpacesConcat | icarusalg/Utilities/BinaryDumpUtils.h:163-166 | dropping spaces distributes over concatenation |
| BinaryDump.BinRangeDigits | icarusalg/Utilities/BinaryDumpUtils.h:163-166 | the bit string without its group spaces is the plain base-2 rendering of the value |
| BinaryDump.DecimalText | icarusalg/Utilities/BinaryDumpUtils.h:434 | the bit count is written with at least one digit |
| BinaryDump.BinDump | icarusalg/Utilities/BinaryDumpUtils.h:425-442 | `operator<<` for `BinObj`, with one-bit masks as documented: `(Bits) ` followed by the lowest `Bits` bits, most significant first, a space after every group of four counted from the lowest bit |
| BinaryDump.BitDigit | icarusalg/Utilities/BinaryDumpUtils.h:436 | the digit written for a one-bit mask is the digit of that bit |
| BinaryDump.BinTextLayout | icarusalg/Utilities/BinaryDumpUtils.h:250-275 | the documented dump has `(Bits) `, then `Bits` digits and `(Bits - 1) / 4` spaces, and its digits read back to the value modulo `2^Bits` |
| BinaryDump.SingleBitMasks | icarusalg/Utilities/BinaryDumpUtils.h:433-437 | when the mask does not start on a signed sign bit, the coded loop writes exactly the bit string |
| BinaryDump.BinDumpAsWritten | icarusalg/Utilities/BinaryDumpUtils.h:425-442 | the loop as coded: for a signed type dumped over its full width the mask starts negative and `>>=` keeps its sign bit, so each digit says whether any bit from there to the top is set |
| BinaryDump.MaskedDigit | icarusalg/Utilities/BinaryDumpUtils.h:436 | the digit the coded loop writes is whether `value & mask` is not zero |
| BinaryDump.SignedByteBits | icarusalg/Utilities/BinaryDumpUtils.h:250-256 | the documented bits of `bin<char>(0xAA)` are "1010 1010" |
| BinaryDump.SignedByteMasks | icarusalg/Utilities/BinaryDumpUtils.h:433-437 | on a signed byte holding `0xAA` the coded loop writes "1111 1111" |
| BinaryDump.SignedByteDigits | icarusalg/Utilities/BinaryDumpUtils.h:433-437 | the bits of `0xAA` as a signed byte, and every mask reaching its sign bit finds a set bit |
| BinaryDump.Blanks | icarusalg/Utilities/BinaryDumpUtils.h:415-421 | `Blanks<N, C>` writes `N` copies of `C` |
| BinaryDump.HexCells | icarusalg/Utilities/BinaryDumpUtils.h:467 | one hexadecimal cell per atom |
| BinaryDump.HexCellsUniform | icarusalg/Utilities/BinaryDumpUtils.h:459-468 | every atom cell is `2 * sizeof(Atom)` characters wide, as wide as a blank slot |
| BinaryDump.SlotsLength | icarusalg/Utilities/BinaryDumpUtils.h:461-473 | `count` slots take `count` times one space plus the slot width |
| BinaryDump.SlotsSplit | icarusalg/Utilities/BinaryDumpUtils.h:485-487 | printing `a` slots and then `b` more from where the first call stopped is printing `a + b` slots |
| BinaryDump.PrintSlot | icarusalg/Utilities/BinaryDumpUtils.h:466-468 | a slot holds the atom's hexadecimal text before the end of the data and blanks after it |
| BinaryDump.LineTotalIsCeiling | icarusalg/Utilities/BinaryDumpUtils.h:481-490 | the loop writes as many lines as the atom count divided by the column count, rounded up |
| BinaryDump.LineTotalCovers | icarusalg/Utilities/BinaryDumpUtils.h:481-490 | the lines cover every atom, and the last line starts before the end of the data |
| BinaryDump.LineTotalExact | icarusalg/Utilities/BinaryDumpUtils.h:481 | a line count that covers the data with no line starting past its end is the table's line count |
| BinaryDump.LineTotalBelow | icarusalg/Utilities/BinaryDumpUtils.h:481 | a line that starts before the end of the data is one of the table's |
| BinaryDump.LineLength | icarusalg/Utilities/BinaryDumpUtils.h:483-488 | every line has the same length, fixed by the address text, the columns and the slot width, with one more space for six or more columns |
| BinaryDump.OutStream.constructor | icarusalg/Utilities/BinaryDumpUtils.h:376 | a new stream has written nothing, fills with spaces and has no adjustment bit set |
| BinaryDump.FormatFlagsGuard.constructor | icarusalg/Utilities/BinaryDumpUtils.h:388-389 | the guard saves the stream's flags and fill character |
| BinaryDump.FormatFlagsGuard.Restore | icarusalg/Utilities/BinaryDumpUtils.h:391-393 | `restore` puts the saved flags and fill back and writes nothing |
| BinaryDump.PrintAtoms | icarusalg/Utilities/BinaryDumpUtils.h:461-473 | `printAtoms` writes `count` slots from `ptr`, returns `ptr + count` and leaves the format alone |
| BinaryDump.HexDump | icarusalg/Utilities/BinaryDumpUtils.h:453-495 | `operator<<` for `HexDumper` writes the table's lines and a final newline, and the stream's fill and flags come out as they went in |
| BinaryDump.WriteTable | icarusalg/Utilities/BinaryDumpUtils.h:481-490 | the loop writes line after line of the table, one line per `columns` atoms |
| BinaryDump.WriteLine | icarusalg/Utilities/BinaryDumpUtils.h:483-488 | one pass writes the line starting at atom `ptr` and moves `ptr` forward by `columns` |
| BinaryDump.Table | icarusalg/Utilities/BinaryDumpUtils.h:481-490 | the table has as many lines as it takes to reach the end of the data |
| BinaryDump.LineSlotContents | icarusalg/Utilities/BinaryDumpUtils.h:460-488 | slot `j` of the line printed from atom `start` (line `k` of the table starts at atom `k * columns`) is a space followed, at a fixed offset, by atom `start + j` in hexadecimal, which reads back to that atom's low `2 * sizeof(Atom)` nibbles, or by blanks past the end of the data |
| BinaryDump.TableLayout | icarusalg/Utilities/BinaryDumpUtils.h:481-488 | every line of the table has the same length, fixed by its address text, the column count and the atom size |
| BinaryDump.Padded | icarusalg/Utilities/BinaryDumpUtils.h:500-506 | `std::setw` pads as the stream's `adjustfield` says: as long as the field or the text, whichever is longer; left-adjusted text comes first and the padding after it, internal adjustment puts the padding between the sign or base prefix and the rest, and right adjustment or none puts the padding first |
| BinaryDump.WriteZeroPadded | icarusalg/Utilities/BinaryDumpUtils.h:500-506 | `operator<<` for `ZeroPadder` writes the data padded with `pad` where the stream's adjustment says, and restores the stream's fill and flags |
| Binner.Binner.Bin | icarusalg/gallery/examples/DetectorActivityRatePlots/C++/Binner.h:142-149 | `bin()` is the bin whose edges enclose the value, lower edge included, with no range check |
| Binner.Binner.Contains | icarusalg/gallery/examples/DetectorActivityRatePlots/C++/Binner.h:178-180 | `contains()` holds only for a non-empty range, and holds for the lower bound exactly when the range is not empty |
| Binner.Binner.LowerEdge | icarusalg/gallery/examples/DetectorActivityRatePlots/C++/Binner.h:182-183 | the lower edge of bin `i` lies exactly `i` steps above the lower bound, as `relative()` measures it |
| Binner.Binner.CappedBinWithin | icarusalg/gallery/examples/DetectorActivityRatePlots/C++/Binner.h:155-156 | `cappedBin(value, min, max)` is the bin index when it lies in `[min, max]`, else `min` below and `max` above |
| Binner.Binner.CappedBin | icarusalg/gallery/examples/DetectorActivityRatePlots/C++/Binner.h:161 | `cappedBin(value)` is always a valid index: the bin of a contained value, 0 below the range and the last bin at or above its upper bound |
| Binner.Binner.CappedBinWithOverflows | icarusalg/gallery/examples/DetectorActivityRatePlots/C++/Binner.h:165-167 | the bin of a contained value, `-1` exactly for values below the range and `nBins()` exactly for values at or above its upper bound |
| Binner.Binner.UpperEdge | icarusalg/gallery/examples/DetectorActivityRatePlots/C++/Binner.h:183-186 | a bin's upper edge is one step above its lower edge, the lower edge of the next bin |
| Binner.Binner.BinCenter | icarusalg/gallery/examples/DetectorActivityRatePlots/C++/Binner.h:189 | the centre is equally far from both edges, strictly inside the bin, and falls in that bin |
| Binner.Make | icarusalg/gallery/examples/DetectorActivityRatePlots/C++/Binner.h:207-214 | the constructor keeps the lower bound and step, moves the upper bound up by less than one step to the end of the last bin, and has no bins exactly for an empty range |
| Binner.BinOfEdges | icarusalg/gallery/examples/DetectorActivityRatePlots/C++/Binner.h:148-186 | a value is in bin `i` exactly when it lies between bin `i`'s edges |
| Binner.ContainsIffBinInRange | icarusalg/gallery/examples/DetectorActivityRatePlots/C++/Binner.h:130-180 | a value is contained exactly when its bin index is between 0 and `nBins() - 1`; below the range exactly when the index is negative, at or above it exactly when the index is `nBins()` or more |
| Binner.EdgesRise | icarusalg/gallery/examples/DetectorActivityRatePlots/C++/Binner.h:183 | bin edges rise with the bin index |
| BinningSpecs.BinningSpecs.Range | icarusalg/Utilities/BinningSpecs.h:193 | the covered range is `nBins()` widths and never negative |
| BinningSpecs.BinningSpecs.BinWith | icarusalg/Utilities/BinningSpecs.cxx:58-59 | `binWith()` is the bin whose borders enclose the value, the lower border included |
| BinningSpecs.BinningSpecs.BinBorders | icarusalg/Utilities/BinningSpecs.cxx:63-68 | the two borders of a bin are one width apart |
| BinningSpecs.NBinsFor | icarusalg/Utilities/BinningSpecs.cxx:72-74 | `NBinsFor()` is the fewest bins of the width that cover the range, and 0 exactly for an empty range |
| BinningSpecs.Make | icarusalg/Utilities/BinningSpecs.cxx:43-54 | the constructor keeps the lower limit and width and moves the upper limit up, by less than one width, to the end of the last bin |
| BinningSpecs.BinWithIffBetweenBorders | icarusalg/Utilities/BinningSpecs.cxx:58-68 | a value is in bin `i` exactly when it lies between bin `i`'s borders |
| BinningSpecs.LimitsBins | icarusalg/Utilities/BinningSpecs.cxx:43-59 | the lower limit falls in bin 0 and the upper limit in bin `nBins()` |
| BinningSpecs.FloorMult | icarusalg/Utilities/BinningSpecs.cxx:26-27 | `floorMult()` is a whole multiple of the factor, at most the value and less than one factor below it |
| BinningSpecs.MakeBinningAlignedTo0 | icarusalg/Utilities/BinningSpecs.cxx:30-35 | the aligned binning starts less than one width below the lower limit, still covers the upper limit, and has 0 as a bin border |
| BinningSpecs.AlignBinningToAsWritten | icarusalg/Utilities/BinningSpecs.cxx:112-136 | `alignBinningTo()` as written: the shift toward the upper border comes out as that border itself, not as a distance |
| BinningSpecs.AlignBinningTo | icarusalg/Utilities/BinningSpecs.cxx:112-136 | with the shift taken as the distance to the nearest border of the boundary's bin, the boundary becomes a bin border and, when asked, the old range stays covered |
| BinningSpecs.AlignedOnBoundary | icarusalg/Utilities/BinningSpecs.cxx:116-134 | shifting by the distance from the boundary to the nearer border of its bin makes the boundary a border, and extending the coverage keeps the old range covered |
| BinningSpecs.ShiftedBorder | icarusalg/Utilities/BinningSpecs.cxx:126-134 | every old border moved by the shift is a border of the shifted binning |
| BinningSpecs.BorderAfterShift | icarusalg/Utilities/BinningSpecs.cxx:127-131 | a border moved by the shift stays a border whether or not one bin was added below |
| BinningSpecs.ShiftedCovers | icarusalg/Utilities/BinningSpecs.cxx:127-132 | a shift of less than one bin, with the coverage extended, still covers the old range |
| BinningSpecs.Shifted | icarusalg/Utilities/BinningSpecs.cxx:126-134 | the limits move by the shift; with coverage extended a positive shift adds a bin below and a negative one a bin above |
| BinningSpecs.ConstructorExample | icarusalg/Utilities/BinningSpecs.cxx:43-54 | (-5, 8, width 2) gives seven bins up to 9 |
| BinningSpecs.AlignedTo0Example | icarusalg/Utilities/BinningSpecs.cxx:30-35 | aligning (-5, 8, width 2) to zero moves the lower limit to -6 and keeps seven bins |
| BinningSpecs.AlignBinningToMissesBoundary | icarusalg/Utilities/BinningSpecs.cxx:119-123 | on bins of width 2 from 0, aligning to 1.5 as written leaves a binning from 0 on which 1.5 is still not a border |
| TimeIntervals.Interval.Shifted | icarusalg/Utilities/TimeInterval.h:124-125 | `shift` leaves an empty interval alone; otherwise the shifted interval contains `t + amount` exactly when the interval contains `t`, and the duration is kept |
| TimeIntervals.Interval.Intersection | icarusalg/Utilities/TimeInterval.h:127-134 | `intersect`: a time is in the result exactly when it is in both intervals; the result starts no earlier and stops no later than either |
| TimeIntervals.Interval.Extension | icarusalg/Utilities/TimeInterval.h:136-146 | `extend`: an empty interval is replaced by `other`, an empty `other` changes nothing, every time of either interval is in the result, whose ends are ends of the two intervals |
| TimeIntervals.Interval.Plus | icarusalg/Utilities/TimeInterval.h:166-172 | free `operator+` shifts even an empty interval: same duration and emptiness, and `t + amount` is inside exactly when `t` was |
| TimeIntervals.Interval.Minus | icarusalg/Utilities/TimeInterval.h:182-188 | free `operator-` is the inverse of `operator+` and equals `operator+` by the opposite amount |
| TimeIntervals.TimeInterval.Default | icarusalg/Utilities/TimeInterval.h:74 | the default interval starts and stops at the time origin and is empty |
| TimeIntervals.TimeInterval.At | icarusalg/Utilities/TimeInterval.h:77 | a single time gives the empty interval starting and stopping at it |
| TimeIntervals.TimeInterval.constructor | icarusalg/Utilities/TimeInterval.h:80-81 | the two-time constructor keeps the start and the stop as given |
| TimeIntervals.Interval.Get | icarusalg/Utilities/TimeInterval.h:202-210 | `get<0>` is the start and `get<1>` the stop |
| TimeIntervals.Interval.Empty | icarusalg/Utilities/TimeInterval.h:96-112 | `empty()` holds exactly when `contains` is false for every time |
| TimeIntervals.Interval.Duration | icarusalg/Utilities/TimeInterval.h:99-100 | `duration()` is positive exactly for a non-empty interval |
| TimeIntervals.Interval.Contains | icarusalg/Utilities/TimeInterval.h:110-112 | only a non-empty interval contains a time, and a non-empty interval contains its start |
| TimeIntervals.ExtensionThenIntersection | icarusalg/Utilities/TimeInterval.h:127-146 | extending by a non-empty interval and intersecting with it gives that interval back |
| TimeIntervals.Format | icarusalg/Utilities/TimeInterval.h:191-199 | the stream form is `[ empty ]` for an empty interval, otherwise `[ ` … `;` … `]` |
| TimeIntervals.TimeInterval.Shift | icarusalg/Utilities/TimeInterval.h:122-125 | the object afterwards holds the shifted value of the old one |
| TimeIntervals.TimeInterval.Intersect | icarusalg/Utilities/TimeInterval.h:127-134 | the object afterwards holds the intersection of its old value with `other` |
| TimeIntervals.TimeInterval.Extend | icarusalg/Utilities/TimeInterval.h:136-146 | the object afterwards holds the extension of its old value by `other` |
| TimeIntervals.TimeInterval.AddAssign | icarusalg/Utilities/TimeInterval.h:148-151 | `operator+=` is `shift` by the amount |
| TimeIntervals.TimeInterval.SubtractAssign | icarusalg/Utilities/TimeInterval.h:153-156 | `operator-=` is `shift` by the opposite amount |
| TimeIntervalConfig.MakeTimeInterval | icarusalg/Utilities/TimeIntervalConfig.h:153-184 | `makeTimeInterval` throws exactly when Start, End and Duration are all given; otherwise the interval starts at Start, stops at End and lasts Duration whenever those are given, and a bound that no parameter fixes stays 0 |
| TimeIntervalConfig.MakeOptionalTimeInterval | icarusalg/Utilities/TimeIntervalConfig.h:188-192 | no configuration gives no interval; a configuration gives the interval `makeTimeInterval` makes of it, or its error |
| TrackTimeInterval.LowerOf | icarusalg/Utilities/TrackTimeInterval.cxx:246 | `std::min` of two times: one of them, and below neither |
| TrackTimeInterval.HigherOf | icarusalg/Utilities/TrackTimeInterval.cxx:246 | `std::max` of two times: one of them, and above neither |
| TrackTimeInterval.TimeRange.Duration | icarusalg/Utilities/TrackTimeInterval.h:120-121 | the duration is defined exactly when both bounds are, and then start plus duration is stop |
| TrackTimeInterval.TimeRange.IsValid | icarusalg/Utilities/TrackTimeInterval.h:154-157 | `isValid()` is false exactly for the default range, the one with neither bound defined |
| TrackTimeInterval.TimeRange.ContainsWithin | icarusalg/Utilities/TrackTimeInterval.h:500-506 | with both bounds defined, containment with margins is membership in the half-open interval from start minus its margin to stop plus its margin |
| TrackTimeInterval.TimeRange.Contains | icarusalg/Utilities/TrackTimeInterval.h:134-136 | a time in the range with no margin stays in it with any non-negative margin |
| TrackTimeInterval.TimeRange.Empty | icarusalg/Utilities/TrackTimeInterval.h:159-160 | the corrected `empty()`: both bounds defined and a duration that is not positive (see Findings) |
| TrackTimeInterval.TimeRange.Intersection | icarusalg/Utilities/TrackTimeInterval.cxx:259-275 | `intersect` keeps exactly the times (with any margins) that both ranges contain, and the result is valid exactly when either range is |
| TrackTimeInterval.InvalidRangeContainsAll | icarusalg/Utilities/TrackTimeInterval.h:114-117 | the default range is invalid and contains every time, as an infinite range |
| TrackTimeInterval.EmptyIffContainsNothing | icarusalg/Utilities/TrackTimeInterval.h:159-160 | a range is empty exactly when it contains no time |
| TrackTimeInterval.EmptyAsWrittenMisjudgesOpenRanges | icarusalg/Utilities/TrackTimeInterval.h:159-160 | `start >= stop` calls the range from 5 with no stop, and the default range, empty although they contain times |
| TrackTimeInterval.EmptyAgreesWhenBounded | icarusalg/Utilities/TrackTimeInterval.h:159-160 | with both bounds defined, the written `empty()` and emptiness by content agree |
| TrackTimeInterval.IntersectionWithInvalid | icarusalg/Utilities/TrackTimeInterval.cxx:259-275 | intersecting the default range with a range gives that range, which the per-TPC-set accumulation starts from |
| TrackTimeInterval.TimeRangeOfHitTime | icarusalg/Utilities/TrackTimeInterval.cxx:86-95 | the range of a hit is valid, lasts the drift time and, for a positive drift time, contains the earliest deposition time but not the hit time itself |
| TrackTimeInterval.TimeRangeOfPointer | icarusalg/Utilities/TrackTimeInterval.h:205-207 | a null hit gives an invalid range and a hit gives a valid one |
| TrackTimeInterval.MergeCathodeRanges | icarusalg/Utilities/TrackTimeInterval.cxx:231-248 | an invalid second range leaves the first; an invalid first range gives the second; two valid ranges give the span from the earlier to the later start time |
| TrackTimeInterval.MergedContainsIffEveryCryostat | icarusalg/Utilities/TrackTimeInterval.cxx:218-224 | the range merged over cryostats contains a time exactly when every cryostat's range does |
| TrackTimeInterval.MergeTPCsetRanges | icarusalg/Utilities/TrackTimeInterval.cxx:181-227 | the loops over cryostats and the single cathode compute the intersection over cryostats of each cryostat's two merged TPC-set ranges, a missing TPC set counting as invalid |
| TrackTimeInterval.Blank | icarusalg/Utilities/TrackTimeInterval.h:526 | a fresh TPC-set container holds an invalid range for every TPC set |
| TrackTimeInterval.PerSetRanges | icarusalg/Utilities/TrackTimeInterval.h:526-531 | the accumulation fails exactly when some hit's TPC is outside the map (`at` throws) or is listed in no TPC set (the map holds the default, invalid ID there); with every TPC in the map the failure is the missing TPC set; otherwise the result has the container's shape |
| TrackTimeInterval.PerSetRangeContainsIffEveryHit | icarusalg/Utilities/TrackTimeInterval.h:526-531 | each TPC set's accumulated range contains a time exactly when the range of every hit on that set does |
| TrackTimeInterval.TimeRangeOfHits | icarusalg/Utilities/TrackTimeInterval.h:520-534 | the loop over hits fails exactly when the accumulation does, with its error, and otherwise returns the cryostat merge of the per-TPC-set ranges |
| TrackTimeInterval.NoRecovery | icarusalg/Utilities/TrackTimeInterval.h:529-530 | once a hit with no TPC set has been met, later hits leave that first error as it is |
| TrackTimeInterval.NoHitsGiveInvalidRange | icarusalg/Utilities/TrackTimeInterval.h:235-238 | no hits give an invalid range |
| TrackTimeInterval.NoHitsInvalid | icarusalg/Utilities/TrackTimeInterval.cxx:218-224 | merging containers of invalid ranges gives an invalid range |
| TrackTimeInterval.AssignListMeaning | icarusalg/Utilities/TrackTimeInterval.cxx:170-173 | after the TPCs of one set are assigned, a TPC maps to that set exactly when it is listed, and keeps its entry otherwise |
| TrackTimeInterval.AssignSetsMeaning | icarusalg/Utilities/TrackTimeInterval.cxx:168-174 | after the sets of one cryostat, a TPC is mapped exactly when it was or is listed by one of them, and a changed entry names a set of that cryostat that lists the TPC |
| TrackTimeInterval.AssignCryostatsMeaning | icarusalg/Utilities/TrackTimeInterval.cxx:168-174 | the same over all cryostats processed so far |
| TrackTimeInterval.ExtractTPCtoSetMap | icarusalg/Utilities/TrackTimeInterval.cxx:162-177 | the map has one row per cryostat and one entry per TPC; a TPC is mapped exactly when some TPC set lists it, and it is mapped to a set that lists it |
| TrackTimeInterval.Format | icarusalg/Utilities/TrackTimeInterval.cxx:279-288 | an invalid range prints `<invalid>`; a valid one is bracketed and an undefined start prints `...` |
| ChannelLayout.PlaneInfoBounds | icarusalg/Geometry/ICARUSWireReadoutGeom.h:588-598 | a plane holds the channels from `firstChannel()` to `lastChannel()` and not `endChannel()`, which is `lastChannel() + 1` |
| ChannelLayout.FindPlaneType | icarusalg/Geometry/ICARUSWireReadoutGeom.cxx:574-595 | `findPlaneType` is the plane number of the first wire plane when that is 0, 1 or 2, and `kUnknownType` for an empty plane list or any other plane number |
| ChannelLayout.SignalTypeOf | icarusalg/Geometry/ICARUSWireReadoutGeom.cxx:612-620 | plane types 0 and 1 are induction, type 2 collection, anything else a mystery |
| ChannelLayout.PlaneTypeName | icarusalg/Geometry/ICARUSWireReadoutGeom.cxx:666-677 | the collection type is named "collection induction", and a value that is no type is named "unsupported (n)" |
| ChannelLayout.PlaneTypeNamesDiffer | icarusalg/Geometry/ICARUSWireReadoutGeom.cxx:666-677 | the names of the three types and of the unknown type are shared by no other value |
| ChannelLayout.WirelessCountsFor | icarusalg/Geometry/ICARUSWireReadoutGeom.cxx:456-471 | the wireless counts are looked up by `TPCset & 1` and then by plane type with `at`, which fails exactly for a type other than 0, 1, 2 |
| ChannelLayout.WirelessCountsOfConfig | icarusalg/Geometry/ICARUSWireReadoutGeom.cxx:626-662 | first induction planes get the same `(pre, post)` in even and odd TPC sets; second induction and collection planes get the pair of their set's parity; the unknown type throws |
| ChannelLayout.DefaultHasNoWirelessChannels | icarusalg/Geometry/ICARUSWireReadoutGeom.h:156-161 | with every configuration entry at its default 0, no readout plane has wireless channels |
| ChannelLayout.PlaneRangesMeans | icarusalg/Geometry/ICARUSWireReadoutGeom.cxx:483-526 | the first plane covers `Nwires` channels from the first ROP channel plus `pre`; each plane has one channel per wire; each later plane's matched wire gets the last channel of the plane before it |
| ChannelLayout.FirstPlaneRange | icarusalg/Geometry/ICARUSWireReadoutGeom.cxx:483-488 | the first plane of a ROP covers `[firstROP + pre, firstROP + pre + Nwires)` |
| ChannelLayout.PlaneRangesShift | icarusalg/Geometry/ICARUSWireReadoutGeom.cxx:477-526 | moving where a ROP starts moves all its planes' ranges by as much |
| ChannelLayout.EndsGrow | icarusalg/Geometry/ICARUSWireReadoutGeom.cxx:515-524 | when each matched wire is a wire of its plane, no plane ends after the last one |
| ChannelLayout.RangesInside | icarusalg/Geometry/ICARUSWireReadoutGeom.cxx:477-526 | the planes of an aligned ROP lie between its first plane's first channel and its last plane's end |
| ChannelLayout.FindChannel | icarusalg/Geometry/ICARUSWireReadoutGeom.cxx:113-114 | `find(channel)` gives a stored block holding the channel, or nothing when no block holds it |
| ChannelLayout.FindROP | icarusalg/Geometry/ICARUSWireReadoutGeom.cxx:159-161 | `find(ropid)` gives the first stored block of that ROP, or nothing exactly when there is none |
| ChannelLayout.TiledMeans | icarusalg/Geometry/ICARUSWireReadoutGeom.cxx:438-548 | numbering starts at channel 0, each ROP block begins where the one before ended, and the end of the numbering is the total of the block sizes |
| ChannelLayout.TiledApart | icarusalg/Geometry/ICARUSWireReadoutGeom.cxx:477-538 | ROP blocks do not overlap |
| ChannelLayout.TiledCovers | icarusalg/Geometry/ICARUSWireReadoutGeom.cxx:438-548 | a channel is in some block exactly when it is below the end of the numbering |
| ChannelLayout.RecordMeans | icarusalg/Geometry/ICARUSWireReadoutGeom.cxx:484-526 | after a ROP is laid out, a plane is stored exactly when it was stored before or is one of the ROP's planes, and then with its range and ROP |
| ChannelLayout.PlacedBlock | icarusalg/Geometry/ICARUSWireReadoutGeom.cxx:477-537 | a ROP's block is at least `pre + Nwires + post` long and holds each of its planes clear of the wireless channels |
| ChannelLayout.TiledGrows | icarusalg/Geometry/ICARUSWireReadoutGeom.cxx:536-538 | adding a block where the numbering ends keeps the blocks tiled |
| ChannelLayout.NewPlaneRecorded | icarusalg/Geometry/ICARUSWireReadoutGeom.cxx:484-526 | a wire plane of the ROP just laid out lies in that ROP's block |
| ChannelLayout.OldPlaneRecorded | icarusalg/Geometry/ICARUSWireReadoutGeom.cxx:536-538 | a plane laid out before stays in its block when a new block is added |
| ChannelLayout.PlaceRecords | icarusalg/Geometry/ICARUSWireReadoutGeom.cxx:477-538 | every plane stored after laying out a ROP lies in a block of its own ROP |
| ChannelLayout.PlaceKeeps | icarusalg/Geometry/ICARUSWireReadoutGeom.cxx:477-538 | laying out one aligned ROP keeps the blocks tiled and every plane in its ROP's block |
| ChannelLayout.FillROPsKeeps | icarusalg/Geometry/ICARUSWireReadoutGeom.cxx:459-544 | the loop over the ROPs of a TPC set keeps the layout consistent |
| ChannelLayout.FillTPCsetsKeeps | icarusalg/Geometry/ICARUSWireReadoutGeom.cxx:448-546 | the loop over the TPC sets of a cryostat keeps the layout consistent |
| ChannelLayout.FillCryostatsKeeps | icarusalg/Geometry/ICARUSWireReadoutGeom.cxx:442-546 | the loop over the cryostats keeps the layout consistent |
| ChannelLayout.LayoutIsConsistent | icarusalg/Geometry/ICARUSWireReadoutGeom.cxx:418-548 | with aligned ROPs the numbering tiles the channels from 0 to its end, and every wire plane lies in its own ROP's block, clear of the wireless channels |
| ChannelLayout.SegmentsMeans | icarusalg/Geometry/ICARUSWireReadoutGeom.cxx:131-140 | a wire is listed exactly when its plane is a plane of the ROP whose range holds the channel, and the wire number is the channel's offset in that range |
| ChannelLayout.FoundIsTheBlock | icarusalg/Geometry/ICARUSWireReadoutGeom.cxx:113-114 | with tiled blocks the block found for a channel is the one holding it |
| ChannelLayout.ChannelToWireFailsOutside | icarusalg/Geometry/ICARUSWireReadoutGeom.cxx:113-120 | `ChannelToWire` throws exactly for channels outside `[0, Nchannels())` |
| ChannelLayout.ChannelToWireOf | icarusalg/Geometry/ICARUSWireReadoutGeom.cxx:97-143 | the channel-to-wire lookup throws exactly when no ROP block holds the channel, and every wire it lists lies on a plane whose channel range holds the channel, at the channel's offset in that range |
| ChannelLayout.BlockOfPlane | icarusalg/Geometry/ICARUSWireReadoutGeom.cxx:484-538 | a laid-out plane's channels are all in the block of its ROP, and the plane is one of that ROP's planes |
| ChannelLayout.WireChannelRoundTrip | icarusalg/Geometry/ICARUSWireReadoutGeom.cxx:97-208 | the channel of wire `w` of a plane (first channel plus `w`) leads back through `ChannelToWire` to that wire |
| ChannelLayout.WiresOfPlaneChannel | icarusalg/Geometry/ICARUSWireReadoutGeom.cxx:125-140 | once the block holding the channel is found, the loop over its planes lists the wire |
| ChannelLayout.WirelessChannelsHaveNoWires | icarusalg/Geometry/ICARUSWireReadoutGeom.h:101-117 | wireless channels belong to their ROP's block but map to an empty wire list |
| ChannelLayout.WiredChannelBlock | icarusalg/Geometry/ICARUSWireReadoutGeom.cxx:477-538 | a channel of a plane laid out in a block's wired part is in no other block |
| ICARUSChannelMapping.FillROP | icarusalg/Geometry/ICARUSWireReadoutGeom.cxx:461-542 | the body of the ROP loop lays out exactly the block `PlaceROP` describes: first plane after `pre`, later planes anchored at `(nextChannel - 1) - matchedWire`, then `post` and `addROP` |
| ICARUSChannelMapping.FillROPs | icarusalg/Geometry/ICARUSWireReadoutGeom.cxx:452-542 | the loop over the ROPs of a TPC set computes the ROP-by-ROP numbering, failing with the `at` exception at the first ROP of unknown plane type |
| ICARUSChannelMapping.FillTPCsets | icarusalg/Geometry/ICARUSWireReadoutGeom.cxx:449-544 | the loop over the TPC sets of a cryostat computes the set-by-set numbering |
| ICARUSChannelMapping.FillCryostats | icarusalg/Geometry/ICARUSWireReadoutGeom.cxx:442-546 | the loop over the cryostats computes the cryostat-by-cryostat numbering |
| ICARUSChannelMapping.FillFromScratch | icarusalg/Geometry/ICARUSWireReadoutGeom.cxx:438-548 | starting from channel 0, the loops compute the numbering, which with aligned ROPs tiles the channels and keeps each plane in its block's wired part |
| ICARUSChannelMapping.ReadoutMappingInfo.constructor | icarusalg/Geometry/ICARUSWireReadoutGeom.h:528 | a new table holder holds six empty containers and is not set |
| ICARUSChannelMapping.ReadoutMappingInfo.Set | icarusalg/Geometry/ICARUSWireReadoutGeom.h:530-553 | `set` takes over the six containers, which must agree on the number of cryostats, and `NCryostats` is then their cryostat count |
| ICARUSChannelMapping.ReadoutMappingInfo.Clear | icarusalg/Geometry/ICARUSWireReadoutGeom.h:561-574 | `clear` empties all six containers, after which `operator bool` is false |
| ICARUSChannelMapping.ReadoutMappingInfo.IsSet | icarusalg/Geometry/ICARUSWireReadoutGeom.h:569-574 | `operator bool` holds only for filled containers, so a set object has at least one cryostat and is not cleared |
| ICARUSChannelMapping.ReadoutMappingInfo.NCryostats | icarusalg/Geometry/ICARUSWireReadoutGeom.h:555-556 | `NCryostats` is 0 exactly for an empty readout plane table, and is the cryostat count of every table when the tables agree, as `set` asserts |
| ICARUSChannelMapping.ReadoutMappingInfo.MaxTPCsets | icarusalg/Geometry/ICARUSWireReadoutGeom.h:557 | `MaxTPCsets` is the TPC set width of the readout plane grid: the common row length when every cryostat has as many TPC sets, 0 without cryostats |
| ICARUSChannelMapping.ReadoutMappingInfo.MaxROPs | icarusalg/Geometry/ICARUSWireReadoutGeom.h:558 | `MaxROPs` is the readout plane width of the grid: the common cell length when the grid has TPC sets, 0 without cryostats |
| ICARUSChannelMapping.ICARUSWireReadoutGeom.constructor | icarusalg/Geometry/ICARUSChannelMapAlg.cxx:78-82 | the mapping starts from the wireless channel counts of the configuration, empty tables, no blocks and no plane information |
| ICARUSChannelMapping.ICARUSWireReadoutGeom.BuildReadoutPlanes | icarusalg/Geometry/ICARUSWireReadoutGeom.cxx:556-570 | the builder's tables are kept and indexed, and set for a non-empty detector; the builder's exception leaves the tables as they were |
| ICARUSChannelMapping.ICARUSWireReadoutGeom.FillChannelToWireMap | icarusalg/Geometry/ICARUSWireReadoutGeom.cxx:418-548 | the numbering runs from channel 0 over the tables; success stores the resulting blocks, plane ranges and end channel; on the `at` exception the model leaves the object unchanged, where the code keeps what it filled before the throw (see Left out) |
| ICARUSChannelMapping.ICARUSWireReadoutGeom.Initialize | icarusalg/Geometry/ICARUSChannelMapAlg.cxx:86-98 | `Initialize` builds the tables and then fills the channel map; a builder exception is passed on; on a mapping without blocks, success stores exactly the numbering of the tables, and with aligned ROPs the channels are numbered consistently |
| ICARUSChannelMapping.ICARUSWireReadoutGeom.Uninitialize | icarusalg/Geometry/ICARUSChannelMapAlg.cxx:102-112 | `Uninitialize` clears the readout tables, the channel map and the plane information |
| ICARUSChannelMapping.ICARUSWireReadoutGeom.NchannelsInROP | icarusalg/Geometry/ICARUSWireReadoutGeom.cxx:156-162 | `Nchannels(ropid)` is 0 for a ROP with no block, and otherwise the `nChannels` of the block `find` returns for that ROP |
| ICARUSChannelMapping.ICARUSWireReadoutGeom.Nchannels | icarusalg/Geometry/ICARUSWireReadoutGeom.cxx:148-152 | `Nchannels()` is the total of the block sizes whenever the blocks tile the channels from 0 |
| ICARUSChannelMapping.ICARUSWireReadoutGeom.PlaneWireToChannel | icarusalg/Geometry/ICARUSWireReadoutGeom.cxx:204-208 | `PlaneWireToChannel` is the plane's first channel plus the wire number, and falls in the plane's channel range exactly when the wire number is below the range's size |
| ICARUSChannelMapping.ICARUSWireReadoutGeom.HasCryostat | icarusalg/Geometry/ICARUSWireReadoutGeom.cxx:409-414 | the known cryostats are those below the cryostat count of the tables, cryostat 0 always among them |
| ICARUSChannelMapping.ICARUSWireReadoutGeom.MaxTPCsets | icarusalg/Geometry/ICARUSWireReadoutGeom.cxx:240-243 | `MaxTPCsets` is the TPC set width of the readout plane grid |
| ICARUSChannelMapping.ICARUSWireReadoutGeom.MaxROPs | icarusalg/Geometry/ICARUSWireReadoutGeom.cxx:302-305 | `MaxROPs` is the readout plane width of the readout plane grid |
| ICARUSChannelMapping.ICARUSWireReadoutGeom.FirstChannelInROP | icarusalg/Geometry/ICARUSWireReadoutGeom.cxx:388-395 | `FirstChannelInROP` is `InvalidChannelID` for an invalid ID or a ROP with no block, and otherwise the `firstChannel` of the block `find` returns for that ROP |
| ICARUSChannelMapping.ICARUSWireReadoutGeom.ChannelToROP | icarusalg/Geometry/ICARUSWireReadoutGeom.cxx:377-384 | `ChannelToROP` gives a ROP only for a valid channel, and then the ROP of a block holding it |
| ICARUSChannelMapping.ICARUSWireReadoutGeom.ChannelToWire | icarusalg/Geometry/ICARUSWireReadoutGeom.cxx:97-143 | `ChannelToWire` lists the wires with that channel, one per plane of its ROP whose range holds it, in plane order, and throws for a channel in no block |
| ICARUSChannelMapping.ICARUSWireReadoutGeom.SignalTypeForChannel | icarusalg/Geometry/ICARUSWireReadoutGeom.cxx:600-621 | a channel in no block is of mystery type |
| ICARUSChannelMapping.ICARUSWireReadoutGeom.WireCoordinate | icarusalg/Geometry/ICARUSWireReadoutGeom.cxx:166-181 | `WireCoordinate` always throws, sending the caller to the plane |
| ICARUSChannelMapping.ICARUSWireReadoutGeom.NearestWireID | icarusalg/Geometry/ICARUSWireReadoutGeom.cxx:185-200 | `NearestWireID` always throws, sending the caller to the plane |
| ICARUSChannelMapping.ICARUSWireReadoutGeom.PlaneIDs | icarusalg/Geometry/ICARUSWireReadoutGeom.cxx:212-226 | `PlaneIDs` always throws, sending the caller to the geometry |
| ICARUSChannelMapping.ICARUSWireReadoutGeom.NTPCsets | icarusalg/Geometry/ICARUSWireReadoutGeom.cxx:231-235 | `NTPCsets` is 0 for a cryostat that does not exist |
| ICARUSChannelMapping.ICARUSWireReadoutGeom.HasTPCset | icarusalg/Geometry/ICARUSWireReadoutGeom.cxx:249-254 | `HasTPCset` is true exactly when the TPC set number is below the cryostat's TPC set count, which is 0 for an unknown cryostat |
| ICARUSChannelMapping.ICARUSWireReadoutGeom.NROPs | icarusalg/Geometry/ICARUSWireReadoutGeom.cxx:294-298 | `NROPs` is 0 for a TPC set that does not exist |
| ICARUSChannelMapping.ICARUSWireReadoutGeom.HasROP | icarusalg/Geometry/ICARUSWireReadoutGeom.cxx:308-310 | `HasROP` is true exactly when the ROP number is below the TPC set's ROP count, and then the TPC set and cryostat exist |
| ICARUSChannelMapping.ICARUSWireReadoutGeom.TPCtoTPCset | icarusalg/Geometry/ICARUSWireReadoutGeom.cxx:258-262 | an invalid TPC ID gives an invalid TPC set ID; a TPC set is given only for a TPC the map knows |
| ICARUSChannelMapping.ICARUSWireReadoutGeom.TPCsetToTPCs | icarusalg/Geometry/ICARUSWireReadoutGeom.cxx:266-278 | an invalid TPC set ID gives no TPCs |
| ICARUSChannelMapping.ICARUSWireReadoutGeom.FirstTPCinTPCset | icarusalg/Geometry/ICARUSWireReadoutGeom.cxx:282-289 | `FirstTPCinTPCset` is the first TPC of the set, and invalid exactly when the set's TPC list is empty or the ID invalid |
| ICARUSChannelMapping.ICARUSWireReadoutGeom.WirePlaneToROP | icarusalg/Geometry/ICARUSWireReadoutGeom.cxx:326-330 | an invalid plane ID gives an invalid ROP ID; a ROP is given only for a plane the map knows |
| ICARUSChannelMapping.ICARUSWireReadoutGeom.ROPtoWirePlanes | icarusalg/Geometry/ICARUSWireReadoutGeom.cxx:334-346 | an invalid ROP ID gives no planes; otherwise one entry per stored plane |
| ICARUSChannelMapping.ICARUSWireReadoutGeom.ROPtoTPCs | icarusalg/Geometry/ICARUSWireReadoutGeom.cxx:350-373 | one TPC per wire plane of the ROP, in order and with repetitions kept |
| ICARUSChannelMapping.ICARUSWireReadoutGeom.FirstWirePlaneInROP | icarusalg/Geometry/ICARUSWireReadoutGeom.cxx:399-405 | `FirstWirePlaneInROP` is the first plane of the ROP, and invalid exactly when the ROP has no plane or the ID is invalid |
| ICARUSChannelMapping.NchannelsIsTotal | icarusalg/Geometry/ICARUSWireReadoutGeom.cxx:438-548 | the channel count is the total of the ROP block sizes, and the first block starts at channel 0 |
| ICARUSChannelMapping.ChannelToROPCovers | icarusalg/Geometry/ICARUSWireReadoutGeom.cxx:377-384 | a valid channel has a ROP exactly when it is below `Nchannels()` |
| ICARUSChannelMapping.ROPChannelsMapBack | icarusalg/Geometry/ICARUSWireReadoutGeom.cxx:377-395 | every channel from `FirstChannelInROP` over `Nchannels(ropid)` channels maps back to that ROP |
| ICARUSChannelMapping.ChannelToWireFailsExactlyOutside | icarusalg/Geometry/ICARUSWireReadoutGeom.cxx:113-120 | `ChannelToWire` throws exactly for channels at or past `Nchannels()` |
| ICARUSChannelMapping.WireToChannelToWire | icarusalg/Geometry/ICARUSWireReadoutGeom.cxx:97-208 | the channel `PlaneWireToChannel` gives a wire maps back through `ChannelToWire` to a list holding that wire |
| ICARUSChannelMapping.WirelessChannelsMapToNoWire | icarusalg/Geometry/ICARUSWireReadoutGeom.h:98-117 | the wireless channels of a block count toward the total but map to no wire |
| ICARUSChannelMapping.SignalTypeByBlock | icarusalg/Geometry/ICARUSWireReadoutGeom.cxx:600-621 | a channel's signal type is the one of its ROP's plane type, and mystery past the numbering |
| ICARUSChannelMapping.TPCsetHoldsItsTPCs | icarusalg/Geometry/ICARUSWireReadoutGeom.cxx:258-278 | a TPC with a TPC set is one of that set's TPCs |
| ICARUSChannelMapping.TPCsOfTPCsetMapBack | icarusalg/Geometry/ICARUSWireReadoutGeom.cxx:258-278 | with TPC sets sharing no TPC, each TPC listed by a set maps back to that set |
| ICARUSChannelMapping.ROPHoldsItsWirePlanes | icarusalg/Geometry/ICARUSWireReadoutGeom.cxx:326-346 | a wire plane with a ROP is one of that ROP's planes |
| ICARUSChannelMapping.WirePlanesOfROPMapBack | icarusalg/Geometry/ICARUSWireReadoutGeom.cxx:326-346 | with ROPs sharing no plane, each plane listed by a ROP maps back to that ROP |
| DrawPMTwaveforms.UnboundedContainsAll | icarusalg/gallery/examples/PMTwaveforms/C++/DrawPMTwaveforms.cpp:199-201 | a range with neither bound contains every value |
| DrawPMTwaveforms.BoundedIsHalfOpen | icarusalg/gallery/examples/PMTwaveforms/C++/DrawPMTwaveforms.cpp:199-201 | a range with both bounds holds its lower bound exactly when it is not empty, never holds its upper bound, and holds nothing when inverted |
| DrawPMTwaveforms.HWSettingMap.constructor | icarusalg/gallery/examples/PMTwaveforms/C++/DrawPMTwaveforms.cpp:223-258 | a new settings map holds no setting |
| DrawPMTwaveforms.HWSettingMap.At | icarusalg/gallery/examples/PMTwaveforms/C++/DrawPMTwaveforms.cpp:232-234 | `operator()(channel)` succeeds exactly for a channel with a setting and returns it; otherwise it is `std::out_of_range` |
| DrawPMTwaveforms.HWSettingMap.Lookup | icarusalg/gallery/examples/PMTwaveforms/C++/DrawPMTwaveforms.cpp:236-241 | `operator()(channel, defVal)` returns the channel's setting when there is one and `defVal` otherwise |
| DrawPMTwaveforms.HWSettingMap.Get | icarusalg/gallery/examples/PMTwaveforms/C++/DrawPMTwaveforms.cpp:243-248 | `get` gives the setting exactly for a channel that has one, and nothing (a null pointer) otherwise |
| DrawPMTwaveforms.HWSettingMap.Set | icarusalg/gallery/examples/PMTwaveforms/C++/DrawPMTwaveforms.cpp:250-252 | `set` sets or replaces the setting of one channel and leaves every other channel's setting as it was |
| DrawPMTwaveforms.LookupsAgree | icarusalg/gallery/examples/PMTwaveforms/C++/DrawPMTwaveforms.cpp:228-248 | the three lookups agree: `get` finds exactly what `at` finds, and the defaulted lookup returns the same value or the default |
| DrawPMTwaveforms.CollectMeans | icarusalg/gallery/examples/PMTwaveforms/C++/DrawPMTwaveforms.cpp:670-703 | the readout settings are accepted exactly when no channel has two baselines or two thresholds, and the two maps then hold every setting given and no other |
| DrawPMTwaveforms.ParseReadoutSettings | icarusalg/gallery/examples/PMTwaveforms/C++/DrawPMTwaveforms.cpp:670-703 | the loop filling the two settings maps computes `Collect`, stopping at the first duplicate |
| DrawPMTwaveforms.PrefixDuplicate | icarusalg/gallery/examples/PMTwaveforms/C++/DrawPMTwaveforms.cpp:679-696 | once a duplicate setting is met, the later tables do not change the outcome: the first duplicate is the error reported |
| DrawPMTwaveforms.IsSelected | icarusalg/gallery/examples/PMTwaveforms/C++/DrawPMTwaveforms.cpp:792-798 | a waveform is selected exactly when no time slice is configured or some slice contains its time |
| DrawPMTwaveforms.Kept | icarusalg/gallery/examples/PMTwaveforms/C++/DrawPMTwaveforms.cpp:788-820 | the waveforms kept are exactly those whose time is in some slice, and all of them with no slice configured |
| DrawPMTwaveforms.SelectWaveforms | icarusalg/gallery/examples/PMTwaveforms/C++/DrawPMTwaveforms.cpp:788-820 | the selected waveforms are the kept ones, in order, each with its channel's configured baseline and threshold, or `NoHWSetting` when none is configured |
| DrawPMTwaveforms.ClusterSorted | icarusalg/gallery/examples/PMTwaveforms/C++/DrawPMTwaveforms.cpp:875-900 | the clustering loop splits the waveforms, in order, into nonempty clusters, each holding the waveforms less than `duration` after its first one, with no cluster for no waveform |
| DrawPMTwaveforms.ClusterWaveforms | icarusalg/gallery/examples/PMTwaveforms/C++/DrawPMTwaveforms.cpp:864-903 | the clusters together hold a permutation of the waveforms, sorted by time, clustered in time |
| DrawPMTwaveforms.InGroup | icarusalg/gallery/examples/PMTwaveforms/C++/DrawPMTwaveforms.cpp:974-979 | a waveform is in group `g` exactly when it is a non-null entry of the cluster and `channel / 30 == g` |
| DrawPMTwaveforms.GroupWaveformCluster | icarusalg/gallery/examples/PMTwaveforms/C++/DrawPMTwaveforms.cpp:961-987 | the 12 groups each hold a permutation of the waveforms of their 30 channels, sorted by channel |
| DrawPMTwaveforms.GroupsPartition | icarusalg/gallery/examples/PMTwaveforms/C++/DrawPMTwaveforms.cpp:961-987 | each waveform is in the group of its channel and in no other |
| DrawPMTwaveforms.ChannelRange | icarusalg/gallery/examples/PMTwaveforms/C++/DrawPMTwaveforms.cpp:1225-1232 | `channelRange` gives the lowest and the highest channel of the waveforms, both of which occur, and with no waveform the collector's initial pair (the largest channel, 0) |
| DrawPMTwaveforms.PadPos | icarusalg/gallery/examples/PMTwaveforms/C++/DrawPMTwaveforms.cpp:1012-1017 | `padPos` is always a pad from 1 to 30 |
| DrawPMTwaveforms.LeftLeaning | icarusalg/gallery/examples/PMTwaveforms/C++/DrawPMTwaveforms.cpp:1018-1024 | the leaning zig-zags down the canvas: on the first, third and fifth pad rows the channel in the right pad of a pair leans left, on the second and fourth rows the one in the left pad |
| DrawPMTwaveforms.ChannelAtPad | icarusalg/gallery/examples/PMTwaveforms/C++/DrawPMTwaveforms.cpp:995-1007 | the documented layout puts one of the 30 channels of a group in each pad |
| DrawPMTwaveforms.PadOfChannel | icarusalg/gallery/examples/PMTwaveforms/C++/DrawPMTwaveforms.cpp:995-1017 | `padPos` puts each channel of a group in the pad the documented layout gives it |
| DrawPMTwaveforms.ChannelOfPad | icarusalg/gallery/examples/PMTwaveforms/C++/DrawPMTwaveforms.cpp:995-1017 | each pad of the documented layout is the `padPos` of its channel, so the 30 channels fill the 30 pads |
| DrawPMTwaveforms.PadsDistinct | icarusalg/gallery/examples/PMTwaveforms/C++/DrawPMTwaveforms.cpp:1012-1017 | two channels of the same group never share a pad |
| DrawPMTwaveforms.PadPeriodicity | icarusalg/gallery/examples/PMTwaveforms/C++/DrawPMTwaveforms.cpp:1012-1024 | the pad and the leaning of a channel repeat every 30 channels |
| DrawPMTwaveforms.PadPosStaticChecks | icarusalg/gallery/examples/PMTwaveforms/C++/DrawPMTwaveforms.cpp:1025-1034 | the compile-time checks on `padPos` for channels 0 to 9 hold |
| DrawPMTwaveforms.PadPosStaticChecksFrom10 | icarusalg/gallery/examples/PMTwaveforms/C++/DrawPMTwaveforms.cpp:1035-1044 | the compile-time checks on `padPos` for channels 10 to 19 hold |
| DrawPMTwaveforms.PadPosStaticChecksFrom20 | icarusalg/gallery/examples/PMTwaveforms/C++/DrawPMTwaveforms.cpp:1045-1049 | the compile-time checks on `padPos` for channels 20 to 24 hold |
| DrawPMTwaveforms.PadPosStaticChecksFrom25 | icarusalg/gallery/examples/PMTwaveforms/C++/DrawPMTwaveforms.cpp:1050-1055 | the compile-time checks on `padPos` for channels 25 to 30 hold |
| DrawPMTwaveforms.LeftLeaningStaticChecks | icarusalg/gallery/examples/PMTwaveforms/C++/DrawPMTwaveforms.cpp:1025-1055 | the compile-time checks on `leftLeaning` for channels 0 to 30 hold |
| DrawPMTwaveforms.ExtractMedian | icarusalg/gallery/examples/PMTwaveforms/C++/DrawPMTwaveforms.cpp:119-125 | `extractMedian` fails (the throwing `at`) exactly on no data; otherwise it lies between the two middle values of the sorted data and is the middle one for an odd count |
| DrawPMTwaveforms.ExtractMedianOfSorted | icarusalg/gallery/examples/PMTwaveforms/C++/DrawPMTwaveforms.cpp:119-125 | on sorted data the median is the middle element, or the average of the two middle elements for an even count |
| ExpandInputFiles.LastIndexOf | icarusalg/gallery/helpers/C++/expandInputFiles.cxx:75-78 | `rfind` gives the position of the last occurrence of the character, and nothing exactly when it does not occur |
| ExpandInputFiles.IsROOTFileMeans | icarusalg/gallery/helpers/C++/expandInputFiles.cxx:68-70 | `isROOTfile` on `std::filesystem::path` (extension `.root`, stem not empty) holds exactly when the file name after the last `/` has at least 6 characters and ends in `.root` |
| ExpandInputFiles.IsROOTFileString | icarusalg/gallery/helpers/C++/expandInputFiles.cxx:71-83 | the string form of `isROOTfile`, compiled without `<filesystem>`, holds exactly when the whole path has at least 6 characters and ends in `.root` |
| ExpandInputFiles.ROOTFileForms | icarusalg/gallery/helpers/C++/expandInputFiles.cxx:68-83 | the two forms of `isROOTfile` disagree exactly on a path of at least 6 characters whose file name is `.root` alone, such as `dir/.root`, which only the string form accepts |
| ExpandInputFiles.SpaceRun | icarusalg/gallery/helpers/C++/expandInputFiles.cxx:32-35 | the white-space run at the front of a string: all white space, and followed by the end or a non-space |
| ExpandInputFiles.SkipSpaces | icarusalg/gallery/helpers/C++/expandInputFiles.cxx:32-35 | `skipSpaces` stops at the first non-space at or after its start, or at the end |
| ExpandInputFiles.ParseLine | icarusalg/gallery/helpers/C++/expandInputFiles.cxx:105-134 | the per-line parsing reads the entry of the line: none for blank, comment or empty lines, else the name with its escapes resolved |
| ExpandInputFiles.EntryMeans | icarusalg/gallery/helpers/C++/expandInputFiles.cxx:109-134 | a line has no entry exactly when it is blank or its first non-space character is `#`; an entry is never empty, starts with a non-space and fits in the rest of the line |
| ExpandInputFiles.NameBounds | icarusalg/gallery/helpers/C++/expandInputFiles.cxx:114-133 | the name read is no longer than its text, and is not empty and starts with a non-space when the text does |
| ExpandInputFiles.CopyName | icarusalg/gallery/helpers/C++/expandInputFiles.cxx:114-133 | the character loop copies exactly the name starting at the first character |
| ExpandInputFiles.CopyStep | icarusalg/gallery/helpers/C++/expandInputFiles.cxx:116-132 | each pass of the character loop keeps the copied chunks plus the rest of the name equal to the whole name, and a stop leaves the whole name copied |
| ExpandInputFiles.Escape | icarusalg/gallery/helpers/C++/expandInputFiles.cxx:117-122 | escaping a name gives a line at least as long that does not start with `#` and starts with white space exactly when the name does |
| ExpandInputFiles.NameOfEscape | icarusalg/gallery/helpers/C++/expandInputFiles.cxx:116-133 | round trip: the escaped form of a name not ending in white space parses back to the name |
| ExpandInputFiles.EntryOfEscape | icarusalg/gallery/helpers/C++/expandInputFiles.cxx:105-134 | round trip: a line holding the escaped form of a name with no white space at either end is read as that name |
| ExpandInputFiles.SkippedLines | icarusalg/gallery/helpers/C++/expandInputFiles.cxx:110-112 | blank lines and comment lines give no entry |
| ExpandInputFiles.CommentAfterSpaces | icarusalg/gallery/helpers/C++/expandInputFiles.cxx:123-128 | a `#` after white space ends the name, dropping the white space before it and keeping the white space inside the name |
| ExpandInputFiles.HashInsideName | icarusalg/gallery/helpers/C++/expandInputFiles.cxx:116-132 | a `#` not after white space is part of the name |
| ExpandInputFiles.EscapedCharacters | icarusalg/gallery/helpers/C++/expandInputFiles.cxx:117-121 | `\#` and `\\` stand for `#` and `\` |
| ExpandInputFiles.ExpandFileList | icarusalg/gallery/helpers/C++/expandInputFiles.cxx:92-149 | `expandFileList` computes the expansion of the list: its ROOT files and, in place, the expansion of each nested list, with a missing list as `FileNotFoundError` and a nested error wrapped with the list and line; nesting past `depth` fails with `TooDeep` (see Left out) |
| ExpandInputFiles.PrefixFailure | icarusalg/gallery/helpers/C++/expandInputFiles.cxx:139-144 | once a line fails, the whole list fails with that error |
| ExpandInputFiles.ExpandedAreROOTFiles | icarusalg/gallery/helpers/C++/expandInputFiles.cxx:136-140 | every path an expansion yields passes the `isROOTfile` test the expansion uses |
| ExpandInputFiles.ListOfROOTFiles | icarusalg/gallery/helpers/C++/expandInputFiles.cxx:136-137 | a list naming only ROOT files expands to exactly those files, in order |
| ExpandInputFiles.ROOTFileLine | icarusalg/gallery/helpers/C++/expandInputFiles.cxx:136-137 | a line naming a ROOT file appends that file after those of the lines before it |
| ExpandInputFiles.NestedErrorWrapped | icarusalg/gallery/helpers/C++/expandInputFiles.cxx:139-144 | a nested list that cannot be opened fails the list with `FileNotFoundError` wrapped with the list's path and the line number |
| ExpandInputFiles.ExpandInputFilesOf | icarusalg/gallery/helpers/C++/expandInputFiles.cxx:156-167 | `expandInputFiles` keeps ROOT files and replaces any other path by its list's expansion, in order, within the same `depth` bound (see Left out) |
| ExpandInputFiles.AllPrefixFailure | icarusalg/gallery/helpers/C++/expandInputFiles.cxx:160-165 | once a path fails to expand, `expandInputFiles` fails with that error |
| FixedBins.FixedBins.constructor | icarusalg/Utilities/FixedBins.h:328-333 | a new object has a nonzero width (negative accepted), the given offset, bin index 0 first and no storage |
| FixedBins.FixedBins.NBins | icarusalg/Utilities/FixedBins.h:354-355 | `nBins()` is 0 exactly when empty, and otherwise the number of bins from `minBin()` to `maxBin()` |
| FixedBins.FixedBins.Empty | icarusalg/Utilities/FixedBins.h:359-361 | `empty()` holds exactly when no storage index is valid |
| FixedBins.FixedBins.RelativeBinIndex | icarusalg/Utilities/FixedBins.h:498-504 | `relativeBinIndex` is the whole number of widths from the reference, rounded down: the value lies in `[r, r + 1)` widths from it |
| FixedBins.FixedBins.StorageIndex | icarusalg/Utilities/FixedBins.h:481-484 | the storage index of a bin is where its counter is kept; a bin whose index has no storage counts 0 |
| FixedBins.FixedBins.HasStorageIndex | icarusalg/Utilities/FixedBins.h:488-494 | a valid storage index holds the counter of the bin that many bins past `minBin()` |
| FixedBins.FixedBins.CountFor | icarusalg/Utilities/FixedBins.h:437-440 | `countFor` is 0 without storage, and nonzero only when the value's bin lies between `minBin()` and `maxBin()` |
| FixedBins.FixedBins.MinBin | icarusalg/Utilities/FixedBins.h:405-406 | `minBin()` is the first bin with storage: it has storage and the bin before it does not |
| FixedBins.FixedBins.Min | icarusalg/Utilities/FixedBins.h:416-417 | `min()` is the lower edge of `minBin()` and lies a whole number of widths from the offset |
| FixedBins.FixedBins.LowerEdgeAsWritten | icarusalg/Utilities/FixedBins.h:378-380 | the written `lowerEdge` differs from the lower edge of the bin by `offset - min() + 2 * minBin() * width`, so it is right only while the first bin is bin 0 at the offset |
| FixedBins.FixedBins.BinWith | icarusalg/Utilities/FixedBins.h:392-394 | `binWith` is 0 without storage, else the bin of the value counted in widths from the first stored bin |
| FixedBins.FixedBins.Count | icarusalg/Utilities/FixedBins.h:428-433 | `count` is nonzero only for a bin with storage, between `minBin()` and `maxBin()` |
| FixedBins.FixedBins.Range | icarusalg/Utilities/FixedBins.h:399-400 | `range` is the span from `min()` to `max()` |
| FixedBins.FixedBins.MaxBin | icarusalg/Utilities/FixedBins.h:410-411 | `maxBin` is the last bin with storage: it has storage and the bin after it does not |
| FixedBins.FixedBins.Max | icarusalg/Utilities/FixedBins.h:422-423 | `max` is the upper edge of `maxBin()` |
| FixedBins.FixedBins.LowerEdge | icarusalg/Utilities/FixedBins.h:378-380 | the lower edge of `minBin()` is `min()`, the edges following in widths from it |
| FixedBins.FixedBins.UpperEdge | icarusalg/Utilities/FixedBins.h:385-387 | the upper edge of a bin is its lower edge plus the width |
| FixedBins.FixedBins.Add | icarusalg/Utilities/FixedBins.h:338-344 | `add` counts the value in its bin: that counter and no other goes up by one, storage reaches the bin, no bin index moves, and the bin index is returned as documented |
| FixedBins.FixedBins.AddAsWritten | icarusalg/Utilities/FixedBins.h:338-344 | `add` as written does the same counting but returns the storage index, which is the bin index minus `minBin()` |
| FixedBins.FixedBins.Increment | icarusalg/Utilities/FixedBins.h:342 | `++fCounters[stIndex]` adds one to that counter and changes no other bin or bin index |
| FixedBins.FixedBins.InitializeWith | icarusalg/Utilities/FixedBins.h:509-517 | `initializeWith` makes the value's bin, aligned to the offset, bin 0 with one zero counter, at storage index 0 |
| FixedBins.FixedBins.AllocateBin | icarusalg/Utilities/FixedBins.h:522-548 | `allocateBin` extends storage down or up to reach the bin, returns its storage index, moves `minBin()` down only when the bin lies below it, and keeps every count and every value's bin |
| FixedBins.FixedBins.ExtendDown | icarusalg/Utilities/FixedBins.h:526-540 | prepending `nExtend` zero counters moves `minBin()` down by as many and keeps every count and every value's bin |
| FixedBins.FixedBins.ExtendUp | icarusalg/Utilities/FixedBins.h:541-544 | appending zero counters keeps `minBin()`, `min()`, every count and every value's bin |
| FixedBins.FixedBins.Clear | icarusalg/Utilities/FixedBins.h:349 | `clear` drops the storage, so every count is 0, and keeps the bin placement |
| FixedBins.PrependKeepsCounts | icarusalg/Utilities/FixedBins.h:526-539 | prepending zero counters and moving the first bin index down as far leaves every bin's count |
| FixedBins.AppendKeepsCounts | icarusalg/Utilities/FixedBins.h:541-544 | appending zero counters leaves every bin's count |
| FixedBins.PrependKeepsAlignment | icarusalg/Utilities/FixedBins.h:538 | moving the first lower edge down by whole widths keeps it aligned to the offset |
| FixedBins.PrependedBinIndices | icarusalg/Utilities/FixedBins.h:537-538 | moving both the first bin index and the first lower edge down by `n` leaves every value in its bin |
| FixedBins.BinWithIffBetweenEdges | icarusalg/Utilities/FixedBins.h:155-172 | for a positive width, a value's bin is the one whose lower and upper edges enclose it, both directions |
| FixedBins.LowerEdgeAsWrittenMisplaced | icarusalg/Utilities/FixedBins.h:378-380 | with width 2 and offset -1, after `add(3.5)` bin 0 spans [3, 5), but the written `lowerEdge(0)` is -1, a bin that does not hold 3.5 |
| FixedBins.AddAsWrittenReturnsStorageIndex | icarusalg/Utilities/FixedBins.h:338-344 | with width 2 and offset -1, `add(3.5)` then `add(-4.0)` puts -4 in bin -4, while the written `add` returns 0 |
| GroupByIndex.GroupCount | icarusalg/Utilities/GroupByIndex.h:144-145 | the number of groups exceeds every index met, is reached by the largest one, and is 0 exactly with no object |
| GroupByIndex.PositionsWith | icarusalg/Utilities/GroupByIndex.h:38-40 | a group lists objects whose index is the group's, in collection order |
| GroupByIndex.NoneBeyond | icarusalg/Utilities/GroupByIndex.h:42-43 | no object has an index at or beyond the number of groups, so the empty group served there is right |
| GroupByIndex.InOwnGroup | icarusalg/Utilities/GroupByIndex.h:147 | every object is in the group of its own index |
| GroupByIndex.Push | icarusalg/Utilities/GroupByIndex.h:144-145 | `accessMap` grows the map to hold the index when it is past the end, and leaves its size otherwise |
| GroupByIndex.PushAllGroups | icarusalg/Utilities/GroupByIndex.h:147 | pushing every object in turn groups each object by its index, with as many entries as objects |
| GroupByIndex.BuildMap | icarusalg/Utilities/GroupByIndex.h:139-150 | `buildMap` returns exactly the groups of the extracted indices, holding every object once |
| GroupByIndex.Keys | icarusalg/Utilities/GroupByIndex.h:147 | the extracted index of each object, in collection order |
| GroupByIndex.GroupByIndex.constructor | icarusalg/Utilities/GroupByIndex.h:87-89 | the constructor keeps the map `buildMap` builds from the collection |
| GroupByIndex.GroupByIndex.Group | icarusalg/Utilities/GroupByIndex.h:91-93 | `operator[]` gives, for any index (at or past `size()` as well), exactly the objects with that index |
| GroupByIndex.GroupByIndex.Size | icarusalg/Utilities/GroupByIndex.h:98-99 | `size()` is one more than the largest index met, the empty groups included |
| GroupByIndex.GroupByIndex.Empty | icarusalg/Utilities/GroupByIndex.h:95-96 | `empty()` holds exactly when there was no object |
| NonRandomCounter.ToULong | icarusalg/Utilities/NonRandomCounter.h:39-49 | the `static_cast<unsigned long>` of a seed lies in 64 bits, keeps a non-negative seed and adds 2^64 to a negative one |
| NonRandomCounter.Advance | icarusalg/Utilities/NonRandomCounter.h:70-75 | the counter after `n` increments stays in 64 bits and is `c + n` while that does not wrap |
| NonRandomCounter.Value | icarusalg/Utilities/NonRandomCounter.h:70-75 | the returned value lies in [0, 1] and is 1 exactly for the largest counter |
| NonRandomCounter.ValueIncreasing | icarusalg/Utilities/NonRandomCounter.h:70-75 | larger counters give larger values |
| NonRandomCounter.NonRandomCounter.Flat | icarusalg/Utilities/NonRandomCounter.h:43-75 | `flat()` increments the counter, wrapping at 2^64, and returns the value of the new count |
| NonRandomCounter.NonRandomCounter.FlatArray | icarusalg/Utilities/NonRandomCounter.h:45-46 | `flatArray` fills the first `size` cells with consecutive `flat()` values, advances the counter by `size`, and leaves the rest of the array as it was |
| NonRandomCounter.NonRandomCounter.SetSeed | icarusalg/Utilities/NonRandomCounter.h:48-49 | `setSeed` restarts the counter from the converted seed |
| NonRandomCounter.NonRandomCounter.SetSeeds | icarusalg/Utilities/NonRandomCounter.h:51-52 | `setSeeds` uses only the first seed |
| NonRandomCounter.NonRandomCounter.Default | icarusalg/Utilities/NonRandomCounter.h:37 | the default engine starts with the counter at 0 |
| NonRandomCounter.NonRandomCounter.constructor | icarusalg/Utilities/NonRandomCounter.h:39 | the seeded engine starts from the seed converted to `unsigned long`, within 64 bits |
| NonRandomCounter.FlatValuesIncrease | icarusalg/Utilities/NonRandomCounter.h:45-75 | the values of a `flatArray` strictly increase as long as the counter does not wrap |
| NonRandomCounter.ReplayAfterSetSeed | icarusalg/Utilities/NonRandomCounter.h:39-49 | after `setSeed(s)` the engine produces again the values it produced the first time from `s` |
| PlaneGrouping.LowerBound | icarusalg/Geometry/details/ROPandTPCsetBuildingAlg.cxx:1042 | `lower_bound` finds the first group whose key is not below the coordinate: every key before it is below |
| PlaneGrouping.GroupPlanes | icarusalg/Geometry/details/ROPandTPCsetBuildingAlg.cxx:1070-1073 | the groups are moved out in key order, one list per group |
| PlaneGrouping.GroupPlanesByDriftCoord | icarusalg/Geometry/details/ROPandTPCsetBuildingAlg.cxx:1022-1075 | the loop over the planes computes the groups of `Grouped` in key order |
| PlaneGrouping.AddPlaneKeepsOrder | icarusalg/Geometry/details/ROPandTPCsetBuildingAlg.cxx:1042-1061 | adding a plane keeps the group keys strictly increasing |
| PlaneGrouping.GroupedKeysIncrease | icarusalg/Geometry/details/ROPandTPCsetBuildingAlg.cxx:1067-1073 | whatever the tolerance, the groups come out in order of increasing drift coordinate key |
| PlaneGrouping.NewKeyIsFree | icarusalg/Geometry/details/ROPandTPCsetBuildingAlg.cxx:1048-1061 | with a tolerance that is not negative, the key of a new group is never already taken, so `emplace_hint` always inserts |
| PlaneGrouping.AddPlaneKeepsPlanes | icarusalg/Geometry/details/ROPandTPCsetBuildingAlg.cxx:1042-1061 | with a tolerance that is not negative, adding a plane puts it in exactly one group and loses no other |
| PlaneGrouping.GroupedKeepsPlanes | icarusalg/Geometry/details/ROPandTPCsetBuildingAlg.cxx:1022-1075 | with a tolerance that is not negative, the groups hold each input plane exactly once: they partition the input |
| PlaneGrouping.GroupedWithinTolerance | icarusalg/Geometry/details/ROPandTPCsetBuildingAlg.cxx:1044-1061 | each plane of a group lies at most `tolerance` below the group's key and not above it, so a group's planes are within `tolerance` of each other |
| PlaneGrouping.GroupingIsStable | icarusalg/Geometry/details/ROPandTPCsetBuildingAlg.cxx:1029-1052 | each group lists its planes in input order |
| PlaneGrouping.SeparateStandalone | icarusalg/Geometry/details/ROPandTPCsetBuildingAlg.cxx:517-529 | the inner loop puts each standalone plane in a group of its own, in order, and keeps the other planes together |
| PlaneGrouping.SplitStandalone | icarusalg/Geometry/details/ROPandTPCsetBuildingAlg.cxx:516-530 | the separation loop skips empty proto-groups and splits every other one |
| PlaneGrouping.SplitGroupKeepsPlanes | icarusalg/Geometry/details/ROPandTPCsetBuildingAlg.cxx:517-529 | splitting a group keeps each of its planes exactly once |
| PlaneGrouping.SeparatedProperly | icarusalg/Geometry/details/ROPandTPCsetBuildingAlg.cxx:519-524 | every single is one standalone plane, and no standalone plane stays in the rest |
| PlaneGrouping.SplitGroupsAreProper | icarusalg/Geometry/details/ROPandTPCsetBuildingAlg.cxx:516-530 | after the split no group is empty, and a standalone plane is alone in its group |
| PlaneGrouping.SplitKeepsPlanes | icarusalg/Geometry/details/ROPandTPCsetBuildingAlg.cxx:516-530 | the split keeps every plane of the proto-groups exactly once |
| PlaneGrouping.ROPsPartitionPlanes | icarusalg/Geometry/details/ROPandTPCsetBuildingAlg.cxx:494-531 | the candidate readout planes of a cryostat partition its wire planes into non-empty groups |
| PlaneGrouping.GroupPlanesAndTPCs | icarusalg/Geometry/details/ROPandTPCsetBuildingAlg.cxx:456-541 | `groupPlanesAndTPCs` gives, cryostat by cryostat, the planes of all its TPCs grouped by drift coordinate and split |
| PlaneGrouping.ExtractTPCIDs | icarusalg/Geometry/details/ROPandTPCsetBuildingAlg.cxx:1079-1085 | `extractTPCIDs` gives the TPC of each plane, in order |
| PlaneGrouping.IsROPinTPCset | icarusalg/Geometry/details/ROPandTPCsetBuildingAlg.cxx:1111-1127 | `isROPinTPCset` is true exactly when every TPC of the readout plane is one of the TPC set's, and so for no TPC |
| PlaneGrouping.ROPnumberFromPlanes | icarusalg/Geometry/details/ROPandTPCsetBuildingAlg.cxx:1089-1107 | `ROPnumberFromPlanes` is the plane number shared by all the planes, and invalid for no planes or mixed numbers |
| PMTconfigToSettings.HasBoardMeans | icarusalg/gallery/examples/PMTwaveforms/C++/PMTconfigToSettings.py:30-53 | a current board is known exactly when some board line came before |
| PMTconfigToSettings.ChannelsSinceMeans | icarusalg/gallery/examples/PMTwaveforms/C++/PMTconfigToSettings.py:39-52 | the channel set holds exactly the board channels read since the last board line |
| PMTconfigToSettings.AcceptedStep | icarusalg/gallery/examples/PMTwaveforms/C++/PMTconfigToSettings.py:33-56 | the log is accepted line by line: every channel line after a board line, and no board channel repeated within a board |
| PMTconfigToSettings.RepeatsSince | icarusalg/gallery/examples/PMTwaveforms/C++/PMTconfigToSettings.py:39-52 | a channel line repeats a board channel exactly when the channel is in the set collected since the last board line |
| PMTconfigToSettings.ScanAccepts | icarusalg/gallery/examples/PMTwaveforms/C++/PMTconfigToSettings.py:33-58 | the scan ends without error exactly on an accepted log; the failed `assert` and the `RuntimeError` are the two ways it stops |
| PMTconfigToSettings.ScanCollects | icarusalg/gallery/examples/PMTwaveforms/C++/PMTconfigToSettings.py:41-47 | the scan collects one setting per channel line |
| PMTconfigToSettings.LastBoardNotChecked | icarusalg/gallery/examples/PMTwaveforms/C++/PMTconfigToSettings.py:49-51 | a board's channel count is checked only when the next board line comes, so the last board is never warned about |
| PMTconfigToSettings.RepeatedChannelMessageAsWritten | icarusalg/gallery/examples/PMTwaveforms/C++/PMTconfigToSettings.py:40 | the `RuntimeError` message as written keeps its placeholders literally: it starts `At line {` whatever the line |
| PMTconfigToSettings.RepeatedChannelMessage | icarusalg/gallery/examples/PMTwaveforms/C++/PMTconfigToSettings.py:40 | the intended message writes the line number out: it starts `At line ` and a digit |
| PMTconfigToSettings.RepeatedChannelMessages | icarusalg/gallery/examples/PMTwaveforms/C++/PMTconfigToSettings.py:40 | errors on different lines give the same message as written, and different intended messages |
| PMTconfigToSettings.InsertByChannel | icarusalg/gallery/examples/PMTwaveforms/C++/PMTconfigToSettings.py:60 | inserting a setting into channel-sorted settings keeps them sorted and adds exactly that setting |
| PMTconfigToSettings.InsertKeepsOrder | icarusalg/gallery/examples/PMTwaveforms/C++/PMTconfigToSettings.py:60 | inserting keeps the settings of each channel in order, the new one first among its channel's |
| PMTconfigToSettings.SortByChannel | icarusalg/gallery/examples/PMTwaveforms/C++/PMTconfigToSettings.py:60 | `Settings.sort(key=Channel)` gives the settings sorted by channel, a permutation of the input |
| PMTconfigToSettings.SortIsStable | icarusalg/gallery/examples/PMTwaveforms/C++/PMTconfigToSettings.py:60 | the sort is stable: the settings of each channel keep their order |
| PMTconfigToSettings.ExtractPMTReadoutSettings | icarusalg/gallery/examples/PMTwaveforms/C++/PMTconfigToSettings.py:10-61 | `extractPMTreadoutSettings` succeeds exactly on an accepted log, returning the collected settings sorted stably by channel with the warnings; otherwise it reports the scan's error |
| PMTconfigToSettings.ScanStops | icarusalg/gallery/examples/PMTwaveforms/C++/PMTconfigToSettings.py:37-40 | an error stops the scan: later lines do not change it |
| PMTconfigToSettings.PaddingIsLongest | icarusalg/gallery/examples/PMTwaveforms/C++/PMTconfigToSettings.py:87-92 | a key's padding is the length of the text of one of its values, and no value's text is longer |
| PMTconfigToSettings.PaddingKeys | icarusalg/gallery/examples/PMTwaveforms/C++/PMTconfigToSettings.py:87-92 | the paddings have exactly the output keys when there are entries, and no key without |
| PMTconfigToSettings.Padded | icarusalg/gallery/examples/PMTwaveforms/C++/PMTconfigToSettings.py:70-81 | `{value:{width}d}` is as wide as the width or the value's text, whichever is longer |
| PMTconfigToSettings.ColumnsAlign | icarusalg/gallery/examples/PMTwaveforms/C++/PMTconfigToSettings.py:87-99 | with the extracted paddings, every value of every entry is written exactly as wide as its key's padding |
| PMTconfigToSettings.FormatData | icarusalg/gallery/examples/PMTwaveforms/C++/PMTconfigToSettings.py:96-113 | `formatData` succeeds exactly for the FHiCL and Python formats, and raises `NotImplementedError` for others |
| PMTconfigToSettings.FHiCLSameWidth | icarusalg/gallery/examples/PMTwaveforms/C++/PMTconfigToSettings.py:65-72 | two entries whose values fit the paddings are written equally wide in FHiCL |
| PMTconfigToSettings.PythonSameWidth | icarusalg/gallery/examples/PMTwaveforms/C++/PMTconfigToSettings.py:76-83 | two entries whose values fit the paddings are written equally wide in Python |
| PMTconfigToSettings.EntriesAlign | icarusalg/gallery/examples/PMTwaveforms/C++/PMTconfigToSettings.py:96-111 | with the paddings `formatData` extracts, all entries are written equally wide in either format |
| PMTconfigToSettings.PaddedEndsWithDigits | icarusalg/gallery/examples/PMTwaveforms/C++/PMTconfigToSettings.py:70-81 | a padded value is right-aligned: spaces, then the decimal digits |
| ReadoutMaps.Put | icarusalg/Geometry/details/ROPandTPCsetBuildingAlg.cxx:876-881 | writing a list of keys maps each of them to the value and keeps every other entry |
| ReadoutMaps.InvertConcat | icarusalg/Geometry/details/ROPandTPCsetBuildingAlg.cxx:867-884 | inverting two lists of cells is inverting the first, then the second on top |
| ReadoutMaps.InvertMeans | icarusalg/Geometry/details/ROPandTPCsetBuildingAlg.cxx:867-884 | the inverted map holds exactly the keys of the cells, each mapped to the value of a cell holding it |
| ReadoutMaps.TPCtableCellsAre | icarusalg/Geometry/details/ROPandTPCsetBuildingAlg.cxx:867-878 | the cells walked are the TPC sets of the table, each with its ID |
| ReadoutMaps.TPCtoTPCsetMeans | icarusalg/Geometry/details/ROPandTPCsetBuildingAlg.cxx:840-886 | every TPC of the table, and only those, has a TPC set, and that TPC set holds it |
| ReadoutMaps.TPCtoTPCsetInverts | icarusalg/Geometry/details/ROPandTPCsetBuildingAlg.cxx:840-886 | with TPC sets sharing no TPC, each TPC maps back to the TPC set holding it |
| ReadoutMaps.FillTPCtoTPCsetMap | icarusalg/Geometry/details/ROPandTPCsetBuildingAlg.cxx:840-886 | `fillTPCtoTPCsetMap` builds the inverse of the TPC-set table |
| ReadoutMaps.ROPtableCellsAre | icarusalg/Geometry/details/ROPandTPCsetBuildingAlg.cxx:918-929 | the cells walked are the readout planes of the table, each with its ID |
| ReadoutMaps.PlaneToROPKeys | icarusalg/Geometry/details/ROPandTPCsetBuildingAlg.cxx:890-942 | every wire plane of the table, and only those, has a readout plane |
| ReadoutMaps.PlaneToROPSound | icarusalg/Geometry/details/ROPandTPCsetBuildingAlg.cxx:890-942 | a wire plane maps to a readout plane of the table that holds it |
| ReadoutMaps.PlaneToROPInverts | icarusalg/Geometry/details/ROPandTPCsetBuildingAlg.cxx:890-942 | with readout planes sharing no wire plane, each wire plane maps back to the readout plane holding it |
| ReadoutMaps.MapPlanes | icarusalg/Geometry/details/ROPandTPCsetBuildingAlg.cxx:930-936 | the innermost loop maps each wire plane of one readout plane to that readout plane |
| ReadoutMaps.MapCryostat | icarusalg/Geometry/details/ROPandTPCsetBuildingAlg.cxx:923-938 | the loops over the TPC sets and readout planes of a cryostat map their wire planes in order |
| ReadoutMaps.FillPlaneToROPmap | icarusalg/Geometry/details/ROPandTPCsetBuildingAlg.cxx:890-942 | `fillPlaneToROPmap` builds the inverse of the readout-plane table |
| ROPfilling.FillSetMeans | icarusalg/Geometry/details/ROPandTPCsetBuildingAlg.cxx:807-831 | filling a TPC set succeeds exactly when the dispatcher's numbers fit the table and do not repeat; each readout plane then sits in the cell of its number, the others stay empty, and the dispatcher ends in the state after handing the numbers out |
| ROPfilling.FillSetStaysFailed | icarusalg/Geometry/details/ROPandTPCsetBuildingAlg.cxx:819-829 | once a readout plane fails, the later ones change nothing: the exception ends the filling |
| ROPfilling.FillRowIsPerSet | icarusalg/Geometry/details/ROPandTPCsetBuildingAlg.cxx:799-833 | a cryostat fills exactly when each of its TPC sets does, and then each entry is that TPC set filled on its own, because `setTPCset` restarts the dispatcher |
| ROPfilling.FillTableIsPerSet | icarusalg/Geometry/details/ROPandTPCsetBuildingAlg.cxx:779-834 | a filled table has the container's dimensions, holds each counted TPC set filled on its own and leaves the rest empty |
| ROPfilling.NormalKey | icarusalg/Geometry/details/ROPandTPCsetBuildingAlg.cxx:964-971 | the sort key of a readout plane is minus the distance of its first wire plane from the reference plane |
| ROPfilling.NormalSortedOrder | icarusalg/Geometry/details/ROPandTPCsetBuildingAlg.cxx:946-974 | `sortByNormalCoordinate` gives a permutation of the readout planes, none empty, in order of decreasing distance from the reference plane |
| ROPfilling.NormalSortedIsStable | icarusalg/Geometry/details/ROPandTPCsetBuildingAlg.cxx:964 | the sort is stable: equally far readout planes keep their input order |
| ROPfilling.SortByNormalCoordinate | icarusalg/Geometry/details/ROPandTPCsetBuildingAlg.cxx:946-1001 | the method, with `checkNormalDirection`'s scan for empty readout planes, computes `NormalSorted` |
| ROPfilling.CathodeViewFirst | icarusalg/Geometry/details/ROPandTPCsetBuildingAlg.cxx:265-303 | the view of the readout plane nearest the cathode in the first TPC set books the numbers from 0 |
| ROPfilling.ConsistentSetFills | icarusalg/Geometry/details/ROPandTPCsetBuildingAlg.cxx:807-831 | a TPC set with, view by view, no more readout planes than the reference is numbered without a clash |
| ROPfilling.FilledROPsSucceed | icarusalg/Geometry/details/ROPandTPCsetBuildingAlg.cxx:757-836 | when every TPC set has, view by view, no more readout planes than the first (the dispatcher's documented assumption), `fillPlanesInROP` never meets the "already assigned" error |
| ROPfilling.FillTPCset | icarusalg/Geometry/details/ROPandTPCsetBuildingAlg.cxx:807-831 | the inner loop, with the dispatcher reset for the TPC set, computes `FillSet` |
| ROPfilling.FillCryostat | icarusalg/Geometry/details/ROPandTPCsetBuildingAlg.cxx:799-833 | the loop over a cryostat's TPC sets records each TPC set's readout-plane count and computes `FillRow` |
| ROPfilling.FillCryostats | icarusalg/Geometry/details/ROPandTPCsetBuildingAlg.cxx:796-834 | the loops over the cryostats compute the count table and `FillTable`, or the first error |
| ROPfilling.FillPlanesInROP | icarusalg/Geometry/details/ROPandTPCsetBuildingAlg.cxx:757-836 | `fillPlanesInROP` sorts the first TPC set, books the view blocks from it, and computes `FilledROPs` |
| ROPnumberDispatching.CommonViewMeans | icarusalg/Geometry/details/ROPandTPCsetBuildingAlg.cxx:258-346 | a known view is the view of a readout plane exactly when it has wire planes and all of them are on that view; otherwise the view is unknown |
| ROPnumberDispatching.ROPview | icarusalg/Geometry/details/ROPandTPCsetBuildingAlg.cxx:335-346 | the early-exit scan returns the common view of the wire planes |
| ROPnumberDispatching.ViewCountsAreCounts | icarusalg/Geometry/details/ROPandTPCsetBuildingAlg.cxx:307-331 | a view has a count exactly when some non-empty readout plane is on it, and the count is the number of such readout planes; empty readout planes are not counted |
| ROPnumberDispatching.ViewROPcounts | icarusalg/Geometry/details/ROPandTPCsetBuildingAlg.cxx:307-331 | the loop computes the per-view counts |
| ROPnumberDispatching.PreferredROPrangesByView | icarusalg/Geometry/details/ROPandTPCsetBuildingAlg.cxx:265-303 | the loop computes the booked first numbers, or the `map::at` failure |
| ROPnumberDispatching.BookStaysFailed | icarusalg/Geometry/details/ROPandTPCsetBuildingAlg.cxx:289-297 | once a lookup of a view's count fails, the booking fails whatever follows |
| ROPnumberDispatching.BookErrIsAt | icarusalg/Geometry/details/ROPandTPCsetBuildingAlg.cxx:294-297 | the only way booking fails is the `std::map::at` lookup of a view without a count |
| ROPnumberDispatching.BookingBlocks | icarusalg/Geometry/details/ROPandTPCsetBuildingAlg.cxx:269-297 | each view gets a block as long as its count, below the next free number, and the blocks of two views never overlap |
| ROPnumberDispatching.BookingViews | icarusalg/Geometry/details/ROPandTPCsetBuildingAlg.cxx:280-289 | the views with a block are exactly the views of the readout planes |
| ROPnumberDispatching.BookingFirstAtZero | icarusalg/Geometry/details/ROPandTPCsetBuildingAlg.cxx:278-289 | the view of the first readout plane books the block from 0, and a later readout plane of a view already seen does not move its block |
| ROPnumberDispatching.BookingSucceeds | icarusalg/Geometry/details/ROPandTPCsetBuildingAlg.cxx:275-326 | when no readout plane is empty, every view seen has a count, so booking cannot fail |
| ROPnumberDispatching.BookedWithin | icarusalg/Geometry/details/ROPandTPCsetBuildingAlg.cxx:272-297 | all the blocks together take no more numbers than there are readout planes |
| ROPnumberDispatching.CountOfViewPermutation | icarusalg/Geometry/details/ROPandTPCsetBuildingAlg.cxx:307-331 | the per-view counts do not depend on the order of the readout planes |
| ROPnumberDispatching.AssignedOk | icarusalg/Geometry/details/ROPandTPCsetBuildingAlg.cxx:251-256 | handing out numbers to readout planes succeeds when each one's view has a block, and keeps the set of views |
| ROPnumberDispatching.AssignedHandsOut | icarusalg/Geometry/details/ROPandTPCsetBuildingAlg.cxx:251-256 | each view hands out consecutive numbers from the start of its block, in the order of its readout planes |
| ROPnumberDispatching.AssignedLast | icarusalg/Geometry/details/ROPandTPCsetBuildingAlg.cxx:255-256 | the last readout plane takes the next free number of its view, which then moves up by one |
| ROPnumberDispatching.DistinctNumbersInTPCset | icarusalg/Geometry/details/ROPandTPCsetBuildingAlg.cxx:210-303 | in a TPC set with, view by view, no more readout planes than the reference, no two readout planes get the same number |
| ROPnumberDispatching.ROPnumberDispatcher.constructor | icarusalg/Geometry/details/ROPandTPCsetBuildingAlg.cxx:243-248 | the blocks are those given, and every view starts at its block's first number |
| ROPnumberDispatching.ROPnumberDispatcher.SetTPCset | icarusalg/Geometry/details/ROPandTPCsetBuildingAlg.cxx:250-252 | the TPC set is replaced and every view starts again at its block's first number |
| ROPnumberDispatching.ROPnumberDispatcher.AssignID | icarusalg/Geometry/details/ROPandTPCsetBuildingAlg.cxx:254-256 | a view with a block gets its next number, which is used up; a view without one fails with `std::out_of_range` and changes nothing |
| SortLike.Swap | icarusalg/Utilities/sortLike.h:122-127 | swapping two references exchanges the key positions and the data beside them, so every datum stays beside the key it started with; nothing else moves |
| SortLike.Partition | icarusalg/Utilities/sortLike.h:148-154 | `std::partition` by swaps: the range is split at `middle`, references whose key goes before the pivot in front, the others behind, the rest of the array untouched and the data still in step |
| SortLike.QuickSort | icarusalg/Utilities/sortLike.h:135-158 | `unoptimisedQuickSort` leaves the range a permutation of itself in non-decreasing key order, the rest of the array untouched and the data still in step |
| SortLike.PartitionsSplit | icarusalg/Utilities/sortLike.h:147-154 | after the two partitions the range reads keys below the pivot, keys equal to it, keys above it |
| SortLike.PivotInMiddle | icarusalg/Utilities/sortLike.h:145-154 | the equal part holds at least the pivot's own reference, so both recursive calls are on shorter ranges |
| SortLike.Combine | icarusalg/Utilities/sortLike.h:156-157 | the two sorted outer parts around the equal part make the whole range sorted, a permutation of what it held |
| SortLike.SortLike | icarusalg/Utilities/sortLike.h:168-241 | with a key range as long as the data, the data end up a permutation of themselves, in the order of their keys, the keys untouched |
| SortLike.SortedReferencesWitness | icarusalg/Utilities/sortLike.h:189-201 | key positions sorted by key, each once, with each datum taken from its key's position, are a sorting of the data like the keys |
| SortLike.IcarusExample | icarusalg/Utilities/sortLike.h:48-57 | the documented example: "ACIRSU" sorted like 3, 2, 1, 4, 6, 5 can only read "ICARUS" |
| SortLike.IcarusOrder | icarusalg/Utilities/sortLike.h:48-57 | the keys 3, 2, 1, 4, 6, 5 have only one sorted order of positions |
| SortLike.KeyOrderIsPositionOrder | icarusalg/Utilities/sortLike.h:120-121 | in a sorted order a smaller key comes at an earlier position |
| SortBy.SortBy | icarusalg/Utilities/sortBy.h:100-179 | one pointer per element, each element once, in non-decreasing key order |
| StableMerger.AddNewValue | icarusalg/Geometry/details/ROPandTPCsetBuildingAlg.cxx:97-104 | the value is appended exactly when the collection lacks it, and the answer says whether it was |
| StableMerger.DedupFacts | icarusalg/Geometry/details/ROPandTPCsetBuildingAlg.cxx:97-116 | the values in order of first occurrence hold each value of the input exactly once, and a collection without duplicates is kept as it is |
| StableMerger.MergeColls | icarusalg/Geometry/details/ROPandTPCsetBuildingAlg.cxx:108-116 | the merge is the values of the first collection, then the new values of the second, each once |
| StableMerger.MergedCollsAreUnion | icarusalg/Geometry/details/ROPandTPCsetBuildingAlg.cxx:108-116 | the merge holds exactly what either collection holds, without duplicates, and starts with the first collection when that has none |
| StableMerger.Overlap | icarusalg/Geometry/details/ROPandTPCsetBuildingAlg.cxx:120-129 | true exactly when the collections share a value |
| StableMerger.FirstOverlap | icarusalg/Geometry/details/ROPandTPCsetBuildingAlg.cxx:144-149 | the first merged collection sharing a value with the new one, none before it sharing any |
| StableMerger.MergePass | icarusalg/Geometry/details/ROPandTPCsetBuildingAlg.cxx:133-163 | the loop computes one merging pass |
| StableMerger.MergeStepHolds | icarusalg/Geometry/details/ROPandTPCsetBuildingAlg.cxx:144-159 | a merging step keeps every value and adds none |
| StableMerger.PassHolds | icarusalg/Geometry/details/ROPandTPCsetBuildingAlg.cxx:133-163 | a pass keeps every value and adds none |
| StableMerger.PassLength | icarusalg/Geometry/details/ROPandTPCsetBuildingAlg.cxx:133-182 | a pass never adds a collection, and keeps the count only when the collections were already pairwise disjoint and it changed nothing |
| StableMerger.MergeStepCovers | icarusalg/Geometry/details/ROPandTPCsetBuildingAlg.cxx:144-159 | a step only grows the collections, and the new collection ends up inside one of them |
| StableMerger.PassCovers | icarusalg/Geometry/details/ROPandTPCsetBuildingAlg.cxx:133-163 | after a pass every input collection lies inside one collection |
| StableMerger.Merge | icarusalg/Geometry/details/ROPandTPCsetBuildingAlg.cxx:167-187 | the loop of passes until the count stops changing computes the merge |
| StableMerger.MergedIsPartition | icarusalg/Geometry/details/ROPandTPCsetBuildingAlg.cxx:167-187 | the merged collections hold exactly the input's values and no two share a value; there are no more of them than inputs |
| StableMerger.MergedCoversInputs | icarusalg/Geometry/details/ROPandTPCsetBuildingAlg.cxx:167-187 | each input collection ends up entirely inside one merged collection |
| StableMerger.SecondPassNeeded | icarusalg/Geometry/details/ROPandTPCsetBuildingAlg.cxx:172-175 | the documented example: `{0} {1} {0, 1}` still overlaps after one pass and becomes `{0, 1}` after the second |
| Sorting.MedianAt | icarusalg/PMT/Algorithms/SharedWaveformBaseline.cxx:44-57 | the element `std::nth_element` leaves at position `size/2`: an element of the sample with at most `size/2` elements below it and more than `size/2` not above it |
| Sorting.MedianAveraged | icarusalg/gallery/examples/PMTwaveforms/python/WaveformBaselines.py:24 | the averaging median of `numpy.median`: the middle element for odd sizes, between the two middle elements for even sizes |
| Sorting.OrderByIsStable | icarusalg/Geometry/details/ROPandTPCsetBuildingAlg.cxx:964-971 | the stable sort keeps values with equal keys in their input order |
| ROPandTPCsetBuilding.MaxSize | icarusalg/Geometry/details/ROPandTPCsetBuildingAlg.cxx:590-591 | the running maximum: no collection is larger, and one collection has that size unless it is 0 |
| ROPandTPCsetBuilding.MaxCell | icarusalg/Geometry/details/ROPandTPCsetBuildingAlg.cxx:734 | the largest cell of the table: no cell is larger, and one has that size unless it is 0 |
| ROPandTPCsetBuilding.TPCsetsPartitionTPCs | icarusalg/Geometry/details/ROPandTPCsetBuildingAlg.cxx:569-592 | the TPC sets of a cryostat share no TPC, are no more than its readout planes, and hold exactly the TPCs of its readout planes |
| ROPandTPCsetBuilding.ExtractTPCsetsFromROPs | icarusalg/Geometry/details/ROPandTPCsetBuildingAlg.cxx:551-600 | the loop computes, per cryostat, the merged TPC lists of the readout planes, and the largest number of TPC sets |
| ROPandTPCsetBuilding.FillTPCsInSet | icarusalg/Geometry/details/ROPandTPCsetBuildingAlg.cxx:604-659 | the TPC-set count of each cryostat is the number of its TPC sets, and the TPC-set table holds them, every cryostat `MaxTPCsets` wide, the spare cells empty |
| ROPandTPCsetBuilding.FirstMatch | icarusalg/Geometry/details/ROPandTPCsetBuildingAlg.cxx:704-711 | the first TPC set holding all the TPCs of the readout plane, no earlier one holding them |
| ROPandTPCsetBuilding.FindTPCset | icarusalg/Geometry/details/ROPandTPCsetBuildingAlg.cxx:704-711 | the search loop finds that first TPC set, or none |
| ROPandTPCsetBuilding.ROPsOfSetMeans | icarusalg/Geometry/details/ROPandTPCsetBuildingAlg.cxx:700-735 | a TPC set receives exactly the readout planes whose first matching TPC set it is, and each of them has only TPCs of the set |
| ROPandTPCsetBuilding.ROPsOfSetInOrder | icarusalg/Geometry/details/ROPandTPCsetBuildingAlg.cxx:733 | a TPC set lists its readout planes in their input order |
| ROPandTPCsetBuilding.UnmatchedMeans | icarusalg/Geometry/details/ROPandTPCsetBuildingAlg.cxx:713-727 | the error count is zero exactly when every readout plane matches some TPC set |
| ROPandTPCsetBuilding.EveryROPMatches | icarusalg/Geometry/details/ROPandTPCsetBuildingAlg.cxx:700-711 | the TPC sets merged from a cryostat's readout planes leave none of them unmatched |
| ROPandTPCsetBuilding.AssignToTPCsets | icarusalg/Geometry/details/ROPandTPCsetBuildingAlg.cxx:693-737 | the loops over a cryostat's readout planes compute the per-set cells, count the unmatched readout planes, and keep the running maximum of the cell sizes |
| ROPandTPCsetBuilding.GroupPlanesIntoROPs | icarusalg/Geometry/details/ROPandTPCsetBuildingAlg.cxx:663-753 | the grouping succeeds exactly when every readout plane matches a TPC set; it then gives the per-set readout planes and the largest cell size, and otherwise the exception, after looking at all readout planes |
| ROPandTPCsetBuildingAlgorithm.TPCsetSteps | icarusalg/Geometry/details/ROPandTPCsetBuildingAlg.cxx:384-403 | steps 1 and 2 of `run`: the candidate readout planes, the TPC sets merged from them, their largest number, the counts and the TPC-set table |
| ROPandTPCsetBuildingAlgorithm.ROPsteps | icarusalg/Geometry/details/ROPandTPCsetBuildingAlg.cxx:405-420 | steps 3 to 5 of `run` compute the rest of the results, and the largest readout-plane count when every readout plane matches a TPC set |
| ROPandTPCsetBuildingAlgorithm.EveryCandidateMatches | icarusalg/Geometry/details/ROPandTPCsetBuildingAlg.cxx:741-746 | inside `run`, the "errors while assigning TPC sets to ROPs" exception cannot be thrown: every candidate readout plane matches a TPC set |
| ROPandTPCsetBuildingAlgorithm.CandidatesHoldPlanes | icarusalg/Geometry/details/ROPandTPCsetBuildingAlg.cxx:390-394 | the candidate readout planes of a cryostat hold exactly its wire planes |
| ROPandTPCsetBuildingAlgorithm.CandidatesAreNonEmpty | icarusalg/Geometry/details/ROPandTPCsetBuildingAlg.cxx:390-394 | no candidate readout plane is empty |
| ROPandTPCsetBuildingAlgorithm.TableTPCisInput | icarusalg/Geometry/details/ROPandTPCsetBuildingAlg.cxx:396-403 | a TPC in the TPC-set table holds a wire plane of the input |
| ROPandTPCsetBuildingAlgorithm.InputTPCisInTable | icarusalg/Geometry/details/ROPandTPCsetBuildingAlg.cxx:396-403 | a TPC holding a wire plane of the input is in a TPC set of its cryostat |
| ROPandTPCsetBuildingAlgorithm.TableHoldsTPC | icarusalg/Geometry/details/ROPandTPCsetBuildingAlg.cxx:636-648 | a TPC is in the TPC-set table exactly when a wire plane of the input is on it |
| ROPandTPCsetBuildingAlgorithm.TPCsetInCryostat | icarusalg/Geometry/details/ROPandTPCsetBuildingAlg.cxx:636-648 | with every wire plane in its own cryostat, the TPCs of a cryostat's TPC sets belong to that cryostat |
| ROPandTPCsetBuildingAlgorithm.TableIsDisjoint | icarusalg/Geometry/details/ROPandTPCsetBuildingAlg.cxx:636-648 | with every wire plane in its own cryostat, no two TPC sets of the table share a TPC |
| ROPandTPCsetBuildingAlgorithm.OneTPCsetPerTPC | icarusalg/Geometry/details/ROPandTPCsetBuildingAlg.cxx:636-648 | likewise, a TPC lies in exactly one TPC set of one cryostat |
| ROPandTPCsetBuildingAlgorithm.BuildParts | icarusalg/Geometry/details/ROPandTPCsetBuildingAlg.cxx:352-438 | a successful run is the steps one after the other: the readout-plane table is the fill of the per-set readout planes with blocks booked from the sorted first TPC set, and both maps invert the tables |
| ROPandTPCsetBuildingAlgorithm.BuildMapsTPCs | icarusalg/Geometry/details/ROPandTPCsetBuildingAlg.cxx:840-886 | the TPCs with a TPC set are exactly those holding a wire plane of the input |
| ROPandTPCsetBuildingAlgorithm.BuildTPCmapInverts | icarusalg/Geometry/details/ROPandTPCsetBuildingAlg.cxx:840-886 | with every wire plane in its own cryostat, each TPC of a TPC set maps back to that TPC set |
| ROPandTPCsetBuildingAlgorithm.TablePlaneIsInput | icarusalg/Geometry/details/ROPandTPCsetBuildingAlg.cxx:408-414 | a wire plane in the readout-plane table is a wire plane of the input |
| ROPandTPCsetBuildingAlgorithm.InputPlaneIsInTable | icarusalg/Geometry/details/ROPandTPCsetBuildingAlg.cxx:408-414 | every wire plane of the input is in the readout-plane table |
| ROPandTPCsetBuildingAlgorithm.BuildMapsPlanes | icarusalg/Geometry/details/ROPandTPCsetBuildingAlg.cxx:890-942 | the wire planes with a readout plane are exactly those of the input |
| ROPandTPCsetBuildingAlgorithm.BuildPlaneMapIsSound | icarusalg/Geometry/details/ROPandTPCsetBuildingAlg.cxx:890-942 | a wire plane maps to a readout plane of the table that holds it |
| ROPandTPCsetBuildingAlgorithm.BuildResultsAreNotEmpty | icarusalg/Geometry/details/ROPandTPCsetBuildingAlg.cxx:425-429 | the results `run` asserts to be non-empty are non-empty after a successful run |
| ROPandTPCsetBuildingAlgorithm.ROPandTPCsetBuildingAlg.constructor | icarusalg/Geometry/details/ROPandTPCsetBuildingAlg.h:147-223 | a new algorithm object starts cleared |
| ROPandTPCsetBuildingAlgorithm.ROPandTPCsetBuildingAlg.Clear | icarusalg/Geometry/details/ROPandTPCsetBuildingAlg.cxx:442-451 | `clear` empties every container and zeroes both maxima |
| ROPandTPCsetBuildingAlgorithm.ROPandTPCsetBuildingAlg.Run | icarusalg/Geometry/details/ROPandTPCsetBuildingAlg.cxx:352-438 | `run` returns the results of the steps and keeps the largest numbers of TPC sets and of readout planes; after a failure the TPC-set count and table of steps 1 and 2 are filled and the inverse maps of step 5 are still empty |
| SampledFunction.LayoutSlice | icarusalg/Utilities/SampledFunction.h:507-545 | in the storage, subsample `n` occupies the `size` places from `n * size` on, and holds the function at its own steps |
| SampledFunction.Resize | icarusalg/Utilities/SampledFunction.h:530 | `std::vector::resize` keeps the first elements and pads with zeros |
| SampledFunction.Sample | icarusalg/Utilities/SampledFunction.h:507-545 | the two loops of `fillSamples` write every subsample in turn, each step in turn, through one cursor: the storage ends as the layout of all subsamples |
| SampledFunction.SampledFunction.constructor | icarusalg/Utilities/SampledFunction.h:460-475 | the range constructor stores the range and subsample count, and every stored sample is the function at its place |
| SampledFunction.SampledFunction.FromBounds | icarusalg/Utilities/SampledFunction.h:376-391 | the step of the bounds constructor divides the range evenly into the sample count |
| SampledFunction.SampledFunction.FillSamples | icarusalg/Utilities/SampledFunction.h:507-545 | after `fillSamples` every sample is in its place and the range is unchanged |
| SampledFunction.SampledFunction.Value | icarusalg/Utilities/SampledFunction.h:225-227 | `value(iSample, n)` is the function at `iSample` steps from the offset of subsample `n` |
| SampledFunction.SampledFunction.Subsample | icarusalg/Utilities/SampledFunction.h:231-322 | `subsample(n)` is the `size` samples of subsample `n`, from its offset `lower + n * substep` |
| SampledFunction.SampledFunction.StepIndex | icarusalg/Utilities/SampledFunction.h:238-250 | the step index of `x` is the one whose step, from the subsample offset, holds `x`, lower end included, upper end excluded |
| SampledFunction.SampledFunction.SubstepSize | icarusalg/Utilities/SampledFunction.h:213 | `substepSize()` times the subsample count is the step, and subsample `n` starts `n` substeps above `lower` |
| SampledFunction.SampledFunction.RangeSize | icarusalg/Utilities/SampledFunction.h:203 | `rangeSize()` is never negative for a sampled range, and 0 exactly when `lower == upper` |
| SampledFunction.SampledFunction.IsValidStepIndex | icarusalg/Utilities/SampledFunction.h:255-256 | a step index is valid exactly when it indexes the samples of a subsample |
| SampledFunction.StepIndexUnique | icarusalg/Utilities/SampledFunction.h:238-250 | a step holding `x` is the one `stepIndex` names |
| SampledFunction.StepIndexValid | icarusalg/Utilities/SampledFunction.h:244-256 | the step index is valid exactly when `x` lies in the sampled steps of the subsample |
| SampledFunction.BoundsCovered | icarusalg/Utilities/SampledFunction.h:386-390 | with the bounds constructor's step, the sample count of steps ends exactly at `upper` |
| SampledFunction.ExtendRange | icarusalg/Utilities/SampledFunction.h:480-502 | `extendRange` gives the range from `lower` to the end of its last step, settled on the fewest steps reaching `min_upper` plus every further step `until` accepts; when the step bound runs out, none of those steps stopped |
| SampledFunction.ExtensionCovers | icarusalg/Utilities/SampledFunction.h:488-493 | the extended range reaches `min_upper` |
| SampledFunction.ExtensionUnique | icarusalg/Utilities/SampledFunction.h:494-498 | the extension is unique |
| SampledFunction.ExtendedRangeExample | icarusalg/Utilities/SampledFunction.h:480-502 | the identity from -2 in steps of 0.5, covering up to 1 and stopping before it reaches 8.2, is sampled in 20 steps |
| SampledFunction.WrapUp | icarusalg/Utilities/SampledFunction.h:550-554 | `wrapUp` adds the range some number of times until the value is not negative; a negative value ends below the range |
| SharedWaveformBaseline.Median | icarusalg/PMT/Algorithms/SharedWaveformBaseline.cxx:44-57 | the median of ADC counts is one of the samples, the one `std::nth_element` leaves at position `size/2` |
| SharedWaveformBaseline.Maximum | icarusalg/PMT/Algorithms/SharedWaveformBaseline.cxx:36-41 | `collectionMaximum` is a sample no sample exceeds |
| SharedWaveformBaseline.AverageBounds | icarusalg/PMT/Algorithms/SharedWaveformBaseline.cxx:205-212 | an average lies between the smallest and the largest sample |
| SharedWaveformBaseline.Round | icarusalg/PMT/Algorithms/SharedWaveformBaseline.cxx:155-157 | `std::round`: the nearest integer, halfway cases away from zero |
| SharedWaveformBaseline.RoundMonotonic | icarusalg/PMT/Algorithms/SharedWaveformBaseline.cxx:155-157 | rounding keeps the order |
| SharedWaveformBaseline.AboveRunMeans | icarusalg/PMT/Algorithms/SharedWaveformBaseline.cxx:78-108 | the run count above the range reaches `m` exactly when the last `m` samples are all above |
| SharedWaveformBaseline.BelowRunMeans | icarusalg/PMT/Algorithms/SharedWaveformBaseline.cxx:78-108 | likewise below the range |
| SharedWaveformBaseline.FindOutOfBoundary | icarusalg/PMT/Algorithms/SharedWaveformBaseline.cxx:78-108 | the scan returns the end exactly when there is no excess run; otherwise it returns the start of the run that ends first, `maxUpper` samples above or `maxLower` samples below in a row |
| SharedWaveformBaseline.AlternatingIsInBoundary | icarusalg/PMT/Algorithms/SharedWaveformBaseline.cxx:78-108 | runs are counted on one side at a time: samples alternating above and below the range never make an excess run |
| SharedWaveformBaseline.AcceptanceRange | icarusalg/PMT/Algorithms/SharedWaveformBaseline.cxx:236-277 | the median of the first `nSample` samples of the waveforms long enough, and the median of their RMS values |
| SharedWaveformBaseline.AcceptanceRMS | icarusalg/PMT/Algorithms/SharedWaveformBaseline.cxx:236-277 | the median RMS is not negative |
| SharedWaveformBaseline.RangeNotInverted | icarusalg/PMT/Algorithms/SharedWaveformBaseline.cxx:154-157 | the acceptance range around the median is never inverted |
| SharedWaveformBaseline.ThresholdsOrdered | icarusalg/PMT/Algorithms/SharedWaveformBaseline.cxx:154-157 | the rounded thresholds are never inverted |
| SharedWaveformBaseline.Thresholds | icarusalg/PMT/Algorithms/SharedWaveformBaseline.cxx:149-157 | the first pass gives the rounded thresholds of the acceptance range and the median RMS |
| SharedWaveformBaseline.Used | icarusalg/PMT/Algorithms/SharedWaveformBaseline.cxx:169-207 | the waveforms kept for the average: `nSample` samples each, none with an excess run |
| SharedWaveformBaseline.CollectSamples | icarusalg/PMT/Algorithms/SharedWaveformBaseline.cxx:167-207 | the second pass sums and counts the first `nSample` samples of every waveform with no excess run, and counts those waveforms |
| SharedWaveformBaseline.Baseline | icarusalg/PMT/Algorithms/SharedWaveformBaseline.cxx:140-232 | an empty list gives the default `BaselineInfo_t`; otherwise the RMS is the median RMS, and the baseline is the average of the kept samples, or, with none kept, the median of the waveform medians with no samples reported |
| SharedWaveformBaseline.SingleExcessKeepsBaselineInRange | icarusalg/PMT/Algorithms/SharedWaveformBaseline.cxx:154-207 | with runs of one sample excluded, every averaged sample and so the baseline lie in the acceptance range |
| SharedWaveformBaseline.WaveformMedians | icarusalg/PMT/Algorithms/SharedWaveformBaseline.cxx:281-300 | the median of each waveform, in order, empty ones skipped |
| SharedWaveformBaseline.MedianOfMedians | icarusalg/PMT/Algorithms/SharedWaveformBaseline.cxx:304-310 | the median of the waveform medians, which is one of them |
| SharedWaveformBaseline.MaximumOfMedians | icarusalg/PMT/Algorithms/SharedWaveformBaseline.cxx:314-320 | the largest waveform median |
| SharedWaveformBaseline.MaximaMedian | icarusalg/PMT/Algorithms/SharedWaveformBaseline.cxx:324-343 | the median of the largest sample of each non-empty waveform |
| SharedWaveformBaseline.WholeWaveformShiftsMedian | icarusalg/PMT/Algorithms/SharedWaveformBaseline.cxx:262 | a waveform 0, 10, 10 learnt from its first sample: the median as written is 10, the intended one 0 |
| WaveformBaselines.OnChannelIsFilter | icarusalg/gallery/examples/PMTwaveforms/python/WaveformBaselines.py:14-15 | the waveforms of a channel are exactly those on it, each as many times as it appears |
| WaveformBaselines.OnChannelHasChannel | icarusalg/gallery/examples/PMTwaveforms/python/WaveformBaselines.py:14-15 | the waveforms listed for a channel are input waveforms on that channel |
| WaveformBaselines.MaxKey | icarusalg/gallery/examples/PMTwaveforms/python/WaveformBaselines.py:16 | `max` of the dictionary is its largest channel |
| WaveformBaselines.FillByChannel | icarusalg/gallery/examples/PMTwaveforms/python/WaveformBaselines.py:13-15 | `setdefault(...).append(...)` builds the dictionary of the channels present, each with its waveforms in order |
| WaveformBaselines.ByChannelKeys | icarusalg/gallery/examples/PMTwaveforms/python/WaveformBaselines.py:13-15 | the channels in the dictionary are exactly those of the waveforms |
| WaveformBaselines.ListByChannel | icarusalg/gallery/examples/PMTwaveforms/python/WaveformBaselines.py:17 | one list per channel from 0, empty for the channels absent |
| WaveformBaselines.GroupPMTsByChannel | icarusalg/gallery/examples/PMTwaveforms/python/WaveformBaselines.py:12-17 | fails (`max` of an empty dictionary) exactly when no channel count is requested and there is no waveform; otherwise one list per channel, as many as requested or one past the largest channel |
| WaveformBaselines.ComputeBaseline | icarusalg/gallery/examples/PMTwaveforms/python/WaveformBaselines.py:21-24 | fails exactly on no waveform (`numpy.concatenate`), is NaN exactly when there is no sample |
| WaveformBaselines.BaselineIsMedian | icarusalg/gallery/examples/PMTwaveforms/python/WaveformBaselines.py:22-24 | the baseline is a median of all the samples: the middle one, or between the two middle ones |
| WaveformBaselines.NaNWithoutSamples | icarusalg/gallery/examples/PMTwaveforms/python/WaveformBaselines.py:23-24 | the estimate is NaN exactly when there are waveforms but none has a sample |
| WaveformBaselines.ComputeBaselineAsWritten | icarusalg/gallery/examples/PMTwaveforms/python/WaveformBaselines.py:21-24 | as written, the function reads the script's `channelWaveforms` and ignores its argument; it fails when that name does not exist |
| WaveformBaselines.AsWrittenAgreesOnlyInScript | icarusalg/gallery/examples/PMTwaveforms/python/WaveformBaselines.py:21-62 | the script's own call agrees with the intended function; another list gets another list's estimate |
| WaveformBaselines.BaselinesOfChannels | icarusalg/gallery/examples/PMTwaveforms/python/WaveformBaselines.py:61-63 | the per-channel loop succeeds exactly when no channel lacks waveforms, and then each baseline is its channel's |
| WaveformBaselines.ChannelBaselines | icarusalg/gallery/examples/PMTwaveforms/python/WaveformBaselines.py:61-64 | the loop computes the channel baselines or stops at the first error |
| WaveformBaselines.EventNeedsEveryChannel | icarusalg/gallery/examples/PMTwaveforms/python/WaveformBaselines.py:58-62 | an event is processed only when every channel up to the largest has a waveform |

## Left out

- Geometry computations are left out because they are floating-point work
  of the geometry library. This covers `PlaneGeo::NearestWireID`,
  `DistanceFromPlane`, `GetNormalDirection`, the drift-coordinate
  tolerances, `sortByNormalCoordinate`'s distance and
  `checkNormalDirection`. The model takes their results as inputs.
- The TPC, plane, wire and optical detector comparators of
  `GeoObjectSorterICARUS`, `WireReadoutSorterICARUS` and
  `GeoObjectSorterPMTasTPC` are left out. They compare doubles within a
  tolerance, which is not a strict weak order.
- The headers of `ChannelToWireMap`, `GeometryObjectCollections` and the
  readout data containers are not part of this model. They are modelled
  from how the code uses them: a sequence of ROP blocks with an end
  channel, and dense tables.
- ICARUSChannelMapping.ICARUSWireReadoutGeom.PlaneWireToChannel requires
  the wire's plane to be known. The code reads the plane table out of
  range otherwise.
- ICARUSChannelMapping.ICARUSWireReadoutGeom.ChannelToWire and the ID
  queries require an initialized mapping. This is the code's own
  precondition, which it does not check.
- ICARUSChannelMapping.ReadoutMappingInfo.Set requires tables of matching
  dimensions. The code asserts this.
- ICARUSChannelMapping.ReadoutMappingInfo.MaxROPs is 0 when the first
  cryostat has no TPC set. Nested sequences keep no third dimension there,
  where the code's grid container keeps the size it was made with.
- ICARUSChannelMapping.ICARUSWireReadoutGeom.FillChannelToWireMap leaves
  the object as it was when the `at` lookup throws. The code has by then
  resized the plane table and stored the planes and ROP blocks numbered
  before the throw; that partial state is not modelled.
- AuxDetSorting.SortAuxDetsStandard keeps the old order when a name does
  not parse. The code throws from inside `std::sort`, which leaves the
  elements in an unspecified order; the model does not capture that order.
- AuxDetSorting.SortAuxDetSensitiveStandard keeps the old order when a
  name does not parse, for the same reason: the order `std::sort` leaves
  after the throw is not modelled.
- ROPfilling.FillSet returns `ROPIDOutOfRange` for a readout plane number
  at or past the table width. The code indexes `ROPplanes[ropid]` with no
  check there, which is undefined behaviour.
- ROPfilling.FillTPCset returns `ROPIDOutOfRange` in the same case, for
  the same reason.
- ROPfilling.FilledROPs returns `NoTPCset` when there is no first TPC
  set. The code reads `PlanesInProtoROPs[{0, 0}]` with no check there.
- ROPfilling.FillPlanesInROP returns `NoTPCset` in the same case, for the
  same reason.
- SortLike.SortLike sorts with `<` on real keys only. The code takes any
  comparator `comp`, `std::less` by default; custom comparators are not
  modelled.
- SortLike.QuickSort and SortLike.Partition use the same fixed `<` and
  `<=` on real keys in place of `comp`.
- SortBy.SortBy sorts with `<` on real keys only. The code's `Sorter`
  parameter, `std::less` by default, is not modelled.
- TrackTimeInterval.PerSetRanges fails with `NoTPCsetError` for a hit
  whose TPC belongs to no TPC set. The code then indexes its table with
  the invalid TPC set ID, which is undefined behaviour.
- TrackTimeInterval.TimeRangeOfHits fails in the same case, for the same
  reason.
- The 32-bit width of `raw::ChannelID_t` is left out: channel numbers are
  unbounded. The ICARUS detector uses far fewer channels.
- The three copies of the channel-mapping algorithm are modelled once.
  `ICARUSWireReadoutGeom.cxx` and `WireReadoutGeomICARUS.cxx` are the same
  code; `ICARUSChannelMapAlg.cxx` is the same code under the older
  interface. Rows cite the copy that states each property.
- ROPandTPCsetBuildingAlgorithm.StandaloneHorizontalWires only reads the
  plane's `horizontalWires` flag. The code's test, `|ThetaZ()| < 1e-3`,
  is floating-point geometry and is taken as an input, so the predicate
  has no contract of its own; what it does to the grouping is stated by
  PlaneGrouping.SplitGroupsAreProper.
- ROPandTPCsetBuildingAlgorithm.ROPandTPCsetBuildingAlg.Run promises
  nothing about the six result containers after a successful run: the
  code moves the results out of them, leaving them moved-from. It also
  promises nothing about the readout-plane count and plane containers
  after a failure: `fillPlanesInROP` has resized them, and may have filled
  some of them, before it throws.
- ROPnumberDispatching.ROPnumberDispatcher.constructor receives the
  booked number blocks (`PreferredROPrangesByView`). The code computes
  them from the reference TPC set inside its constructor.
- TrackTimeInterval.MergeTPCsetRanges and
  TrackTimeInterval.TimeRangeOfHits require one cathode per cryostat (at
  most two TPC sets). The code asserts this.
- TrackTimeInterval.TimeRange.Duration gives no value for a range with an
  undefined bound. The code subtracts the "lowest double" sentinel there.
- `DetectorTimings` unit conversions are left out. Hit times are taken
  already in electronics time.
- Logging (message facility and stdout debug prints) is left out, and so
  is `dump()`/`print` output other than the formatters modelled in
  `BinaryDump`.
- BinaryDump.HexDump takes the address text as a parameter, because how
  a pointer prints is platform-defined.
- BinaryDump.HexDump requires `columns > 0`. With zero columns the coded
  loop never advances.
- `FormatFlagsGuard` is modelled on a stream record of flags and fill
  only. The rest of a stream's state is not modelled.
- BinaryDump.WriteZeroPadded takes the data already formatted, split into
  its sign or base prefix and the rest, because how a value prints
  depends on its type and on the stream's other flags. Text with no prefix
  passes an empty one, so internal adjustment pads it in front, as for
  right adjustment.
- FixedBins.FixedBins.constructor sets the minimum to the offset. The C++
  constructor leaves `fMin` uninitialised; it is set by the first `add`.
- BinningSpecs: `chooseBinningWidth`, `makeBinningFromBinWidth` and
  `makeBinningFromNBins` are left out. They pick a width through `log10`
  and `pow`, which have no exact model on reals.
- Binner.Binner.CappedBin requires at least one bin. With no bins the
  code clamps into the inverted range `[0, nBins - 1]`, which holds no
  valid index.
- SampledFunction: `closestSubsampleIndex` (`fmod` on doubles) and `dump`
  (printing) are left out.
- SampledFunction.ExtendRange takes a `fuel` bound on the steps it adds.
  The code loops until the predicate holds; the model returns nothing when
  the fuel runs out.
- NonRandomCounter.Value is the exact ratio `count / ULONG_MAX`. Rounding
  to double is left out.
- SharedWaveformBaseline.Baseline requires every waveform to have at least
  `nSample` samples. The code reads past the end of a shorter waveform.
- The `StatCollector` means and RMS of `SharedWaveformBaseline` and
  `DrawPMTwaveforms` are left out: the RMS is a parameter. `extractBaseline`
  is left out as well.
- DrawPMTwaveforms: `analyze`, `plotWaveformGroup`, `drawWaveform`, `main`
  and all ROOT/gallery plotting and event loops are left out. They are I/O.
- DrawPMTwaveforms.GroupWaveformCluster requires channels below 360. The
  code indexes past its twelve groups otherwise.
- ExpandInputFiles: reading files is left out. The file system is a map
  from a list's path to its lines.
- ExpandInputFiles.ExpandList and the expansion members take the
  `isROOTfile` test as a parameter. The build picks one of the two forms
  when it compiles; the model does not fix which.
- ExpandInputFiles.ExpandFileList takes a `depth` bound on the nesting of
  lists and fails with `TooDeep` past it. The code recurses with no bound
  and does not stop on a list that includes itself.
- ExpandInputFiles.ExpandInputFilesOf passes the same `depth` bound to
  every list it expands, so it can fail with `TooDeep` where the code
  would recurse further.
- PMTconfigToSettings: the two regular expressions are left out. Each log
  line is given already classified as a board line, a channel line or
  another line. Printing to the output file is left out.
- WaveformBaselines: reading events and printing are left out.
- `AtomicPassCounter` (concurrency), the framework configuration and
  service wiring (`StandardSelectorFor`, `CommonChoiceSelectors`,
  geometry loaders, Python service helpers) and the plotting helpers are
  not part of this model.

## Findings

| source | as written | input that shows it | evidently intended | confidence | as-written member | corrected member |
|---|---|---|---|---|---|---|
| icarusalg/Utilities/FixedBins.h:378-380 | `lowerEdge(index)` is `offset + (minBin + index) * width`, which is not the edge of bin `index` | width 2, offset -1, `add(3.5)`: bin 0 spans [3, 5), but `lowerEdge(0)` is -1 | the lower edge of bin `index` is the lower edge of the first stored bin plus `(index - minBin) * width` | not executed | FixedBins.LowerEdgeAsWrittenMisplaced | FixedBins.FixedBins.LowerEdge |
| icarusalg/Utilities/FixedBins.h:338-344 | `add` returns the storage index, although its result type is a bin index | width 2, offset -1, `add(3.5)` then `add(-4.0)`: the second value is in bin -4 but 0 is returned | `add` returns the bin the value was counted in | not executed | FixedBins.AddAsWrittenReturnsStorageIndex | FixedBins.FixedBins.Add |
| icarusalg/Utilities/BinningSpecs.cxx:119-124 | when the boundary is nearer the upper border of its bin, the shift is `boundary - (boundary - upper)`, which is the border itself | bins of width 2 from 0, boundary 1.5: the shift is 2 and 1.5 is still not a border | the shift is `boundary - upper`, so the boundary becomes a border | not executed | BinningSpecs.AlignBinningToMissesBoundary | BinningSpecs.AlignBinningTo |
| icarusalg/Utilities/BinaryDumpUtils.h:433-437 | the mask `T{1} << (Bits - 1)` on a signed type with `Bits` equal to its width is negative, and shifting it right keeps the sign bit | `bin<signed char>(0xAA)` prints "1111 1111" | one bit per digit: "1010 1010" | not executed | BinaryDump.SignedByteMasks | BinaryDump.BinDump |
| icarusalg/PMT/Algorithms/SharedWaveformBaseline.cxx:262 | `acceptanceRange` takes the median of whole waveforms, but computes the RMS on their first `nSample` samples | one waveform [0, 10, 10] with `nSample` 1: the median is 10 where the first sample gives 0 | the median of the first `nSample` samples, as the header documents | not executed | SharedWaveformBaseline.WholeWaveformShiftsMedian | SharedWaveformBaseline.AcceptanceRange |
| icarusalg/gallery/examples/PMTwaveforms/python/WaveformBaselines.py:23 | `computeBaseline` ignores its parameter and reads the global `channelWaveforms` | called with [[5.0]] while the global holds [[0.0]]: the result is 0 | the median of the samples of the waveforms passed in | not executed | WaveformBaselines.AsWrittenAgreesOnlyInScript | WaveformBaselines.ComputeBaseline |
| icarusalg/Utilities/TrackTimeInterval.h:160 | `empty()` is `start >= stop` on the raw values, where an undefined bound is the lowest double | a range from 5 with no stop is "empty" but contains 6 | empty only when both bounds are defined and out of order | not executed | TrackTimeInterval.EmptyAsWrittenMisjudgesOpenRanges | TrackTimeInterval.EmptyIffContainsNothing |
| icarusalg/gallery/examples/PMTwaveforms/C++/PMTconfigToSettings.py:40 | the `RuntimeError` message lacks its `f` prefix, so its placeholders are printed as they are | repeated channels on lines 3 and 7 give the same message | the message shows the line, channel and board numbers | not executed | PMTconfigToSettings.RepeatedChannelMessages | PMTconfigToSettings.RepeatedChannelMessage |
