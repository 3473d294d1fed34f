# Thermal daemon: verified models

Dafny models of the parts of the thermal daemon whose behaviour is hardest to see from
reading the code, with proofs about every input and every run.

* **LZMA decoder** (`src/LzmaDec.c`). `RangeCoder`, `Symbols` and `SymbolRun` give the
  meaning of one symbol: an automaton that asks for one bit at a time, answered by the range
  coder. `Decoder`, `Streaming` and `Expansion` give the meaning of a run, of a call and of
  its output. `LzmaDec` is the code itself, a class whose fields, tables and buffers are
  updated in place: the multi-symbol decoder, its side-effect-free twin, the streaming driver
  with the 20-byte carry buffer. It is proved equal to that meaning, `RunGoals` carrying the
  goal of a run through its loops. `DirectBits` compares the two forms of direct bits,
  `InputBound` holds the 20-byte bound, `LiteralIndex` the literal addressing, `Dictionary`
  the copy. The format itself is written down a second time, without the automaton: in
  `SymbolCode` the bits of every symbol, in `SymbolContext` the cells, the state and the four
  distances. With `RangeEncoder`, a range coder run backwards, `Compression` gives every list
  of symbols an input that decodes to it, and `Corruption` says which streams are refused.
* **GDDV data vault** (`src/thd_gddv.cpp`, `test/gddv_tests/gddv_test_gen.py`).
  `GddvFormat` says what the reader accepts and what the generator writes, `GddvRoundTrip`
  that the first undoes the second, `GddvKeys` what every form of key names, and `GddvVault`
  has both as they work, one appending to a buffer, the other moving an offset. `Conditions`
  is the evaluator of adaptive conditions, `ConditionMeaning` what their kinds and comparison
  codes mean.
* **Cooling device** (`src/thd_cdev.cpp`, `src/thd_cdev.h`). `CoolingDevice` is what one
  request does, `Cdev` the class that does it, and `DeviceRuns`, `RangeSafety`, `Arbitration`,
  `Ramp` and `Release` are the laws of whole runs, with `Leaps` for their 32-bit sums;
  `DeviceLaws` has those of MAX trips, debouncing, last releases, trip bounds and controllers.
  `Pid` is the controller (`src/thd_pid.cpp`).
* **Trip point** (`src/thd_trip_point.cpp`): `TripPoint` is one reading and the switch,
  `TripHistory` what every history of readings does to the devices.
* **RAPL energy meter** (`src/thd_rapl_power_meter.cpp`): `Rapl`.

A program's error returns and exceptions are values here (`Option`, `CallFailed`,
`ParseResult`). Readings, the clock, results of writes and the order in which `std::sort`
leaves equal keys are inputs, or left open by a relation, so the theorems hold for all of
them.

## Findings

* A direct bit does not always keep code < range: `RangeCoder.RawBitReachesRange` is an input
  on which it ends with code == range, and by `RangeCoder.RawKeepsStrictly` it keeps the bound
  if and only if the range is even or code + 1 < range. A bit entered with code < range is
  still the compare-and-subtract bit (`RangeCoder.RawIsPlain`), but the bits after it may not
  be: in `DirectBits.TenthBitDiffers` the tenth direct bit of one distance comes out
  differently. `DirectBits.FormsAgree` is the exact condition over n bits.
* `GddvRoundTrip.TemperatureReadsBack`: the generator's 2727 and the reader's 2732 fit
  together exactly from one degree Celsius up; from zero down the reader is one degree low.
* The comment at `get_string_obj` speaks of a bounded string, but the code takes the bytes up
  to the first NUL whatever the declared length; the model follows the code.
  `GddvRoundTrip.ReadsPastItsField` reads two bytes of a field of one, and by
  `GddvRoundTrip.FieldIsRead` the two readings agree if and only if a NUL is in the field or
  right behind it, or nothing is behind it.
* A PSVT table of an unknown version is refused, but the version is cut to an int:
  `GddvRoundTrip.VersionDecides` shows that exactly those from 3 to 2^31 - 1 modulo 2^32 are.
* A trip of kind MAX lets go of a device at max: `DeviceLaws.HardReleaseGoesToMax`.
* A cooling device does not always stay in its range. `RangeSafety.RangeSafetyIsExact` is the
  exact condition over all runs of a new device: a controller of its own, or a step signed
  towards max (`SignDecides`; the default positive step takes a device that runs downwards out
  of its range at once) and, for a step by inc_dec_val, no 32-bit leap that lands before min,
  which `LeapTests` reduces to twenty tests. `Ramp.OverflowLeavesRange` is a run of twenty
  activations that leaves the range. A step by inc_val, whose overflow the code watches, needs
  only its sign (`IncNeedsOnlySign`).
* The ramp does not always have its closed form either: in `Ramp.RampFallsBack` the
  twenty-first activation takes a device with an inc_val of 4096 back from max to one step.
  `Ramp.RampIsExact` gives, exponent by exponent, exactly when it does.
* `TripPoint.BelowIsPlain`: the hysteresis comparison wraps in 32 bits exactly when
  temp + hyst exceeds 2^32, and then a trip is no Schmitt trigger (`TripPoint.SchmittIsExact`).
* `Rapl.HalfIsExact`: half a range between two samples is exactly what can hide a wrap;
  `Rapl.ReachIsExact` is the same bound for a register in microjoules, and `Rapl.TotalLoss`
  what is lost when its range is not whole millijoules.
* A range that cannot be read in time breaks the energy total: in
  `Rapl.LateRangeCountsTwice` six millijoules are reported as 1006. `Rapl.MeterIsExact` says
  for every run when the total stays right.

## Model

| member | source | states |
|---|---|---|
| `RangeCoder.BitKeeps` | src/LzmaDec.c:25-32 | a modelled bit keeps code < range, keeps at least 31/2048 of the range, and stays in 32 bits |
| `RangeCoder.Adapt` | src/LzmaDec.c:28-29 | probabilities stay in [31, 2017] |
| `SymbolContext.AdaptRests` | src/LzmaDec.c:28-29 | a probability moves towards each answer and rests exactly at 31 and at 2017 |
| `SymbolContext.BoundIsShare` | src/LzmaDec.c:25-27 | the answer 0 gets the share p / 2048 of the range, up to rounding |
| `RangeCoder.Normalize` | src/LzmaDec.c:25 | one NORMALIZE restores range >= 2^24, reads at most one byte and keeps code < range |
| `RangeCoder.RawKeeps` | src/LzmaDec.c:478-499 | a direct bit entered with code < range leaves code <= range |
| `RangeCoder.RawIsPlain` | src/LzmaDec.c:478-499 | the branch-free direct bit equals the compare-and-subtract form if and only if code < range/2 + 2^31, which code < range implies |
| `RangeCoder.RawBitReachesRange` | src/LzmaDec.c:478-499 | the bound code <= range is reached |
| `RangeCoder.RawKeepsStrictly` | src/LzmaDec.c:478-499 | code < range is kept if and only if the range is even or code + 1 < range |
| `DirectBits.FormsAgree` | src/LzmaDec.c:474-500 | over n direct bits with their NORMALIZEs the two forms agree in bits and registers if and only if each bit finds its coder under the bound |
| `DirectBits.StrictBitsAgree` | src/LzmaDec.c:474-500 | they agree as long as every bit but the last keeps code < range |
| `DirectBits.TenthBitDiffers` | src/LzmaDec.c:474-500 | a coder with code < range and two input bytes on which nine bits agree and the tenth does not |
| `Symbols.NextOk` | src/LzmaDec.c:223-510 | every bit of a symbol leads to a well-formed phase nearer to the end of the symbol |
| `Symbols.AskInTable` | src/LzmaDec.c:138-163 | every probability index of every phase lies inside the allocated table |
| `SymbolCode.CodeIsRead` | src/LzmaDec.c:240-528 | the bits of every symbol (0 for a literal, 10 for a match, 1100, 1101, 1110, 11110 and 11111 for the repeats, with the length bands, slot, direct and align bits), written down without the automaton, lead it to that symbol in every context |
| `SymbolCode.OnlyCodeIsRead` | src/LzmaDec.c:240-528 | and no other bits lead to a symbol |
| `SymbolContext.AskIsCell` | src/LzmaDec.c:138-163 | every modelled bit is answered from the cell of the array, state, position and tree node that the format names |
| `SymbolContext.CellsAreShared` | src/LzmaDec.c:138-163 | two bits, of any two symbols, share a cell if and only if the format names the same one |
| `SymbolContext.ContextIsAligned` | src/LzmaDec.c:230-260 | every decoder selects a whole literal coder, so that both laws hold of all its symbols |
| `SymbolContext.DistancesMoveToFront` | src/LzmaDec.c:312-541 | a repeat moves its distance to the front of the four, a match pushes a new one, nothing else changes them |
| `SymbolContext.StateNamesHistory` | src/LzmaDec.c:240-541 | after every history of symbols the state is the one that names its last match, whether that followed a literal, and the literals since |
| `SymbolContext.TurnIsStateAfter` | src/LzmaDec.c:240-541 | the state of that history is the one the decoder keeps, symbol by symbol |
| `SymbolRun.RunSymbol` | src/LzmaDec.c:223-591 | a symbol with its closing NORMALIZE ends normalized, with all probabilities in bounds, never behind its start or past its input |
| `SymbolRun.RunOnPrefix` | src/LzmaDec.c:666-856 | a symbol that ends at byte e is incomplete on exactly the prefixes shorter than e, and the same on all others |
| `SymbolRun.CellsDiffer` | src/LzmaDec.c:223-510 | no symbol, complete or not, asks for one probability twice |
| `SymbolRun.DummyAgrees` | src/LzmaDec.c:666-856 | hence decoding without adapting reads the same bytes and finds the same symbol as decoding with it |
| `InputBound.TwentyBytesSuffice` | src/LzmaDec.h:50-53 | from range >= 2^24 and probabilities in bounds no symbol with its closing NORMALIZE takes more than 20 bytes |
| `Dictionary.ExpandIsPeriodic` | src/LzmaDec.c:545-571 | the overlapping copy gives out[i] == out[i - rep0] for every new byte and keeps the old ones |
| `Dictionary.ExpandAdd` | src/LzmaDec.c:594-620 | a copy cut at any point and finished later is the whole copy |
| `LiteralIndex.MaskedIsPlain` | src/LzmaDec.c:230-260 | the lpMask index is 0x300 times the group of lp position bits and lc high bits, for all lc <= 8, lp <= 4 and every position |
| `LiteralIndex.PlainIsGroup` | src/LzmaDec.c:688-694 | the twin's masked index is the same group |
| `Decoder.LitBaseInTable` | src/LzmaDec.c:161-163 | the literal coder selected lies inside the table |
| `Decoder.ApplyKeepsOk` | src/LzmaDec.c:511-571 | after every symbol state < 12, each rep is in 1..max(1, processedPos), and the output is within the limit |
| `Decoder.StepKeepsOk` | src/LzmaDec.c:511-591 | the same for a decoded symbol with its coder, from any such state |
| `Decoder.BadRepCodeIsRep` | src/LzmaDec.c:623-649 | the kBadRepCode test rejects exactly the streams whose first symbol is a repeat match |
| `Streaming.IncompleteIsShort` | src/LzmaDec.c:952-971 | at most 19 bytes are ever held back |
| `Streaming.CallKeepsOk` | src/LzmaDec.c:881-1025 | every call leaves a machine that can be called again, with fewer than 20 bytes held back |
| `Streaming.DecodeSplit` | src/LzmaDec.c:881-1025 | a run on more input goes on where the shorter one stopped, or ends as before |
| `Streaming.CarryIsUsed` | src/LzmaDec.c:974-1015 | a symbol the carry did not complete uses up all of the carry |
| `Streaming.CallSplit` | src/LzmaDec.c:881-1025 | a call on a + b is a call on a followed by one on b, errors included |
| `Streaming.StreamingIsOneShot` | src/LzmaDec.c:881-1025 | any chunking gives the dictionary, decoder state, carry, bytes consumed and status of one call |
| `Streaming.SymbolLength` | src/LzmaDec.c:666-856 | each symbol has a length of at most 20 bytes, complete on exactly the prefixes of at least that length |
| `Streaming.StatusMeans` | src/LzmaDec.c:924-1022 | what each status says of the decoder it comes with: end mark seen, output full, code 0, copy pending |
| `Corruption.StepFailsExactly` | src/LzmaDec.c:511-541 | a symbol is refused if and only if it repeats with no output, copies from beyond the output or the dictionary, or finds no room and is no end mark |
| `Corruption.FailsExactly` | src/LzmaDec.c:881-1025 | a run fails if and only if one of its symbols is at fault where it stands, or a copy passes a limit that should have been its end; after an end mark it succeeds only with code 0 |
| `Expansion.OutputIsExpansion` | src/LzmaDec.c:531-571 | the output of an error-free run is the naive LZ77 expansion of its symbols cut at the limit |
| `Expansion.OneCallIsExpansion` | src/LzmaDec.c:1168-1191 | the same of the one-call use, from its five starting bytes |
| `RangeEncoder.RunsBack` | src/LzmaDec.c:25-34 | for every table and every code word there are bytes from which the range coder reads that word and then any given continuation |
| `Compression.EveryStreamHasInput` | src/LzmaDec.c:881-1025 | for all properties, every list of symbols that can be played has an input that one call reads as exactly that list, to its last byte, with its expansion as output |
| `Compression.AnyTextComesBack` | src/LzmaDec.c:1168-1191 | every text has a stream that decodes to it |
| `LzmaDec.CLzmaDec.GetBit` | src/LzmaDec.c:27-34 | decodes and adapts one bit as the automaton's next step |
| `LzmaDec.CLzmaDec.GetDirectBit` | src/LzmaDec.c:478-499 | one direct bit in its branch-free form |
| `LzmaDec.CLzmaDec.LiteralMatched` | src/LzmaDec.c:62-68 | the offs/bit loop is the automaton that follows the match byte to the first mismatch |
| `LzmaDec.MatchedStep` | src/LzmaDec.c:62-68 | one step of the offs/bit trick keeps "still following" or "past a mismatch" and its cell |
| `LzmaDec.CLzmaDec.LenDecode` | src/LzmaDec.c:379-446 | the length coder, all three bands |
| `LzmaDec.CLzmaDec.DistanceDecode` | src/LzmaDec.c:447-528 | slot, reverse tree, direct and align bits give the distance or the end mark |
| `LzmaDec.CLzmaDec.DecodeSymbol` | src/LzmaDec.c:240-510 | one symbol of the real decoder is the reference symbol, with its probabilities and coder |
| `LzmaDec.CLzmaDec.CopyMatch` | src/LzmaDec.c:545-571 | the byte loop writes the expansion |
| `LzmaDec.CLzmaDec.ApplySymbol` | src/LzmaDec.c:306-571 | the dictionary, reps, state and pending length after a symbol |
| `LzmaDec.CLzmaDec.DecodeReal` | src/LzmaDec.c:223-591 | the multi-symbol loop stays on the reference run and fails only when that fails |
| `LzmaDec.CLzmaDec.WriteRemaining` | src/LzmaDec.c:594-620 | finishes a cut copy and keeps checkDicSize == 0 exactly while processedPos < dicSize |
| `LzmaDec.CLzmaDec.DecodeReal2` | src/LzmaDec.c:630-656 | the splits at limit, limit2 and remainLen leave the same run, and checkDicSize is kept as above |
| `LzmaDec.CLzmaDec.TryDummy` | src/LzmaDec.c:666-856 | changes nothing; an error exactly when the symbol with its NORMALIZE does not fit, else the real symbol's kind and byte count |
| `LzmaDec.CLzmaDec.FromCarry` | src/LzmaDec.c:974-1018 | completing held-back bytes stays on the run and neither internal error is taken |
| `LzmaDec.CLzmaDec.OneTurn` | src/LzmaDec.c:916-1018 | one turn of the driver, with every way to leave it |
| `LzmaDec.CLzmaDec.DecodeToDic` | src/LzmaDec.c:881-1025 | equals the reference call: result, status, dictionary, decoder, carry and bytes consumed; internal errors are unreachable |
| `LzmaDec.CLzmaDec.DecodeChunks` | src/LzmaDec.c:881-1025 | successive calls on any chunks leave the decoder, dictionary, carry, status and total consumed of one call on the concatenation, errors included |
| `LzmaDec.PropsDecode` | src/LzmaDec.c:1086-1110 | the property byte is (pb * 5 + lp) * 9 + lc, the dictionary size at least 4096, other bytes refused |
| `LzmaDec.LzmaDecode` | src/LzmaDec.c:1168-1191 | the one-call interface: short input, bad properties, data errors, and otherwise the cut LZ77 expansion of the stream's symbols in the caller's buffer |
| `GddvFormat.LittleRoundTrip` | test/gddv_tests/gddv_test_gen.py:9-12 | little-endian integers read back |
| `GddvRoundTrip.Uint64ReadsBack` | src/thd_gddv.cpp:112-140 | get_uint64 undoes create_uintu64 and leaves what follows |
| `GddvRoundTrip.StringReadsBack` | src/thd_gddv.cpp:142-183 | get_string undoes create_string for NUL-free text |
| `GddvRoundTrip.UntilNulWithin` | src/thd_gddv.cpp:142-183 | the string read is shorter than its declared length exactly when a NUL is inside that length |
| `GddvRoundTrip.FieldIsRead` | src/thd_gddv.cpp:142-200 | a field gives the bytes up to the first NUL and reading goes on behind the declared length; it is the string inside the field if and only if a NUL is in it or right behind it, or nothing is behind it |
| `GddvRoundTrip.ReadsPastItsField` | src/thd_gddv.cpp:142-200 | a field of one byte of which two are read |
| `GddvRoundTrip.DecimalReadsBack` | src/thd_gddv.cpp:637-642 | a numeric limit survives as its decimal text |
| `GddvRoundTrip.EntryReadsBack` | src/thd_gddv.cpp:630-648 | a whole record reads back, field by field, and leaves what follows |
| `GddvRoundTrip.PathReadsBack` | src/thd_gddv.cpp:1165-1183 | the key names the table type and the table's own name |
| `GddvRoundTrip.TableReadsBack` | src/thd_gddv.cpp:1096-1191 | a key with its table reads back and leaves what follows |
| `GddvKeys.NamesAreText` | src/thd_gddv.cpp:1171-1186 | the byte strings compared with are the texts of the code |
| `GddvKeys.ParticipantKey` | src/thd_gddv.cpp:1164-1190 | for all names, /participants/n/t has kind t and name n, and /participants/n/t/p kind t and name p |
| `GddvKeys.SharedKey` | src/thd_gddv.cpp:1175-1190 | /shared/tables/t/p has kind t and name p; without a point, or outside tables, no name |
| `GddvKeys.OtherKey` | src/thd_gddv.cpp:1164-1190 | a key under any other first component has neither |
| `GddvKeys.EmptyKey` | src/thd_gddv.cpp:1164-1170 | nor has a key without components |
| `GddvKeys.ParticipantTableReadsBack` | src/thd_gddv.cpp:1096-1191 | a PSVT table under a participant's key reads back as the participant's, and with a point as the point's |
| `GddvKeys.DefaultTableReadsBack` | src/thd_gddv.cpp:622-625 | one without a name reads back as the default table |
| `GddvKeys.OtherKindIsPassedOver` | src/thd_gddv.cpp:1182-1191 | a value of another kind is passed over |
| `GddvRoundTrip.VersionDecides` | src/thd_gddv.cpp:611-620 | a table is read if and only if its version, as an int, is at most 2 |
| `GddvRoundTrip.HeaderDecides` | src/thd_gddv.cpp:1249-1292 | signature, major version and header size, byte by byte, and what each leads to |
| `GddvRoundTrip.TrailingBytes` | src/thd_gddv.cpp:1292-1331 | bytes behind the last table are ignored up to the size of the header; more make the parser throw unless they are a key |
| `GddvRoundTrip.VaultReadsBack` | src/thd_gddv.cpp:1249-1331 | every generated file of at least the header structure's size reads back as the same tables in order, to its last byte; a shorter one is refused |
| `GddvRoundTrip.TemperatureReadsBack` | src/thd_gddv.h:38-41 | whole degrees come back exactly if and only if they are at least 1, and one degree colder otherwise |
| `GddvVault.Generator.CreateEntry` | test/gddv_tests/gddv_test_gen.py:65-95 | appends one record |
| `GddvVault.Generator.CreatePsvt` | test/gddv_tests/gddv_test_gen.py:44-102 | writes every table under its key, in order |
| `GddvVault.Generator.CreateGddv` | test/gddv_tests/gddv_test_gen.py:39-115 | the file is the header and the tables |
| `GddvVault.GetUint64` | src/thd_gddv.cpp:112-140 | reads at an offset what the format function reads from the rest |
| `GddvVault.GetString` | src/thd_gddv.cpp:142-183 | the same for strings, with the two bounds that throw |
| `GddvVault.GetPsvs` | src/thd_gddv.cpp:627-648 | the record loop, to the end of the value |
| `GddvVault.Vault.ParsePsvt` | src/thd_gddv.cpp:611-653 | pushes the table read, or throws and pushes nothing |
| `GddvVault.Vault.ParseKey` | src/thd_gddv.cpp:1096-1191 | one key, its table if it has one, and where it ends |
| `GddvVault.Vault.ParseGddv` | src/thd_gddv.cpp:1249-1331 | error, exception or all the tables of a version 1 vault |
| `Conditions.Evaluator.EvaluateCondition` | src/thd_gddv.cpp:1640-1712 | whether a condition passes and its new entry time |
| `Conditions.Evaluator.CompareCondition` | src/thd_gddv.cpp:1387-1438 | which orders of value and argument each code accepts: EQUAL only the same, LESSER_OR_EQUAL and GREATER_OR_EQUAL that and one side, NOT_EQUAL both sides, every other code none |
| `Conditions.Evaluator.CompareElapsed` | src/thd_gddv.cpp:1441-1472 | the same codes for the 32-bit time since entry |
| `ConditionMeaning.HoldsMeansStands` | src/thd_gddv.cpp:1474-1687 | for every kind number: the predicate holds if and only if the reading of that kind stands to the argument as the code asks |
| `ConditionMeaning.UntimedPassNames` | src/thd_gddv.cpp:1714-1739 | a pass over untimed sets names the target of a set if and only if every reading of it stands as asked and no set before it does so |
| `ConditionMeaning.TimedPasses` | src/thd_gddv.cpp:1690-1712 | a waiting condition passes if and only if it stands, was entered, and the time since stands as asked |
| `ConditionMeaning.SensorName` | src/thd_gddv.cpp:1499-1512 | the sensor is what follows the last dot, for all names |
| `ConditionMeaning.DefaultSetMatches` | src/thd_gddv.cpp:1640-1650 | with a set of default conditions every pass matches |
| `Conditions.Evaluator.EvaluatePredicate` | src/thd_gddv.cpp:1640-1687 | the successive tests by kind give the condition's predicate, kinds that are not known none |
| `Conditions.Evaluator.EvaluateOem` | src/thd_gddv.cpp:1474-1497 | which platform variable a kind reads |
| `Conditions.Evaluator.EvaluateTemperature` | src/thd_gddv.cpp:1499-1527 | the sensor named after the last dot, in tenths of a Kelvin; an unknown one fails |
| `Conditions.Evaluator.EvaluateConditionSet` | src/thd_gddv.cpp:1714-1721 | a set passes if and only if all its conditions do; those behind the first failure are untouched |
| `Conditions.Evaluator.EvaluateConditions` | src/thd_gddv.cpp:1725-1739 | the pass returns the target and leaves the state that the whole-pass definition gives |
| `Conditions.FirstMatchNames` | src/thd_gddv.cpp:1725-1739 | the target is that of the passing set with no passing set before it |
| `Conditions.CurrentIsLatestMatch` | src/thd_gddv.cpp:1725-1739 | in every run the current target is the one the latest matching pass returned, or the initial one |
| `Conditions.PassingHasLasted` | src/thd_gddv.cpp:1447-1472 | a condition that asks for at least a time passes, for another target, only if its predicate held at each evaluation for that long |
| `Conditions.LastingPasses` | src/thd_gddv.cpp:1690-1712 | conversely, a predicate that stays true that long passes by then |
| `Conditions.RunTracks` | src/thd_gddv.cpp:1640-1739 | in every run a condition's state depends only on its own evaluations |
| `Conditions.NamedTargetHasLasted` | src/thd_gddv.cpp:1640-1739 | whenever a pass names a target, each lasting condition of the naming set held at all its evaluations since a pass that long ago |
| `Conditions.TargetStays` | src/thd_gddv.cpp:1690-1695 | a current target is returned by every pass while a set of it has its predicates and no earlier set of another target passes |
| `DeviceRuns.RunKeepsDistinct` | src/thd_cdev.cpp:282-330 | no run lists a (zone, trip) twice |
| `Release.OnlyLastMoves` | src/thd_cdev.cpp:391-432 | over any stretch of releases list and device stay as they are if and only if the last entry's holder is not among the callers |
| `DeviceRuns.LeapIsPlain` | src/thd_cdev.cpp:123-139 | a leap that fits in 32 bits is the plain sum, towards max |
| `Leaps.LeapIsLength` | src/thd_cdev.cpp:131-134 | any leap lands where its length in 32 bits leads |
| `DeviceRuns.RunIsSafe` | src/thd_cdev.cpp:43-197 | every state of every run, whatever mix of calls, lies between min and max in both directions |
| `RangeSafety.RangeSafetyIsExact` | src/thd_cdev.cpp:100-197 | every state of every run of a new device is in range if and only if it has its own controller, or its step is signed towards max and no leap by inc_dec_val lands before min |
| `RangeSafety.IncNeedsOnlySign` | src/thd_cdev.cpp:136-139 | for a step by inc_val, whose overflow the code watches, the sign alone decides |
| `RangeSafety.LeapTests` | src/thd_cdev.cpp:131-134 | for a step by inc_dec_val no leap lands before min if and only if, for each of the twenty exponents, max and the leap's length in 32 bits have a 32-bit sum, or difference downwards |
| `Ramp.OverflowLeavesRange` | src/thd_cdev.cpp:131-134 | a run of twenty activations of a new device from 0 to 100 with an inc_dec_val of 4096 that ends out of range |
| `RangeSafety.SignDecides` | src/thd_cdev.cpp:118-150 | the first activation from min stays in range if and only if the step is signed towards max, in both directions |
| `Arbitration.RunArbitrates` | src/thd_cdev.cpp:282-469 | without debouncing the device is always at the most restrictive listed target, or at min when there is none |
| `Arbitration.DebouncedCatchesUp` | src/thd_cdev.cpp:376-390 | with debouncing it never passes what is asked, and is there after the first activation past the interval |
| `Ramp.RampClosedForm` | src/thd_cdev.cpp:108-154 | n activations from min lead to min + s, then min + s + 2^(n-1) * s up to n = 21, cut at max, as long as each leap reaches |
| `Ramp.RampIsExact` | src/thd_cdev.cpp:108-154 | the device follows the closed form through n activations if and only if each leap fits in 32 bits, or what is left of it there still reaches max, in 32 bits again unless inc_val is used |
| `Ramp.RampFallsBack` | src/thd_cdev.cpp:131-139 | a run of twenty-one activations in which the device falls from max back to one step |
| `Ramp.ReleasesStepDown` | src/thd_cdev.cpp:155-197 | each effective release moves one step, and min is reached with exactly the ceil(distance / step)-th |
| `Ramp.StrideIsSize` | src/thd_cdev.cpp:167-180 | the step down is the size of the configured step whatever its sign and the direction |
| `Release.ListEmpties` | src/thd_cdev.cpp:391-411 | if every holder releases in each round, n holders are gone within n rounds |
| `Release.ReleasesReachMin` | src/thd_cdev.cpp:391-451 | and the device is then at min after at most ceil(span / step) further releases |
| `Cdev.CDev.IntTwoPow` | src/thd_cdev.h:91-97 | the loop computes the power of two |
| `Cdev.CDev.ClampStateMin` | src/thd_cdev.cpp:43-69 | the least restrictive state that reaches the given one, the device's minimum and the trip's, in both directions |
| `Cdev.CDev.ClampStateMax` | src/thd_cdev.cpp:72-98 | the most restrictive state that passes neither the given one nor the device's maximum nor the trip's |
| `Cdev.CDev.CompareCurrent` | src/thd_cdev.h:228-246 | positive exactly when the argument is nearer to max than the current state, negative exactly when it is farther |
| `Cdev.CDev.Register` | src/thd_cdev.cpp:286-356 | adds the caller unless listed, and sorts by target or by bounds |
| `Cdev.CDev.Increase` | src/thd_cdev.cpp:108-154 | one activation of the ramp |
| `Cdev.CDev.Decrease` | src/thd_cdev.cpp:155-197 | one step down |
| `Cdev.CDev.SetState` | src/thd_cdev.cpp:259-537 | one request is one step of the model, controllers included |
| `Cdev.CDev.SetMinState` | src/thd_cdev.cpp:539-546 | a forced release after the trend is cleared, one of the steps all run laws cover |
| `Cdev.MinRequestReachesMin` | src/thd_cdev.cpp:434-451 | and brings a device without other holders to min |
| `Cdev.FirstPidCallKeepsState` | src/thd_cdev.cpp:477-500 | the first call of a trip's controller leaves the device where it is |
| `DeviceLaws.HardGoesToMax` | src/thd_cdev.cpp:470-475 | in every run, an activation by a MAX trip that is not debounced leaves the device as near to max as any state in range, unless the last entry has a target; in both directions |
| `DeviceLaws.HardReleaseGoesToMax` | src/thd_cdev.cpp:470-475 | so does its release while holders without a target remain |
| `DeviceLaws.EarlyActivationsAreIgnored` | src/thd_cdev.cpp:384-390 | any number of activations within the interval of an activation change the list only |
| `DeviceLaws.SecondIsIgnored` | src/thd_cdev.cpp:384-390 | of two activations without targets the second does nothing within the interval of the first |
| `DeviceLaws.LastReleaseGoes` | src/thd_cdev.cpp:434-451 | where the device goes when its only holder lets go: to min after a target or when forced, else to the target given |
| `DeviceLaws.FreeRelease` | src/thd_cdev.cpp:443-451 | a release without holders leaves a device at min alone and takes any other there when forced |
| `DeviceLaws.AutoDownGoesToMin` | src/thd_cdev.cpp:188-196 | a device that steps down by itself goes to min at once |
| `DeviceLaws.RampStaysInBounds` | src/thd_cdev.cpp:100-154 | the ramp never passes the trip's maximum, and a first activation reaches its minimum |
| `DeviceLaws.UnsetBoundsAreNone` | src/thd_cdev.cpp:312-322 | bounds given as 0 or as missing leave the ramp as without bounds |
| `DeviceLaws.SetBoundsAreKept` | src/thd_cdev.cpp:312-326 | other bounds are kept as given |
| `DeviceLaws.LastBoundsDecide` | src/thd_cdev.cpp:343-356 | of holders with bounds the one whose minimum, or downwards whose maximum, is nearest to max comes last and decides |
| `DeviceLaws.OwnPidStartsAtMin` | src/thd_cdev.cpp:501-519 | the device's own controller starts at min, wherever the device is |
| `DeviceLaws.TripPidRestarts` | src/thd_cdev.cpp:498-499 | a release leaves the trip's controller as new |
| `DeviceLaws.PidClampIsNearest` | src/thd_cdev.cpp:482-492 | a controller's wish becomes the nearest state in range, in both directions |
| `DeviceLaws.SteadyPidDrives` | src/thd_cdev.cpp:477-500 | while the zone stays hotter than the target an integrating controller keeps the device at or above where it found it, and at or below while it stays cooler |
| `Pid.Controller.PidOutput` | src/thd_pid.cpp:35-72 | the output and the memory after one call |
| `Pid.FirstOutput` | src/thd_pid.cpp:42-52 | the first output is the initial value if and only if ki is not 0 or the proportional term is that value |
| `Pid.NthOutput` | src/thd_pid.cpp:53-71 | the n-th output is init + kp * (e_n - e_0) + ki * sum(e_k * dt_k) + kd * slope, the slope 0 for same-second calls |
| `Pid.SteadyError` | src/thd_pid.cpp:53-63 | under a steady error e the output is init + ki * e * elapsed |
| `Pid.TruncateDropsFraction` | src/thd_pid.cpp:71 | the conversion to int drops the fraction towards zero from either side |
| `TripPoint.CTrip.Check` | src/thd_trip_point.cpp:89-331 | the return value, reset flag, action, calls and new state of one reading; the rows of TripHistory say what that means over every history |
| `TripPoint.CTrip.WalkOn` | src/thd_trip_point.cpp:255-297 | exactly the devices not at max, in order, up to one that is too early, or only the first when sequential |
| `TripPoint.CTrip.WalkOff` | src/thd_trip_point.cpp:299-328 | exactly the devices not at min, backwards, or only the last when sequential |
| `TripPoint.BelowIsPlain` | src/thd_trip_point.cpp:240-241 | the 32-bit comparison is the intended one if and only if temp + hyst <= 2^32 or temp is 0 |
| `TripPoint.StaysInBand` | src/thd_trip_point.cpp:235-250 | a trip that is on ignores exactly the readings in [temp - hyst, temp) |
| `TripPoint.IsSchmittTrigger` | src/thd_trip_point.cpp:235-250 | over every history: on if and only if the latest counted reading outside the band was at or above temp |
| `TripPoint.SchmittIsExact` | src/thd_trip_point.cpp:235-250 | a trip that controls devices is so over every history if and only if temp + hyst does not wrap |
| `TripPoint.FiresEveryFifth` | src/thd_trip_point.cpp:144-186 | a critical or hot trip fires if and only if the run of readings at or above temp has a length divisible by 5 |
| `TripHistory.ConfiguredTargetIsCalled` | src/thd_trip_point.cpp:283-291 | over every history a binding configured with a target is called with that target in every call, on or off, and keeps it |
| `TripHistory.FirstCallSetsTarget` | src/thd_trip_point.cpp:283-291 | a binding without one is first called with the device's minimum, and keeps that value from then on, whatever the minimum becomes, unless it is the mark of a missing target itself |
| `TripHistory.NoTargetYet` | src/thd_trip_point.cpp:311-320 | and has no target before that call |
| `TripHistory.CalledExactly` | src/thd_trip_point.cpp:255-328 | a device is called if and only if the preference lets the kind act, sensor and dependency agree, the walk gets to it past sampling periods and, when sequential, past devices at max, or down past devices at min, and it is not at that end itself |
| `TripHistory.SequentialCallsOne` | src/thd_trip_point.cpp:292-328 | a sequential trip calls one device: the first not at max, or the last not at min |
| `TripHistory.CallsAreApart` | src/thd_trip_point.cpp:259-270 | two activations of a sampled device are at least its period apart, in every history |
| `TripHistory.HistoryTracks` | src/thd_trip_point.cpp:144-250 | switch and count of the class are those of the laws above |
| `TripHistory.ActsEveryFifth` | src/thd_trip_point.cpp:144-186 | in every history a critical trip powers off and a hot one suspends with exactly every fifth hot reading in a row, and no other trip does either |
| `TripHistory.PollFollows` | src/thd_trip_point.cpp:188-209 | polling is fast exactly while the latest usable reading was at or above temp, and a reset is asked for exactly when that ends |
| `TripHistory.OthersNeverAct` | src/thd_trip_point.cpp:210-253 | other trips neither act nor reset, and return true exactly for readings that concern them |
| `Rapl.Meter.EnergyLoop` | src/thd_rapl_power_meter.cpp:135-207 | samples every domain, when enabled and the clock has moved |
| `Rapl.Meter.GetEnergy` | src/thd_rapl_power_meter.cpp:209-228 | a thousand times the total of the first domain of the kind, all domains being sampled first when it is 0 |
| `Rapl.SampleAccounts` | src/thd_rapl_power_meter.cpp:165-182 | a sample less than half a range later keeps the account, wrap or no wrap |
| `Rapl.MeterConserves` | src/thd_rapl_power_meter.cpp:152-182 | with the range known by the first sample, the total is the true one at the last sample over any number of wraps and failed reads, and half_way is set exactly above the threshold |
| `Rapl.MeterIsExact` | src/thd_rapl_power_meter.cpp:152-182 | for every slow run, whichever reads fail: the total is right throughout if and only if samples without the range are on the first lap and the first one with it is in the upper half, or nothing was used before |
| `Rapl.LateRangeCountsTwice` | src/thd_rapl_power_meter.cpp:156-182 | a run with a failed range read in which a whole range is counted too much |
| `Rapl.HalfIsExact` | src/thd_rapl_power_meter.cpp:170-182 | the account survives a growth from every state if and only if it is less than half the range |
| `Rapl.RunAccountsUj` | src/thd_rapl_power_meter.cpp:152-182 | the same law for a register of any range in microjoules, with reads that fail |
| `Rapl.ReachIsExact` | src/thd_rapl_power_meter.cpp:158-182 | the exact growth in microjoules that every state of such a register survives |
| `Rapl.TotalLoss` | src/thd_rapl_power_meter.cpp:158-167 | the exact millijoules lost to a range that is not whole millijoules, none when it is |

## Left out

- LZMA: the circular dictionary and `LzmaDec_DecodeToBuf`, allocation and free; `LzmaDec.CLzmaDec` is the linear use in which `dic` is the output buffer and dicPos == processedPos.
- LZMA: output buffers of 2^32 bytes and more, for which processedPos wraps.
- LZMA: calls on a decoder that has returned SZ_ERROR_DATA, and reinitialisation of only the state (remainLen 275), which the daemon never does.
- GDDV: the version 2 layout, compressed payloads and the tables other than PSVT; keys of other kinds are passed over, and a version 2 header ends in `OtherVersion`.
- GDDV: the signed overflow of offset + length in the reader for buffers near 2^31 bytes; offsets are unbounded here.
- GDDV: the JSON input of the generator and non-ASCII strings, whose encoded length differs from the one it writes.
- Conditions.Evaluator.EvaluateCondition: the sensors, input devices and sysfs files behind a condition are parameters, possibly different at each evaluation; sets are non-empty, since the code reads their first element.
- Conditions.LastingPasses: needs that less than 2^31 seconds lie between the first and the last evaluation, since the elapsed time is kept in 32 bits.
- Cdev.CDev.SetState: the device writes its state through as given and maps targets to themselves; other device classes and the base-class clamp are not modelled.
- Cdev.CDev.Increase: curr + step, and products in the ramp other than the 32-bit sum, are unbounded integers.
- DeviceRuns.RunIsSafe: needs in-range targets and trip bounds, and the condition that RangeSafety.RangeSafetyIsExact shows to be exact.
- Ramp.RampClosedForm: needs a step signed towards max and not 0, min other than max, 32-bit limits, and the leaps that Ramp.RampIsExact shows to be exactly the ones needed.
- Ramp.ReleasesStepDown: releases of trips of kind MAX, which set the device to max, have no such law.
- DeviceLaws.RampStaysInBounds: bounds of the trip are in the device's range and in order; a later leap starts from its own base and may be below the trip's minimum.
- DeviceLaws.SteadyPidDrives: of devices that run upwards, and for differences of temperature that fit in 32 bits.
- Pid.Controller.PidOutput: exact reals instead of doubles.
- TripPoint.CTrip.Check: the devices appear by their answers (at min, at max, minimum state) and as the list of calls made to them; sensor polling and thresholds, power-off and suspend are results.
- Rapl.MeterConserves: the first sample is on the counter's first lap, since the meter has no way to know of earlier ones.
- Rapl.Meter.EnergyLoop: without the instantaneous, minimum and maximum power, and with counters that do not wrap at 64 bits.
- XML configuration, D-Bus, preferences, uevents, threads and platform detection.
