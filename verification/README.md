# Models of a crash reporter and a tracing plug-in

This project models the parts of the repository whose correctness is hardest to see by reading, and proves
what they are for. Each module follows one component; objects that the source updates in place are classes
whose methods are proved against functions, and the promises of the source are lemmas about those functions.

- `Intervals`, `Symbols`, `LineSweep`, `Sorting`, `LineAssignment`: the single pass that gives source lines to
  functions. `Intervals` is the geometry of two sorted families of spans and a moving point, with a naive
  all-pairs and all-bytes search as the reference; `LineSweep` is the loop; `LineAssignment` goes from unsorted
  input to finished functions and warnings.
- `LineFilter`: the filter in front of the sweep. `SymbolFile`: the table behind it and the symbol file written
  from it. `Pipeline`: all three together, from recorded lines to the records of the file, unit after unit.
- `Chunking`, `Utf`, `UtfMeaning`, `UtfLaws`, `UtfConverters`: six UTF converters. `Utf` says what one step takes,
  writes and needs; `UtfMeaning` what a call means in the encoding forms of the Unicode Standard; `Chunking` is the
  theory of such step machines in small buffers; `UtfLaws` holds the theorems on several calls and on round trips;
  `UtfConverters` the loops over the buffers, with pointers backed up when a step fails.
- `AopTrace`, `AopMachine`: the bytecode filter on its stream of visitor calls, and a stack machine with labels,
  jumps and a handler table on which the rewritten method simulates the original. What an ordinary instruction
  does is a parameter of the machine, so the theorems hold for any instruction set.
- `PageAllocation`: the bump allocator over mapped runs. `Minidump`: the file writer and its handles.
  `Md5Compression`, `Md5`: the compression function and the incremental hash. `DieNames`: qualified names through
  specifications. `LongDictionary`: long values in a map of short strings. `Arithmetic`, `Options`,
  `ByteStrings`: two functions on integers, an optional value, bytes.

Outcomes of the outside world are parameters: what mmap returns, whether ftruncate and close succeed, how many
bytes write accepts, what the demangler says. Addresses are 64 bits wide, file positions 32, with wrap-around
written out.

Where code and comment disagree, the model follows the code; each case has its input and its exact condition.

- The sweep can cite one function several times: `LineAssignment.CitedTwice`, `LineAssignment.CitedOnceIff`.
- `isLegalUTF8` accepts sequences that the Unicode Standard does not: `UtfLaws.AcceptedOutsideTable`,
  `UtfConverters.IsLegalUTF8`.
- A lenient conversion from UTF-16 can stop out of step with its output: `UtfLaws.OutOfStep`,
  `UtfLaws.AlwaysInStepIff`. The result of the last of several calls can differ from that of one call:
  `UtfLaws.TaintIsSticky`, `UtfLaws.ResultOfLastCallIff`.
- A range that ends at 2^64 loses its lines in the symbol file: `SymbolFile.TopRangeLosesLine`,
  `SymbolFile.AllShownIff`.
- The length words of the last MD5 block land in the data: `Md5.TwoMessagesOneDigest`, `Md5.FinishingDependsOn`.
- Names of entries that are no declarations are recorded too: `DieNames.RecordedThoughDefined`.

Conditions under which a property holds are stated as equivalences. The one-sided preconditions are those of the
source: nonempty spans that do not wrap for the sweep, the table length for `isLegalUTF8`, keys that end in no
reserved suffix and leave room for one in the dictionary, an open file and positive sizes for the minidump writer.

The theorems about the bytecode filter rest on one assumption that is no precondition of the source, and it is made
of the run in question only (`AopMachine.SmoothFrom`): each instruction of the body that is executed acts alike in the
two matching frames, and each advice call that is made returns normally, with the stack balanced, and leaves a frame
that looks to the body like its own. `AopMachine.InvisibleIsSmooth` derives it from the instructions that occur in
the body. What an advice call does that throws is stated too (`AopMachine.EntryAdviceEscapes`,
`AopMachine.ExitAdviceIsGuarded`).

## Model

| member | source | states |
|---|---|---|
| LineAssignment.DwarfCUToModule.AssignLinesToFunctions | optimize-crash/src/main/cpp/breakpad/src/common/dwarf_cu_to_module.cc:1098-1298 | The sweep as a method on unsorted input. Whatever overlaps, it ends after at most two stops per nonempty range and line; every byte below the tombstone address that is in a range and in a line is handed out exactly once, as part of a line and to the owner of a range that it is in, and functions get nothing else; a function is only cited for a byte of its ranges that is in no line, and an owner of every such byte is cited; a line is only reported for a byte of it that is in no range, and a line with every such byte is reported or ends where a range begins. For disjoint input every function gets exactly the nonempty intersections of its ranges with the lines that start below the tombstone address, in address order; the functions cited are the owners of the gapped ranges in address order with adjacent repeats dropped, and the lines reported exactly the right ones; what was there before stays. |
| LineSweep.SharedGrows | optimize-crash/src/main/cpp/breakpad/src/common/dwarf_cu_to_module.cc:1167-1297 | One iteration keeps this account for any sorted input, overlapping or not: between two transitions all bytes are covered alike, and the piece handed out reaches to the next one. |
| LineSweep.CitedMore | optimize-crash/src/main/cpp/breakpad/src/common/dwarf_cu_to_module.cc:1217-1227 | Whatever overlaps, one iteration keeps the account of citations: below the current address every byte in a range and in no line has an owner cited, and nobody is cited without such a byte. |
| LineSweep.ReportedMore | optimize-crash/src/main/cpp/breakpad/src/common/dwarf_cu_to_module.cc:1229-1248 | Whatever overlaps, one iteration keeps the account of reports: below the current address every byte in a line and in no range is in a line reported or in one that ends where a range begins. |
| LineAssignment.Outcome | optimize-crash/src/main/cpp/breakpad/src/common/dwarf_cu_to_module.cc:1131-1297 | The result said without reference to the order of the sweep: for disjoint input each function has its full share of pieces, a function outside the ranges gets nothing, and a function is cited iff some byte of its ranges below the tombstone address is in no line. |
| LineAssignment.ReportedLinesRight | optimize-crash/src/main/cpp/breakpad/src/common/dwarf_cu_to_module.cc:1217-1253 | A line is reported iff some byte of it below the tombstone address is in no range and not in a forgiven tail gap; each line at most once and in address order. |
| LineAssignment.CitedFunctionsRight | optimize-crash/src/main/cpp/breakpad/src/common/dwarf_cu_to_module.cc:1217-1227 | A function is cited iff one of its bytes below the tombstone address lies in no line. |
| LineSweep.Sweep | optimize-crash/src/main/cpp/breakpad/src/common/dwarf_cu_to_module.cc:1132-1297 | On sorted input the accounts of bytes, citations and reports hold whatever overlaps, with at most two stops per range and line; on disjoint input the single pass finds exactly what a search through all pairs of ranges and lines and all bytes finds, in the same order. |
| LineSweep.SweepLoop | optimize-crash/src/main/cpp/breakpad/src/common/dwarf_cu_to_module.cc:1167-1297 | The loop with both commented invariants: iterators refer to the earliest item that contains or follows the current address, and the current address is a transition; the three assertions of the source hold for any sound input, overlapping or not. |
| LineSweep.Iterate | optimize-crash/src/main/cpp/breakpad/src/common/dwarf_cu_to_module.cc:1167-1297 | One iteration moves strictly upward to an endpoint of a range or line, or ends the sweep at zero or at the tombstone address; on disjoint input it extends the exact results from the current address to the next. |
| LineSweep.CutHere | optimize-crash/src/main/cpp/breakpad/src/common/dwarf_cu_to_module.cc:1206-1216 | 64-bit arithmetic of a piece: although the remaining lengths and their sum wrap, the piece runs from the current address to the smaller of the two ends, also for overlapping input that leaves the current address past the start of the piece. |
| LineSweep.WarnLine | optimize-crash/src/main/cpp/breakpad/src/common/dwarf_cu_to_module.cc:1229-1248 | The uncovered-line warning is given exactly when the line was not the last one warned about and the gap is not the tail of a line already used that ends where the next range begins. |
| LineSweep.WarnFunction | optimize-crash/src/main/cpp/breakpad/src/common/dwarf_cu_to_module.cc:1217-1227 | The uncovered-function warning is given exactly when the function differs from the last one cited. |
| LineSweep.SkipRanges | optimize-crash/src/main/cpp/breakpad/src/common/dwarf_cu_to_module.cc:1283-1287 | The range iterator stops at the first range that contains or follows the next address. |
| LineSweep.SkipLines | optimize-crash/src/main/cpp/breakpad/src/common/dwarf_cu_to_module.cc:1288-1292 | The line iterator stops at the first line that contains or follows the next address. |
| LineSweep.FirstTransition | optimize-crash/src/main/cpp/breakpad/src/common/dwarf_cu_to_module.cc:1144-1160 | The sweep starts at the smallest address of any range or line. |
| LineAssignment.CitedOnceIff | optimize-crash/src/main/cpp/breakpad/src/common/dwarf_cu_to_module.cc:1124-1127 | A function is cited at most once iff, in address order, no gapped range of another function lies between two gapped ranges of it; the comment "avoid doing so more than once" holds only under that condition. |
| LineAssignment.CitedTwice | optimize-crash/src/main/cpp/breakpad/src/common/dwarf_cu_to_module.cc:1124-1127 | One function with ranges at 100 and 300 and another at 200, no lines: the list of citations is first, second, first. |
| Intervals.PiecesAreAllPairs | optimize-crash/src/main/cpp/breakpad/src/common/dwarf_cu_to_module.cc:1098-1298 | Any ordered, complete list of the pieces below the tombstone address is the all-pairs list: range by range, line by line. |
| Intervals.GapsAreNaive | optimize-crash/src/main/cpp/breakpad/src/common/dwarf_cu_to_module.cc:1217-1253 | The ranges and lines found to have gaps are those a search byte by byte finds. |
| Intervals.ForgivenTestCorrect | optimize-crash/src/main/cpp/breakpad/src/common/dwarf_cu_to_module.cc:1232-1247 | The three-part test made at one byte decides whether the whole gap is a forgiven one, as defined on the line and the ranges alone. |
| Intervals.StopsAreFew | optimize-crash/src/main/cpp/breakpad/src/common/dwarf_cu_to_module.cc:1108-1111 | A strictly climbing list of endpoints of m ranges and n lines has at most 2(m+n) members, which bounds the iterations. |
| Intervals.WithinIsMembership | optimize-crash/src/main/cpp/breakpad/src/common/dwarf_cu_to_module.cc:1088-1095 | One wrapping subtraction and one unsigned comparison test membership in a span that does not wrap. |
| LineAssignment.FillSortedFunctionRanges | optimize-crash/src/main/cpp/breakpad/src/common/dwarf_cu_to_module.cc:1063-1086 | The sorted ranges are a rearrangement of the nonempty ranges of all functions. |
| LineAssignment.CollectMembers | optimize-crash/src/main/cpp/breakpad/src/common/dwarf_cu_to_module.cc:1063-1079 | No nonempty range is lost and none is invented. |
| LineFilter.DwarfLineToModule.AddLine | optimize-crash/src/main/cpp/breakpad/src/common/dwarf_line_to_module.cc:106-141 | Whatever sequence of calls came before, the recorded lines are those of the nonempty calls that are on no chain of abutting lines begun at address zero and whose file number is defined; a file number looked up stays undefined; the bad-number warning is remembered; every file recorded is one of the module. |
| LineFilter.OneMoreCall | optimize-crash/src/main/cpp/breakpad/src/common/dwarf_line_to_module.cc:106-123 | Comparing with the end of the last omitted line decides chain membership, wrap-around at the top of the address space included. |
| LineFilter.KeptExactly | optimize-crash/src/main/cpp/breakpad/src/common/dwarf_line_to_module.cc:106-141 | A line is recorded iff some call off every chain with a defined file produced it. |
| LineFilter.KeptAreSound | optimize-crash/src/main/cpp/breakpad/src/common/dwarf_line_to_module.cc:110-117 | Every recorded line is nonempty and ends at or below 2^64, which is what the sweep requires of its lines. |
| LineFilter.DwarfLineToModule.DefineFile | optimize-crash/src/main/cpp/breakpad/src/common/dwarf_line_to_module.cc:73-104 | Binds a number, or for -1 the next unused one, to the file of the module whose name is the given one behind that of the directory: directory zero is the compilation directory, and an undefined number is remembered as a warning and read as no directory. A number chosen for -1 never takes over the file of another; a file is made only if the module has none of that name. |
| LineFilter.OneSlashBetween | optimize-crash/src/main/cpp/breakpad/src/common/dwarf_line_to_module.cc:55-61 | A relative name behind a directory is the two with exactly one slash added unless the directory ends in one. |
| LineFilter.DwarfLineToModule.DefineDir | optimize-crash/src/main/cpp/breakpad/src/common/dwarf_line_to_module.cc:66-71 | Directory zero stays the compilation directory; any other number gets the path relative to it. |
| LineFilter.DwarfLineToModule.SameFileIff | optimize-crash/src/main/cpp/breakpad/src/common/dwarf_line_to_module.cc:100-103 | Two file numbers stand for the same file iff their full names are equal. |
| LineFilter.KeptFiles | optimize-crash/src/main/cpp/breakpad/src/common/dwarf_line_to_module.cc:125-140 | Every recorded line has a file of the module, which is what the writer requires of lines. |
| Pipeline.Symbolize | optimize-crash/src/main/cpp/breakpad/src/common/dwarf_cu_to_module.cc:1098-1325 | Filter, sweep, insertion and writing together, for a module that may hold functions of earlier units and be restricted to address ranges: of the functions it has a place for it gains exactly the first of each address and name in the sorted order; its file is the FUNC records of each function, each followed once and in order by the lines that begin in its range; the line records of the unit's functions are exactly the pieces in which the recorded lines meet their ranges; the id in each names its file. |
| Pipeline.OneOfEachKey | optimize-crash/src/main/cpp/breakpad/src/common/module.cc:113-118 | Of each address and name that occurs in a unit exactly one function is the first. |
| Pipeline.WrittenPieces | optimize-crash/src/main/cpp/breakpad/src/common/module.cc:293-318 | The line records written for a function are exactly its pieces of the unit's lines, but for a range that ends at the very top of the address space. |
| Pipeline.AllGroupedSay | optimize-crash/src/main/cpp/breakpad/src/common/module.cc:291-319 | Read back field by field, the records written for the functions of a unit are its ranges, each followed by the lines that begin in it. |
| SymbolFile.EmitGroups | optimize-crash/src/main/cpp/breakpad/src/common/module.cc:293-318 | The two nested loops with one shared line cursor write under each FUNC record exactly the lines that begin in its range, for sorted disjoint ranges. |
| SymbolFile.AllShownIff | optimize-crash/src/main/cpp/breakpad/src/common/module.cc:306-318 | Every line of a function is written exactly once and in order iff none begins in a range whose end is 2^64; there the 64-bit end wraps to zero and the lines are dropped. |
| SymbolFile.TopRangeLosesLine | optimize-crash/src/main/cpp/breakpad/src/common/module.cc:306-318 | A range of the last sixteen bytes and a line of four bytes in it: only the FUNC record is written. |
| SymbolFile.Module.Write | optimize-crash/src/main/cpp/breakpad/src/common/module.cc:264-330 | The symbol file without call frame information. A reader of it finds the module and its code identifier, the FILE records, and then, in order, for each range of each function a FUNC record with the address less the load address, the size of the range, the parameter size and the name, under it each line of the range with its address, size, number and the id of its file, and at the end each symbol with its address and name. |
| SymbolFile.EmitSays | optimize-crash/src/main/cpp/breakpad/src/common/module.cc:291-319 | The records written for a function, read back field by field: adding the load address gives the address, and size, parameter size, name, number and file are those of the range and line. |
| SymbolFile.WholeFileSays | optimize-crash/src/main/cpp/breakpad/src/common/module.cc:291-330 | The same for the end of the whole file: every range, line and symbol of the module is found once and in order. |
| SymbolFile.FileRecordsName | optimize-crash/src/main/cpp/breakpad/src/common/module.cc:277-286 | The i-th FILE record names the file that has i cited files before it. |
| SymbolFile.LessIs | optimize-crash/src/main/cpp/breakpad/src/common/module.h:331-337 | File names are ordered as std::string orders them: a proper prefix first, otherwise by the first difference. |
| SymbolFile.Module.WriteFunction | optimize-crash/src/main/cpp/breakpad/src/common/module.cc:291-319 | What the two nested loops write for one function, as the function about which the grouping theorem and the reading of the records are proved. |
| SymbolFile.Module.AssignSourceIds | optimize-crash/src/main/cpp/breakpad/src/common/module.cc:206-233 | Three loops over mutable files leave every cited file with the number of cited files before it in name order and every other file with -1. |
| SymbolFile.IdsAreOrdered | optimize-crash/src/main/cpp/breakpad/src/common/module.cc:223-232 | Cited files are numbered in name order without repetition, below the number of cited files. |
| SymbolFile.EveryIdIsUsed | optimize-crash/src/main/cpp/breakpad/src/common/module.cc:223-232 | The numbering has no gap. |
| SymbolFile.FileRecordsAreNumbered | optimize-crash/src/main/cpp/breakpad/src/common/module.cc:277-286 | The FILE records carry the ids 0, 1, 2 and so on, one for each cited file. |
| SymbolFile.LineFileIsNamed | optimize-crash/src/main/cpp/breakpad/src/common/module.cc:277-318 | The id in a line record is that of the FILE record that names its file. |
| SymbolFile.Module.FindFile | optimize-crash/src/main/cpp/breakpad/src/common/module.cc:164-184 | Returns the file of that name; makes one, with id -1 and in name order, only if there was none. |
| SymbolFile.Module.AddFunction | optimize-crash/src/main/cpp/breakpad/src/common/module.cc:83-125 | An address outside the module changes nothing; otherwise the PUBLIC symbol at the address, or on arm the one at the odd address above it, goes, and the function is inserted in order unless one with its address and name is there. |
| SymbolFile.Module.AddExtern | optimize-crash/src/main/cpp/breakpad/src/common/module.cc:141-152 | The first PUBLIC symbol at an address stays; addresses outside the module are ignored. |
| SymbolFile.Module.AddressIsInModule | optimize-crash/src/main/cpp/breakpad/src/common/module.cc:251-262 | True without ranges, otherwise membership in some range with its end computed in 64 bits. |
| SymbolFile.DwarfRangeListHandler.AddRange | optimize-crash/src/main/cpp/breakpad/src/common/dwarf_range_list_handler.cc:42-46 | Puts the range, with a wrapping difference as its size, behind those there were. |
| SymbolFile.DwarfRangeListHandler.Finish | optimize-crash/src/main/cpp/breakpad/src/common/dwarf_range_list_handler.cc:48-54 | Leaves the same ranges in address order; nonempty disjoint ranges then meet the precondition of the writer. |
| UtfConverters.ConvertUTF32toUTF16 | optimize-crash/src/main/cpp/breakpad/src/common/convert_UTF.cc:83-128 | The in-place loop computes the call about which the theorems are proved: units taken, units written, result, and nothing else in the target changed. |
| UtfConverters.ConvertUTF16toUTF32 | optimize-crash/src/main/cpp/breakpad/src/common/convert_UTF.cc:131-178 | The same, with a surrogate pair backed up over when it cannot be completed. |
| UtfConverters.ConvertUTF16toUTF8 | optimize-crash/src/main/cpp/breakpad/src/common/convert_UTF.cc:238-312 | The same, with bytes written from the last back to the first. |
| UtfConverters.ConvertUTF8toUTF16 | optimize-crash/src/main/cpp/breakpad/src/common/convert_UTF.cc:377-447 | The same, with an illegal or truncated sequence left untaken. |
| UtfConverters.ConvertUTF32toUTF8 | optimize-crash/src/main/cpp/breakpad/src/common/convert_UTF.cc:451-509 | The same, with values above 0x10FFFF replaced and remembered in the result. |
| UtfConverters.ConvertUTF8toUTF32 | optimize-crash/src/main/cpp/breakpad/src/common/convert_UTF.cc:513-570 | The same for UTF-8 to UTF-32. |
| UtfMeaning.CallMeans | optimize-crash/src/main/cpp/breakpad/src/common/convert_UTF.cc:83-570 | What every call of every converter does, in the encoding forms of section 3.9 of the Unicode Standard written in numbers: for every source, mode and room it takes some characters at the head of the source, writes the same ones in the target form, bad values as FFFD where the source replaces them, and ends with OK at the end of the source, with an exhausted target iff the next character has no room, and with the error that the next units call for. |
| UtfMeaning.EveryStep | optimize-crash/src/main/cpp/breakpad/src/common/convert_UTF.cc:83-570 | One step of each converter takes exactly what the source begins with, or stops for exactly the reason there is. |
| UtfMeaning.StrictFromUtf16 | optimize-crash/src/main/cpp/breakpad/src/common/convert_UTF.cc:131-312 | A strict call from UTF-16 takes the UTF-16 form of some scalar values and writes their other form; it ends with sourceIllegal iff the next unit is a low surrogate or a high one with a unit behind it that is not low, and with sourceExhausted iff it is a high surrogate and the last unit. |
| UtfMeaning.LenientFromUtf16 | optimize-crash/src/main/cpp/breakpad/src/common/convert_UTF.cc:131-312 | A lenient call from UTF-16 never ends with sourceIllegal: a lone surrogate is passed on in the target form as if it were a character, and only a high one at the very end stops the call. |
| UtfMeaning.FromUtf8Stops | optimize-crash/src/main/cpp/breakpad/src/common/convert_UTF.cc:377-570 | A call from UTF-8 ends with sourceIllegal iff the bytes announced by the next one are all there and stand for nothing, and with sourceExhausted iff they are not all there. |
| UtfMeaning.SequenceIsLegal | optimize-crash/src/main/cpp/breakpad/src/common/convert_UTF.cc:329-357 | The bytes accepted are the shortest form of a scalar value, or ED or F4 before a byte below 80 and tail bytes; their value is that scalar value, or what the arithmetic makes of them. |
| UtfMeaning.BytesInNumbers | optimize-crash/src/main/cpp/breakpad/src/common/convert_UTF.cc:293-307 | The shifts and masks write the UTF-8 form as the standard gives it in digits of base 64. |
| UtfMeaning.WordsInNumbers | optimize-crash/src/main/cpp/breakpad/src/common/convert_UTF.cc:113-121 | The shifts and masks write the surrogate pair as the standard gives it. |
| UtfConverters.IsLegalUTF8 | optimize-crash/src/main/cpp/breakpad/src/common/convert_UTF.cc:329-357 | Called with the table length, accepts exactly the sequences of Table 3-7 of the Unicode Standard (section 3.9) and those led by ED or F4 whose second byte is below 80. |
| UtfLaws.AcceptedOutsideTable | optimize-crash/src/main/cpp/breakpad/src/common/convert_UTF.cc:329-357 | ED 00 80 and F4 00 80 80 are accepted and in no row of Table 3-7. |
| UtfConverters.IsLegalUTF8Sequence | optimize-crash/src/main/cpp/breakpad/src/common/convert_UTF.cc:367-373 | Accepts iff the announced length is there and its bytes are accepted. |
| UtfLaws.ChunksDoNotMatter | optimize-crash/src/main/cpp/breakpad/src/common/convert_UTF.cc:83-570 | For all six converters, any series of calls with more input or more room in between takes, writes and stops as one call with all the input and all the room. |
| UtfLaws.ResumeConverter | optimize-crash/src/main/cpp/breakpad/src/common/convert_UTF.cc:83-570 | Stopping at any point for any reason and resuming gives the output and stop point of one call. |
| UtfLaws.ResultOfLastCallIff | optimize-crash/src/main/cpp/breakpad/src/common/convert_UTF.cc:83-570 | Over all ways of cutting a source in two, the result of the last call is the result of the one call iff the conversion is neither UTF-32 to UTF-8 nor strict UTF-32 to UTF-16, or no value is above 0x10FFFF, or a strict conversion meets a surrogate, which ends every call. |
| UtfLaws.TaintIsSticky | optimize-crash/src/main/cpp/breakpad/src/common/convert_UTF.cc:470-481 | Two calls, the first of which takes a value above 0x10FFFF and reports it, and the second of which ends with OK; the one call they amount to does not. |
| UtfLaws.WrittenSoFar | optimize-crash/src/main/cpp/breakpad/src/common/convert_UTF.cc:83-570 | What one call has written is the conversion of what it has taken iff the last unit taken is not a high surrogate of UTF-16: the step to the next row. |
| UtfLaws.AlwaysInStepIff | optimize-crash/src/main/cpp/breakpad/src/common/convert_UTF.cc:83-570 | Whatever the room, what is written is the conversion of what is taken, iff the source is not UTF-16, or the conversion is strict, or no high surrogate in the source is followed by a unit that is not low. |
| UtfLaws.OutOfStep | optimize-crash/src/main/cpp/breakpad/src/common/convert_UTF.cc:131-178 | D800 0041 with room for one unit, lenient: one unit is taken and written, and converting that unit alone takes nothing. |
| UtfLaws.RoundTrip | optimize-crash/src/main/cpp/breakpad/src/common/convert_UTF.cc:83-570 | On any sequence of scalar values with enough room, converting to another form and back gives the sequence again; both calls take everything and end normally. |
| UtfLaws.ConvertsScalars | optimize-crash/src/main/cpp/breakpad/src/common/convert_UTF.cc:83-570 | Each converter maps the encoding of any sequence of scalar values in its source form to their encoding in its target form. |
| UtfLaws.DirectIsTwoStage | optimize-crash/src/main/cpp/breakpad/src/common/convert_UTF.cc:377-447 | For every byte sequence, legal or not, UTF-8 to UTF-16 directly and by way of UTF-32 write the same and stop at the same place. |
| UtfLaws.LegalDecodes | optimize-crash/src/main/cpp/breakpad/src/common/convert_UTF.cc:329-357 | Everything accepted decodes to a scalar value; it is the shortest encoding of that value iff it is in Table 3-7. |
| UtfLaws.StrictIsLenient | optimize-crash/src/main/cpp/breakpad/src/common/convert_UTF.cc:377-447 | Strict and lenient decoding of UTF-8 take, write and end alike, for every input and room. |
| UtfLaws.BytesDecode | optimize-crash/src/main/cpp/breakpad/src/common/convert_UTF.cc:411-436 | The UTF-8 encoding of a scalar value is well-formed and decodes to it. |
| UtfLaws.RoomSuffices | optimize-crash/src/main/cpp/breakpad/src/common/convert_UTF.cc:90-117 | No converter reports an exhausted target that has one unit of UTF-16 per byte, three bytes per unit of UTF-16, four bytes or two units per UTF-32 value, or one UTF-32 value per source unit. |
| Chunking.SessionIsOneRun | optimize-crash/src/main/cpp/breakpad/src/common/convert_UTF.cc:83-570 | The argument behind chunk independence, for any converter whose steps do not change when more input follows. |
| Chunking.WrittenIsConverted | optimize-crash/src/main/cpp/breakpad/src/common/convert_UTF.cc:83-570 | The argument behind the taken-and-written correspondence. |
| Chunking.EnoughRoom | optimize-crash/src/main/cpp/breakpad/src/common/convert_UTF.cc:83-570 | The argument behind the room bounds. |
| AopTrace.AopTraceMethodVisitor.VisitAnnotationValue | aop_trace_plugin/src/main/java/com/walker/asm/AopTraceMethodVisitor.java:29-48 | Only the value "point" of the trace annotation, and only a type, switches injection on and names the advice class. |
| AopTrace.LastPointCounts | aop_trace_plugin/src/main/java/com/walker/asm/AopTraceMethodVisitor.java:29-48 | The advice class is that of the last point named in the trace annotation; without one nothing is injected. |
| AopTrace.AopTraceMethodVisitor.VisitCode | aop_trace_plugin/src/main/java/com/walker/asm/AopTraceMethodVisitor.java:55-65 | Passes the start of the code on and, if injection is on, the four instructions of the entry advice. |
| AopTrace.AopTraceMethodVisitor.VisitInsn | aop_trace_plugin/src/main/java/com/walker/asm/AopTraceMethodVisitor.java:67-80 | Puts new, dup, the constructor call and the call of onAfterMethod before the opcodes 172 to 177 and 191, the returns and athrow of section 6.5 of the JVM specification, and leaves every other instruction alone. |
| AopTrace.LeavesIsDeparts | aop_trace_plugin/src/main/java/com/walker/asm/AopTraceMethodVisitor.java:73 | The test of the source, by the bounds IRETURN and RETURN and by ATHROW, picks exactly the opcodes 172 to 177 and 191. |
| AopTrace.InjectIs | aop_trace_plugin/src/main/java/com/walker/asm/AopTraceMethodVisitor.java:55-80 | What is put in at the entry and before such an instruction, opcode by opcode and call by call; nothing before any other. |
| AopTrace.AopTraceMethodVisitor.Accept | aop_trace_plugin/src/main/java/com/walker/asm/AopTraceMethodVisitor.java:29-80 | The visitor driven over a whole method emits the rewriting of what it was told. |
| AopTrace.RewrittenMethod | aop_trace_plugin/src/main/java/com/walker/asm/AopTraceMethodVisitor.java:29-80 | In class-reader order the filter changes nothing but the code of an annotated method, where the prologue precedes the first label and the epilogue each leaving instruction. |
| AopMachine.SameOutcome | aop_trace_plugin/src/main/java/com/walker/asm/AopTraceMethodVisitor.java:55-80 | For every body, handler table and view of the body on which the run is smooth (each instruction executed acts alike in the two matching frames, and each advice call made returns normally and leaves a frame like that of the body): the rewritten method ends iff the original does, with worlds, and a result or exception, that the body cannot tell apart. |
| AopMachine.MatchingIsEqual | aop_trace_plugin/src/main/java/com/walker/asm/AopTraceMethodVisitor.java:55-80 | For a body to which only equal words are the same object, matching states have equal locals, stacks, results and exceptions. |
| AopMachine.RewrittenFollows | aop_trace_plugin/src/main/java/com/walker/asm/AopTraceMethodVisitor.java:55-80 | If the first n instructions executed are smooth, the rewritten code reaches the state that matches the original after them: locals and stack that look the same to the body, and a log with the advice injected. |
| AopMachine.RewrittenShadows | aop_trace_plugin/src/main/java/com/walker/asm/AopTraceMethodVisitor.java:55-80 | Every moment of such a rewritten run is in the entry advice, or matches the original, or is a known number of instructions into the exit advice of the return or throw to come; inside advice the log, the locals and the height of the stack above the stack of the body are exact. |
| AopMachine.AdviceCounts | aop_trace_plugin/src/main/java/com/walker/asm/AopTraceMethodVisitor.java:55-80 | Over finished runs of the original, smooth up to its end, and the rewritten method, for every body: beyond what the body calls itself, onBeforeMethod is called once, at the entry, and onAfterMethod once for every instruction with opcode 172 to 177 or 191 executed, caught or not. |
| AopMachine.EntryAdviceEscapes | aop_trace_plugin/src/main/java/com/walker/asm/AopTraceMethodVisitor.java:55-65 | An exception of the entry advice ends the method before the body begins; no handler of the body takes it. |
| AopMachine.ExitAdviceIsGuarded | aop_trace_plugin/src/main/java/com/walker/asm/AopTraceMethodVisitor.java:67-80 | An exception of the exit advice goes to the handler that would take it from the return or throw it precedes, so a return may end up in a handler. |
| AopMachine.EscapeSkipsAfter | aop_trace_plugin/src/main/java/com/walker/asm/AopTraceMethodVisitor.java:67-80 | Over the same runs: a method that returns does so at an opcode from 172 to 177 and calls onAfterMethod on its way out; one that ends with an exception does so iff its last instruction is an athrow (191) of its own, so an exception out of a call ends it without onAfterMethod. |
| AopMachine.PositionFull | aop_trace_plugin/src/main/java/com/walker/asm/AopTraceMethodVisitor.java:55-80 | A label keeps its place relative to the body: jumps to it re-enter before the injected epilogue and after the prologue. |
| AopMachine.InvisibleIsPossible | aop_trace_plugin/src/main/java/com/walker/asm/AopTraceMethodVisitor.java:55-80 | For any advice class and body a machine that makes objects and throws on a call on null meets the assumption everywhere, with references that differ between the two runs. |
| AopMachine.InvisibleIsSmooth | aop_trace_plugin/src/main/java/com/walker/asm/AopTraceMethodVisitor.java:55-80 | If the instructions that occur in the body, and the advice, meet the assumption in all frames that look alike, every run is smooth. |
| AopMachine.UnseenEffect | aop_trace_plugin/src/main/java/com/walker/asm/AopTraceMethodVisitor.java:55-80 | Advice that counts its calls in the world is no obstacle for a body without instructions that see the count. |
| AopMachine.SeenEffect | aop_trace_plugin/src/main/java/com/walker/asm/AopTraceMethodVisitor.java:55-80 | With such an instruction in the body no view makes that advice invisible. |
| PageAllocation.PageAllocator.Alloc | optimize-crash/src/main/cpp/breakpad/src/common/memory_allocator.h:74-101 | For every 64-bit size: a refused mapping changes nothing; pages are taken only when the current page has no room; the block lies inside its run iff rounding the request up to pages does not wrap. Unless it wraps, blocks stay disjoint from each other and from every page header and lie in mapped runs, and pages held are at most twice the bytes handed out, a header per mapping and one page. |
| PageAllocation.PageAllocator.GetNPages | optimize-crash/src/main/cpp/breakpad/src/common/memory_allocator.h:118-138 | Links the new run in front and counts its pages; a refused mapping changes nothing. |
| PageAllocation.PageAllocator.OwnsPointer | optimize-crash/src/main/cpp/breakpad/src/common/memory_allocator.h:105-113 | Following the headers finds exactly the addresses inside some mapped run. |
| PageAllocation.PageAllocator.FreeAll | optimize-crash/src/main/cpp/breakpad/src/common/memory_allocator.h:140-147 | Every run is unmapped exactly once, the next header read before its run goes; the total is the number of pages counted. |
| PageAllocation.BlocksMissHeaders | optimize-crash/src/main/cpp/breakpad/src/common/memory_allocator.h:74-101 | No block overlaps the header of any run, so writing into blocks keeps the list of runs intact. |
| PageAllocation.EnoughPagesIff | optimize-crash/src/main/cpp/breakpad/src/common/memory_allocator.h:89-90 | The pages computed in 64 bits hold the block and its header iff the rounding sum does not wrap. |
| Md5.MD5Context.constructor | optimize-crash/src/main/cpp/breakpad/src/common/md5.cc:46-55 | Sets the four constants and a zero count and leaves the block as it was. |
| Md5.MD5Context.MD5Update | optimize-crash/src/main/cpp/breakpad/src/common/md5.cc:61-103 | Partial block, block loop and split counter leave the context that absorbing the bytes one at a time leaves, byte for byte. |
| Md5.WordsHoldBytes | optimize-crash/src/main/cpp/breakpad/src/common/md5.cc:87-99 | Each word of a block holds four consecutive bytes, the low-order byte first (section 2 of RFC 1321). |
| Md5.HashBytesAre | optimize-crash/src/main/cpp/breakpad/src/common/md5.cc:144-146 | The digest gives the four registers in order, each with its low-order byte first. |
| Md5.BytesOfSum | optimize-crash/src/main/cpp/breakpad/src/common/md5.cc:140-141 | The four bytes of a count word are its digits in base 256, lowest first. |
| Md5.MD5Context.CountBytes | optimize-crash/src/main/cpp/breakpad/src/common/md5.cc:67-72 | Two 32-bit words with a carry count the bits modulo 2^64. |
| Md5.MD5Context.MD5Final | optimize-crash/src/main/cpp/breakpad/src/common/md5.cc:109-148 | The digest as written, and a cleared context. |
| Md5.PiecesDoNotMatter | optimize-crash/src/main/cpp/breakpad/src/common/md5.cc:61-103 | However a message is cut into pieces, the context is the same. |
| Md5.AbsorbedBlocks | optimize-crash/src/main/cpp/breakpad/src/common/md5.cc:61-103 | From a block boundary the hash is the fold of the compression function over the complete blocks, the count is eight times the length modulo 2^64, and the rest waits in the block. |
| Md5.DigestOfPieces | optimize-crash/src/main/cpp/breakpad/src/common/md5.cc:109-148 | From equal contexts the digest does not depend on how the message is cut. |
| Md5.LastBlockDependsOn | optimize-crash/src/main/cpp/breakpad/src/common/md5.cc:114-144 | For every amount of data in the block, the last block depends exactly on the bytes that neither the count words nor the padding covers. |
| Md5.FinishingDependsOn | optimize-crash/src/main/cpp/breakpad/src/common/md5.cc:114-144 | The one or two blocks compressed at the end depend exactly on the data, less the five bytes under the count words and plus the last eight bytes of an earlier block when fewer than 56 bytes are in the block. |
| Md5.DigestCompresses | optimize-crash/src/main/cpp/breakpad/src/common/md5.cc:114-144 | The digest is the hash after compressing those blocks. |
| Md5.SameDigest | optimize-crash/src/main/cpp/breakpad/src/common/md5.cc:114-144 | Messages of one length that differ only under the count words of their last block have one digest, however short its rest. |
| Md5.TwoMessagesOneDigest | optimize-crash/src/main/cpp/breakpad/src/common/md5.cc:114-144 | Two messages of twenty bytes that differ in byte 15 and have one digest. |
| Md5.LastBlockByte | optimize-crash/src/main/cpp/breakpad/src/common/md5.cc:114-144 | The last block byte by byte, for every amount of data in the block: count words at 14 to 18, then what is left of the data, the marker and zeros. |
| Md5Compression.Transform | optimize-crash/src/main/cpp/breakpad/src/common/md5.cc:167-249 | The 64 unrolled steps with simplified round functions compute the compression function of section 3.4 of RFC 1321. |
| Md5Compression.RoundFunctions | optimize-crash/src/main/cpp/breakpad/src/common/md5.cc:152-156 | The shortened F1 and F2 are the functions F and G of the standard. |
| Md5Compression.OneStep | optimize-crash/src/main/cpp/breakpad/src/common/md5.cc:158-160 | One macro step is one operation of the standard with its registers renamed. |
| Md5Compression.OperatedIs | optimize-crash/src/main/cpp/breakpad/src/common/md5.cc:158-160 | An operation is the rotated sum of register, round function, word and sine added to the next register. |
| Md5Compression.Rotations1 | optimize-crash/src/main/cpp/breakpad/src/common/md5.cc:158-160 | The pair of shifts is a rotation to the left, for the four amounts of the first round; likewise for the other rounds. |
| Md5Compression.HIs | optimize-crash/src/main/cpp/breakpad/src/common/md5.cc:155 | The third round function, bit by bit: one of the three is set, or all are. |
| Md5Compression.IIs | optimize-crash/src/main/cpp/breakpad/src/common/md5.cc:156 | The fourth round function, bit by bit. |
| Md5Compression.CompressAdds | optimize-crash/src/main/cpp/breakpad/src/common/md5.cc:244-247 | The four registers after the 64 operations are added to the four before, each to its own. |
| Minidump.MinidumpFileWriter.Allocate | optimize-crash/src/main/cpp/breakpad/src/client/minidump_file_writer.cc:270-308 | Alignment, growth by at least a page, failure of ftruncate and the variant without ftruncate, with a 32-bit position. |
| Minidump.MinidumpFileWriter.Copy | optimize-crash/src/main/cpp/breakpad/src/client/minidump_file_writer.cc:310-334 | Refuses what does not fit in the allocated size; otherwise writes what the kernel takes and reports whether that was all. |
| Minidump.MinidumpFileWriter.Close | optimize-crash/src/main/cpp/breakpad/src/client/minidump_file_writer.cc:124-146 | Cuts the file to what was allocated, unless the cut fails; in a sound writer every region still reads back the bytes last written through its handle, also when closing fails. |
| Minidump.AllocationKeeps | optimize-crash/src/main/cpp/breakpad/src/client/minidump_file_writer.cc:270-308 | A new region is disjoint from all others, inside the file size and, without the workaround, 8-aligned; allocation fails iff the file must grow and cannot. |
| Minidump.GrowsByAPage | optimize-crash/src/main/cpp/breakpad/src/client/minidump_file_writer.cc:286-304 | The file grows only when the region does not fit, then by a page, or by the aligned size if that is more; it never grows when ftruncate fails, and then nothing changes. |
| Minidump.PositionMoves | optimize-crash/src/main/cpp/breakpad/src/client/minidump_file_writer.cc:270-308 | The position moves by the size asked for, rounded up to a multiple of eight; without ftruncate by the size itself, and the size of the file with it. |
| Minidump.WriteKeeps | optimize-crash/src/main/cpp/breakpad/src/client/minidump_file_writer.cc:310-334 | A copy inside a region always passes the bounds check, fails only if the kernel falls short, and keeps what every handle can read back. |
| Minidump.CopyStaysApart | optimize-crash/src/main/cpp/breakpad/src/client/minidump_file_writer.cc:310-334 | A copy through one handle changes no byte of another region. |
| Minidump.RegionsApart | optimize-crash/src/main/cpp/breakpad/src/client/minidump_file_writer.cc:270-308 | Regions of different handles share no byte. |
| Minidump.ClosedReadsBack | optimize-crash/src/main/cpp/breakpad/src/client/minidump_file_writer.cc:124-146 | After any run of allocations and copies through any number of handles on a file with any contents, and closing, each location reads back the last bytes written there. |
| Minidump.StrayCopyKeepsIff | optimize-crash/src/main/cpp/breakpad/src/client/minidump_file_writer.cc:310-334 | A copy made outside the region of its handle, or through a handle without one, is refused for want of size or spoils nothing iff it repeats every byte it covers that some handle has written. |
| Minidump.PastIsHarmless | optimize-crash/src/main/cpp/breakpad/src/client/minidump_file_writer.h:214-218 | A copy at or past the position of the writer spoils nothing, whoever makes it. |
| Minidump.NextRegionFollowsIff | optimize-crash/src/main/cpp/breakpad/src/client/minidump_file_writer.cc:304-307 | The next region starts behind this one iff the sum fits in 32 bits. |
| Minidump.UntypedMDRVA.Allocate | optimize-crash/src/main/cpp/breakpad/src/client/minidump_file_writer.cc:336-341 | For every size: the position is that of the new region or the invalid address, the size what was asked for. While positions stay below 2^32 the writer stays sound and the handle owns the new region. |
| Minidump.UntypedMDRVA.Copy | optimize-crash/src/main/cpp/breakpad/src/client/minidump_file_writer.cc:343-348 | The writer's copy; inside the region of the handle it changes that region's bytes only and fails only if the kernel falls short. |
| Minidump.TypedMDRVA.AllocateObject | optimize-crash/src/main/cpp/breakpad/src/client/minidump_file_writer-inl.h:45-54 | An object followed by further bytes, with the outcomes of the untyped allocation. |
| Minidump.TypedMDRVA.AllocateArray | optimize-crash/src/main/cpp/breakpad/src/client/minidump_file_writer-inl.h:57-61 | Room for the whole array, with the outcomes of the untyped allocation. |
| Minidump.TypedMDRVA.AllocateObjectAndArray | optimize-crash/src/main/cpp/breakpad/src/client/minidump_file_writer-inl.h:64-69 | Room for the object and the array behind it, with the outcomes of the untyped allocation. |
| Minidump.TypedMDRVA.CopyIndex | optimize-crash/src/main/cpp/breakpad/src/client/minidump_file_writer-inl.h:72-77 | Writes the element of that index at its address narrowed to 32 bits; inside the region nothing is lost and only its bytes change, outside it the writer stays sound iff no other byte is spoilt. |
| Minidump.TypedMDRVA.CopyIndexAfterObject | optimize-crash/src/main/cpp/breakpad/src/client/minidump_file_writer-inl.h:80-88 | The same behind the object, at the index scaled by the length of this piece. |
| Minidump.TypedMDRVA.Flush | optimize-crash/src/main/cpp/breakpad/src/client/minidump_file_writer-inl.h:91-93 | Writes the object at the start of its region, or at the address a handle without one has. |
| Minidump.TypedMDRVA.Dispose | optimize-crash/src/main/cpp/breakpad/src/client/minidump_file_writer.h:214-218 | Destruction writes the object of every handle but an array's, allocated or not; if the allocation failed, or nothing was allocated since the handle was made, that spoils nothing. |
| Minidump.WriteMemory | optimize-crash/src/main/cpp/breakpad/src/client/minidump_file_writer.cc:253-268 | Allocation and copy one after the other with every outcome of both; while positions stay below 2^32, on success the memory can be read back at the location returned. |
| DieNames.GenericDIEHandler.ComputeQualifiedName | optimize-crash/src/main/cpp/breakpad/src/common/dwarf_cu_to_module.cc:456-517 | The name by precedence of demangled name, full name cited, own name, plain name cited and raw name, and what is recorded for others to cite; the rows below say what that is over any run. |
| DieNames.DemangledWins | optimize-crash/src/main/cpp/breakpad/src/common/dwarf_cu_to_module.cc:456-465 | In any run with unique offsets an entry with a demangled name has that name, whatever it cites and wherever it sits. |
| DieNames.CitedFullNameWins | optimize-crash/src/main/cpp/breakpad/src/common/dwarf_cu_to_module.cc:466-469 | Otherwise an entry that cites a record with a full name has that name. |
| DieNames.CitedScopeHolds | optimize-crash/src/main/cpp/breakpad/src/common/dwarf_cu_to_module.cc:471-500 | Otherwise an entry that cites a record has the scope of the record, the separator, and its own name or, without one, the plain name of the record; no scope, no separator. |
| DieNames.OwnScopeHolds | optimize-crash/src/main/cpp/breakpad/src/common/dwarf_cu_to_module.cc:471-500 | An entry that cites no record has the name of the scope it sits in, the separator, and its own name or, without one, its raw name; with neither, no name. |
| DieNames.NestedNamesJoin | optimize-crash/src/main/cpp/breakpad/src/common/dwarf_cu_to_module.cc:471-500 | Along a chain of nested entries that cite nothing the name of the last is all their names joined by the separator. |
| DieNames.RecordSpelledOut | optimize-crash/src/main/cpp/breakpad/src/common/dwarf_cu_to_module.cc:502-515 | What is recorded of an entry that cites nothing: its scope and plain name if it has no demangled name, the demangled name if it is a declaration, and otherwise nothing. |
| DieNames.GenericDIEHandler.ProcessSpecification | optimize-crash/src/main/cpp/breakpad/src/common/dwarf_cu_to_module.cc:385-420 | The specification is found iff references to it are handled and it is recorded already; otherwise a forward reference or a warning is noted. |
| DieNames.GenericDIEHandler.ProcessLinkageName | optimize-crash/src/main/cpp/breakpad/src/common/dwarf_cu_to_module.cc:424-453 | A demangled name replaces, a failure clears it and keeps the raw one. |
| DieNames.NamedScopeHandler.EndAttributes | optimize-crash/src/main/cpp/breakpad/src/common/dwarf_cu_to_module.cc:741-744 | The scope name handed to children is the computed name. |
| DieNames.FileContext.ClearSpecifications | optimize-crash/src/main/cpp/breakpad/src/common/dwarf_cu_to_module.cc:157-160 | The table is emptied unless references between units are handled. |
| DieNames.ReadFile | optimize-crash/src/main/cpp/breakpad/src/common/dwarf_cu_to_module.cc:456-517 | Handlers driven over the entries of any number of units leave the table and names of the run, with citations of earlier units refused and the table emptied behind each unit unless references between units are handled. |
| DieNames.UnitsAreApart | optimize-crash/src/main/cpp/breakpad/src/common/dwarf_cu_to_module.cc:1300-1328 | If references between units are not handled, or there are none, every unit has the names it would have in a file of its own. Behind an assembler unit the table is not emptied; what it holds is refused. |
| DieNames.TableBehind | optimize-crash/src/main/cpp/breakpad/src/common/dwarf_cu_to_module.cc:157-160 | Behind a unit in any language but assembler the table is empty if references between units are not handled. |
| DieNames.FileIsOneRun | optimize-crash/src/main/cpp/breakpad/src/common/dwarf_cu_to_module.cc:157-167 | If they are handled, a file of units is one run over all its entries, so what is said of runs holds across units. |
| DieNames.RefusedCitation | optimize-crash/src/main/cpp/breakpad/src/common/dwarf_cu_to_module.cc:162-167 | An unnamed entry that cites the one of the unit before has its name, or no name at all. |
| DieNames.RecordGivesName | optimize-crash/src/main/cpp/breakpad/src/common/dwarf_cu_to_module.cc:502-516 | What is recorded of an entry gives back its computed name. |
| DieNames.NamesAgreeIff | optimize-crash/src/main/cpp/breakpad/src/common/language.cc:51-59 | A recorded name reads the same in two languages iff it is a full name, has no scope, or the languages put names together alike. |
| DieNames.DeferredName | optimize-crash/src/main/cpp/breakpad/src/common/dwarf_cu_to_module.cc:390-412 | Over any sequence of entries with unique offsets, one with no name and no demangled name whose cited entry is recorded has the recorded name of that entry, whatever scope it sits in (section 2.13.2 of DWARF Version 4). |
| DieNames.DeferredNameIsSameIff | optimize-crash/src/main/cpp/breakpad/src/common/dwarf_cu_to_module.cc:456-500 | It is the very name of the cited entry iff that was recorded as a full name, had no scope, or both languages put names together alike: with one separator, or, for assembler, without the scope. |
| DieNames.ChainsKeepNamesIff | optimize-crash/src/main/cpp/breakpad/src/common/dwarf_cu_to_module.cc:390-517 | Through a chain of citations of any length the last entry has the very name of the first iff that was recorded as a full name, had no scope, or the languages of these two put names together alike; entries in between and elsewhere may have any language. |
| DieNames.NamelessTakesName | optimize-crash/src/main/cpp/breakpad/src/common/dwarf_cu_to_module.cc:456-517 | Such an entry is itself recorded iff it is a declaration or the record it cites is not a full name, and its record then reads like that one in every language; the code records plain names of entries that are no declarations, although its comment says otherwise. |
| DieNames.RecordedThoughDefined | optimize-crash/src/main/cpp/breakpad/src/common/dwarf_cu_to_module.cc:502-515 | An entry that is no declaration is recorded iff it has a plain name and no full one; for instance one named f. |
| LongDictionary.LongStringDictionary.SetKeyValue | optimize-crash/src/main/cpp/breakpad/src/common/long_string_dictionary.cc:56-109 | Removal and segment loop compute the new entries, and key by key the invariant stays. |
| LongDictionary.LongStringDictionary.RemoveKey | optimize-crash/src/main/cpp/breakpad/src/common/long_string_dictionary.cc:111-134 | Removes the whole value or all segments; true iff the key was there. |
| LongDictionary.LongStringDictionary.GetValueForKey | optimize-crash/src/main/cpp/breakpad/src/common/long_string_dictionary.cc:136-176 | The whole value, or the segments up to the first missing one put together. |
| LongDictionary.StoredLookup | optimize-crash/src/main/cpp/breakpad/src/common/long_string_dictionary.cc:56-109 | After setting a key it reads as much of the value as free entries and ten segments can hold; every other key reads as before; no key is ever both whole and in segments, and segments have no gap. |
| LongDictionary.RemovedLookup | optimize-crash/src/main/cpp/breakpad/src/common/long_string_dictionary.cc:111-134 | After removal nothing of the key is left and every other key reads as before. |
| LongDictionary.KeptIff | optimize-crash/src/main/cpp/breakpad/src/common/long_string_dictionary.cc:70-108 | The value is kept, cut at ten segments, iff there are enough free entries once the old value is removed. |
| LongDictionary.Limits | optimize-crash/src/main/cpp/breakpad/src/common/long_string_dictionary.cc:42-109 | A value of up to 255 characters takes one entry, a longer one a segment for each 255, up to ten; what is beyond 2550 characters is cut; segments have the suffixes __1 to __10. |
| LongDictionary.ActsAsPlainMap | optimize-crash/src/main/cpp/breakpad/src/common/long_string_dictionary.cc:56-176 | Any run of settings and removals of proper keys in which every value finds room answers as a plain map of cut values. |
| LongDictionary.FamiliesApart | optimize-crash/src/main/cpp/breakpad/src/common/long_string_dictionary.cc:42-49 | Keys that end in no reserved suffix share no entry, whole or segment. |
| LongDictionary.SegmentsDiffer | optimize-crash/src/main/cpp/breakpad/src/common/long_string_dictionary.cc:42-49 | A segment key determines its key and its number. |

## Left out

- LineAssignment.DwarfCUToModule.AssignLinesToFunctions: for overlapping input it is left open which of several owners of a byte gets or is cited for it, and how often; the source does not promise that.
- SymbolFile.Module.Write: errors of the output stream, the text form of records and call frame records are not modelled.
- Sizes in the minidump writer are unbounded: wrap-around of `size_t` in the size of an array or in the bounds check is not modelled.
- std::sort: modelled by an insertion sort; nothing is proved that depends on the order of equal addresses.
- The fields `ranges` and `address` of a function are constants of the model; they are set before the sweep and read after it.
- Pieces of some bodies are methods of their own: the body of a converter's loop (`Round32to16` and the like), each round of MD5, the part of `Alloc` that takes pages, the loops of `Write` and `AssignSourceIds`.
- Abstract origins of inlined functions, forward references to specifications and the fix-up of names, and the demangler itself.
- `IsEmptyRange`, reading of range lists from sections, and the choice between low and high address forms.
- Equality of the finished digest with RFC 1321, which fails because of where the length is put.
- `WriteString` and its conversion loops, beyond the allocation and copy they use.
- Runs after an advice call that throws or that the body observes; the source promises nothing for them.
- The size of instructions and the recomputation of stack maps by the class writer; parameter annotations are passed on unchanged.
- Serialisation and iteration of the base dictionary, and its array of entries, which is a bounded map here.
- Signal handling, thread inspection, JNI glue, user interface, build scripts and audio bindings: I/O or foreign calls.
