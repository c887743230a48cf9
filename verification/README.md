# WIBL in Dafny

A model of five parts of WIBL, the wireless bathymetry logger, and proofs of what they are for. Every part
takes the form its code has: loops and objects that change are methods and classes, proved against functions,
and the theorems are about those functions, for all inputs and all runs.

| part | modules |
|---|---|
| the unified-diff engine of the build, `patch.py` | `PatchModel`, `PatchLineEnds`, `PatchApply`, `PatchRevert`, `PatchTexts`, `PatchWritten`, `PatchLimits`, `PatchAgain`, `PatchExamples`, `PatchParse`, `PatchGrammar`, `PatchHead`, `PatchPrint`, `PatchRoundTrip`, `PatchRecovery`, `PatchSound`, `PatchStats`, `PatchTool`, over `Splicing` |
| the logger's files, its inventory, and the upload to the server | `LogState`, `LogManager`, `LogSafety`, `LogRuns`, `LogHistory`, `LogFates`, `LogPackets`, `LogTheorems`, `LogLimits`, `UploadModel`, `UploadSafety`, `UploadCycles`, `OpenLog` |
| the NMEA0183 receiver, its checksum and its filter | `Checksum`, `Nmea0183`, `Receiver`, `ReceiverTheorems`, `ReceiverBatches`, `IdFilter` |
| the event-driven simulator and its calendar | `Simulator`, `SimulatorEngine` |
| packet files and the conversion of NMEA2000 logs | `Frames`, `SerialisableModel`, `CanId`, `Tallies`, `Conversion` |

`Text` and `Options` are shared. `dafny verify dfyconfig.toml` checks the whole project.

## How to read it

* **Patches.** A file is a list of lines with their line ends. `Stream` is what `patch_stream` writes; `Weave` in
  `Splicing` is the independent meaning of a patch, a splice. `Proper` says what `diff -u` guarantees of its hunks; it
  does not say that they match the file, nor how their lines end. `PatchTexts` is about any file and compares lines
  without their ends, as `apply` does; `PatchLineEnds` and `PatchWritten` are about the ends, in a file that has one kind.
* **Diffs.** `PatchGrammar` says what the text of a diff is and what it means, without the parser's flags; a `Layout` is a way to
  write patches down, of which `dump`'s is one and that of `diff -u` another.
* **Logs.** `Store` is the card, the cache, the open log and a record of every log ever started, with what became of
  it. `LogManager.Manager` has these as fields and changes them in place; each of its methods is proved to do what
  the function of the same step in `LogState` says. A run is any sequence of recording, closing and starting, erasing, hashing and
  upload cycles. Everything outside answers as it likes: removals may fail, connections and replies may be lost,
  the server may be handed any bytes, and each of its services may fail.
* **MD5** is any function, and coherence, the limits and the fates of files hold for every one. Only what is said of the
  server's bucket depends on digests: `Genuine` asks of each body the server was handed in the run that, if it has the
  length and the digest of the closed file it was sent for, it is that file. A body that is what the logger sent meets
  this by itself (`OwnIsGenuine`), so over a connection that garbles nothing nothing is assumed (`ConservationUngarbled`).
* **Receiver.** The C++ ring copies the address of a sentence's text, its length and its time, so the text of all ten slots is the
  assembler's one buffer. The model has the same aliasing: a `Slot` holds a reference to that array.
* **Simulator.** Seconds are counted in ticks, exactly; a draw of `random()` is any number in its range.

## Where the code does less than it says

Each is proved. For the first seven below the exact condition, or the exact amount, is proved too, for all inputs.

* `apply` compares all source lines of a hunk but the last. So revert brings the texts back if and only if those last
  lines matched (`TextsComeBack`), and a second apply may be accepted (`SecondApplyRepeats`,
  `SecondApplyOfSameSizes`, `BothShortfallsOccur`).
* Hunk lines are given the line end of the file, but only once a line of it was read: what is added at the top keeps the
  end it has in the patch. So a patch that ends its lines otherwise may be applied in part with wrong ends
  (`StreamIsWeave`), and revert may not restore the file though every line matches (`ApplyThenRevert`,
  `LineEndsMatter`).
* A `\` line in a hunk consumes a source line, and the patched file is short by as many (`MarkersConsume`,
  `MarkersLoseLines`).
* A log file can exceed its limit by a request of 37 bytes on top of its last packet: exactly if a packet without data
  comes when the file has no request and no room for one (`RequestOvershoots`, `SizeBound`, `LimitIsReached`).
* An upload can remove the open log: exactly if the inventory lists it with the size and digest of a beginning of its
  file (`SomeCycleTakesOpen`). Hashing the open log does that (`HashedMatches`, `ListedOpenLogIsLost`), and its one
  caller that can reach the open log is the `transfer` command (`LoggerFirmware/src/SerialCommand.cpp:561-572`). A log that replaced log zero of
  a full table is listed too, but with the old digest, and stays (`ReplacedLogStays`).
* Sentences that complete before the ring is read are judged by, and logged with, the text the buffer holds by then: that
  of the last of them, or of the next sentence as far as it came, and then all are lost until its `*` is there; and ten
  are lost in any case (`OwnTextIff`, `BatchOwnTexts`, `BatchLost`, `SecondLoggedTwice`, `BatchLogsLast`).
* Doubling a buffer once is not enough for a long string; only the firmware's version always makes room
  (`LongAppendLeaves`).
* `apply` reports success, without changing the file, when a backup of that name exists.
* `Sentence::Valid` is documented to require a leading `$`; it does not look at the first character.
* TeamSurv accepts sentences with a second `*` in the payload that the logger rejects (`ChecksAgree`).
* `unit_uniform` is documented as less than one, and can be one; the depth gap of two seconds is reached.
* The date is a day short in every year with remainder one modulo four, and skips one at its end (`DateIsRight`, `DateAdvances`).

## Model

| member | source | states |
|---|---|---|
| PatchApply.PatchStream | LoggerFirmware/patch.py:1038-1095 | the streaming splicer, with its line-end counters, yields the function `Stream` of the file and the hunks |
| PatchApply.GetLine | LoggerFirmware/patch.py:1054-1067 | reads the next line, empty at the end of the file, and keeps the tally of line ends |
| PatchApply.CopyUpTo | LoggerFirmware/patch.py:1071-1075 | the lines before a hunk are copied |
| PatchApply.PatchBody | LoggerFirmware/patch.py:1076-1092 | one hunk body: what it writes and where it leaves the file, with the line-end counters |
| PatchLineEnds.BodyMeaning | LoggerFirmware/patch.py:1076-1092 | whatever ends the hunk's lines have: a body writes its new side in the line end of a file with one kind of line end, but what it adds before any line was read as it stands in the patch, and passes over as many lines as its old side has |
| PatchLineEnds.EmitExactly | LoggerFirmware/patch.py:1087-1092 | in any file: a hunk's line is written with the one line end that all lines read so far have, and as it stands in the patch if none was read or they differ |
| PatchWritten.StreamIsWritten | LoggerFirmware/patch.py:1038-1095 | so the stream is a splice, with exactly these lines for each hunk |
| PatchWritten.StreamIsWeave | LoggerFirmware/patch.py:1038-1095 | and it is the splice the patch means, each hunk's stretch replaced by its new texts in the file's line end, if and only if the lines added at the top of the file before any was read end as the file does |
| PatchTexts.StreamTexts | LoggerFirmware/patch.py:1038-1095 | of any file and any patch without `\` lines, whatever line ends: what is written has the texts of the file with each hunk's old texts replaced by its new |
| PatchModel.MarkersConsume | LoggerFirmware/patch.py:1076-1085 | a `\` line passes over a source line too, so a body consumes its old side and its markers |
| PatchLimits.MarkersLoseLines | LoggerFirmware/patch.py:1078-1081 | for any hunks that lie in the file in order with their `\` lines: exactly how many lines come out, short by one for each marker |
| PatchApply.MatchFileHunks | LoggerFirmware/patch.py:998-1036 | for any hunk list: a file is recognised as patched exactly when every hunk's kept and added texts stand in it, each hunk at its target start, or behind the one before it if that reaches further |
| PatchApply.MatchBody | LoggerFirmware/patch.py:1017-1028 | one hunk's body looked for in the file, line by line |
| PatchLimits.PatchedExactly | LoggerFirmware/patch.py:1007-1028 | for hunks in order: recognised exactly when, for every hunk, the file holds its target texts at its target start |
| PatchLimits.MissingIsNotPatched | LoggerFirmware/patch.py:1024-1026 | so a file that lacks one text of one hunk there is never taken for patched |
| PatchApply.Validate | LoggerFirmware/patch.py:870-943 | the validation loop of `apply`: for ordered hunks it allows the patch if and only if, for every hunk, all source lines but the last are in the file, counts the valid hunks, and reports a premature end exactly when some hunk was never decided; a first hunk at line zero without source lines is never accepted |
| PatchRevert.Apply | LoggerFirmware/patch.py:823-960 | the whole decision for one file: what is written, and what is reported, including success without a change when a backup exists |
| PatchRevert.HunkRecord.Reverse | LoggerFirmware/patch.py:963-975 | reversal of one hunk in place, line by line, is the function `Reversed` |
| PatchRevert.ReverseInPlace | LoggerFirmware/patch.py:963-975 | the same for all hunks of a patch, each touched once |
| PatchModel.ReversalSwapsSides | LoggerFirmware/patch.py:963-975 | reversal exchanges the old and the new side of a body, and done twice changes nothing |
| PatchWritten.ApplyMakesEdits | LoggerFirmware/patch.py:938-947 | whenever `apply` accepts a proper patch, it writes what `Written` says for each hunk |
| PatchTexts.TextsComeBack | LoggerFirmware/patch.py:823-981 | apply then revert, for any file and any proper patch, whatever line ends: revert always accepts, the reversed hunks are ordered and match the patched file in full, and the texts of the file are restored if and only if each hunk's last source line, the one line `apply` does not compare (line 890), was in the file |
| PatchWritten.WayBack | LoggerFirmware/patch.py:963-981 | in a file with one kind of line end, revert writes for each hunk its old texts by the line ends it has read |
| PatchWritten.ApplyThenRevert | LoggerFirmware/patch.py:823-981 | and the file is restored byte for byte if and only if those last lines matched and what revert writes ends as the file did |
| PatchWritten.RevertEndsUsual | LoggerFirmware/patch.py:1087-1092 | which, when what apply added at the top ended so, is when what revert adds at the top does |
| PatchExamples.LineEndsMatter | LoggerFirmware/patch.py:1087-1092 | a file with CRLF and a patch with LF, every line of which matches, that revert does not restore |
| PatchRevert.RereadLines | LoggerFirmware/patch.py:1098-1111 | lines written out are read again as they were, whatever their ends, the last one with or without |
| PatchRevert.LinesExactly | LoggerFirmware/patch.py:1098-1111 | a file is read as lines that make it up, each with its LF at its end and all but the last with one, and there is only one way |
| PatchLimits.PatchedIsRecognised | LoggerFirmware/patch.py:998-1036 | the output of an accepted patch is recognised as already patched |
| PatchAgain.SecondApplyRefuses | LoggerFirmware/patch.py:870-943 | a second apply leaves the file alone when some hunk that the ones before do not move has old and new lines that differ before its last old line, inside both |
| PatchAgain.SecondApplyRepeats | LoggerFirmware/patch.py:870-943 | for any number of hunks: the second apply is accepted if and only if, among the texts the first one leaves, every hunk's old texts but the last stand at its source start, with a line behind them; and then the file grows once more |
| PatchAgain.SecondApplyOfSameSizes | LoggerFirmware/patch.py:870-943 | for any number of hunks that each keep their size: the second apply is accepted if and only if no hunk changes a line before its last, and then it changes no text |
| PatchAgain.SecondApplyChangesNothing | LoggerFirmware/patch.py:870-943 | nor a line end, if the lines added at the top end as the file does |
| PatchExamples.BothShortfallsOccur | LoggerFirmware/patch.py:890 | a concrete patch and file: accepted by apply, not undone by revert, and applied a second time |
| PatchLimits.NoWayBack | LoggerFirmware/patch.py:870-943 | a hunk without target lines, reversed, is never accepted |
| PatchParse.PatchSet.ParseLines | LoggerFirmware/patch.py:278-619 | the flag-driven parser, counters, inner header scan and all, computes the function `Parse` of the lines: patches, errors and verdict |
| PatchParse.PatchSet.TakeLine | LoggerFirmware/patch.py:351-583 | one turn of the main loop: deciders, then the blocks in order, each passing the line on or not |
| PatchParse.PatchSet.ScanToNames | LoggerFirmware/patch.py:365-384 | the inner loop over header lines, up to a file name or the end of the stream |
| PatchParse.PatchSet.BeginPatch | LoggerFirmware/patch.py:520-541 | a new patch: the one before is filed, the header kept |
| PatchParse.PatchSet.CloseParse | LoggerFirmware/patch.py:586-619 | the end of the stream: what is filed, what counts as an error, and the verdict |
| PatchParse.PatchSet.TakeHunkLine | LoggerFirmware/patch.py:391-456 | one line of a hunk body: claimed by count, whatever it looks like, until both counts are met or overrun |
| PatchParse.PatchSet.TakeFileName | LoggerFirmware/patch.py:466-541 | the two file-name lines, with every way in which they can be wrong |
| PatchParse.PatchSet.TakeHunkHead | LoggerFirmware/patch.py:543-583 | the hunk header, with counts that are one when they are left out |
| PatchPrint.Dump | LoggerFirmware/patch.py:1113-1122 | what `dump` prints, as a list of lines: one of the layouts of the round trip |
| Text.ValueByPlaces | LoggerFirmware/patch.py:561-566 | a run of digits is read with the first counting most, each its value times a power of ten |
| Text.DecimalExactly | LoggerFirmware/patch.py:1119 | a number is printed without zeros in front, and no other digits without them stand for it |
| Text.StripParts | LoggerFirmware/patch.py:483 | stripping a name takes nothing but blanks off its two ends |
| PatchHead.HeadExactly | LoggerFirmware/patch.py:340 | a line begins a hunk exactly when it is `@@ -`, a range, ` +`, a range, ` @@` and anything; each range is digits and perhaps a comma and digits; and then these are the hunk's numbers, a count that is left out being one |
| PatchGrammar.FileNameExactly | LoggerFirmware/patch.py:479-483 | a file name is what stands before the first tab, without the blanks around it, and must not be empty |
| PatchGrammar.ParsesAsMeant | LoggerFirmware/patch.py:278-619 | a stream of patches, each with lines of no meaning, source lines, a target line and hunks whose bodies use up their counts, and lines of no meaning at the end, is parsed without an error as just these patches |
| PatchGrammar.SuccessIsDiff | LoggerFirmware/patch.py:278-619 | whatever the input: a parse without errors has read a stream of this form, and nothing of it is left over or missing |
| PatchGrammar.ParsesExactly | LoggerFirmware/patch.py:278-619 | so the parser reports success with given patches if and only if the input is a stream of this form that means them |
| PatchRecovery.BrokenHunkIsolated | LoggerFirmware/patch.py:417-465 | a hunk that breaks off anywhere, at a line that is no body line, is recorded as invalid with the lines it has and counted as one error; everything before and behind it is parsed as it means |
| PatchPrint.HeadReadBack | LoggerFirmware/patch.py:561-566 | a hunk header in any layout, with its counts or without those that are one, is read back with the same four numbers and the description if it has one |
| PatchRoundTrip.PrintThenParse | LoggerFirmware/patch.py:278-619 | a patch set written in any layouts, mixed as may be: parsing gives no error and the same patches, with the same names, ranges and text for every hunk, also where removed lines look like file headers; `dump`'s layout is one of these |
| PatchRoundTrip.DiffThenParse | LoggerFirmware/patch.py:278-619 | in the layout of `diff -u`, without counts of one, with time stamps behind the names and with descriptions, everything comes back |
| PatchSound.SuccessIsUsable | LoggerFirmware/patch.py:278-619 | whatever the input, a parse without errors gives at least one patch, each with at least one hunk, and every hunk's body has exactly the numbers of lines its header announces |
| PatchSound.CountsAreSides | LoggerFirmware/patch.py:410-417 | in a body without `\` lines these counts are the sizes of the old and the new side |
| PatchSound.SuccessCanBeApplied | LoggerFirmware/patch.py:278-619 | every patch of such a parse meets what applying it demands: it has hunks, and all their lines have tags |
| PatchTool.RunTool | LoggerFirmware/patch.py:1172-1187 | from the patch file to the files: nothing is applied unless the parse succeeds; and when the hunks of each patch are in order, what each file holds afterwards, and success if and only if every file was there and accepted its patch or had it already |
| PatchTool.AcceptedExactly | LoggerFirmware/patch.py:823-960 | where a file is accepted exactly if every hunk can be applied, or every hunk's target texts stand in it already and none was left undecided |
| PatchTool.HeadersMakeProper | LoggerFirmware/patch.py:543-583 | a parsed patch without `\` lines whose header numbers fit is a proper one |
| PatchStats.DiffStat | LoggerFirmware/patch.py:746-773 | insertions and deletions per file and the change in bytes, as the loops count them |
| PatchStats.InsertedAndDeleted | LoggerFirmware/patch.py:758-768 | the insertions are the lines with a plus, the deletions those with a minus |
| PatchStats.StatisticsAreGrowth | LoggerFirmware/patch.py:746-800 | the patched file has exactly as many lines more as the statistics say; in bytes it grows by what they say, by what the change of line ends adds, and by what the lines never compared were short of the old texts; and those were right if and only if the file with the old texts written in is the file itself |
| PatchStats.NothingConverted | LoggerFirmware/patch.py:1087-1092 | no change of line ends when the hunks' lines end as the file's do |
| Frames.ReadBack | wibl-python/src/wibl/core/logger_file.py:1876-1888 | a file of packets reads back as exactly those packets, in order |
| Frames.EncodedBytes | DataSimulator/serialisation.cpp:224-230 | a packet's bytes: its id and the size of its payload as four bytes each, the least significant first, and its payload |
| Frames.BytesDeterminePackets | DataSimulator/serialisation.cpp:224-230 | two packet lists with the same bytes are the same list |
| Frames.CutFileReadsPrefix | wibl-python/src/wibl/core/logger_file.py:1876-1888 | a file cut off anywhere reads back as a prefix of its packets, and at most one shortened packet |
| SerialisableModel.Serialisable.EnsureSpace | LoggerFirmware/src/serialisation.cpp:61-75 | the buffer grows and keeps its contents |
| SerialisableModel.Serialisable.Append | LogConvert/src/serialisation.cpp:60-169 | an append adds exactly the bytes, and stays inside the buffer if and only if they fit after doubling once (or, in the firmware, always) |
| SerialisableModel.RunContents | LogConvert/src/serialisation.cpp:60-169 | a run of appends stays inside the buffer if and only if each of them does, and then leaves all their bytes there in order |
| SerialisableModel.ShortAppendsStayInside | DataSimulator/serialisation.cpp:64-173 | a run whose appends are each no longer than the buffer has grown by then never leaves it |
| SerialisableModel.FirmwareStaysInside | LoggerFirmware/src/serialisation.cpp:61-75 | the firmware's rule for growing never leaves the buffer |
| SerialisableModel.LongAppendLeaves | LogConvert/src/serialisation.cpp:60-73 | doubling once is not always enough: a run stays inside if and only if at every append what is used and what comes fit into twice the length of the buffer at that moment |
| LogManager.NameGivesNumber | LoggerFirmware/src/LogManager.cpp:724-747 | a log's file name gives back its number, with or without the directory |
| LogManager.DirectoryGivesLogs | LoggerFirmware/src/LogManager.cpp:821-841 | counting a directory finds exactly the logs, whatever snapshots are stored beside them |
| LogManager.Card.Count | LoggerFirmware/src/LogManager.cpp:821-841 | the loop over the directory collects those numbers, in its order |
| LogManager.Card.WalkForNumber | LoggerFirmware/src/LogManager.cpp:705-715 | the directory walk finds the first number without a file, zero if there is none |
| LogManager.Inventory.Reinitialise | LoggerFirmware/src/LogManager.cpp:99-121 | rebuilt from the directory, in whatever order it is read, the cache is what is on the card |
| LogManager.Inventory.Update | LoggerFirmware/src/LogManager.cpp:133-147 | one number is brought up to date, no other is touched |
| LogManager.Inventory.Lookup | LoggerFirmware/src/LogManager.cpp:123-131 | found exactly when the number is in range and its cached size is not zero |
| LogManager.Inventory.RemoveLogFile | LoggerFirmware/src/LogManager.cpp:149-155 | clears one number |
| LogManager.Inventory.CountLogFiles | LoggerFirmware/src/LogManager.cpp:157-167 | the numbers with a cached size, ascending |
| UploadModel.ListedExactly | LoggerFirmware/src/LogManager.cpp:157-167 | which are all numbers with a cached size and no others |
| LogManager.Inventory.GetNextLogNumber | LoggerFirmware/src/LogManager.cpp:178-188 | the first number with no cached size, zero if there is none |
| LogManager.Manager.StartNewLog | LoggerFirmware/src/LogManager.cpp:435-463 | a new log: its number, its header packets, the log it may replace, and the request flag cleared |
| LogTheorems.StartedReadsBack | LoggerFirmware/src/LogManager.cpp:435-463 | a new log reads as exactly the packets it was started with |
| LogManager.Manager.CloseLogfile | LoggerFirmware/src/LogManager.cpp:470-476 | closing brings the number into the cache |
| LogManager.Manager.RemoveLogFile | LoggerFirmware/src/LogManager.cpp:487-500 | a file that could be removed leaves card and cache; otherwise nothing changes |
| LogManager.Manager.RemoveAllLogfiles | LoggerFirmware/src/LogManager.cpp:507-531 | closes, removes what the cache lists file by file, and starts anew |
| UploadCycles.EraseAllErases | LoggerFirmware/src/LogManager.cpp:507-531 | afterwards the card holds the new log, and of the others just those that the file system would not remove, unchanged |
| LogManager.Manager.Record | LoggerFirmware/src/LogManager.cpp:592-602 | a packet goes to the open file, which is changed for a new one once it is over the limit |
| LogManager.Manager.EmitNoDataReject | LoggerFirmware/src/LogManager.cpp:669-675 | the request is written once per file |
| LogTheorems.RequestReadsBack | wibl-python/src/wibl/core/logger_file.py:1336-1346 | the reader of requests finds the algorithm and its parameters in it |
| LogManager.Manager.HandleMessage | LoggerFirmware/src/N2kLogger.cpp:256-617 | a packet without data has the request written before it |
| LogManager.UploadManager.TransferFile | LoggerFirmware/src/AutoUpload.cpp:185-252 | success only for code 200 with status "success" |
| LogManager.UploadManager.UploadFile | LoggerFirmware/src/AutoUpload.cpp:84-93 | one file: removed from the card if and only if the server acknowledged it and the removal works |
| LogManager.UploadManager.UploadCycle | LoggerFirmware/src/AutoUpload.cpp:68-102 | one cycle: the interval, the status report, the files in order, removal after acknowledgement, and the early end |
| UploadCycles.CycleWaits | LoggerFirmware/src/AutoUpload.cpp:70-73 | once a cycle was due, calls before an interval has passed do nothing and offer nothing; also when there was nothing to upload or the report failed |
| UploadCycles.CyclesApart | LoggerFirmware/src/AutoUpload.cpp:70-73 | over any run with a clock that does not go back: two uploads that change anything or offer a file start an interval apart at least |
| UploadCycles.ElapsedWraps | LoggerFirmware/src/AutoUpload.cpp:72 | the time between two readings is right also where the clock has started again at zero between them |
| UploadCycles.IdleCycle | LoggerFirmware/src/AutoUpload.cpp:75-84 | with nothing to upload, or no answer to the report, a cycle changes nothing but its time |
| UploadCycles.EndsInTime | LoggerFirmware/src/AutoUpload.cpp:87-101 | a cycle handles the files in their order and ends behind the first that took it over its duration, or with the last |
| UploadCycles.WorkingCycleUploads | LoggerFirmware/src/AutoUpload.cpp:68-102 | a cycle that is due, on time and answered removes every closed log of at most 20 MB whose exchange works, and its bytes are in the bucket |
| UploadModel.Server.FileTransfer | UploadServer/wibl-monitor.go:187-293 | the handler with its early returns: the bucket gains the body if and only if it has the announced digest and the services up to the upload work, and nothing else ever; success is reported if and only if it gained it and the last two services work as well |
| UploadCycles.RunIsAnnounced | UploadServer/wibl-monitor.go:187-293 | over any run: what gets into the bucket was handed over in an attempt of the run, with the size and the digest that the inventory had for the file |
| UploadSafety.TransferWhole | LoggerFirmware/src/AutoUpload.cpp:185-252 | a successful transfer of a coherently cached closed file leaves exactly its bytes in the bucket, if the body the server was handed is not mistaken for the file |
| UploadSafety.OwnIsGenuine | LoggerFirmware/src/AutoUpload.cpp:205-207 | a body that is what the logger sent is never mistaken |
| UploadSafety.CycleSound | LoggerFirmware/src/AutoUpload.cpp:68-102 | a whole cycle keeps the store sound, whatever the network and the server do |
| UploadSafety.CycleStored | LoggerFirmware/src/AutoUpload.cpp:68-102 | and every closed log removed by it is whole in the bucket, if no body handed over in it is mistaken |
| LogSafety.BootSound | LoggerFirmware/src/LogManager.cpp:99-121 | a freshly built inventory is coherent with the card |
| LogSafety.ClosedSound | LoggerFirmware/src/LogManager.cpp:470-476 | closing keeps the store sound and makes the closed number coherent |
| LogSafety.StartedSound | LoggerFirmware/src/LogManager.cpp:435-463 | starting a log keeps it sound, also when it replaces one |
| LogSafety.WrittenSound | LoggerFirmware/src/LogManager.cpp:592-602 | writing to the open log keeps it sound |
| LogSafety.RemovedSound | LoggerFirmware/src/LogManager.cpp:487-500 | removing a file, even the open one, keeps it sound |
| LogRuns.ActRunning | LoggerFirmware/src/LogManager.cpp:435-531 | every action, from recording to an upload with failures anywhere, keeps a running logger running, with no assumption on digests |
| LogRuns.RunStored | LoggerFirmware/src/AutoUpload.cpp:68-102 | over any run, what was removed after its upload is in the bucket |
| LogHistory.FromBoot | LoggerFirmware/src/LogManager.cpp:435-531 | every run from boot is one of a running logger |
| LogHistory.CoherentFromBoot | LoggerFirmware/src/LogManager.cpp:99-155 | inventory coherence: in every reachable state, for every number but the open one, the cached size is the size on the card, and the cached hash of a file is the hash of its contents |
| LogHistory.NextNumber | LoggerFirmware/src/LogManager.cpp:688-715 | whenever no log is open the inventory and the directory walk agree on the next number; a log is replaced only if every number is taken, and then it is number zero |
| LogFates.RotationNumber | LoggerFirmware/src/LogManager.cpp:688-715 | so it is whenever any action of any run starts a log: rotation inside recording, the step command, or erasing all |
| LogFates.RunCauses | LoggerFirmware/src/LogManager.cpp:487-531 | over any run: a closed log is erased only if a command to erase its number or all was given, and overwritten only if it is number zero and a log was started with all thousand numbers on the card |
| LogFates.Conservation | LoggerFirmware/src/AutoUpload.cpp:68-102 | over any continuation of any run: every closed log is afterwards on the card unchanged, or whole in the bucket, or was erased by a command of the run, or is number zero and was overwritten with the table full |
| LogFates.ConservationUngarbled | LoggerFirmware/src/AutoUpload.cpp:68-102 | and over a connection that garbles nothing the same, with no assumption on digests |
| LogTheorems.RotationKeepsPackets | LoggerFirmware/src/LogManager.cpp:592-602 | over any run from boot: the files in order of creation, less headers and requests, hold exactly the packets recorded, in order; in each file every packet without data has the request before it, and there is at most one |
| LogTheorems.LogReadsBack | wibl-python/src/wibl/core/logger_file.py:1876-1888 | the file reader gets exactly the packets of a log from its bytes |
| LogLimits.RequestOvershoots | LoggerFirmware/src/LogManager.cpp:592-602 | which file an action closes above the limit by more than its last packet: exactly if the action is a packet without data, the file has no request yet, and 37 bytes more would exceed the limit; the excess is then at most a request, and the action does close the file |
| LogLimits.ActWithin | LoggerFirmware/src/LogManager.cpp:592-602 | between actions the open file is within the limit |
| LogLimits.SizeBound | LoggerFirmware/src/LogManager.cpp:592-602 | over any run: of the logs open at its start or made in it, exactly those exceed the limit by more than their last packet that were open at such an action; none does by more than 37 bytes beside it |
| LogLimits.BootSteady | LoggerFirmware/src/LogManager.cpp:435-463 | a logger that has just started is in the states this is about |
| LogLimits.LimitIsReached | LoggerFirmware/src/LogManager.cpp:592-602 | the excess is reached from boot, from any card, with one sentence of at most 25 characters recorded as often as it fits |
| OpenLog.SomeExchangeRemoves | LoggerFirmware/src/AutoUpload.cpp:185-252 | over a connection that garbles nothing, some exchange removes a file if and only if the inventory's size and digest are those of a beginning of the file |
| OpenLog.SomeCycleTakesOpen | LoggerFirmware/src/AutoUpload.cpp:68-102 | and some cycle removes the open log's file if and only if the inventory lists its number, and so |
| OpenLog.HashedMatches | LoggerFirmware/src/LogManager.cpp:616-624 | hashing the open log brings that about |
| OpenLog.WrittenMatches | LoggerFirmware/src/LogManager.cpp:592-602 | and writing to it does not undo it |
| OpenLog.ReplacedIsCached | LoggerFirmware/src/LogManager.cpp:435-463 | a log that replaces another starts with the other's size and digest in the inventory |
| OpenLog.ReplacedLogStays | LoggerFirmware/src/AutoUpload.cpp:194-216 | no cycle removes it unless the replaced contents are how its own begin |
| OpenLog.StartUnlisted | LoggerFirmware/src/LogManager.cpp:178-188 | a new log is unknown to the inventory exactly when some number was free |
| OpenLog.CycleSparesOpen | LoggerFirmware/src/AutoUpload.cpp:80-102 | an upload cycle leaves the open log alone if the inventory does not list it, whatever the server is handed |
| OpenLog.RunSparesOpen | LoggerFirmware/src/AutoUpload.cpp:80-102 | over any run that never hashes the open log and starts logs only while a number is free, no upload removes an open log |
| OpenLog.RunCuts | LoggerFirmware/src/AutoUpload.cpp:80-102 | over any run on connections that garble nothing: a log is cut short only by an upload at which it is the open one and the inventory lists it with the size and digest of a beginning of its file |
| OpenLog.ListedOpenLogIsLost | LoggerFirmware/src/LogManager.cpp:616-624 | hashing the open log and recording one packet more: an exchange then removes it with that packet nowhere else |
| Receiver.IncBuffer.AddCharacter | LoggerFirmware/include/IncrementalBuffer.h:66-73 | a character is added unless only the place of the final NUL is left |
| Receiver.IncBuffer.RemoveLastCharacter | LoggerFirmware/include/IncrementalBuffer.h:80-85 | takes the last character off, if there is one |
| Receiver.IncBuffer.Reset | LoggerFirmware/include/IncrementalBuffer.h:92-96 | empties the buffer in place |
| Receiver.IncBuffer.ResetLength | LoggerFirmware/include/IncrementalBuffer.h:106-112 | a new empty buffer of the given length |
| Receiver.MessageAssembler.AddCharacter | LoggerFirmware/src/N0183Logger.cpp:114-242 | one character: the two states, the copy into the ring that shares the text, and giving up an over-long sentence |
| Receiver.MessageAssembler.NextSentence | LoggerFirmware/src/N0183Logger.cpp:250-258 | nothing when the two positions meet, else the slot at the read position |
| Nmea0183.FramedInOrder | LoggerFirmware/src/N0183Logger.cpp:114-242 | the sentences captured are all the stretches from a `$` to a line feed with neither between, carriage returns removed, of at most 127 characters: each once, in the order in which they end |
| Nmea0183.FramedExactly | LoggerFirmware/src/N0183Logger.cpp:114-242 | so a sentence is captured if and only if it stands in the input in this way |
| ReceiverTheorems.FirstTracks | LoggerFirmware/src/N0183Logger.cpp:97-101 | a new assembler agrees with no input |
| ReceiverTheorems.TookTracks | LoggerFirmware/src/N0183Logger.cpp:114-242 | the assembler and that definition agree after every character: state, buffer, time, and the last ten sentences in the ring |
| ReceiverTheorems.ReadHolds | LoggerFirmware/src/N0183Logger.cpp:250-258 | what the ring gives: none when a multiple of ten is outstanding, else the oldest of the last (outstanding mod 10), by time and length |
| ReceiverTheorems.Logger.ProcessMessages | LoggerFirmware/src/N0183Logger.cpp:381-416 | one call logs exactly the outstanding sentences that pass filter and checksum, all with the text the buffer holds by then, and leaves the ring empty |
| ReceiverBatches.BatchLogsLast | LoggerFirmware/src/N0183Logger.cpp:381-416 | from an empty ring, a batch that completes k sentences has its last k mod 10 handled, in order: all up to nine, none of ten |
| ReceiverBatches.LoggedText | LoggerFirmware/src/N0183Logger.cpp:181 | what is logged for a sentence is its time with the text of the buffer, unless that text is filtered out or its `*` with a right checksum is not among as many characters as the sentence has |
| ReceiverBatches.OwnTextIff | LoggerFirmware/src/N0183Logger.cpp:181 | a sentence is logged with its own text if and only if the buffer still holds that text, and it passes filter and checksum |
| ReceiverBatches.BatchOwnTexts | LoggerFirmware/src/N0183Logger.cpp:381-416 | for any batch: each of its last k mod 10 sentences is judged by the text the buffer holds at the end and logged, if at all, with that text; with its own if and only if that is the same text and passes |
| ReceiverBatches.LiveIsLast | LoggerFirmware/src/N0183Logger.cpp:181 | which is the text of the very last sentence when the batch ends before the next `$` |
| ReceiverBatches.BatchLost | LoggerFirmware/src/N0183Logger.cpp:381-416 | a batch that ends inside the next sentence, before its `*`, logs nothing: all its sentences are lost |
| ReceiverBatches.SecondLoggedTwice | LoggerFirmware/src/N0183Logger.cpp:181 | two built messages of any lengths in one batch: the first's text is not logged; the second's is, and a second time, with the first's time, if and only if the first is long enough to reach the second's `*` |
| ReceiverBatches.EndToEnd | DataSimulator/Simulator.cpp:351-359 | a message built by the generator and received in its own batch, behind any input, is logged once, with its text and time, unless filtered out |
| Checksum.ComputeChecksum | DataSimulator/Simulator.cpp:351-359 | the exclusive-or of everything between the first and last character |
| Checksum.BuildSentence | DataSimulator/Simulator.cpp:429-431 | a message with its checksum and line end |
| Checksum.HexExactly | DataSimulator/Simulator.cpp:408 | its two digits are read as the checksum, and no others are, by a reader of hexadecimal of its own |
| Checksum.Valid | LoggerFirmware/src/N0183Logger.cpp:49-71 | the loop, the printable test and the comparison of four characters decide `IsValid` |
| Checksum.ValidIffChecked | LoggerFirmware/src/N0183Logger.cpp:49-71 | a sentence is valid exactly when it is a payload of characters from blank to `~` without `*`, then `*`, two upper-case hexadecimal digits that stand for the payload's exclusive-or, and the end of the string |
| Checksum.ValidAtLength | LoggerFirmware/src/N0183Logger.cpp:49-71 | judged by the length of another sentence, the text in the buffer is valid exactly when it has this form with its `*` among that many characters |
| Checksum.BuiltIsValid | DataSimulator/Simulator.cpp:403-408 | what the generators build is valid |
| Checksum.OneErrorIsFound | LoggerFirmware/src/N0183Logger.cpp:49-71 | any one wrong character behind the leading `$` makes a built sentence invalid |
| Checksum.ReadsExactly | LogConvert/src/TeamSurvSource.cpp:65 | the reads are the file in order, each up to a line feed, or as long as the buffer takes, or up to the end of the file |
| Checksum.TeamSurvSource.NextPacket | LogConvert/src/TeamSurvSource.cpp:60-91 | the loop returns the first acceptable read, less its last two characters, and drops those before it; with a `char` that has a sign and one that has none |
| Checksum.SumInFull | LogConvert/src/TeamSurvSource.cpp:73-81 | what the end of the line is compared with is the 32-bit exclusive-or of the characters, signed or not, printed in full and cut off behind two characters |
| Checksum.ChecksAgree | LogConvert/src/TeamSurvSource.cpp:60-91 | for printable sentences: TeamSurv accepts none of nine characters or fewer; of longer ones the logger accepts exactly what TeamSurv accepts and has no other `*` in the payload |
| Checksum.StarInPayload | LogConvert/src/TeamSurvSource.cpp:73-81 | a sentence that TeamSurv accepts and the logger rejects |
| IdFilter.N0183IDStore.AddIDs | LoggerFirmware/src/NVMFile.cpp:428-468 | appends exactly the three-character words of the message, in order |
| IdFilter.N0183IDStore.BuildSet | LoggerFirmware/src/NVMFile.cpp:505-515 | the set of the stored identifiers, whatever was in it before |
| IdFilter.N0183IDStore.ClearIDList | LoggerFirmware/src/NVMFile.cpp:473-478 | an empty list |
| IdFilter.ClearAndAdd | LoggerFirmware/src/NVMFile.cpp:428-478 | a clear, any commands in order, and the set built then |
| IdFilter.WordsExactly | LoggerFirmware/src/NVMFile.cpp:441-459 | splitting finds exactly the stretches bounded by spaces or the ends |
| IdFilter.StoredExactly | LoggerFirmware/src/NVMFile.cpp:428-478 | after a clear and any commands, what is stored is exactly the three-character words they supplied |
| IdFilter.DroppedExactly | LoggerFirmware/src/N0183Logger.cpp:366-370 | a sentence is dropped if and only if some identifier was supplied and its own was not |
| IdFilter.BuiltDropped | LoggerFirmware/src/N0183Logger.cpp:366-370 | for a message of any talker the identifier that counts is the three characters behind the talker |
| Simulator.ComponentDateTime.Update | DataSimulator/Simulator.cpp:200-222 | the cascade, which carries at most one minute, is the function `Advanced` |
| Simulator.FromTicksUnique | DataSimulator/Simulator.h:122-143 | the broken-out time is the one whose fields are in range and add up to the ticks |
| Simulator.AdvancedKeepsTime | DataSimulator/Simulator.cpp:200-222 | an update conserves time for any step; the fields stay in range if and only if the seconds and the step are less than two minutes together |
| Simulator.AdvancedIsRight | DataSimulator/Simulator.cpp:200-222 | a step of at most a minute keeps the clock right |
| Simulator.SecondsAreOfDay | DataSimulator/Simulator.cpp:238-241 | seconds since midnight are the ticks less whole days |
| Simulator.DateAdvances | DataSimulator/Simulator.cpp:229-232 | the date moves on by one day, except that it skips one at the end of a year that leaves remainder one when divided by four |
| Simulator.DateIsRight | DataSimulator/Simulator.cpp:229-232 | the date is the calendar's number of days since 1970, but one short in years that leave remainder one when divided by four; up to 2100 |
| Simulator.LeapsCounted | DataSimulator/Simulator.cpp:453-470 | leap years are every fourth, not every hundredth, but every four hundredth: a closed count of those before a year |
| Simulator.Generator.ToDayMonth | DataSimulator/Simulator.cpp:448-486 | a month and a day that are in the calendar and stand for the day of the year; the shared table is restored |
| Simulator.DayMonthUnique | DataSimulator/Simulator.cpp:448-486 | no other month and day stand for it |
| SimulatorEngine.Engine.StepEngine | DataSimulator/Simulator.cpp:700-722 | one step, with its three streams and what it emits, in order |
| SimulatorEngine.Engine.StepDepth | DataSimulator/Simulator.cpp:642-652 | a depth event when it is due, and the next one to two seconds later |
| SimulatorEngine.Engine.StepPosition | DataSimulator/Simulator.cpp:659-674 | a position event when it is due, and the next a second later |
| SimulatorEngine.Engine.StepTime | DataSimulator/Simulator.cpp:681-690 | a time event when it is due, the reference clock moved to it, and the next a second later |
| SimulatorEngine.StepSteady | DataSimulator/Simulator.cpp:642-722 | in every reachable state: time strictly increases, by a second at most; time and position events coincide, on whole seconds; depth events are on time and one to two seconds apart; both clocks are right |
| SimulatorEngine.RunEmits | DataSimulator/Simulator.cpp:700-722 | over any run: one time and one position packet for every whole second, none missed and none twice; depth packets from the start on, one to two seconds apart |
| SimulatorEngine.RunInOrder | DataSimulator/Simulator.cpp:700-722 | packets come out in the order of their times, and at one time the time packet first, then the position, then the depth |
| SimulatorEngine.RunDrawn | DataSimulator/Simulator.cpp:642-652 | each depth is a second and the share drawn at the one before behind it, and no other draw matters |
| SimulatorEngine.After | DataSimulator/Simulator.cpp:642-722 | the state after any number of steps and any draws is of this kind |
| SimulatorEngine.ReachedInRange | DataSimulator/Simulator.cpp:448-486 | in every reachable state the fields are in range and add up to the ticks, so the calendar is never asked for a day it lacks |
| SimulatorEngine.Simulate | DataSimulator/simulate_data.cpp:98-105 | the main loop ends: for D ticks after at least ceil(D / CLOCKS_PER_SEC) and at most 2 * ceil(D / CLOCKS_PER_SEC) - 1 rounds, none for D = 0 |
| CanId.DecodesAlike | LogConvert/src/YDVRSource.cpp:63-81 | two identifiers decode alike if and only if they agree on the 29 bits less bit 25 |
| CanId.FieldsOfBytes | LogConvert/src/YDVRSource.cpp:63-82 | the fields in the numbers of the four bytes: source, priority, page and format; below format 240 the second byte is the destination and no part of the PGN, from 240 on it is its low byte and the packet is for everybody |
| CanId.ControlExactly | LogConvert/src/YDVRSource.cpp:104-111 | four bytes of ones are a packet of the recorder, of eight bytes, and no other packet has its PGN |
| CanId.RequestTakesThree | LogConvert/src/YDVRSource.cpp:117-119 | a request to any address takes six bytes of header and three of data |
| CanId.LengthRule | LogConvert/src/YDVRSource.cpp:117-130 | what any packet takes of the file, by its PGN |
| CanId.DecodeKeepsUsedBits | LogConvert/src/YDVRSource.cpp:63-81 | decoding can be undone on those bits |
| CanId.TagUnpacks | LogConvert/src/logconvert.cpp:341-342 | the tag is PGN times 256 and source; it gives both back, and no decoded packet shows as a control packet |
| CanId.YDVRSource.NextPacket | LogConvert/src/YDVRSource.cpp:92-141 | one packet off the file: the length rule, the end of the file, and the packet that is too large |
| CanId.StoredReadsBack | LogConvert/src/YDVRSource.cpp:92-141 | a file of stored packets reads back as exactly those packets |
| Conversion.Serialiser.Process | LogConvert/src/serialisation.cpp:226-243 | version and metadata go before the first packet; the version's own identifier is refused |
| Conversion.Converter.Convert | LogConvert/src/logconvert.cpp:336-387 | the conversion loop, with all its counters and maps |
| Conversion.TotalsAgree | LogConvert/src/logconvert.cpp:336-387 | the totals by PGN, by source and by pair, and the packet counter, are the number of packets; each of the other counters is the number of packets of its kind: control, rejected, without data, converted, refused |
| Conversion.MapsCount | LogConvert/src/logconvert.cpp:339-343 | each PGN and each source is counted as often as it occurs |
| Conversion.OutputData | LogConvert/src/logconvert.cpp:349-381 | the output, less its headers and the request, is exactly the packets converted from accepted sources, in order |
| Conversion.PairsGroup | LogConvert/src/logconvert.cpp:457-460 | the counts by pair add up, for each source, to that source's count, and for each PGN shown, to that PGN's count |
| Conversion.FileIsDecoded | LogConvert/src/YDVRSource.cpp:92-141 | the packets of any file are of the kind those sums need |
| Conversion.OutputShape | LogConvert/src/serialisation.cpp:226-243 | a non-empty output starts with one version packet and the base metadata and has no other version packet; the request is made at most once, before the first packet without data |
| Tallies.SumBump | LogConvert/src/logconvert.cpp:339-343 | counting one more raises the sum of a map of counts by one |

## Left out

- Hunks without source lines or without target lines and `\ No newline` markers are outside `Proper`; the parser, the stream and `Validate` do handle them as the code does. Of a file with mixed line ends, or without one at its end, only what `PatchTexts` says is proved.
- PatchApply.Validate: for hunks that are not in order only the counters' range is stated, because the loop then skips hunks.
- PatchRoundTrip.PrintThenParse: where a layout has no descriptions, as `dump`'s, they come back empty.
- PatchRecovery.BrokenHunkIsolated: one broken hunk, whose header announces some line; of streams with other errors only `SuccessIsDiff` is proved, that they are not reported as a success.
- PatchRevert.Apply: for hunks that are not in order only what `Validate` states is known of the decision.
- PatchAgain.SecondApplyRefuses: a sufficient condition; the exact one is `SecondApplyRepeats`.
- PatchTool.RunTool: each patch has a file of its own; two patches of one file are not modelled, and nothing is stated when some hunks are out of order.
- Of `patch.py`: type detection, path normalisation, fetching by URL, warnings, the histogram of `diffstat`, file names on disk, and what happens when writing fails.
- LogFates.Conservation: a log that is open at the chosen moment is not covered; `SomeCycleTakesOpen` says when an upload removes it, and `RunSparesOpen` when none can.
- OpenLog.ReplacedLogStays: the other half is `SomeCycleTakesOpen`; an old log whose contents the new one repeats from the start can match.
- LogManager.UploadManager.UploadCycle: a list of exchanges shorter than the list of files stands for a cycle that is cut off there.
- LogManager.Manager.RemoveLogFile: a file removed while it is being written is out of the directory and can still be written, as on a file system that unlinks.
- UploadSafety.TransferWhole: rests on `Genuine` for the one body, and on a server that hands its handler a body only when all announced bytes have come.
- UploadModel.Server.FileTransfer: the bucket keeps every body under a name of its own; that file identifiers never repeat is taken for granted.
- The firmware without an inventory, upload counts, console logs, the JSON file list (taken to be complete), and what the `transfer` command sends; its effect on the inventory is the action `HashFile`.
- Failing to open or to write a file; log files are never empty and are numbered below the table's size when the logger boots.
- Counters of 32 bits (packet and size counts) and of 64 bits (ticks) do not wrap; the clock of the upload cycle does.
- ReceiverTheorems.Logger.ProcessMessages: one channel; the other is the same, after it. Debug output, polarity correction and metrics are left out.
- Checksum.TeamSurvSource.NextPacket: a read error that is not the end of the file, on which the code tests its old buffer again, is not modelled.
- CanId.YDVRSource.NextPacket: a file that ends inside the two bytes before a stored length ends the reading; the code goes on with an unset length there. The largest packet, 223 bytes, is the NMEA2000 library's, which is not part of this model.
- Conversion.Converter.Convert: the parsing of NMEA2000 fields is the library's; a packet comes with its converted form, if any, and whether a field lacks data. Product information and the printed tables are left out, and so is the conversion of NMEA0183 files.
- Conversion.OutputShape: the sizes of the buffers the packets were built in are the subject of `SerialisableModel`.
- Floating point: the clock is exact, depth, position and the Gaussian generator are left out.
- Simulator.DateAdvances: days are not reduced to sixteen bits.
- IdFilter.N0183IDStore.AddIDs: the capacity of the JSON document is not modelled.
- `HardwareSimulator`, user interfaces, web pages, cloud processing, and hardware drivers.
