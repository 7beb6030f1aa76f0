# Verified models of the recovery system's storage, archive and update code

This project models, in Dafny, the parts of the recovery system whose correctness is hardest to
see by reading them, and proves what each part is for.

Flash (`Flash`, `Chunks`, `WriterModel`, `MtdWriter`, `MtdReader`, `FlashImage`, `FlashImageRun`,
`FlashRoundTrip`, `UpdateLayout`, `UpdatePower`, `UpdateHeader`, `UpdateImage`, `UpdateOutcome`). A partition is an array of erase blocks;
each erase, block write and block read is one atomic step that meets the next of an arbitrary list of
fates (it works, or it fails and leaves arbitrary contents behind), and when the list ends the power is
gone. The writer and reader contexts are classes with the fields of the source. `WriterModel` says what
becomes of a writer as a function of these fates alone, and the methods of the class are proved equal to
it for every pattern of failures, so that what follows is about that function. On top stand the program
that writes an image with its header last, for which every interruption point and every series of
interrupted runs is covered, and the writer of firmware updates for the bootloader.

Archives (`HashTable`, `Words`, `ZipNames`, `ZipArchive`, `ZipLayout`, `ZipExtract`, `Verifier`, `Manifest`). The
open-addressing hash table refines a finite map over whole runs of operations; the zip parser sorts by
binary insertion and its index answers like a linear search; an archive writer shows that parsing finds
exactly what was written; the extraction loop that stops early selects what a full scan selects; the
manifest check accepts an archive if and only if every file that is not exempt by its name has its digest
in the manifest, and a manifest writer shows what the reader makes of its lines.

Permissions (`Permissions`, `FileTree`). The compiler from a directory tree and a permission table to a
short list of commands, the commands as the device runs them system call by system call, and what
running the compiled script gives each object: its permissions from the table, with the exact condition.

Restarting (`BcbArgs`, `RestartProtocol`, `RestartSafety`, `RestartWipes`, `RestartProgress`,
`RestartTorn`). The arguments kept in the bootloader control block, and the protocol between recovery,
bootloader and main system, with a power failure possible between any two persistent changes and with
every read, write and formatting free to fail: the exact condition under which every point of every
series of boots is safe, the exact condition under which no wipe is lost, progress, and what changes
when a write of the control block can be cut short itself.

Smaller models: `Mbr` (partition tables on eMMC), `Edify` and `FunctionTable` (the script evaluator and
its function table), `Font` (the font's run-length code). `Bytes`, `Series`, `Strtok` and
`Wrappers` are shared.

Where the source and its documentation disagree, the models follow the source:

- `write_update_for_bootloader` (bootloader.c:320, 329, 346, 357) tests `header.*_offset == -1` before
  those fields are assigned and never tests the results of `mtd_erase_blocks`. It can report success
  without the promised layout: a failed completion of the header gives a start position of -1, which the
  alignment test accepts when the second header fails in the same way; `MisplacedUpdate` is such a run.
  `UpdateRun` computes the unchecked results from what happens to the operations, `AllWell` is the
  condition on them, and `WriteUpdateForBootloader` proves that a reported success is one if and only if
  it holds. `UpdateWorks` shows that power failures and factory-bad blocks alone never break it.
- `flash_image` (mtdutils/flash_image.c:108-138) writes the header again without looking where it went
  before. If a block wears out between the two passes, the header goes to the next one, over other contents,
  and the program reports success; `HeaderMoves` is such a run. `Run` gives the exact result for every
  pattern of failures, and `FlashedInPlace` says when success means a complete image.
- `mzExtractRecursive` (minzip/Zip.c:1124) keeps a second `ok` inside the file branch, so a file that
  cannot be extracted or touched ends the loop with the result true. `CopyDir` states exactly when
  success is reported and when with files missing, and `FileIsMissed` is the smallest such archive.
- `mmc_find_partition_by_device_index` (mmcutils/mmcutils.c:344) compares its argument with itself and
  returns the first named partition. `FindByDeviceIndex` states when that is the one asked for, and
  `NamedDeviceMissed` when it is not.
- `verifyArchive` (verifier.c:279-289) goes on after an unexpected continuation line and formats a null
  pointer; the model uses "(null)", as the C libraries in question print it. Its test for signature
  files compares nine bytes of names that may be shorter (verifier.c:253); `SignatureByName` shows that
  this matters for the empty name only, and `EmptyNameByNeighbours` that it does for that.
- `walk_files` (tools/ota/make-update-script.c:93-151) uses -1 for defaults that match nothing. A table
  with -1 in all three places for the top directory loses that permission, unless its first file or
  subdirectory is a file whose permission differs; `TableIsSetIff` is that condition.
- The restart protocol (recovery.c:82-125) needs more than it says. `Allowed` is the exact condition for a
  boot to be safe at every point, over everything that can fail in it: without a file system in the cache
  only a wipe may be put on record, the cache is only formatted with a wipe on record, the control block is
  only cleared with a file system, and the bootloader is only sent to a complete image. `get_args`
  ignores the results of reading and writing the control block (recovery.c:168-170, 226-228), so each part
  can fail; `EachMishapIsFatal`, `LongFileIsFatal` (a command file too long for the field, cut by `strlcat`)
  and `UnreadBlockIsFatal` are concrete boots. `BootsAreSafe` proves the condition exact over every series
  of boots. That a wipe on record is carried out needs another condition, `Keeps`, which `NoWipeIsLost`
  proves exact; `UnreadBlockLosesWipe` is a boot that is safe and loses one.
- These conditions take a write of the control block for one step. On flash the block is erased first
  (mtdutils/mtdutils.c:428-452). `TornBootIsSafe` proves what is left when the power can fail in between:
  boots that start with a file system in the cache and tell the bootloader about no image stay as safe as
  they were, and no firmware update that reaches the bootloader is safe at every point.
- `greater_than_int` (edify/expr.c:308-321) evaluates its second argument first.

## Model

| member | source | states |
|---|---|---|
| MtdWriter.MtdWriteContext.TryBlock | mtdutils/mtdutils.c:428-452 | one attempt erases, writes and reads back; for every pattern of failures it succeeds exactly when all three work and the data is there, and leaves the file offset where the last of them left it |
| MtdWriter.MtdWriteContext.RetryBlock | mtdutils/mtdutils.c:426-464 | two attempts, then one more erase; no other block changes; under power cuts alone it does the erase and the write, or a prefix of them |
| MtdWriter.MtdWriteContext.PutBlock | mtdutils/mtdutils.c:406-469 | for every pattern of failures a block lands on the first position from the file offset on that is not factory-bad and takes it within two attempts; the writer is left exactly as specified, after a refusal too |
| MtdWriter.MtdWriteContext.WriteBlock | mtdutils/mtdutils.c:406-469 | accepted blocks keep their places and contents, nothing behind the new one changes, and while only the power fails the device changes by the plan or part of it |
| MtdWriter.Accept | mtdutils/mtdutils.c:397-469 | an accepted block joins those on the device, which stay where and what they are; a refused one changes none of them |
| WriterModel.SplitGrows | mtdutils/mtdutils.c:397-404 | accepting the next position and recording those passed over keeps the partition exact |
| WriterModel.PutKeeps | mtdutils/mtdutils.c:397-469 | a block is accepted behind the others, on a block that is not factory-bad, and until one is refused accepted and skipped positions exactly partition everything before the file offset; a refusal has recorded all that was left |
| WriterModel.TwoChances | mtdutils/mtdutils.c:426-464 | a block takes the data if its first attempt works, or its second after the first failed at the erase or at reading back; after two failing erases it is erased once more and passed over |
| WriterModel.FeedKeeps | mtdutils/mtdutils.c:471-497 | the accepted blocks followed by the buffer grow by exactly the data |
| WriterModel.FeedTwice | mtdutils/mtdutils.c:471-497 | two write calls do what one call with all the data does, failures included |
| WriterModel.SectionKeeps | mtdutils/mtdutils.c:471-539 | data and the completion of its last block add exactly the blocks of the padded data |
| WriterModel.SectionWorks | mtdutils/mtdutils.c:406-539 | while only the power fails, data is written exactly if there are good blocks and operations for its blocks |
| WriterModel.PassPlaces | mtdutils/mtdutils.c:406-551 | a stream that was accepted with only factory-bad positions skipped lies on the good blocks in order |
| MtdWriter.MtdWriteContext.WriteSome | mtdutils/mtdutils.c:474-493 | one turn of the loop: feeding the writer all the data before it is feeding it the rest after it |
| MtdWriter.MtdWriteContext.WriteData | mtdutils/mtdutils.c:471-497 | fails exactly when one of the blocks finds no place, for every pattern of failures, and otherwise leaves exactly the specified writer; cut short by the power, the device holds part of the plan for the whole stream |
| MtdWriter.MtdWriteContext.Flush | mtdutils/mtdutils.c:502-508 | a partial block is completed with zeros and written, or refused and kept in the buffer |
| MtdWriter.MtdWriteContext.EraseBlocks | mtdutils/mtdutils.c:500-539 | completes a partial block and erases so many good blocks ahead of the file offset, or all of them; for every count and every pattern of failures the exact result (-1 exactly if the block is refused or the partition is too short), the exact writer, and the exact contents of every block behind |
| MtdWriter.ErasedIfWorking | mtdutils/mtdutils.c:520-536 | a good block in the range whose own erase works is erased, everything else behind the file offset is as it was |
| MtdWriter.GoodBetweenCounts | mtdutils/mtdutils.c:520-536 | each block of the range that is not factory-bad takes one operation |
| MtdWriter.MtdWriteContext.Close | mtdutils/mtdutils.c:541-551 | on success the whole stream, zero-padded to a block, is on the device |
| MtdWriter.MtdWriteContext.FindWriteStart | mtdutils/mtdutils.c:556-566 | the loop computes the position of the specification for every list |
| WriterModel.WriteStartIsFirst | mtdutils/mtdutils.c:553-566 | for an increasing list that is the least position at or after the given one that was not skipped |
| MtdReader.MtdReadContext.ReadBlock | mtdutils/mtdutils.c:282-326 | the first block from the file offset on that is good, not all zero and can be read, for every pattern of failing reads |
| MtdReader.MtdReadContext.ReadData | mtdutils/mtdutils.c:328-359 | for every pattern of failing reads, what is returned and what remains make up what remained before; it fails exactly when too little remains, and makes exactly the reads this takes |
| MtdReader.SkipUnreadable | mtdutils/mtdutils.c:292-322 | blocks that are bad or all zero do not contribute to what is read |
| MtdReader.SeenWhenWorking | mtdutils/mtdutils.c:282-326 | when the reads work, everything readable is seen |
| MtdReader.SeenBeforeCut | mtdutils/mtdutils.c:282-326 | before a power cut, a front part of it |
| Chunks.CutOfPadded | mtdutils/mtdutils.c:474-508 | a stream has one division into blocks: its complete ones and the zero-padded rest |
| Chunks.GoodIncreases | mtdutils/mtdutils.c:415-421 | good blocks are numbered in increasing order |
| Chunks.PlanPrefix | mtdutils/mtdutils.c:406-469 | the erases and writes for a longer stream begin with those for a shorter one |
| FlashRoundTrip.StoredIsReadable | mtdutils/mtdutils.c:282-326 | blocks stored in order on the good positions are the first the reader sees |
| FlashRoundTrip.WriteThenRead | mtdutils/mtdutils.c:328-551 | whatever fails while writing: bytes written by any division into write calls plus close come back unchanged for any division into read calls, if only factory-bad blocks were skipped, no block is all zero and the reads work; in any case exactly what the reader sees is returned; while only the power fails, writing succeeds if and only if there are good blocks and operations enough |
| FlashRoundTrip.WriteAll | mtdutils/mtdutils.c:471-551 | any division into write calls accepts exactly what one call would; what was accepted is on the device, on the good blocks in order if only factory-bad blocks were skipped |
| FlashRoundTrip.CompleteReadsBack | mtdutils/flash_image.c:66-138 | a complete image without all-zero blocks is what a reader finds at the front |
| FlashImage.PlanStores | mtdutils/flash_image.c:90-106 | carrying out the plan for some blocks puts each on its good position |
| FlashImage.BothPassesComplete | mtdutils/flash_image.c:90-138 | blank pass and header pass together leave all of the image on flash, for erase blocks of any size |
| FlashImage.CompleteIsRecognised | mtdutils/flash_image.c:66-88 | a complete image is recognised by its first 2048 bytes, and writing it again changes nothing |
| FlashImage.EveryCutIsSafe | mtdutils/flash_image.c:66-138 | at every interruption point the header is readable only if all of the image is on flash |
| FlashImage.InterruptedRunsAreSafe | mtdutils/flash_image.c:66-138 | the same after any number of interrupted runs |
| FlashImage.RestartCompletes | mtdutils/flash_image.c:66-138 | after any number of interrupted runs one full run completes the image |
| FlashImageRun.CheckHeader | mtdutils/flash_image.c:66-88 | for every pattern of failing reads the comparison is true exactly when what can be read begins with the header; with power, if and only if a reader finds the header |
| FlashImageRun.BlankPass | mtdutils/flash_image.c:90-106 | for every pattern of failures the pass succeeds exactly when its stream is accepted, and leaves it where it was accepted; while only the power fails it makes exactly its planned changes, or a prefix of them |
| FlashImageRun.HeaderPass | mtdutils/flash_image.c:108-138 | for every pattern of failures the pass over the blocks of the header succeeds exactly when the image is long enough and its stream is accepted, and leaves it where it was accepted; with power it fails exactly when the image ends before these blocks do or good blocks are lacking |
| FlashImageRun.RunFollowsPlan | mtdutils/flash_image.c:90-138 | all changes of a run are a prefix of the plan, and all of it when the run succeeds |
| FlashImageRun.Run | mtdutils/flash_image.c:51-141 | for every pattern of failures the exit status is the specified function of them and the blocks of the image are where the two passes put them; whenever the power fails, the program leaves what a run cut after some of its changes leaves, and when it reports success the image is complete; with power a matching header changes nothing, and it fails only for an image too short or too large |
| FlashImageRun.FlashedInPlace | mtdutils/flash_image.c:90-138 | if the header went to the same blocks in both passes, success means that all of the image is in place, on the good blocks in order if only factory-bad ones were skipped |
| FlashImageRun.HeaderMoves | mtdutils/flash_image.c:108-138 | a device on which success is reported and the header has replaced the second block of the image |
| WriterModel.SectionBlocks | bootloader.c:310-349 | the blocks a section adds are the blocks of its data, zero-padded |
| UpdateImage.AddSection | bootloader.c:301-316 | data and padding: for every pattern of failures the result, the next boundary or -1 and the writer are those of the specification; blocks already written stay |
| UpdateLayout.FirstPlaced | bootloader.c:326-349 | the offset looked up for a section is where its first block was accepted |
| UpdateLayout.CleanSection | bootloader.c:317-351 | a section between two clean boundaries gets the offset of its first block |
| UpdateLayout.TailSection | bootloader.c:344-364 | the last section, whose completion is not checked and may work only when the writer is closed: its offset is right, or lies beyond the device |
| UpdateLayout.FirstRunSections | bootloader.c:287-369 | after the first pass the sections lie at their recorded offsets, or one offset is none that a section can have |
| UpdateImage.ThreeSections | bootloader.c:314-364 | the three sections and their offsets are those of the specification, and nothing before them changes |
| UpdateLayout.SameSize | bootloader.c:374-389 | both headers take the same blocks, so that the second ends where the first did |
| UpdateImage.FirstPass | bootloader.c:287-369 | everything up to closing the first writer is as specified, for every pattern of failures; once a block has changed, the first one shows no magic number |
| UpdateLayout.HeaderPlaced | bootloader.c:380-394 | an accepted second header ends immediately before the image |
| UpdateImage.SecondPass | bootloader.c:371-394 | the second header is accepted exactly as specified and changes no section block; cut by the power, the header block is as it was, erased, or written |
| UpdateLayout.LayoutDecided | bootloader.c:274-397 | the promised layout is there if and only if the three section starts are positions and completing the last section worked or did not decide where it begins |
| UpdateLayout.MisplacedUpdate | bootloader.c:316-320 | a device on which success is reported for an update without a place for its image |
| UpdatePower.UpdateWorks | bootloader.c:274-397 | while only the power fails, success is reported if and only if there are good blocks and operations enough, and then the layout is there |
| UpdateImage.VisibleLayout | bootloader.c:366-394 | a visible magic number is that of the second header, and the sections it refers to are in place |
| UpdateImage.WriteUpdateForBootloader | bootloader.c:274-397 | for every pattern of failures the result is the specified function of them, and when it is 0 the promised layout is on the device if and only if the unchecked calls went as they had to; then, and whenever a power cut leaves a new magic number on the first block, a reader finds at their places in the stored header the lengths and dimensions given, and the byte offsets at which the sections lie |
| UpdateHeader.EncodeReads | bootloader.c:253-271 | the sixteen letters at 0 and the eleven words at 16 to 56 of the header in memory |
| UpdateHeader.LayoutIsFound | bootloader.c:326-394 | with the promised layout, the words at 24, 44 and 52 of the header on the device are the erase size times the first block of each section, whose blocks begin with its data |
| UpdateOutcome.OutcomeIsReal | bootloader.c:274-397 | the outcome the restart protocol knows follows from the operations: it is reported exactly when the result is 0, and complete exactly when the promised layout is on the device as well; while only the power fails a report is never wrong, and there is one exactly if there is enough for the image |
| UpdateOutcome.ReportCanBeWrong | bootloader.c:316-320 | on a flaky device an image is reported that is not there |
| UpdateOutcome.CommandHasLayout | firmware.c:106-128 | a run that sets the update command leaves the promised layout on the device if and only if the command is earned in the restart protocol, and always while only the power fails |
| Words.MaskIsMod | minzip/Hash.c:191 | masking with a power of two less one is the remainder |
| Words.Smear | minzip/Hash.c:38-42 | one smearing step doubles the run of leading ones |
| HashTables.RoundUpIsLeast | minzip/Hash.c:35-46 | for 1 to 2^31 the least power of two not below the argument |
| HashTables.RoundUpWraps | minzip/Hash.c:35-46 | for every other word an addition wraps and the result is 0 |
| HashTables.SizeForNeverGrows | minzip/Hash.c:26-28 | a table created with mzHashSize(n) holds n entries without growing |
| HashTables.InsertKeepsReachable | minzip/Hash.c:217-219 | filling the first gap on a probe path keeps every entry reachable |
| HashTables.RemoveKeepsReachable | minzip/Hash.c:268-272 | a tombstone keeps every entry reachable |
| HashTables.SomeEmpty | minzip/Hash.c:193-210 | the load limit leaves an empty slot, so that probing ends |
| HashTables.Probe | minzip/Hash.c:193-210 | probing stops at the first accepted or empty slot on the path from home |
| HashTables.Rehash | minzip/Hash.c:137-170 | growing keeps the contents, counts live entries exactly and drops tombstones |
| HashTables.HashTable.constructor | minzip/Hash.c:51-72 | an empty table whose size is the rounded-up power of two |
| HashTables.HashTable.Clear | minzip/Hash.c:77-97 | empties the table and hands each live entry to the free function |
| HashTables.HashTable.Find | minzip/Hash.c:179-250 | lookup without adding answers like the map |
| HashTables.HashTable.LookupOrAdd | minzip/Hash.c:179-250 | the entry already there, or else the item itself, which is then added; the table doubles exactly when entries and tombstones would exceed five eighths of it |
| HashTables.HashTable.Remove | minzip/Hash.c:255-285 | removes the item if and only if it is in the table |
| HashTables.HashTable.Foreach | minzip/Hash.c:292-308 | the callback sees the live entries in slot order up to the first nonzero result |
| HashTables.LiveDataIsContents | minzip/Hash.c:292-308 | the live entries in slot order are the values of the map, each key once |
| HashTables.LiveDataInOrder | minzip/Hash.c:292-308 | the live data are in slot order |
| HashTables.FirstNonZeroIs | minzip/Hash.c:292-308 | the result of a callback for each in turn is the first that is not 0 |
| HashTables.PerformAll | minzip/Hash.c:77-285 | over any sequence of operations all answers and the final contents are those of a finite map |
| ZipNames.CompareIsLex | minzip/Zip.c:304-322 | the comparison of the binary search is byte order with prefixes first |
| ZipNames.PrefixIsConvex | minzip/Zip.c:987-1012 | names with a common prefix are neighbours in that order |
| ZipArchives.Entry | minzip/Zip.c:256-381 | the name and the data of an accepted record lie inside the mapping |
| ZipArchives.RecordOkIff | minzip/Zip.c:256-381 | exactly which records are accepted, byte by byte |
| ZipArchives.EntryReads | minzip/Zip.c:264-388 | at which bytes of the record the fields of an entry are, and where the next record is |
| ZipArchives.LastEndIs | minzip/Zip.c:208-221 | the scan finds the last end record |
| ZipArchives.DirectoryIs | minzip/Zip.c:195-241 | which archives have a directory, and where it begins |
| ZipArchives.FindTarget | minzip/Zip.c:289-334 | the binary search ends at a place at most i that keeps the order |
| ZipArchives.InsertSorted | minzip/Zip.c:284-345 | moving the tail up and storing the entry keeps the array sorted and adds just this entry |
| ZipArchives.ReadDirectory | minzip/Zip.c:253-391 | succeeds exactly when every record is sound; the array is then a sorted arrangement of the records |
| ZipArchives.LinearFindIsFirst | minzip/Zip.c:505-512 | the reference search finds the lowest-index entry of that name, or there is none |
| ZipArchives.BuildIndex | minzip/Zip.c:394-404 | the index finds for every name its first entry, and its table never grows |
| ZipArchives.HashOfTwo | minzip/Zip.c:136-145 | the hash code of short names |
| ZipArchives.ZipArchive.Parse | minzip/Zip.c:187-423 | accepts exactly the archives whose end record and records are sound; entries sorted, index exact, each name where it was found |
| ZipArchives.ZipArchive.FindEntry | minzip/Zip.c:505-512 | answers like a linear search from the front, duplicates included |
| ZipLayout.RecordRead | minzip/Zip.c:256-381 | a central record with its local header is read as it was written, data offset included |
| ZipLayout.ArchiveReadsBack | minzip/Zip.c:187-391 | parsing finds exactly the files an archive was written from, each with its name and data |
| ZipLayout.WrittenIsFound | minzip/Zip.c:505-512 | a name is found among the parsed entries exactly when a file of that name was written |
| ZipExtract.MzPathHelper.TargetEntryPath | minzip/Zip.c:865-913 | the reused buffer never overflows and holds target directory, one slash and name remainder |
| ZipExtract.SelectedIsBelow | minzip/Zip.c:930-1012 | from a directory given with or without a slash exactly the names below it are taken, and each goes to the same place below the target directory |
| ZipExtract.SelectionEnds | minzip/Zip.c:987-1012 | after the first mismatch past a match nothing more is selected |
| ZipExtract.CompleteIffRunning | minzip/Zip.c:976-1143 | callbacks were made for all selected entries exactly when no entry failed |
| ZipExtract.TroubleDecides | minzip/Zip.c:976-1143 | the first selected entry that fails decides how the scan ends, and the callbacks are those for the entries before it |
| ZipExtract.ExtractRecursive | minzip/Zip.c:930-1149 | the loop with early exit does what the full scan does; a dry run calls back for every selected entry in order |
| ZipExtract.CopyDir | commands.c:207-296 | success is reported exactly when no selected entry fails or the first that does fails inside the file branch; callbacks are made exactly for the selected entries before it, so that success comes with files missing exactly in the second case; progress never passes the total |
| ZipExtract.FileIsMissed | minzip/Zip.c:1111-1136 | an archive of one file that cannot be written meets the second case, with none of one file done |
| Strtok.FirstPiece | recovery.c:187-196 | what strtok splits off at the front |
| Strtok.NextPiece | recovery.c:187-196 | the cursor form of strtok walks through the pieces |
| Verifier.SignatureByName | verifier.c:253-256 | for a name that is not empty the exemption of signature files depends on the name alone |
| Verifier.EmptyNameByNeighbours | verifier.c:253-256 | for the empty name the bytes around it decide: between ".RSA" and "META-INF/" the entry is exempt, otherwise not |
| Verifier.EveryFileHasItsDigest | verifier.c:233-348 | in a verified archive each file that needs a digest has exactly one, under its name and equal to that of its contents |
| Verifier.NoDuplicates | verifier.c:233-348 | in a verified archive no two such files have the same name |
| Verifier.CheckStanza | verifier.c:290-327 | a digest line is accepted exactly when it confirms an entry that was not confirmed before |
| Verifier.ScanManifest | verifier.c:263-330 | the loop over the lines: an error means the archive is not verified, otherwise the flags are exactly the entries still without a digest |
| Verifier.VerifyArchive | verifier.c:216-349 | returns true if and only if the manifest confirms the archive; for entries with names, if and only if every entry other than the manifest, empty ones whose name ends in a slash, and names that begin with META-INF/ and end in .RSA or .SF, has a stanza with its name and the digest of its contents, and every stanza is for such an entry that is intact |
| Verifier.NeedsDigestIff | verifier.c:249-259 | which entries need a digest, by name and length |
| Verifier.VerifiedIff | verifier.c:233-348 | the condition in terms of names, lengths and digests alone |
| Verifier.LineMeans | verifier.c:265-327 | what each kind of line does, by its text, and which lines end the reading with an error |
| Manifests.ManifestIsRead | verifier.c:263-330 | a manifest written from sections, with folded names and other lines, is read as their names and digests |
| Manifests.LinesAreFound | verifier.c:263-264 | lines ended by carriage return and newline are found again, up to the NUL |
| Permissions.AdoptDefaults | tools/ota/make-update-script.c:93-131 | the first file or subdirectory decides on new defaults and announces them |
| Permissions.WalkFiles | tools/ota/make-update-script.c:35-154 | the recursive walk prints the commands of the specification |
| Permissions.FittingNeedsNothing | tools/ota/make-update-script.c:66-154 | a subtree at its permissions gets no commands but those for its links |
| Permissions.UniformTakesOne | tools/ota/make-update-script.c:93-151 | a tree of one permission for directories and one for files gets one recursive command |
| Permissions.MadeUpFileMode | tools/ota/make-update-script.c:88-99 | the file mode made up from a directory's |
| Permissions.AnnounceFits | tools/ota/make-update-script.c:66-151 | after the recursive command, or without it where defaults are known, the subtree is at the carried defaults |
| Permissions.EntriesSet | tools/ota/make-update-script.c:66-143 | commands of one entry set what is in it and leave its siblings alone |
| Permissions.CompileSets | tools/ota/make-update-script.c:35-154 | from known defaults the commands give each object exactly what the table says; from unknown permissions they do so at each path exactly if a command reaches it, and leave the others alone |
| FileTrees.FileTree.SetHierarchy | minzip/DirUtil.c:224-280 | returns 0 exactly when the path exists and no system call failed, and then the whole subtree but its links is set; after a failure each object is untouched, has the new owner, or is done |
| FileTrees.FileTree.SetChildren | minzip/DirUtil.c:246-277 | the loop over a directory in any order, stopped by the first error |
| FileTrees.FileTree.Execute | commands.c:377-495 | one command succeeds exactly when it can be done and no system call fails, and then does what it means; otherwise each object is as it was, has the new owner, or is done |
| FileTrees.FileTree.RunScript | commands.c:377-495 | a script that works does what its commands mean; one that does not stops at its first failing command, with those before it done and of its own at most part |
| FileTrees.ExecIsPointwise | commands.c:377-495 | a script works exactly when it fails at no path, and acts on each path alone |
| FileTrees.ScriptSetsTable | tools/ota/make-update-script.c:35-154 | running the compiled script succeeds and leaves every directory and file that a command reaches with exactly its permissions from the table, every link in place, and nothing else changed |
| FileTrees.TableIsSetIff | tools/ota/make-update-script.c:93-151 | the script sets the whole table from any other permissions if and only if the table does not have -1 throughout for the top directory, or its first file or subdirectory is a file for which the table has something else |
| FileTrees.SentinelIsLost | tools/ota/make-update-script.c:145-151 | with a table that uses -1 itself an empty directory gets no command and keeps whatever other permission it had |
| BcbArgs.RoundTripIff | recovery.c:184-228 | arguments survive in the field if and only if they are non-empty lines, at most 99, and fit up to the last newline |
| BcbArgs.RewriteIsStable | recovery.c:184-228 | whatever was in the field, what one boot found and wrote back the next one finds again |
| BcbArgs.StableOverBoots | recovery.c:184-228 | arguments stay the same over any number of reboots, whatever the command file says |
| BcbArgs.BootMessage.ReadArgs | recovery.c:186-201 | reads at most 99 arguments after the word "recovery", or rejects the message |
| BcbArgs.BootMessage.WriteArgs | recovery.c:217-225 | writes the arguments one to a line, truncated to the field |
| BcbArgs.BootMessage.GetArgs | recovery.c:165-230 | command line before control block before command file; the choice is written back |
| BcbArgs.Precedence | recovery.c:184-215 | a command line is taken as it is, whatever the control block and the command file hold; arguments packed into the control block come before the command file |
| RestartProtocol.FirmwareUpdate.Remember | firmware.c:30-41 | only the first firmware image is remembered |
| RestartProtocol.CutAppend | firmware.c:79-135 | cutting two series of changes at one point |
| RestartProtocol.OptionMeans | recovery.c:3551-3565 | what each option does, by its text |
| RestartProtocol.FindArgs | recovery.c:165-229 | the arguments come from the control block, if it could be read and is not ignored, or else from the command file; they are written back if that works |
| RestartProtocol.MaybeInstall | firmware.c:79-135 | makes the changes of an installation in order, as far as the power lasts, and reboots exactly after the update command was set, be the image complete or only reported so |
| RestartProtocol.RecoveryMain | recovery.c:3553-3611 | get_args, which may fail to read either source or to write, the work asked for, waiting at the prompt, firmware and finishing, in this order, as far as the power lasts |
| RestartProtocol.BootOnce | firmware.c:47-77 | what the bootloader starts for each command, and that it writes the message back with the recovery field unchanged |
| RestartSafety.WipeMessageWipes | firmware.c:89-97 | the message written before the cache is destroyed is understood as a wipe, whatever intent it carries |
| RestartSafety.WipeMessageText | firmware.c:89-97 | the message by its text, with any intent that fits |
| RestartSafety.FirmwareIsSafe | firmware.c:79-135 | installing firmware is safe at every interruption point if and only if the bootloader is sent to a complete image only, and the control block is not cleared when reboot returns or the cache is left without a file system |
| RestartSafety.RecoveryIsSafe | recovery.c:3553-3611 | a run of recovery is safe at every interruption point if and only if it is Allowed; if it can clear the control block in the end it leaves it clear or an update on its way, and a wipe that can be done is done |
| RestartSafety.BootIsSafe | recovery.c:82-125 | from every safe state, whichever reads, writes, formatting and reboots fail: a boot keeps an update command only with a complete image, and a destroyed cache only while recovery will still wipe it, at every point, if and only if it is Allowed |
| RestartSafety.BootsAreSafe | recovery.c:82-125 | the same, with the same exact condition, over every series of boots, each cut at any point |
| RestartSafety.CommandIsEarned | firmware.c:106-128 | a run that sets the update command sets "update-" and the type of the first image the package gave, and does so with a complete image if and only if the image it was told about is complete; if the device reboots this is the state it leaves |
| RestartWipes.BootKeepsWipe | recovery.c:82-125 | one boot keeps a wipe that is due, wherever it is cut short, if and only if what it puts on record is a wipe again, and the wipe is carried out or the record is not cleared |
| RestartWipes.NoWipeIsLost | recovery.c:82-125 | over every series of boots, each cut at any point, a wipe on record is carried out before it leaves the control block, if and only if every boot that finds it due puts a wipe back on record and carries it out or keeps it |
| RestartProgress.BootMakesProgress | recovery.c:82-125 | every boot that is allowed, not interrupted and can clear the control block brings the system closer to its end state |
| RestartProgress.ThreeBootsFinish | recovery.c:82-125 | from every safe state three or more such boots lead to a cache with a file system and a control block that is cleared if it held a command; a wipe that was on record has been carried out if the boots keep it |
| RestartProgress.FactoryReset | recovery.c:84-98 | the documented factory reset, from the command file to the cleared control block |
| RestartProgress.PackageFlow | recovery.c:100-112 | a package without firmware is installed, nothing is wiped, and the control block is cleared |
| RestartProgress.UpdateFlow | recovery.c:100-125 | the documented update of either firmware: the state after recovery, after the bootloader, and after recovery again |
| RestartProgress.MainSystemAsks | recovery.c:84-87 | a boot of the main system leaves its request in the command file |
| RestartProgress.EachMishapIsFatal | recovery.c:226-228 | concrete boots that are unsafe because get_args could not save a wipe, formatting failed and the control block was cleared at the prompt or in the end, reboot returned, or an image was misreported, each with all else going well and safe without the clearing |
| RestartProgress.LongFileIsFatal | recovery.c:217-225 | with an intent of a thousand characters in front of it a wipe in the command file does not get into the field, and the boot is unsafe |
| RestartProgress.UnreadBlockIsFatal | recovery.c:168-170 | one boot that cannot read the control block, or ignores it, makes a firmware update that was interrupted unsafe |
| RestartProgress.UnreadBlockLosesWipe | recovery.c:168-170 | with a file system in the cache such a boot is safe and loses the wipe on record |
| RestartTorn.TornIsSafe | mtdutils/mtdutils.c:428-452 | when each write of the control block erases it first, a series is safe at every point if and only if it is safe otherwise and writes the control block only while the cache holds a file system |
| RestartTorn.TornBootIsSafe | recovery.c:82-125 | a boot is then safe if and only if it is Allowed, does not save arguments without a file system, and the bootloader is neither told about an image nor comes back from one |
| RestartTorn.UpdateIsTorn | firmware.c:106-135 | with everything going well a boot that wipes stays safe with torn writes and one that updates firmware does not |
| Mbr.Table | mmcutils/mmcutils.c:136-260 | for any disk, cyclic chains included, at most 64 entries |
| Mbr.TableEnds | mmcutils/mmcutils.c:153-260 | when reading the table fails and when it ends, by the bytes on the device |
| Mbr.EntryReads | mmcutils/mmcutils.c:167-184 | at which bytes the fields of a primary entry are |
| Mbr.ChainReadsBack | mmcutils/mmcutils.c:202-253 | a chain of extended records laid out for any links is read back as their partitions, as many as there is room for |
| Mbr.MmcState.AddPartition | mmcutils/mmcutils.c:77-131 | names by counters are names by position among the entries of a type |
| Mbr.NamesByType | mmcutils/mmcutils.c:45-106 | the name and file system of every entry, by its type and how many of that type come before |
| Mbr.MmcState.ReadChain | mmcutils/mmcutils.c:202-253 | the loop over the chain reads the recursively defined list |
| Mbr.MmcState.ReadMbr | mmcutils/mmcutils.c:135-260 | four primary entries and the chain of the fourth; -1 exactly when a sector that is needed is missing or the first is unsigned |
| Mbr.MmcState.ScanPartitions | mmcutils/mmcutils.c:262-317 | the table afterwards depends on the device alone, so that a rescan gives the same names |
| Mbr.MmcState.FindByName | mmcutils/mmcutils.c:319-334 | the first entry with the name, or there is none |
| Mbr.MmcState.FindByDeviceIndex | mmcutils/mmcutils.c:336-350 | finds the wanted device if and only if it is the first named entry |
| Mbr.NamedDeviceMissed | mmcutils/mmcutils.c:336-350 | tables with a named device that is not found |
| Mbr.TableReadsBack | mmcutils/mmcutils.c:135-260 | laying a partition table out and reading it back is the identity, up to 64 entries |
| Edify.Interpreter.EvaluateValue | edify/expr.c:48-50 | evaluating an expression gives the value and the effects of the specification |
| Edify.Interpreter.Evaluate | edify/expr.c:35-46 | only a string will do; another value is an error |
| Edify.Interpreter.ReadArgs | edify/expr.c:405-427 | arguments from the left up to the first that fails |
| Edify.Interpreter.ConcatFn | edify/expr.c:67-100 | evaluates all arguments, then joins them |
| Edify.Interpreter.AssertFn | edify/expr.c:140-163 | stops at the first argument that fails or is empty |
| Edify.EvalInOrder | edify/expr.c:67-321 | leaves are called, by their places in the script, from the left (from the right by greater_than_int), and nothing after a NULL |
| Edify.EvalOnce | edify/expr.c:67-321 | each place of the script is called at most once |
| Edify.PlusChainIsConcat | edify/expr.c:67-100 | a chain of + means the same as one concat of its operands, effects and errors included |
| Edify.AssertIsIfElse | edify/expr.c:102-163 | assert(c) is ifelse(c, "", abort()) up to the text of the error |
| Edify.AssertInSteps | edify/expr.c:140-163 | an assert of several conditions is the assert of those before the last and then of the last, effects and errors included |
| Edify.LogicOfText | edify/expr.c:188-219 | when && and || evaluate their right operand and what they give; the truth of ! |
| Edify.LogicAfter | edify/expr.c:188-210 | the left operand comes first with all its effects |
| Edify.SequenceMeans | edify/expr.c:267-272 | ; has the effects of both operands and the value of the second |
| Edify.BranchOfText | edify/expr.c:102-125 | which branch of ifelse is evaluated |
| Edify.ComparisonOfTexts | edify/expr.c:221-265 | the truth of ==, != and substring |
| Edify.ComparisonOfNumbers | edify/expr.c:274-321 | the truth of the integer comparisons, false unless both are numbers |
| Edify.TextsJoinAndFail | edify/expr.c:67-163 | concatenation, and the errors of abort and assert |
| Edify.WrongUse | edify/expr.c:35-46 | the errors of a wrong number of arguments and of a value that is no string |
| FunctionTables.ArrangedIsSorted | edify/expr.c:369-371 | the arrangement left by sorting is sorted and a permutation |
| FunctionTables.FunctionTable.Register | edify/expr.c:353-361 | adds the function, growing the table if it is full |
| FunctionTables.FunctionTable.FinishRegistration | edify/expr.c:369-371 | the registered functions and no others, sorted by name |
| FunctionTables.FunctionTable.FindFunction | edify/expr.c:373-382 | halving the sorted table finds what a search through the registered functions finds, for distinct names |
| Font.Encode | minui/mkfont.c:27-50 | non-empty pixels become non-zero runs of at most 127, as long as possible, that decode to the same pixels, and a zero byte |
| Font.RunMeans | minui/mkfont.c:36-44 | which bytes stand for how many pixels of which value |
| Font.Decode | minui/graphics.c:312-316 | for any data with a zero byte the decoder writes exactly the pixels of the runs before the first one and nothing else |
| Font.EncodedIsFound | minui/graphics.c:312-316 | for encoded pixels these are all the runs |
| Font.EncodingIsUnique | minui/mkfont.c:27-50 | pixels have one encoding into longest runs, so that encoding decoded runs gives them back |

## Left out

- Positions on flash count erase blocks; byte offsets are these times the erase size. A failed block write or read moves the file offset by whole blocks.
- ECC statistics inside `read_block`: a read either fails or returns what is stored.
- FlashImage.EveryCutIsSafe: the header lies within one erase block. `Run` covers smaller erase blocks, but a reader skips their blank header blocks, and nothing is claimed about cuts then.
- UpdateImage.WriteUpdateForBootloader: both bitmaps are present, as both are written whether or not the pointers are null; the radio variant of the header is not modelled. What a visible magic number means is claimed for headers that fit into one erase block.
- HashTables.HashTable.LookupOrAdd: sizes are not limited to the 32 bits of the fields; allocation never fails. The two modes of `mzHashTableLookup` are two methods.
- The exit from a probe loop in a one-slot table: it is proved that it cannot be reached.
- Reading an archive file, decompression, CRC, SHA-1, RSA and base64; the signature search and the check of the manifest's own digest. The checks of address arithmetic in the zip parser are taken for 64-bit addresses, where they cannot fail.
- Verifier.VerifyArchive: the condition by names and lengths is for archives without an empty name; with one, the condition is `Verified`, whose exemption reads the bytes around the name.
- ZipLayout: archives are written without a comment after the end record.
- ZipExtract: what happens on disk for one entry is a parameter with three outcomes.
- FileTrees.FileTree.Execute: a `set_perm` that names a link, which chown would follow, is taken to fail; the compiler never prints one. Paths are lists of names, so the limit on path length is not modelled.
- The amend parser, the root tables, mounting, and the commands other than set_perm, set_perm_recursive, symlink and copy_dir.
- RestartProtocol: options are recognised by their full names with values after "="; installing a package is one step apart from the firmware it remembers; the menus are one step in which the user leaves the prompt, with one clearing of the control block and one removal of the command file for all calls of `finish_recovery` there. Recovery is started without command-line arguments. The command file is read whole or not at all.
- RestartProtocol: a write of the control block stores all of it or leaves it alone, and its result says which; `RestartTorn` is about a power failure in the middle of one that would have worked. That a stored block is what is read later is `FlashRoundTrip.WriteThenRead`.
- BcbArgs: the command file is a list of its lines; a blank line in it, for which the source dereferences a null pointer, is not modelled. Strings hold no NUL.
- The eMMC build of the control block, `USE_QCOMM_RADIO` and `USE_LGE_DTYPES`.
- Mbr: device names are their numbers; a seek always succeeds and a read beyond the disk fails.
- Edify: parsing; `sleep` and `stdout`; functions of the application as leaves take no arguments; strtol is a parameter; functions that do not count their arguments are given enough of them. `qsort` is a function that sorts.
- Font: the line breaks in the encoder's output; the bitmap is as large as the pixels of its runs.
- User interface, menus, key input, drawing and logging.
