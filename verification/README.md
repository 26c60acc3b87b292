# Verified models of rx's index, journal, findings and container code

This project models, in Dafny, the parts of rx that must be right on any
input, any interleaving and any crash, and proves what each of them promises.

- `lz4block.dfy`, `lz4prefix.dfy`, `lz4names.dfy`, `valuesizes.dfy`: the values
  of a systemd journal. The partial LZ4 decoder that takes a field's name from
  the start of a value, the rule that tells a cut value from a damaged one, and
  the size bounds checked before a buffer is made (RFC 8878 for zstd, the LZ4
  block format).
- `datacache.dfy`: the cache of decoded DATA objects, a doubly linked list and
  a map with byte accounting, refined to one list.
- `utf8.dfy`, `journaltext.dfy`, `striplaws.dfy`, `journalitems.dfy`: the
  message part of an entry's text, stripped and indented in place or replaced
  by a blob line when it is not printable UTF-8, and the cursor over an
  object's items that refills the chunk its buffer lies in.
- `timesection.dfy`, `timeindexer.dfy`, `timevalidator.dfy`, `walk.dfy`,
  `frames.dfy`, `build.dfy`, `lookup.dfy`: the line index. One pass over a text
  collects checkpoints, line endings and the time section; a loop over the
  frames of a seekable file lists the lines of each; a validator says which
  stored sections may be trusted; lookups start reads from checkpoints.
- `findingsstore.dfy`, `findingsrecords.dfy`, `commit.dfy`, `commitsafety.dfy`,
  `commitkept.dfy`, `commitreads.dfy`, `findingswriter.dfy`, `viewreads.dfy`:
  the findings cache of a file, as a protocol of writers, crashes, changes of
  the file, and readers with the read caches of their processes, over one
  directory, and the code that takes its steps.
- `readcache.dfy`, `scanqueue.dfy`, `filelocks.dfy`, `tracefill.dfy`: the cache
  of decoded findings, the queue of scans, the per-file locks, and the text
  budget of a trace.
- `xzformat.dfy`, `xzreader.dfy`, `xzroundtrip.dfy`, `xzrefusals.dfy`: the xz
  container reader, what it makes of a file, a writer it reads back, and what
  it refuses.
- `publish.dfy`: putting a compressed file under its name among racing, failing
  and killed writers.

Code that changes things step by step is modelled by classes and methods with
loops, proved against functions of the values they keep; protocols are state
machines whose every run is covered. LZMA2, CRC32, the block checks, the zstd
header parser, the timestamp parser, a scan and its keys, and the masking of a
line are parameters with the contracts their callers rely on. A digest is
taken as what it digests, which an injective digest determines. A locked
section, a rename, a link and an exclusive create are each one step. The
findings protocol is taken as its code needs it: a state of a file does not
come back once it is left, and a file does not change between a writer's last
check of it and the end of the commit, which writes files named by key and not
by state.

Where the code and its comments differ the model follows the code:
`fileLock.refs` counts, beside the callers that hold the lock or wait for it,
those that gave up or unlocked and have not been dropped yet
(`internal/findings/queue.go:145-148`, 185-198).
`FileLocking.UnlockedStillCounts` is a run that ends so, and
`FileLocking.RefsAreHoldersAndWaiters` says when the comment holds.

`dafny verify dfyconfig.toml` checks the whole project.

## Model

| member | source | states |
|---|---|---|
| Lz4Prefix.DecodePrefix | internal/journal/payload.go:406-483 | dst gets exactly the first bytes of the block's whole decode and no error, whenever the block decodes as a whole, although length bytes of a match past dst are never read |
| Lz4Prefix.PrefixOfWhole | internal/journal/payload.go:406-483 | a decode capped at any number of bytes, from any sequence on, gives the whole decode's text up to the cap, without an error |
| Lz4Prefix.PrefixStable | internal/journal/payload.go:406-483 | a decode that did not reach the end of its bytes gives the same bytes, count and error for every longer value that begins with them |
| Lz4Prefix.NameOfCutValue | internal/journal/payload.go:345-368 | a name taken from a cut value is the one the whole stored value gives |
| Lz4Prefix.CutDamageIsExact | internal/journal/payload.go:345-368 | a value cut at the 129 KiB of stored bytes that are read is answered with "more stored bytes" exactly when the missing bytes could change its answer |
| Lz4Prefix.NameIsOfWhole | internal/journal/payload.go:229-236 | the name search answers what the whole stored value would, or asks for more stored bytes, and then values that begin alike have different answers |
| Lz4Names.WrittenGivesName | internal/journal/payload.go:345-368 | the name of a value written from any sequences and last literals after eight size bytes is the first 65 bytes of their text, always up to 129 KiB, and past that unless more stored bytes are asked for |
| Lz4Names.BadMatchHasNoName | internal/journal/payload.go:456-466 | a value that has a match at offset 0, or before the start of the text, within the first 65 bytes does not decode, whatever follows |
| Lz4Names.CutBlockHasNoName | internal/journal/payload.go:406-483 | a value whose block ends within the literals of a sequence, or within the offset after them, before 65 bytes of text does not decode |
| Lz4Names.NoBlockHasNoName | internal/journal/payload.go:406-415 | a value of eight bytes or fewer does not decode; the empty block after them is a name of no bytes |
| Lz4Prefix.OnlyLongRunsNeedMore | internal/journal/payload.go:151-167 | more stored bytes are asked for only where the first 65 bytes of text reach into a run of more than 32 MiB of literals; a match never causes it |
| Lz4Prefix.CutInLiterals | internal/journal/payload.go:374-405 | a decode of no more than 65 bytes of text that runs out of bytes, beyond three and twice those it lacked, ran out in a run of literals: of a long match it read one length byte at most |
| Lz4Prefix.RunExtends | internal/journal/payload.go:406-483 | a decode, of any bytes, that stopped at their end can be continued by some bytes so that a block that decoded no longer does, or the other way round, unless they end after a first offset byte that is bad whatever its second |
| Lz4Prefix.BadOffsetStays | internal/journal/payload.go:456-466 | after such an offset byte no bytes that follow make the block decode |
| Lz4Prefix.AtEndIsShort | internal/journal/payload.go:374-405 | a decode that reached the end of its bytes has not filled the room it was given |
| Lz4Prefix.TakeMatch | internal/journal/payload.go:406-483 | the match part of one sequence, copied byte by byte where it overlaps itself, continues the decode as the sequence's whole match does up to the room left |
| Lz4Prefix.CopyWithin | internal/journal/payload.go:406-483 | copying a match forward within dst gives the repeated text, also where the match overlaps its own output |
| Lz4Block.DecodeInvertsEncode | internal/journal/payload.go:374-405 | a block written from any list of sequences decodes to their text |
| Lz4Block.DecodeBound | internal/journal/payload.go:852-872 | no block decodes to more than 255 bytes of text per stored byte |
| ValueSizes.SkipZstdBlocks | internal/journal/payload.go:740-773 | walks a frame's blocks by their headers alone, to what follows the last one, or stops where the bytes run out or a block's type is the reserved one |
| ValueSizes.ZstdDeclaredSize | internal/journal/payload.go:684-738 | gives the sum of the content sizes of all frames the walk reaches, stopped at the largest uint64, and terminates on any bytes |
| ValueSizes.BlocksPassed | internal/journal/payload.go:740-773 | the walk over the blocks an encoder wrote ends exactly after the last of them |
| ValueSizes.FramePassed | internal/journal/payload.go:684-738 | one well-formed frame adds the size it declares and leads on to the frame after it |
| ValueSizes.DeclaredOfValue | internal/journal/payload.go:684-738 | the sizes declared by all the frames of a value come to no more than its text, and to exactly that when every frame declares one |
| ValueSizes.TextWithinBound | internal/journal/payload.go:654-681 | every run of zstd frames holds at most the text the bound allows its stored bytes |
| ValueSizes.CheckZstdValue | internal/journal/payload.go:566-591 | a zstd value is refused for the size it declares exactly when that is past 128 MiB, past what its stored bytes can hold, or past the room, the last being no damage; one that honestly decodes is refused at most for the room or 128 MiB |
| ValueSizes.CheckLz4Value | internal/journal/payload.go:566-591 | an lz4 value is refused for the size in its first eight bytes exactly when that is past 128 MiB, past 255 bytes a stored byte, or past the room, the last being no damage; one whose block decodes to that size is never refused as more than its bytes can hold |
| ValueSizes.ReadValue | internal/journal/payload.go:797-846 | a text within the limit is read whole, a longer one is refused, and one whose reads fail is not given, whatever part each read gives and however often one gives nothing; the buffer is never larger than the limit, nor than twice the text or its first size |
| DataCaching.DataCache.Get | internal/journal/cache.go:68-80 | answers what the most-recently-used list holds for the offset and moves that item first; the map, the linked list and the bytes held stay one list |
| DataCaching.DataCache.Put | internal/journal/cache.go:82-99 | puts the answer first and keeps of the rest what fits, unless it is held or too large; the bytes held are the sum of the costs and within the limit |
| DataCaching.DataCache.MakeRoom | internal/journal/cache.go:91-93 | evicts from the tail, which is there whenever there is no room, until the answer fits, and keeps the longest part of the list that leaves the room |
| DataCaching.DataCache.Evict | internal/journal/cache.go:101-106 | drops the last node from the list, the map and the bytes held |
| DataCaching.DataCache.Unlink | internal/journal/cache.go:108-121 | takes any node out of the doubly linked list and leaves the others linked in order |
| DataCaching.DataCache.PushFront | internal/journal/cache.go:123-133 | links a node in front of the list |
| DataCaching.KeptIsLongest | internal/journal/cache.go:88-93 | what stays is the longest prefix of the most recently used items that fits: nothing is evicted that had room |
| DataCaching.RunIsRecency | internal/journal/cache.go:61-99 | after any run of gets and puts no offset is held twice, every answer held is that of the last put that took for its offset, and items stand in the order of their last use, so an eviction takes the least recently used first |
| DataCaching.HitIsLastPut | internal/journal/cache.go:68-99 | a hit, after any run, answers what was last put for the offset |
| DataCaching.HitUntilCrowded | internal/journal/cache.go:68-106 | an answer that was put and taken is hit until a later put leaves no room for it beside what was used since, and then no more |
| DataCaching.StaysUnlessCrowded | internal/journal/cache.go:82-106 | an answer held stays, as it is, exactly unless the operation is a put that takes and is too large beside it and what was used since it |
| JournalText.AppendMessage | internal/journal/render.go:301-318 | appends the stripped message's lines, or the blob line exactly when it is not printable UTF-8, within messageRoom, so a buffer with that room keeps its array |
| JournalText.TextBuffer.IndentLines | internal/journal/render.go:328-371 | the text before start is untouched and the message becomes its printed lines, in place when there is room |
| JournalText.MoveLines | internal/journal/render.go:363-369 | the right-to-left move puts every line where it goes with its spaces before it, and overwrites no byte that has not moved yet |
| JournalText.CopyRight | internal/journal/render.go:366 | a move to the right within one array gives what the bytes were, although source and destination overlap |
| JournalText.PrintedIsSplitAndJoin | internal/journal/render.go:328-340 | what is printed is the message split at its line breaks and joined again, the first piece as it is, every later one after the indent, each ended by a line break |
| JournalText.PrintedLen | internal/journal/render.go:328-340 | the printed length is the message's with a final line break and the indent for every other one |
| JournalText.PrintedFits | internal/journal/render.go:290-299 | the stripped message as printed never takes more than messageRoom |
| JournalText.AppendStripped | internal/journal/render_message.go:24-63 | appends the message as stripping leaves it, ordinary runs copied at once |
| JournalText.StripBound | internal/journal/render_message.go:24-63 | stripping keeps every line break, and adds at most 7 bytes a tab |
| StripLaws.StripShows | internal/journal/render_message.go:24-140 | stripping works piece by piece: a tab becomes eight spaces, whole color and OSC sequences go, carriage returns go before a line break and at the end, and all else stays, an escape with the byte after it, or a sequence that does not end, too |
| StripLaws.EveryMessageIsPieces | internal/journal/render_message.go:24-140 | every message is made of such pieces |
| StripLaws.PrintableIsPrinted | internal/journal/render.go:301-340 | a message whose stripped bytes are the UTF-8 of printable points is printed as its lines, the first as it is and the others after the indent |
| StripLaws.OtherIsBlob | internal/journal/render.go:301-318 | any other message is printed as a line with its size in words |
| StripLaws.SizeInWords | internal/journal/render_message.go:269-304 | the size in words, by unit and digit: B below 1024, then K, M, G, T, P and E |
| StripLaws.PrintablePoints | internal/journal/render_message.go:184-267 | the points that may be printed |
| JournalText.TextBuffer.Grow | internal/journal/render.go:373-387 | makes room without changing the text: in the same array when it has it, else in one at least twice the size |
| JournalText.AppendFormatBytes | internal/journal/render_message.go:284-304 | appends the size by the first unit of the table that is not above it, its tenths from the next smaller unit |
| JournalText.FormatBytesFits | internal/journal/render.go:286-288 | no size that fits in an int takes more than seven characters, so a blob line takes at most 20 bytes |
| JournalText.DecimalReads | internal/journal/render_message.go:284-304 | the digits appended for a number read as that number |
| PrintableUtf8.AllMayBePrinted | internal/journal/render_message.go:161-182 | the loop over the characters decides whether bytes may be printed |
| PrintableUtf8.EncodedIsPrintable | internal/journal/render_message.go:161-182 | the UTF-8 of any printable code points passes |
| PrintableUtf8.PrintableIsEncoded | internal/journal/render_message.go:161-182 | whatever passes is the UTF-8 of some printable code points |
| PrintableUtf8.DecodeInvertsEncode | internal/journal/render_message.go:184-207 | a code point of two bytes or more is read back from its encoding, whatever follows |
| PrintableUtf8.DecodedIsEncoded | internal/journal/render_message.go:184-256 | what decodes is the one encoding of a valid code point: no overlong form, surrogate, or sequence of five or six bytes |
| JournalItems.ReadObject | internal/journal/object.go:179-222 | gives an object exactly when one of the wanted type and size stands there, aligned, after the header and before the end of the file, with the bytes that fit read into the buffer; it reads nothing before the object or past the file's end |
| JournalItems.ItemCursor.constructor | internal/journal/object.go:246-261 | the items the object's first read brought are handed out from the head of the chunk, the rest is still to read; the items end inside the object |
| JournalItems.ItemCursor.NextItem | internal/journal/object.go:263-284 | gives the item after those given, equal to the little-endian number at its place in the file, though the buffer aliases the chunk it is refilled from, and reads only bytes of the object's items |
| JournalItems.ItemCursor.Refill | internal/journal/object.go:266-275 | makes one read, of whole items, from the first not given to no later than the end of the object's items, and fails only when the file ends inside the object |
| JournalItems.ReadItems | internal/journal/object.go:233-284 | all items come out once, in file order, for any chunk of one item or more and any length of the object's head, and every read stays inside the object's items |
| TimeIndexing.TimeIndexer.MarkBefore | internal/index/timeindex.go:145-153 | records the running maximum before the next line, once, in line order |
| TimeIndexing.TimeIndexer.Observe | internal/index/timeindex.go:155-197 | one line more: every value kept is that of the lines seen, and every line a seekable checkpoint can name is marked |
| TimeIndexing.TimeIndexer.ObserveZone | internal/index/timeindex.go:224-253 | the change points recorded are those of the lines seen, none past the most allowed |
| TimeIndexing.TimeIndexer.ObserveMax | internal/index/timeindex.go:186-222 | the running maximum, its first line and the backward steps are those of the lines seen |
| TimeIndexing.TimeIndexer.Result | internal/index/timeindex.go:268-306 | the section describes exactly the lines seen; it fails exactly when some checkpoint's line was not marked |
| TimeIndexing.AlignMarks | internal/index/timeindex.go:308-330 | gives each checkpoint the maximum stamp of exactly the lines numbered below it, in one pass, or fails exactly when a line was not marked |
| TimeIndexing.FrameMarks.MarkLine | internal/index/timeindex.go:332-383 | marks every line the seekable checkpoint rule can name, for contiguous frames, empty ones included |
| TimeIndexing.CoversLine | internal/index/timeindex.go:332-383 | after a line's marks, every line the rule can name so far is marked |
| TimeSection.HighestIsFirstMaximum | internal/index/timeindex.go:216-222 | the running maximum is the largest stamp of the lines before a line, at the first line that has it, and none exactly when none is stamped |
| TimeSection.StampedEnds | internal/index/timeindex.go:186-197 | the first and last timestamped lines are the outermost stamped ones, and exist exactly when the count is not 0 |
| TimeSection.ZonePointsGiveOffsets | internal/index/timeindex.go:224-266 | the offset a stamped line writes is that of the last change point up to it |
| TimeSection.BackwardIsLargestStep | internal/index/timeindex.go:199-215 | the backward steps counted are the lines behind the maximum before them by more than the threshold, one each, and the largest is one of them |
| TimeSection.SectionIsAcceptable | internal/index/timeindex.go:268-306 | every section a build can write passes every check a reader makes of it |
| TimeSection.CheckpointAgreesWithMax | internal/index/timeindex.go:446-474 | max_before is the file's maximum after its line, and strictly below it up to that line |
| TimeSection.SkippingIsSound | internal/index/timeindex.go:145-147 | max_before is below a time, or missing, exactly when every stamped line before the checkpoint is, so starting there skips nothing at or after that time |
| TimeSection.ValuesAreOfYears | internal/index/timeindex.go:569-603 | a value is in range exactly when its day is one of the years 1 to 9999 |
| TimeValidator.ValidTimeIndex | internal/index/timeindex.go:390-444 | accepts a stored section exactly when it is one a reader may trust |
| TimeValidator.ValidTimeSpan | internal/index/timeindex.go:569-603 | accepts exactly the sections whose span lies on lines of the file |
| TimeValidator.ValidFirstText | internal/index/timeindex.go:546-567 | accepts exactly a printable text where there is a first stamp |
| TimeValidator.ValidZoneOffsets | internal/index/timeindex.go:484-544 | accepts exactly change points that start at the first stamp, change, ascend, and stay within the bounds |
| TimeValidator.ValidMaxPoint | internal/index/timeindex.go:605-674 | accepts exactly a maximum that is on or between first and last, at offsets in order, and agrees with every max_before |
| Walk.LineReader.NextLine | internal/index/builder.go:550-578 | gives the next line, line break included, however its length compares with the buffer's |
| Walk.StripLineEnd | internal/index/builder.go:648-660 | drops exactly the CR and LF bytes at a line's end |
| Walk.LineEndingTally.Observe | internal/index/builder.go:584-624 | the counts stay those of the sample as a whole, no CR LF pair being cut by a line's end |
| Walk.SampleIsFirstLines | internal/index/builder.go:600-624 | the sample is whole lines from the first, up to the one that reaches its size |
| Walk.StyleIsPresent | internal/index/builder.go:584-648 | the style named is the only one of CRLF, LF and CR that the bytes have, LF when they have none, and mixed when they have several |
| Walk.WalkStep | internal/index/builder.go:466-535 | one line more keeps the index: a checkpoint is taken at the first line after each step boundary |
| Walk.WalkLines | internal/index/builder.go:414-548 | the lines read make up the text; the checkpoints are ascending true line starts from line 1 at offset 0, a step apart, with every line less than a step after its nearest one; the sample decides the line ending; the time section saw every line with every checkpoint's line marked before |
| Build.BuildText | internal/index/builder.go:204-324 | an index of a text has a time section exactly when its format is known, and the section is one a reader accepts |
| Build.BuildSeekable | internal/index/builder.go:679-796 | a seekable file's frame pass and text walk count the same lines, its checkpoints are in line and byte order on lines the frame rule can name, and its section exists and is one a reader accepts |
| SeekableIndex.ListFrames | internal/seekableindex/build.go:70-170 | the loop over the frames lists for each the lines it holds, by the breaks before and in it, the checkpoints of all of them in order, and how many lines the text has |
| SeekableIndex.InteriorCheckpoints | internal/seekableindex/build.go:185-234 | a checkpoint on each line that starts inside the frame a multiple of the interval after its first line, and on no other |
| SeekableIndex.FramesShareLines | internal/seekableindex/build.go:127-138 | every line is held by one frame: the first begins with line 1, each goes on after the one before, and the last ends with the last line of the text |
| SeekableIndex.IndexIsNamed | internal/seekableindex/build.go:145-164 | the checkpoints are in line order and strictly in byte order, and each is on a line the rule for its frame can name, so one that the walk has marked |
| SeekableIndex.FrameHasCheckpoint | internal/seekableindex/build.go:145-157 | every frame that holds text has a checkpoint on the line with its first byte |
| SeekableIndex.LinesByBreaks | internal/seekableindex/build.go:174-183 | a text has a line for each break, and one more when it ends inside a line |
| Lookup.NearestByLine | internal/index/lookup.go:14-35 | the search finds the last checkpoint up to a line, and the zero entry exactly when there is none |
| Lookup.NearestByOffset | internal/index/lookup.go:37-51 | the search finds the last checkpoint up to an offset, and the zero entry exactly when there is none |
| Lookup.NearestIsClose | internal/index/lookup.go:14-35 | the checkpoint found for a line starts at or before it, less than a step away |
| Lookup.CheckpointBeforeByte | internal/index/lookup.go:37-51 | the checkpoint found for a byte starts the line that holds it or one before |
| Lookup.ContextIsReached | internal/index/lookup.go:53-80 | a pass for context starts at the last checkpoint up to the line that many above the last checkpoint up to the offset, with that many lines or more before the line that holds it; at the head exactly when that line is none of the file |
| FindingsStore.NamesAreApart | internal/findings/store.go:22-44 | two signatures never share an entry file, and no entry takes the name of meta.json, the ranges, the lock or a temporary file |
| FindingsStore.IdsByLength | internal/findings/store.go:119-144 | an id that has an entry file is of 1 to 64 lower-case letters, digits and hyphens |
| FindingsStore.Equal | internal/index/identity.go:147-172 | two identities compared field by field, missing fields included, are equal exactly when they are one identity |
| FindingsWriter.CheckRanges | internal/findings/store.go:365-378 | accepts exactly the ranges a scan gives |
| FindingsWriter.ValidRangesApart | internal/findings/store.go:365-378 | those are: from line 1, first up to last, sorted, a line between one and the next |
| FindingsWriter.TextByLines | internal/findings/store.go:330-378 | a ranges file passes as a scan's exactly when its end is a number of lines in no fewer bytes, and its ranges are lines of it, sorted, a line between one and the next |
| FindingsWriter.ViewOf | internal/findings/scan.go:441-557 | the view holds exactly the selected entries that agree with meta.json, from the read cache's record where it has the one that is named, else from their files, and the ids current without being selected; nothing without the ranges; what came from files is decoded for the record |
| FindingsWriter.CacheDirectory.WriteAtomic | internal/findings/store.go:544-579 | a write that goes well leaves the new file under its name and every other name as it was; one that fails, at any point, leaves the directory as it was, no temporary file in it |
| FindingsWriter.CacheDirectory.RemoveUnnamed | internal/findings/store.go:672-698 | removes exactly the temporary files and the entry files that the new meta.json leaves out |
| FindingsWriter.CacheDirectory.Commit | internal/findings/scan.go:612-685 | a commit is done exactly when the file system lets every write through, so always without a fault, and else ends with the first it does not, those before it being done and meta.json as it was; done, meta.json is of the scanned state and names every valid scanned id under its key and the ranges, every entry file and the ranges file hold the scan's result, and nothing meta.json does not name is left; all by steps of the protocol |
| FindingsWriter.DoneIsCommitted | internal/findings/scan.go:612-685 | what a commit writes, in its order, and what it removes leave the scan's results as meta.json names them |
| FindingsWriter.SoundIsDone | internal/findings/scan.go:635-685 | a commit that is not done met a fault, and one that met none is done |
| FindingsSafety.StepIsTrue | internal/findings/scan.go:472-685 | every step of a writer, a reader, a read cache, a crash or the file keeps: what a meta.json of the file's state names is the scan's or a miss, also for meta.json files read before, and what a process has decoded of a state is what a scan of that state finds |
| FindingsSafety.MetaMergedTrue | internal/findings/scan.go:672-678 | merging keeps entries of other writers only when they describe the same state, so the merged meta.json names true entries |
| FindingsSafety.AnswersAreScans | internal/findings/scan.go:230-270 | in every run of writers, crashes at any step, changes of the file, readers and the read caches of their processes, each entry and text a read answers, from files or from a cache, is the scan's for the state the file is in then, under the read's keys |
| FindingsSafety.RecordsAreScans | internal/findings/readcache.go:79-150 | in every run a record in any process's read cache is what a scan of the state it is kept under finds: it is never stale, whatever happened to the directory since |
| FindingsSafety.KeptIsHeld | internal/findings/readcache.go:102-150 | what a read decoded and its process keeps is there for the reads after it, and a read that decoded nothing changes nothing |
| FindingsSafety.EntryFromTrue | internal/findings/scan.go:485-525 | an entry taken from a record of the state, or from its file, is the scan's whenever a true meta.json names it, whatever the file holds when the record is used |
| FindingsSafety.NamedEntriesAreScans | internal/findings/scan.go:618-634 | at every point of every run, so after a crash anywhere, an entry the meta.json of the file's state names reads as the scan gives it or as a miss |
| FindingsSafety.OnlyMetaStepCommits | internal/findings/scan.go:612-634 | no step but the write of meta.json, and no crash, changes meta.json |
| FindingsKept.NamedUntilChange | internal/findings/scan.go:664-678 | a signature named for a state stays named while the file stays in it, whatever other writers do |
| FindingsKept.BothStayReadable | internal/findings/scan.go:612-685 | the same of two writers of one state with the same settings and any signatures, in any order and with anything before, between and after |
| FindingsKept.CommitStaysReadable | internal/findings/scan.go:612-685 | what a writer committed is in the directory and readable in every later state, until the file changes or its entry or the ranges are written under other settings, whatever writers had other settings before |
| FindingsKept.ReadableUntilDisturbed | internal/findings/scan.go:612-685 | the next step leaves a committed signature readable exactly when the file does not change and the step writes neither its entry nor the ranges under other settings |
| FindingsKept.KeptIsReadable | internal/findings/scan.go:472-578 | a signature whose entry and ranges are in the directory as meta.json names them is taken from there, or from any true record of the state, as the scan gives it, whatever else meta.json names |
| FindingsKept.RecordSpares | internal/findings/scan.go:485-538 | a record that holds what meta.json names is taken from whatever the files are, and nothing is decoded |
| FindingsKept.OtherRecordIsNotTaken | internal/findings/scan.go:485-538 | a record of another key, or of another number of ranges or findings, is not taken from |
| FindingsReads.KeptIsAnswered | internal/findings/scan.go:230-270 | a read in its steps, with writers, crashes and other reads between them, that begins while a signature it selects is kept, and that nothing disturbs, answers it and the text as the scan gives them |
| FindingsReads.FindingStays | internal/findings/scan.go:441-557 | no step of a reader, or of anyone else, stops a reader whose meta.json names a signature that is kept, or makes it pass the signature without its entry |
| FindingsReads.CommitIsAnswered | internal/findings/scan.go:612-685 | every read with a writer's settings that begins after its commit, in any process, answers what it scanned, until the file changes or a writer with other settings writes over it |
| FindingsReads.BothAreAnswered | internal/findings/scan.go:612-685 | two writers of one state with the same settings: a read that begins once both committed answers what both scanned, in one answer |
| FindingsViews.ReadIsView | internal/findings/scan.go:230-270 | from any state a read can be taken to its answer by its own steps; where nothing comes between them it answers what the view of the directory and the read cache gives, or nothing when meta.json is of another state |
| FindingsViews.ScanCanCommit | internal/findings/scan.go:612-660 | a scan that is done while no writer is at work comes to the state a commit begins in |
| ScanQueue.SlotLimiter.Enter | internal/findings/queue.go:45-54 | a slot at once exactly when one is free and no one waits, else the last place in the queue |
| ScanQueue.SlotLimiter.AdmitLocked | internal/findings/queue.go:91-99 | lets in exactly as many of the oldest waiters as slots are free, in their order |
| ScanQueue.SlotLimiter.Cancel | internal/findings/queue.go:64-75 | a canceled caller leaves the queue, or gives back the slot it was let into meanwhile |
| ScanQueue.SlotLimiter.Release | internal/findings/queue.go:78-89 | a slot given back goes to the oldest waiters |
| ScanQueue.SlotLimiter.SetLimit | internal/findings/queue.go:101-109 | a limit from 1 to 64 is the one set, and any other the nearest of these; a larger one lets waiters in at once |
| ScanQueue.StepKeeps | internal/findings/queue.go:45-109 | every step keeps: running is the number of callers with a slot, the queue is the waiting callers in order, and it is empty unless every slot is taken |
| ScanQueue.GivenInOrder | internal/findings/queue.go:91-109 | a slot is given only below the limit, and only to a caller before whom no one is left waiting |
| ScanQueue.RunKeeps | internal/findings/queue.go:16-109 | in every run the slots counted are the callers' slots, and no caller waits while one that came later has a slot |
| ScanQueue.NoSlotIsLost | internal/findings/queue.go:64-75 | a cancel racing an admission leaks no slot: once no caller has one, none is counted and no one waits |
| ScanQueue.CallersCanGoOn | internal/findings/queue.go:45-109 | in every state a caller can arrive and the limit change, one that waits can cancel, one let in can notice it or cancel, and one that runs can finish |
| ScanQueue.SlotPassesOn | internal/findings/queue.go:78-99 | a slot given back while callers wait goes to the one that waits longest |
| FileLocking.FileLocks.Enter | internal/findings/queue.go:150-160 | the caller counts in the lock its key has in the table, or in a new one |
| FileLocking.FileLocks.Drop | internal/findings/queue.go:190-198 | the caller no longer counts, and the key leaves the table with the last one |
| FileLocking.OneHolder | internal/findings/queue.go:125-198 | in every run, with cancels and deleted and recreated entries, at most one caller holds a key |
| FileLocking.TableIsCallers | internal/findings/queue.go:125-198 | in every run the table holds a key exactly while a caller counts in its lock, and refs counts the callers that hold, wait for or are leaving it |
| FileLocking.RefsAreHoldersAndWaiters | internal/findings/queue.go:144-198 | in every run refs counts exactly the callers that hold the lock or wait for it when, and only when, none that unlocked it or gave up is still to be forgotten |
| FileLocking.UnlockedStillCounts | internal/findings/queue.go:144-198 | a run in which that fails: after an arrival, a take and an unlock a lock has a reference, and its key is in the table, with no holder and no waiter |
| FileLocking.CallersCanGoOn | internal/findings/queue.go:150-198 | in every state a caller can arrive, one that waits can give up, and take the lock when no one holds it, one that holds it can unlock it, and one that is leaving be forgotten |
| FindingsReadCache.ReadCache.Lookup | internal/findings/readcache.go:79-100 | gives what is held for the directory only in the same state of the file, marks it read last, and changes nothing else |
| FindingsReadCache.ReadCache.Store | internal/findings/readcache.go:102-150 | the bytes are those of the files and theirs those of their ranges and entries; a record past the most bytes is dropped alone; else it is kept, both bounds hold, and only files read before every one kept are evicted |
| FindingsReadCache.ReadCache.Evict | internal/findings/readcache.go:152-165 | drops the files read least recently until the bounds hold, terminates, and keeps the file read last |
| FindingsReadCache.ReadCache.AddEntries | internal/findings/readcache.go:131-139 | each entry is counted in place of the one it replaces |
| FindingsReadCache.BytesAreOfParts | internal/findings/readcache.go:167-182 | an entry counts for its key, each finding with its excerpt, and each bucket of its series; ranges for their key and each range |
| FindingsReadCache.StoreKeepsOrDrops | internal/findings/readcache.go:102-150 | to readers of a file a store adds what was decoded to what was held of the same state, or drops it all, and every other record stays or is dropped: the steps of the protocol's read caches |
| FindingsRecords.DecodedEntryOf | internal/findings/readcache.go:184-191 | the last line kept passes the check against the text's end exactly when every finding does |
| TraceFilling.Filling.AddLine | internal/findings/trace.go:285-317 | what is held with a line more is at most the budget and that line |
| TraceFilling.Filling.WalkBack | internal/findings/trace.go:318-326 | drops findings from the last that fits until the text taken fits, each of which cannot fit whatever comes |
| TraceFilling.Filling.Visit | internal/findings/trace.go:285-337 | a span is done exactly when its finding no longer fits, and the pass stops only when every finding that fits has its whole text |
| TraceFilling.ReadSpans | internal/samples/spans.go:100-138 | for every interleaving of the spans' lines that keeps each span's order, the findings that fit have their whole texts when the pass ends or is stopped |
| TraceFilling.WholeTextHasLines | internal/findings/trace.go:285-315 | the whole text of a finding is the lines asked for before it, its own lines, and those asked for after it, as far as the text goes, each in its part and in order; it costs each line and a byte more, and is masked exactly when one of them is |
| TraceFilling.FitsAreMost | internal/findings/trace.go:236-258 | the findings that fit are the most, from the first, whose whole texts are within the budget |
| TraceFilling.TraceText.Fill | internal/findings/trace.go:236-360 | the first k findings of a file keep their texts, each the lines before, of and after it, k the most that fit what is left; the others are truncated, and the budget loses exactly the texts kept; it fails exactly while there is budget and the scanned text has no end or ends before a finding |
| TraceFilling.TraceText.TruncateFrom | internal/findings/trace.go:362-369 | the findings from one on lose their text and are marked truncated, the others are as they were |
| TraceFilling.LargestIsLargest | internal/findings/trace.go:241-258 | taking findings one by one keeps a number of them exactly when that many fit together |
| TraceFilling.FillAll | internal/findings/trace.go:130-152 | over all files, one whose findings cannot be read is skipped unless the budget ran out before it; of all others exactly the first findings whose texts fit the budget together keep them, as in one greedy pass over all of them |
| XzReading.XzReader.ReadVarint | internal/compression/xz.go:597-616 | reads the integer the format says, seven bits a byte, or refuses it when it is longer than ten bytes or 64 bits |
| XzReading.XzReader.StartNextStream | internal/compression/xz.go:212-233 | skips zeros in fours to the next stream, or to the end |
| XzReading.XzReader.EndStream | internal/compression/xz.go:456-513 | accepts the index and the footer exactly when they are those of the blocks read |
| XzReading.XzReader.ReadRecords | internal/compression/xz.go:476-488 | reads as many records as the stream held blocks |
| XzReading.XzReader.NextBlock | internal/compression/xz.go:175-200 | comes to the next block past any ends and starts of streams, or to the end of the file, and terminates |
| XzReading.ParseBlockHeader | internal/compression/xz.go:340-395 | reads a header field by field, once its CRC32 agrees, to the fields the format gives, or refuses it |
| XzReading.XzReader.FinishBlock | internal/compression/xz.go:408-444 | accepts a block's padding and check exactly when they are those of its text, and adds its record |
| XzReading.XzReader.ReadFooter | internal/compression/xz.go:514-536 | accepts a footer exactly when it has the magic, its CRC32, the size of the index and the flags of the header |
| XzReading.XzReader.Read | internal/compression/xz.go:141-173 | gives the next bytes of the file's text; the end only once all of it was given; a refusal only of a file that is refused, with the last of the text that is before it unless a block goes past its declared sizes, and then for good |
| XzReading.ReadMany | internal/compression/xz.go:63-90 | reads of any sizes give the file's text from its start, all of it when they meet its end or, but for a block that goes past its declared sizes, its refusal; more reads of a byte or more than the text has bytes meet one of them |
| XzRoundTrip.VarintRoundTrip | internal/compression/xz.go:597-616 | every value below 2^64 is read back from its encoding |
| XzRoundTrip.VarintFits | internal/compression/xz.go:597-616 | what is read as an integer is below 2^64 and took ten bytes at most |
| XzRoundTrip.DictionaryIsEnough | internal/compression/xz.go:298-325 | the dictionary reserved is the declared one or as long as the block's declared text, between 4 KiB and the declared one |
| XzRoundTrip.HeaderParsed | internal/compression/xz.go:346-395 | a block header an encoder writes, with or without its sizes, is read back |
| XzRoundTrip.BlockRead | internal/compression/xz.go:256-296 | one honest block gives its text and its index record, and leads on to what follows its check |
| XzRoundTrip.StreamEnds | internal/compression/xz.go:456-536 | the index and footer written for a stream's own blocks end the stream |
| XzRoundTrip.FileRoundTrip | internal/compression/xz.go:63-90 | any file of one stream or more, with check 0, 1, 4 or 10, blocks with or without sizes, and padding in fours, is read back as its blocks' texts and then its end |
| XzRoundTrip.WrongIndexRefused | internal/compression/xz.go:456-495 | a file whose first streams are good, any number of them, and whose next stream's index has another count than its blocks, or any other record, is refused once all texts up to there were given, whatever follows the list |
| XzRefusals.HeadIsExact | internal/compression/xz.go:234-255 | twelve bytes are a stream's header exactly when they are the magic, a zero, one of the four check ids, and their CRC32 |
| XzRefusals.BadHeadRefused | internal/compression/xz.go:205-255 | after any good streams, twelve bytes that are no such header, of an unknown check say, refuse the file there, its text up to there being given |
| XzRefusals.FinishIsExact | internal/compression/xz.go:408-443 | what follows a block's data passes exactly when the declared sizes are its own and padding and check are those of its text |
| XzRefusals.BadBlockRefused | internal/compression/xz.go:408-443 | after any good streams and blocks, a block with other padding or another check refuses the file once its text is given |
| XzRefusals.BadBlockHeaderRefused | internal/compression/xz.go:340-360 | so does a block header with another CRC32 |
| XzRefusals.BigDictionaryRefused | internal/compression/xz.go:262-278 | a header that declares more dictionary than the limit, or a code that stands for none, refuses the file there, and says which |
| XzRefusals.ListEndIsExact | internal/compression/xz.go:489-536 | what follows an index's records passes exactly when it is the padding, the CRC32 and the footer of that list |
| XzRefusals.BadTailRefused | internal/compression/xz.go:489-536 | a stream with any other end of its index, or a footer that differs in any byte, refuses the file once its texts are given |
| XzRefusals.DictionarySizes | internal/compression/xz.go:267-270 | a dictionary code stands for 4 KiB, 6 KiB, and twice as much every second code, up to 4 GiB less a byte |
| PublishedOutput.OutputDirectory.CreateTemp | internal/compressfile/compressfile.go:289-307 | gives a new file under a name nothing held, or none when every attempt is taken |
| PublishedOutput.OutputDirectory.PublishOutput | internal/compressfile/compressfile.go:309-334 | with overwriting it succeeds exactly when the rename works, with links exactly when the name is free, without them when the claim and the rename work too; the name then leads to the finished file, and the temporary name is left only after a link; a failure leaves the name as it was, but for a claim that could not be removed |
| PublishedOutput.OutputDirectory.ClaimAndRename | internal/compressfile/compressfile.go:336-366 | without links the name is claimed and replaced; a failure leaves it as it was, but for an empty claim exactly where the rename failed and the claim could not be told or removed |
| PublishedOutput.StepKeeps | internal/compressfile/compressfile.go:256-366 | every step of any writer, failure or kill keeps: each name leads where it led before or to a whole output of a writer that succeeded, or, where names are claimed, to a claim |
| PublishedOutput.NamesAreWhole | internal/compressfile/compressfile.go:251-334 | in every run an output's name leads to what it held before or to one writer's whole output; only a name that was free, where names are claimed, may lead to an empty claim |
| PublishedOutput.OneWinner | internal/compressfile/compressfile.go:309-334 | of the writers of a name that do not overwrite at most one succeeds, and none when something held it before |
| PublishedOutput.OnlySuccessChanges | internal/compressfile/compressfile.go:256-366 | a step changes where a name leads only when a writer of it succeeds, or makes a claim on it while it is free, or drops that claim |
| PublishedOutput.FailuresLeaveName | internal/compressfile/compressfile.go:256-366 | in every run, once all writers of a name failed or were killed, it leads where it did before exactly when none was killed between its claim and the rename or failed to remove the claim |
| PublishedOutput.WritersCanGoOn | internal/compressfile/compressfile.go:251-366 | in every state a writer whose file is finished can publish it, over whatever the name leads to when it overwrites and when the name is free when it does not, and can fail and remove its temporary file |
| PublishedOutput.StrayStays | internal/compressfile/compressfile.go:336-366 | an empty claim of a writer that is gone is there exactly when one was left so, and stays |

## Left out

- FindingsSafety.AnswersAreScans: a directory changed from outside (a file that does not parse, a link, an entry planted by another user), the write without a lock where the file system cannot lock, and scan's own answer when it comes wholly from files without a second look at the source are not modelled; keys are compared as what they hash.
- FindingsKept.BothStayReadable: a read error on meta.json while a writer merges is not modelled; the writer then keeps only its own entries.
- FindingsWriter.CacheDirectory.Commit: a write fails as a whole or not at all, and the removals at its end do not fail; crashes are steps of the state machine beside it.
- XzRoundTrip.FileRoundTrip: states the reader of whole files; that a dictionary cut to the bytes wanted (NewXzPrefixReader) decodes them exactly is a property of LZMA2, so the cap is modelled but not in the round trip.
- XzReading.XzReader.Read: refusals are told apart as truncated, malformed or too large a dictionary, not by each message; sizes and counts are unbounded, so no uint64 sum wraps.
- ValueSizes.CheckZstdValue: the header parser is a parameter; a frame's header parses to what the frame is, whatever bytes follow it.
- JournalText.AppendMessage: the length of a message is an int of 64 bits, as any buffer's is.
- JournalItems.ReadObject: a read that fails for another reason than the file's end is not modelled; reasons name the damage, not the object.
- Walk.WalkLines: empty lines, the line-length statistics (floating point and random sampling) and reads that fail or are canceled are left out.
- TimeIndexing.TimeIndexer.Observe: the stamp of a line is given by a parser that promises its range; year inference and formats are not modelled.
- Build.BuildSeekable: a frame's decompressed text is its part of the text; the decompressor, the reading of the seek table, and the number of its frame that each checkpoint carries are left out.
- TraceFilling.ReadSpans: how the pass seeks and reads the file, and its read errors, are left out; it is any interleaving of the windows' lines.
- TraceFilling.TraceText.Fill: masking and cutting a line is one function of its number.
- ScanQueue.RunKeeps: the hook that tells of a waiting caller is left out; a caller that cancels after its channel closed may also notice the slot first, which is the other step.
- PublishedOutput.NamesAreWhole: a claim racing a writer that overwrites is left out, as where names are claimed no writer overwrites; the random name of a temporary file is one no writer had before.
- FindingsReadCache.ReadCache.Store: the size of a finding's struct is a parameter.
- Answers of a scan (newAnswer, stateOf, Summary): small per-branch facts.
- Directory and file opening (symbolic links, Lstat races, modes, fsync, lock polling and its timeout): operating-system behaviour.
- Timestamp parsing, signature matching, redaction, search, hooks, the web API and the command line: no part of these models.
