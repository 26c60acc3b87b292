/** The findings cache of one file: writers that commit through meta.json,
    crashes between any two of their steps, and readers, with the read caches
    of their processes, that check the file's identity last. */
module FindingsCommit {
  import opened Common
  import opened FindingsStore
  import opened FindingsRecords

  // ---------------------------------------------------------------------
  // The state.

  /** What a scan of the file in some state finds: the result under a key,
      and the text under a ranges key. Keys hash everything else a scan
      depends on. */
  datatype Scanner = Scanner(result: (Identity, string) -> ScanResult, text: (Identity, string) -> ScannedText)

  /** The keys of one call: of each signature of its catalogue, and of the
      masked ranges. */
  datatype Scope = Scope(keys: map<string, string>, rangesKey: string)

  /** A scan that is done and whose file has not changed since it began. */
  datatype Job = Job(start: Identity, scope: Scope, scanned: seq<string>)

  datatype Phase = Entries(next: nat) | Merging | Committing | Cleaning

  /** The writer that holds the directory's lock: how far its commit is, the
      meta.json it will write, and the temporary file it has open. */
  datatype Writer = Writer(job: Job, phase: Phase, meta: MetaFile, temp: Option<string>)

  datatype Stage = Looking | NeedRanges | Reading(text: ScannedText) | Stopped

  /** A read under way in some process: the meta.json it read, what the
      process's read cache held of that state, the entries so far, and those
      decoded from files. */
  datatype Reader = Reader(process: nat, scope: Scope, sel: seq<string>, meta: MetaFile, stage: Stage, next: nat,
                           held: Option<Record>, entries: map<string, ScanResult>, decoded: Record)

  /** What a read gave, with the state the file was in then. */
  datatype Answer = Answer(at: Identity, scope: Scope, entries: map<string, ScanResult>, text: Option<ScannedText>)

  /** What a read found to be of the file's state, to be kept by its process. */
  datatype Keeping = Keeping(process: nat, decoded: Record)

  /** The directory, the file, the writers and the readers, and what each
      process's read cache holds of the file. */
  datatype State = State(dir: Directory, now: Identity, past: set<Identity>, waiting: seq<Job>,
                         writer: Option<Writer>, readers: map<nat, Reader>, answers: seq<Answer>,
                         records: map<nat, Record>, keeping: seq<Keeping>)

  // ---------------------------------------------------------------------
  // The steps.

  predicate FileChanges(s: State, s': State, id: Identity) {
    // A writer's file does not change between its last check and the end of
    // its commit, and a state of the file never comes back.
    && s.writer.None? && s.waiting == [] && id != s.now && id !in s.past
    && s' == s.(now := id, past := s.past + {s.now})
  }

  predicate ScanChecked(s: State, s': State, job: Job) {
    && job.start == s.now && (forall id :: id in job.scanned ==> id in job.scope.keys)
    && s' == s.(waiting := s.waiting + [job])
  }

  predicate LockTaken(s: State, s': State, i: nat) {
    && s.writer.None? && i < |s.waiting|
    && s' == s.(waiting := s.waiting[..i] + s.waiting[i + 1..],
                writer := Some(Writer(s.waiting[i], Entries(0), NewMeta(s.waiting[i].start), None)))
  }

  predicate LockGivenUp(s: State, s': State, i: nat) {
    i < |s.waiting| && s' == s.(waiting := s.waiting[..i] + s.waiting[i + 1..])
  }

  predicate TempCreated(s: State, s': State, name: string) {
    && s.writer.Some? && s.writer.value.temp.None? && s.writer.value.phase != Cleaning
    && IsTemp(name) && name !in s.dir
    && s' == s.(dir := s.dir[name := Partial], writer := Some(s.writer.value.(temp := Some(name))))
  }

  /** The directory once the temporary file is renamed over name. */
  function Renamed(dir: Directory, temp: string, name: string, file: File): Directory {
    (dir - {temp})[name := file]
  }

  predicate EntryWritten(s: State, s': State, scanner: Scanner) {
    && s.writer.Some? && var w := s.writer.value;
    && w.phase.Entries? && w.phase.next < |w.job.scanned| && w.temp.Some?
    && var id := w.job.scanned[w.phase.next];
    && ValidID(id) && id in w.job.scope.keys
    && var key := w.job.scope.keys[id];
    && var result := scanner.result(w.job.start, key);
    && s' == s.(dir := Renamed(s.dir, w.temp.value, EntryName(id), EntryOf(key, result)),
                writer := Some(w.(phase := Entries(w.phase.next + 1), temp := None,
                                  meta := w.meta.(signatures := w.meta.signatures[id := SummaryOf(key, result)]))))
  }

  predicate EntrySkipped(s: State, s': State) {
    && s.writer.Some? && var w := s.writer.value;
    && w.phase.Entries? && w.phase.next < |w.job.scanned| && !ValidID(w.job.scanned[w.phase.next])
    && s' == s.(writer := Some(w.(phase := Entries(w.phase.next + 1))))
  }

  predicate RangesWritten(s: State, s': State, scanner: Scanner) {
    && s.writer.Some? && var w := s.writer.value;
    && w.phase.Entries? && w.phase.next == |w.job.scanned| && w.temp.Some?
    && var key := w.job.scope.rangesKey;
    && var text := scanner.text(w.job.start, key);
    && s' == s.(dir := Renamed(s.dir, w.temp.value, RANGES_NAME, FileOf(key, text)),
                writer := Some(w.(phase := Merging, temp := None,
                                  meta := w.meta.(ranges := Some(RangesMeta(key, |text.ranges|))))))
  }

  predicate MetaMerged(s: State, s': State) {
    && s.writer.Some? && var w := s.writer.value;
    && w.phase == Merging && w.temp.None?
    && s' == s.(writer := Some(w.(phase := Committing, meta := Merge(w.meta, MetaIn(s.dir)))))
  }

  predicate MetaWritten(s: State, s': State) {
    && s.writer.Some? && var w := s.writer.value;
    && w.phase == Committing && w.temp.Some?
    && s' == s.(dir := Renamed(s.dir, w.temp.value, META_NAME, Meta(w.meta)),
                writer := Some(w.(phase := Cleaning, temp := None)))
  }

  predicate UnnamedRemoved(s: State, s': State, name: string) {
    && s.writer.Some? && s.writer.value.phase == Cleaning && name in s.dir
    && IsUnnamed(name, s.writer.value.meta) && s' == s.(dir := s.dir - {name})
  }

  predicate LockReleased(s: State, s': State) {
    s.writer.Some? && s.writer.value.phase == Cleaning && s' == s.(writer := None)
  }

  /** A step of the commit fails: the writer removes its temporary file. */
  predicate WriterFailed(s: State, s': State) {
    && s.writer.Some?
    && s' == s.(dir := if s.writer.value.temp.Some? then s.dir - {s.writer.value.temp.value} else s.dir, writer := None)
  }

  predicate WriterCrashed(s: State, s': State) {
    s.writer.Some? && s' == s.(writer := None)
  }

  predicate ReadBegun(s: State, s': State, r: nat, process: nat, scope: Scope, sel: seq<string>) {
    && r !in s.readers
    && match MetaIn(s.dir)
       case None => s' == s.(answers := s.answers + [Answer(s.now, scope, map[], None)])
       case Some(meta) =>
         s' == s.(readers := s.readers[r := Reader(process, scope, sel, meta, Looking, 0, None, map[],
                                                   Record(meta.identity, None, map[]))])
  }

  /** What a process's read cache gives for a state of the file. */
  function Looked(records: map<nat, Record>, process: nat, identity: Identity): Option<Record> {
    if process in records && Equal(records[process].identity, identity) then Some(records[process]) else None
  }

  predicate RecordLooked(s: State, s': State, r: nat) {
    && r in s.readers && s.readers[r].stage == Looking
    && var reader := s.readers[r];
    && var current := CurrentInMeta(reader.meta, reader.scope.keys, reader.scope.rangesKey);
    && s' == s.(readers := s.readers[r := reader.(held := Looked(s.records, reader.process, reader.meta.identity),
                                                  stage := if current == {} then Stopped else NeedRanges)])
  }

  predicate RangesRead(s: State, s': State, r: nat) {
    && r in s.readers && s.readers[r].stage == NeedRanges
    && var reader := s.readers[r];
    && var text := RangesFrom(s.dir, reader.meta, reader.scope.rangesKey, reader.held);
    && var ranges := FreshRanges(s.dir, reader.meta, reader.scope.rangesKey, reader.held);
    && s' == s.(readers := s.readers[r := reader.(stage := if text.Some? then Reading(text.value) else Stopped,
                                                  decoded := reader.decoded.(ranges := ranges))])
  }

  predicate EntryRead(s: State, s': State, r: nat) {
    && r in s.readers && s.readers[r].stage.Reading? && s.readers[r].next < |s.readers[r].sel|
    && var reader := s.readers[r];
    && var id := reader.sel[reader.next];
    && var lines := reader.stage.text.lines;
    && var entry := EntryFrom(s.dir, reader.meta, reader.scope.keys, lines, id, reader.held);
    && var added := FreshEntry(s.dir, reader.meta, reader.scope.keys, lines, id, reader.held);
    && s' == s.(readers := s.readers[r := reader.(next := reader.next + 1,
                                                  entries := if entry.Some? then reader.entries[id := entry.value]
                                                             else reader.entries,
                                                  decoded := WithEntry(reader.decoded, id, added))])
  }

  /** The last check: the file is still in the state meta.json records, and
      what was decoded may be kept, or the read answers nothing. */
  predicate IdentityChecked(s: State, s': State, r: nat) {
    && r in s.readers
    && var reader := s.readers[r];
    && (reader.stage.Stopped? || (reader.stage.Reading? && reader.next == |reader.sel|))
    && var same := Equal(reader.meta.identity, s.now);
    && var answer := if same
                     then Answer(s.now, reader.scope, reader.entries,
                                 if reader.stage.Reading? then Some(reader.stage.text) else None)
                     else Answer(s.now, reader.scope, map[], None);
    && s' == s.(readers := s.readers - {r}, answers := s.answers + [answer],
                keeping := if same then s.keeping + [Keeping(reader.process, reader.decoded)] else s.keeping)
  }

  /** A process keeps what its read decoded, or drops the whole record, when
      it is past the bounds with it. */
  predicate RecordKept(s: State, s': State, i: nat, fits: bool) {
    && i < |s.keeping|
    && var k := s.keeping[i];
    && var held := if k.process in s.records then Some(s.records[k.process]) else None;
    && s' == s.(keeping := s.keeping[..i] + s.keeping[i + 1..],
                records := if NothingIn(k.decoded) then s.records
                           else if fits then s.records[k.process := StoredInto(held, k.decoded)]
                           else s.records - {k.process})
  }

  /** Reads of other files evict the record, or the process ends. */
  predicate RecordDropped(s: State, s': State, process: nat) {
    process in s.records && s' == s.(records := s.records - {process})
  }

  datatype Step =
    | FileStep(id: Identity)
    | CheckStep(job: Job)
    | LockStep(i: nat)
    | GiveUpStep(i: nat)
    | TempStep(name: string)
    | EntryStep
    | SkipStep
    | RangesStep
    | MergeStep
    | MetaStep
    | RemoveStep(name: string)
    | ReleaseStep
    | FailStep
    | CrashStep
    | BeginReadStep(r: nat, process: nat, scope: Scope, sel: seq<string>)
    | LookStep(r: nat)
    | ReadRangesStep(r: nat)
    | ReadEntryStep(r: nat)
    | AnswerStep(r: nat)
    | KeepStep(i: nat, fits: bool)
    | DropStep(process: nat)

  predicate Next(scanner: Scanner, s: State, s': State, step: Step) {
    match step
    case FileStep(id) => FileChanges(s, s', id)
    case CheckStep(job) => ScanChecked(s, s', job)
    case LockStep(i) => LockTaken(s, s', i)
    case GiveUpStep(i) => LockGivenUp(s, s', i)
    case TempStep(name) => TempCreated(s, s', name)
    case EntryStep => EntryWritten(s, s', scanner)
    case SkipStep => EntrySkipped(s, s')
    case RangesStep => RangesWritten(s, s', scanner)
    case MergeStep => MetaMerged(s, s')
    case MetaStep => MetaWritten(s, s')
    case RemoveStep(name) => UnnamedRemoved(s, s', name)
    case ReleaseStep => LockReleased(s, s')
    case FailStep => WriterFailed(s, s')
    case CrashStep => WriterCrashed(s, s')
    case BeginReadStep(r, process, scope, sel) => ReadBegun(s, s', r, process, scope, sel)
    case LookStep(r) => RecordLooked(s, s', r)
    case ReadRangesStep(r) => RangesRead(s, s', r)
    case ReadEntryStep(r) => EntryRead(s, s', r)
    case AnswerStep(r) => IdentityChecked(s, s', r)
    case KeepStep(i, fits) => RecordKept(s, s', i, fits)
    case DropStep(process) => RecordDropped(s, s', process)
  }
}
