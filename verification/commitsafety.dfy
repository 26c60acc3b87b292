/** No read of the findings cache answers anything but what scanning the file,
    as it is then, would find. */
module FindingsSafety {
  import opened Common
  import opened FindingsStore
  import opened FindingsRecords
  import opened FindingsCommit

  /** An entry file under this key holds what a scan of the state finds. */
  ghost predicate EntryTrue(scanner: Scanner, at: Identity, dir: Directory, id: string, key: string) {
    var n := EntryName(id);
    n in dir && dir[n].Entry? && dir[n].entryKey == key ==> dir[n] == EntryOf(key, scanner.result(at, key))
  }

  ghost predicate RangesTrue(scanner: Scanner, at: Identity, dir: Directory, key: string) {
    RANGES_NAME in dir && dir[RANGES_NAME].Ranges? && dir[RANGES_NAME].key == key ==>
      dir[RANGES_NAME].text == scanner.text(at, key)
  }

  ghost predicate NamedTrue(scanner: Scanner, at: Identity, dir: Directory, meta: MetaFile, id: string)
    requires id in meta.signatures
  {
    var key := meta.signatures[id].key;
    && ValidID(id) && meta.signatures[id] == SummaryOf(key, scanner.result(at, key))
    && EntryTrue(scanner, at, dir, id, key)
  }

  /** Every entry meta names is what a scan of this state finds, or a miss. */
  ghost predicate MetaTrue(scanner: Scanner, at: Identity, dir: Directory, meta: MetaFile) {
    && (forall id :: id in meta.signatures ==> NamedTrue(scanner, at, dir, meta, id))
    && (meta.ranges.Some? ==>
          && meta.ranges.value.count == |scanner.text(at, meta.ranges.value.key).ranges|
          && RangesTrue(scanner, at, dir, meta.ranges.value.key))
  }

  /** meta describes a state the file was or is in, and truly when it is in
      that state now. */
  ghost predicate Trusted(scanner: Scanner, now: Identity, past: set<Identity>, dir: Directory, meta: MetaFile) {
    && (meta.identity == now || meta.identity in past)
    && (meta.identity == now ==> MetaTrue(scanner, now, dir, meta))
  }

  ghost predicate WriterTrue(scanner: Scanner, now: Identity, dir: Directory, w: Writer) {
    && JobReady(w.job, now) && w.meta.identity == now && MetaTrue(scanner, now, dir, w.meta)
    && (w.temp.Some? ==> IsTemp(w.temp.value))
  }

  predicate JobReady(job: Job, now: Identity) {
    job.start == now && forall id :: id in job.scanned ==> id in job.scope.keys
  }

  /** A decoded entry is what a scan of the state finds under its key. */
  ghost predicate DecodedTrue(scanner: Scanner, at: Identity, e: DecodedEntry) {
    e == EntryRecord(e.key, scanner.result(at, e.key))
  }

  /** Decoded ranges are those of a scan of the state under their key. */
  ghost predicate RangesDecodedTrue(scanner: Scanner, at: Identity, d: DecodedRanges) {
    d.text == scanner.text(at, d.key) && d.count == |d.text.ranges|
  }

  /** What a record holds of a state of the file is what a scan of that state
      finds. */
  ghost predicate RecordTrue(scanner: Scanner, rec: Record) {
    && (rec.ranges.Some? ==> RangesDecodedTrue(scanner, rec.identity, rec.ranges.value))
    && forall id :: id in rec.entries ==> DecodedTrue(scanner, rec.identity, rec.entries[id])
  }

  ghost predicate RecordsTrue(scanner: Scanner, records: map<nat, Record>, keeping: seq<Keeping>) {
    && (forall p :: p in records ==> RecordTrue(scanner, records[p]))
    && (forall i :: 0 <= i < |keeping| ==> RecordTrue(scanner, keeping[i].decoded))
  }

  /** The record a read takes from is of the state its meta.json gives. */
  ghost predicate HeldTrue(scanner: Scanner, identity: Identity, held: Option<Record>) {
    held.Some? ==> held.value.identity == identity && RecordTrue(scanner, held.value)
  }

  /** The entries read so far are the scan's, and what was decoded is true,
      if the file is still in the state meta.json gave. */
  ghost predicate ReaderTrue(scanner: Scanner, now: Identity, past: set<Identity>, dir: Directory, r: Reader) {
    && Trusted(scanner, now, past, dir, r.meta)
    && HeldTrue(scanner, r.meta.identity, r.held) && r.decoded.identity == r.meta.identity
    && (r.meta.identity == now ==>
          && EntriesTrue(scanner, now, r.scope, r.entries) && RecordTrue(scanner, r.decoded)
          && (r.stage.Reading? ==> r.stage.text == scanner.text(now, r.scope.rangesKey)))
  }

  ghost predicate EntriesTrue(scanner: Scanner, at: Identity, scope: Scope, entries: map<string, ScanResult>) {
    forall id :: id in entries ==> id in scope.keys && entries[id] == scanner.result(at, scope.keys[id])
  }

  ghost predicate AnswerTrue(scanner: Scanner, a: Answer) {
    && EntriesTrue(scanner, a.at, a.scope, a.entries)
    && (a.text.Some? ==> a.text.value == scanner.text(a.at, a.scope.rangesKey))
  }

  ghost predicate Inv(scanner: Scanner, s: State) {
    && s.now !in s.past
    && (MetaIn(s.dir).Some? ==> Trusted(scanner, s.now, s.past, s.dir, MetaIn(s.dir).value))
    && (s.writer.Some? ==> WriterTrue(scanner, s.now, s.dir, s.writer.value))
    && (forall i :: 0 <= i < |s.waiting| ==> JobReady(s.waiting[i], s.now))
    && (forall r :: r in s.readers ==> ReaderTrue(scanner, s.now, s.past, s.dir, s.readers[r]))
    && (forall i :: 0 <= i < |s.answers| ==> AnswerTrue(scanner, s.answers[i]))
    && RecordsTrue(scanner, s.records, s.keeping)
  }

  /** An empty directory, no one at work, and nothing held. */
  predicate Init(s: State) {
    && s.dir == map[] && s.past == {} && s.waiting == [] && s.writer.None? && s.readers == map[] && s.answers == []
    && s.records == map[] && s.keeping == []
  }

  lemma InitIsTrue(scanner: Scanner, s: State)
    requires Init(s)
    ensures Inv(scanner, s)
  {
  }

  // ---------------------------------------------------------------------
  // What is true of a state stays true while the file stays in it.

  predicate FileTrue(scanner: Scanner, at: Identity, f: File) {
    match f
    case Entry(key, _, _) => f == EntryOf(key, scanner.result(at, key))
    case Ranges(key, text) => text == scanner.text(at, key)
    case _ => true
  }

  /** Every file of the new directory was there, or is true of the state. */
  ghost predicate Follows(scanner: Scanner, at: Identity, dir: Directory, dir': Directory) {
    forall n :: n in dir' ==> (n in dir && dir'[n] == dir[n]) || FileTrue(scanner, at, dir'[n])
  }

  lemma MetaStaysTrue(scanner: Scanner, at: Identity, dir: Directory, dir': Directory, meta: MetaFile)
    requires MetaTrue(scanner, at, dir, meta) && Follows(scanner, at, dir, dir')
    ensures MetaTrue(scanner, at, dir', meta)
  {
    forall id | id in meta.signatures
      ensures NamedTrue(scanner, at, dir', meta, id)
    {
      assert NamedTrue(scanner, at, dir, meta, id);
    }
  }

  lemma ReadersStayTrue(scanner: Scanner, s: State, dir': Directory)
    requires Inv(scanner, s) && Follows(scanner, s.now, s.dir, dir')
    ensures forall r :: r in s.readers ==> ReaderTrue(scanner, s.now, s.past, dir', s.readers[r])
  {
    forall r | r in s.readers
      ensures ReaderTrue(scanner, s.now, s.past, dir', s.readers[r])
    {
      assert ReaderTrue(scanner, s.now, s.past, s.dir, s.readers[r]);
      hide MetaTrue, Follows, EntriesTrue;
      if s.readers[r].meta.identity == s.now {
        MetaStaysTrue(scanner, s.now, s.dir, dir', s.readers[r].meta);
      }
    }
  }

  /** A step of a writer: the directory follows, meta.json is what it was or
      what the writer wrote, and the writer's own meta.json stays true. */
  lemma WriterStep(scanner: Scanner, s: State, s': State)
    requires Inv(scanner, s) && Follows(scanner, s.now, s.dir, s'.dir)
    requires s' == s.(dir := s'.dir, writer := s'.writer)
    requires MetaIn(s'.dir) == MetaIn(s.dir) || (s.writer.Some? && MetaIn(s'.dir) == Some(s.writer.value.meta))
    requires s'.writer.Some? ==> WriterTrue(scanner, s.now, s'.dir, s'.writer.value)
    ensures Inv(scanner, s')
  {
    hide MetaTrue, Follows;
    ReadersStayTrue(scanner, s, s'.dir);
    if MetaIn(s'.dir).Some? && MetaIn(s'.dir).value.identity == s.now {
      MetaStaysTrue(scanner, s.now, s.dir, s'.dir, MetaIn(s'.dir).value);
    }
  }

  /** A rename over a name that is not meta.json's leaves meta.json. */
  lemma RenameFollows(scanner: Scanner, at: Identity, dir: Directory, temp: string, name: string, file: File)
    requires IsTemp(temp) && FileTrue(scanner, at, file)
    ensures Follows(scanner, at, dir, Renamed(dir, temp, name, file))
    ensures name != META_NAME ==> MetaIn(Renamed(dir, temp, name, file)) == MetaIn(dir)
  {
    SpecialNames();
  }

  lemma EntryWrittenTrue(scanner: Scanner, s: State, s': State)
    requires Inv(scanner, s) && EntryWritten(s, s', scanner)
    ensures Inv(scanner, s')
  {
    var w := s.writer.value;
    var id := w.job.scanned[w.phase.next];
    var key := w.job.scope.keys[id];
    var result := scanner.result(w.job.start, key);
    RenameFollows(scanner, s.now, s.dir, w.temp.value, EntryName(id), EntryOf(key, result));
    NamesAreApart(id, id);
    NamedAdded(scanner, s.now, s.dir, s'.dir, w.meta, id, key);
    assert WriterTrue(scanner, s.now, s'.dir, s'.writer.value);
    hide Inv, WriterTrue, Follows, EntryWritten, Renamed;
    WriterStep(scanner, s, s');
  }

  /** meta with the entry just written. */
  lemma NamedAdded(scanner: Scanner, at: Identity, dir: Directory, dir': Directory, meta: MetaFile, id: string, key: string)
    requires MetaTrue(scanner, at, dir, meta) && Follows(scanner, at, dir, dir') && ValidID(id)
    requires EntryName(id) in dir' && dir'[EntryName(id)] == EntryOf(key, scanner.result(at, key))
    ensures MetaTrue(scanner, at, dir', meta.(signatures := meta.signatures[id := SummaryOf(key, scanner.result(at, key))]))
  {
    MetaStaysTrue(scanner, at, dir, dir', meta);
    var meta' := meta.(signatures := meta.signatures[id := SummaryOf(key, scanner.result(at, key))]);
    forall i | i in meta'.signatures
      ensures NamedTrue(scanner, at, dir', meta', i)
    {
      assert i != id ==> NamedTrue(scanner, at, dir', meta, i);
    }
  }

  lemma RangesWrittenTrue(scanner: Scanner, s: State, s': State)
    requires Inv(scanner, s) && RangesWritten(s, s', scanner)
    ensures Inv(scanner, s')
  {
    var w := s.writer.value;
    var key := w.job.scope.rangesKey;
    RenameFollows(scanner, s.now, s.dir, w.temp.value, RANGES_NAME, FileOf(key, scanner.text(s.now, key)));
    SpecialNames();
    MetaStaysTrue(scanner, s.now, s.dir, s'.dir, w.meta);
    assert WriterTrue(scanner, s.now, s'.dir, s'.writer.value) by {
      RangesAdded(scanner, s.now, s'.dir, w.meta, key);
    }
    hide Inv, WriterTrue, Follows, RangesWritten, Renamed;
    WriterStep(scanner, s, s');
  }

  lemma RangesAdded(scanner: Scanner, at: Identity, dir: Directory, meta: MetaFile, key: string)
    requires MetaTrue(scanner, at, dir, meta)
    requires RANGES_NAME in dir && dir[RANGES_NAME] == FileOf(key, scanner.text(at, key))
    ensures MetaTrue(scanner, at, dir, meta.(ranges := Some(RangesMeta(key, |scanner.text(at, key).ranges|))))
  {
    forall id | id in meta.signatures
      ensures NamedTrue(scanner, at, dir, meta.(ranges := Some(RangesMeta(key, |scanner.text(at, key).ranges|))), id)
    {
      assert NamedTrue(scanner, at, dir, meta, id);
    }
  }

  /** The merged meta.json names true entries only: the one found in the
      directory describes the same state, or nothing of it is kept. */
  lemma MetaMergedTrue(scanner: Scanner, s: State, s': State)
    requires Inv(scanner, s) && MetaMerged(s, s')
    ensures Inv(scanner, s')
  {
    var w := s.writer.value;
    var merged := Merge(w.meta, MetaIn(s.dir));
    assert MetaTrue(scanner, s.now, s.dir, merged) by {
      if MetaIn(s.dir).Some? && MetaIn(s.dir).value.identity == s.now {
        MergedTrue(scanner, s.now, s.dir, w.meta, MetaIn(s.dir).value);
      }
    }
    assert s'.dir == s.dir && Follows(scanner, s.now, s.dir, s.dir);
    assert WriterTrue(scanner, s.now, s'.dir, s'.writer.value);
    hide Inv, WriterTrue, Follows, MetaMerged, Merge;
    WriterStep(scanner, s, s');
  }

  lemma MergedTrue(scanner: Scanner, at: Identity, dir: Directory, meta: MetaFile, other: MetaFile)
    requires MetaTrue(scanner, at, dir, meta) && MetaTrue(scanner, at, dir, other)
    requires meta.identity == other.identity
    ensures MetaTrue(scanner, at, dir, Merge(meta, Some(other)))
  {
    var merged := Merge(meta, Some(other));
    forall id | id in merged.signatures
      ensures NamedTrue(scanner, at, dir, merged, id)
    {
      assert id in meta.signatures ==> NamedTrue(scanner, at, dir, meta, id);
      assert id !in meta.signatures ==> NamedTrue(scanner, at, dir, other, id);
    }
  }

  lemma MetaWrittenTrue(scanner: Scanner, s: State, s': State)
    requires Inv(scanner, s) && MetaWritten(s, s')
    ensures Inv(scanner, s')
  {
    var w := s.writer.value;
    RenameFollows(scanner, s.now, s.dir, w.temp.value, META_NAME, Meta(w.meta));
    MetaStaysTrue(scanner, s.now, s.dir, s'.dir, w.meta);
    assert WriterTrue(scanner, s.now, s'.dir, s'.writer.value);
    assert MetaIn(s'.dir) == Some(w.meta);
    hide Inv, WriterTrue, Follows, MetaWritten, Renamed;
    WriterStep(scanner, s, s');
  }

  /** Steps that only add a temporary file, or remove files other than
      meta.json, or end the writer. */
  lemma OtherWriterStepTrue(scanner: Scanner, s: State, s': State, step: Step)
    requires Inv(scanner, s) && Next(scanner, s, s', step)
    requires step.TempStep? || step.SkipStep? || step.RemoveStep? || step.ReleaseStep? || step.FailStep? || step.CrashStep?
    ensures Inv(scanner, s')
  {
    SpecialNames();
    assert Follows(scanner, s.now, s.dir, s'.dir) && MetaIn(s'.dir) == MetaIn(s.dir);
    MetaStaysTrue(scanner, s.now, s.dir, s'.dir, s.writer.value.meta);
    assert s'.writer.Some? ==> WriterTrue(scanner, s.now, s'.dir, s'.writer.value);
    assert s' == s.(dir := s'.dir, writer := s'.writer);
    hide Inv, WriterTrue, Follows, Next, MetaIn;
    WriterStep(scanner, s, s');
  }

  /** The file changes: no meta.json describes the new state yet, and none
      read before does. */
  lemma FileChangesTrue(scanner: Scanner, s: State, s': State, id: Identity)
    requires Inv(scanner, s) && FileChanges(s, s', id)
    ensures Inv(scanner, s')
  {
    forall r | r in s'.readers
      ensures ReaderTrue(scanner, s'.now, s'.past, s'.dir, s'.readers[r])
    {
      assert ReaderTrue(scanner, s.now, s.past, s.dir, s.readers[r]);
    }
  }

  lemma WaitingStepTrue(scanner: Scanner, s: State, s': State, step: Step)
    requires Inv(scanner, s) && Next(scanner, s, s', step)
    requires step.CheckStep? || step.LockStep? || step.GiveUpStep?
    ensures Inv(scanner, s')
  {
    hide ReaderTrue, AnswerTrue, Trusted;
  }

  lemma ReadBegunTrue(scanner: Scanner, s: State, s': State, r: nat, process: nat, scope: Scope, sel: seq<string>)
    requires Inv(scanner, s) && ReadBegun(s, s', r, process, scope, sel)
    ensures Inv(scanner, s')
  {
    hide WriterTrue, Trusted, CurrentInMeta;
  }

  /** One reader moved. */
  lemma ReaderMoved(scanner: Scanner, s: State, s': State, r: nat)
    requires Inv(scanner, s) && r in s'.readers && s' == s.(readers := s.readers[r := s'.readers[r]])
    requires ReaderTrue(scanner, s.now, s.past, s.dir, s'.readers[r])
    ensures Inv(scanner, s')
  {
    hide WriterTrue, Trusted, AnswerTrue, ReaderTrue, JobReady;
  }

  lemma RecordLookedTrue(scanner: Scanner, s: State, s': State, r: nat)
    requires Inv(scanner, s) && RecordLooked(s, s', r)
    ensures Inv(scanner, s')
  {
    assert ReaderTrue(scanner, s.now, s.past, s.dir, s.readers[r]);
    assert ReaderTrue(scanner, s.now, s.past, s.dir, s'.readers[r]) by {
      hide Trusted, RecordTrue, EntriesTrue, CurrentInMeta;
    }
    hide Inv, ReaderTrue, CurrentInMeta, Looked;
    ReaderMoved(scanner, s, s', r);
  }

  /** Ranges that meta.json and the scope name are the scan's, from the file
      and from a record of the state alike; so is what is kept of them. */
  lemma RangesFromTrue(scanner: Scanner, at: Identity, dir: Directory, meta: MetaFile, rangesKey: string,
                       held: Option<Record>)
    requires MetaTrue(scanner, at, dir, meta) && HeldTrue(scanner, at, held)
    ensures var text := RangesFrom(dir, meta, rangesKey, held);
            text.Some? ==> text.value == scanner.text(at, rangesKey)
    ensures var d := FreshRanges(dir, meta, rangesKey, held);
            d.Some? ==> RangesDecodedTrue(scanner, at, d.value)
  {
    hide NamedTrue, IsText;
  }

  lemma RangesReadTrue(scanner: Scanner, s: State, s': State, r: nat)
    requires Inv(scanner, s) && RangesRead(s, s', r)
    ensures Inv(scanner, s')
  {
    var reader := s.readers[r];
    assert ReaderTrue(scanner, s.now, s.past, s.dir, reader);
    assert ReaderTrue(scanner, s.now, s.past, s.dir, s'.readers[r]) by {
      hide RangesFrom, FreshRanges, MetaTrue, RangesDecodedTrue, DecodedTrue, EntriesTrue;
      if reader.meta.identity == s.now {
        RangesFromTrue(scanner, s.now, s.dir, reader.meta, reader.scope.rangesKey, reader.held);
      }
    }
    hide Inv, ReaderTrue, RangesFrom, FreshRanges;
    ReaderMoved(scanner, s, s', r);
  }

  /** An entry that agrees with a true meta.json is the scan's: one read from
      its file, and one taken from a record of the state, whatever the file
      then holds. */
  lemma EntryFromTrue(scanner: Scanner, at: Identity, dir: Directory, meta: MetaFile, keys: map<string, string>,
                      lines: int, id: string, held: Option<Record>)
    requires MetaTrue(scanner, at, dir, meta) && HeldTrue(scanner, at, held)
    ensures var e := EntryFrom(dir, meta, keys, lines, id, held);
            e.Some? ==> id in keys && e.value == scanner.result(at, keys[id])
    ensures var d := FreshEntry(dir, meta, keys, lines, id, held);
            d.Some? ==> DecodedTrue(scanner, at, d.value)
  {
    ReadEntryTrue(scanner, at, dir, meta, keys, lines, id);
    if HeldEntry(held, meta, keys, lines, id).Some? {
      assert NamedTrue(scanner, at, dir, meta, id);
      assert DecodedTrue(scanner, at, held.value.entries[id]);
    }
  }

  /** An entry file that agrees with meta.json is the scan's. */
  lemma ReadEntryTrue(scanner: Scanner, at: Identity, dir: Directory, meta: MetaFile, keys: map<string, string>,
                      lines: int, id: string)
    requires MetaTrue(scanner, at, dir, meta)
    ensures var e := ReadEntry(dir, meta, keys, lines, id);
            e.Some? ==> id in keys && e.value == scanner.result(at, keys[id])
  {
    if id in meta.signatures {
      assert NamedTrue(scanner, at, dir, meta, id);
    }
  }

  lemma EntryReadTrue(scanner: Scanner, s: State, s': State, r: nat)
    requires Inv(scanner, s) && EntryRead(s, s', r)
    ensures Inv(scanner, s')
  {
    var reader := s.readers[r];
    assert ReaderTrue(scanner, s.now, s.past, s.dir, reader);
    assert ReaderTrue(scanner, s.now, s.past, s.dir, s'.readers[r]) by {
      hide EntryFrom, FreshEntry, MetaTrue, DecodedTrue, RangesDecodedTrue;
      if reader.meta.identity == s.now {
        EntryFromTrue(scanner, s.now, s.dir, reader.meta, reader.scope.keys, reader.stage.text.lines,
                      reader.sel[reader.next], reader.held);
      }
    }
    hide Inv, ReaderTrue, EntryFrom, FreshEntry;
    ReaderMoved(scanner, s, s', r);
  }

  /** What is added to a record of one state is true of that state. */
  lemma StoredIntoTrue(scanner: Scanner, held: Option<Record>, decoded: Record)
    requires RecordTrue(scanner, decoded) && (held.Some? ==> RecordTrue(scanner, held.value))
    ensures RecordTrue(scanner, StoredInto(held, decoded))
  {
    hide DecodedTrue, RangesDecodedTrue;
  }

  lemma RecordKeptTrue(scanner: Scanner, s: State, s': State, i: nat, fits: bool)
    requires Inv(scanner, s) && RecordKept(s, s', i, fits)
    ensures Inv(scanner, s')
  {
    var k := s.keeping[i];
    StoredIntoTrue(scanner, if k.process in s.records then Some(s.records[k.process]) else None, k.decoded);
    assert RecordsTrue(scanner, s'.records, s'.keeping) by {
      hide RecordTrue, StoredInto;
    }
    hide ReaderTrue, AnswerTrue, Trusted, WriterTrue, RecordsTrue, RecordKept, JobReady;
    RestUnchanged(s, s', i, fits);
  }

  lemma RestUnchanged(s: State, s': State, i: nat, fits: bool)
    requires RecordKept(s, s', i, fits)
    ensures s' == s.(records := s'.records, keeping := s'.keeping)
  {
  }

  /** What a read decoded and its process keeps is held for the reads after it;
      a read that took everything from what was held leaves it as it is. */
  lemma KeptIsHeld(s: State, s': State, i: nat)
    requires RecordKept(s, s', i, true)
    ensures var k := s.keeping[i];
            && (k.decoded.ranges.Some? ==> k.process in s'.records && s'.records[k.process].ranges == k.decoded.ranges)
            && (forall id :: id in k.decoded.entries ==>
                  k.process in s'.records && id in s'.records[k.process].entries
                  && s'.records[k.process].entries[id] == k.decoded.entries[id])
            && (k.decoded.ranges.None? && |k.decoded.entries| == 0 ==> s'.records == s.records)
  {
    hide Equal;
  }

  lemma RecordDroppedTrue(scanner: Scanner, s: State, s': State, process: nat)
    requires Inv(scanner, s) && RecordDropped(s, s', process)
    ensures Inv(scanner, s')
  {
    hide ReaderTrue, AnswerTrue, Trusted, WriterTrue, RecordTrue, JobReady;
  }

  lemma IdentityCheckedTrue(scanner: Scanner, s: State, s': State, r: nat)
    requires Inv(scanner, s) && IdentityChecked(s, s', r)
    ensures Inv(scanner, s')
  {
    assert ReaderTrue(scanner, s.now, s.past, s.dir, s.readers[r]);
    hide WriterTrue, Trusted, JobReady, RecordTrue;
  }

  lemma StepIsTrue(scanner: Scanner, s: State, s': State, step: Step)
    requires Inv(scanner, s) && Next(scanner, s, s', step)
    ensures Inv(scanner, s')
  {
    hide Inv, FileChanges, EntryWritten, RangesWritten, MetaMerged, MetaWritten, ReadBegun, RangesRead, EntryRead,
         IdentityChecked, RecordLooked, RecordKept, RecordDropped;
    match step
    case FileStep(id) => FileChangesTrue(scanner, s, s', id);
    case EntryStep => EntryWrittenTrue(scanner, s, s');
    case RangesStep => RangesWrittenTrue(scanner, s, s');
    case MergeStep => MetaMergedTrue(scanner, s, s');
    case MetaStep => MetaWrittenTrue(scanner, s, s');
    case BeginReadStep(r, process, scope, sel) => ReadBegunTrue(scanner, s, s', r, process, scope, sel);
    case LookStep(r) => RecordLookedTrue(scanner, s, s', r);
    case ReadRangesStep(r) => RangesReadTrue(scanner, s, s', r);
    case ReadEntryStep(r) => EntryReadTrue(scanner, s, s', r);
    case AnswerStep(r) => IdentityCheckedTrue(scanner, s, s', r);
    case KeepStep(i, fits) => RecordKeptTrue(scanner, s, s', i, fits);
    case DropStep(process) => RecordDroppedTrue(scanner, s, s', process);
    case _ =>
      if step.CheckStep? || step.LockStep? || step.GiveUpStep? {
        WaitingStepTrue(scanner, s, s', step);
      } else {
        OtherWriterStepTrue(scanner, s, s', step);
      }
  }

  // ---------------------------------------------------------------------
  // Every run.

  /** States that follow each other by the steps, from an empty directory. */
  ghost predicate IsRun(scanner: Scanner, run: seq<State>, steps: seq<Step>) {
    && |run| == |steps| + 1 && Init(run[0])
    && forall i :: 0 <= i < |steps| ==> Next(scanner, run[i], run[i + 1], steps[i])
  }

  /** The step taken at a state of a run. */
  lemma StepAt(scanner: Scanner, run: seq<State>, steps: seq<Step>, n: nat)
    requires IsRun(scanner, run, steps) && n < |steps|
    ensures |run| == |steps| + 1 && Next(scanner, run[n], run[n + 1], steps[n])
  {
    hide Next;
  }

  lemma RunBegins(scanner: Scanner, run: seq<State>, steps: seq<Step>)
    requires IsRun(scanner, run, steps)
    ensures |run| == |steps| + 1 && Init(run[0])
  {
    hide Next, Init;
  }

  lemma {:induction false} RunKeepsInv(scanner: Scanner, run: seq<State>, steps: seq<Step>, n: nat)
    requires IsRun(scanner, run, steps) && n < |run|
    ensures Inv(scanner, run[n])
  {
    hide *;
    RunBegins(scanner, run, steps);
    if n == 0 {
      InitIsTrue(scanner, run[0]);
    } else {
      RunKeepsInv(scanner, run, steps, n - 1);
      StepAt(scanner, run, steps, n - 1);
      StepIsTrue(scanner, run[n - 1], run[n], steps[n - 1]);
    }
  }

  /** In every run of writers, crashes, changes of the file and readers, each
      entry and each text a read answers, from files or from what its process
      held, is what a scan of the file, in the state it is in when the read
      answers, finds under the read's keys. */
  lemma AnswersAreScans(scanner: Scanner, run: seq<State>, steps: seq<Step>, n: nat, r: nat)
    requires IsRun(scanner, run, steps) && n < |steps| && steps[n] == AnswerStep(r)
    ensures r in run[n].readers && |run[n + 1].answers| == |run[n].answers| + 1
    ensures var a := run[n + 1].answers[|run[n].answers|];
            && a.at == run[n].now && a.scope == run[n].readers[r].scope
            && (forall id :: id in a.entries ==>
                  id in a.scope.keys && a.entries[id] == scanner.result(run[n].now, a.scope.keys[id]))
            && (a.text.Some? ==> a.text.value == scanner.text(run[n].now, a.scope.rangesKey))
  {
    assert Next(scanner, run[n], run[n + 1], steps[n]);
    RunKeepsInv(scanner, run, steps, n + 1);
    var a := run[n + 1].answers[|run[n].answers|];
    assert AnswerTrue(scanner, a);
    hide Inv, ReaderTrue;
  }

  /** In every run, whatever the read cache of any process holds under an
      identity is what a scan of the file in that state finds: a record is
      never stale, however the directory changed since it was decoded. */
  lemma RecordsAreScans(scanner: Scanner, run: seq<State>, steps: seq<Step>, n: nat, process: nat)
    requires IsRun(scanner, run, steps) && n < |run| && process in run[n].records
    ensures var rec := run[n].records[process];
            && (forall id :: id in rec.entries ==>
                  && rec.entries[id].findings == scanner.result(rec.identity, rec.entries[id].key).findings
                  && rec.entries[id].series == scanner.result(rec.identity, rec.entries[id].key).series)
            && (rec.ranges.Some? ==> rec.ranges.value.text == scanner.text(rec.identity, rec.ranges.value.key))
  {
    RunKeepsInv(scanner, run, steps, n);
    hide WriterTrue, ReaderTrue, AnswerTrue, Trusted, JobReady, MetaTrue;
    assert RecordTrue(scanner, run[n].records[process]);
    forall id | id in run[n].records[process].entries
      ensures DecodedTrue(scanner, run[n].records[process].identity, run[n].records[process].entries[id])
    {
    }
  }

  /** At every point of every run, so also after a crash at any step, the
      meta.json of the file's state names entries that read as the scan
      finds them, or as a miss. */
  lemma NamedEntriesAreScans(scanner: Scanner, run: seq<State>, steps: seq<Step>, n: nat, meta: MetaFile, id: string,
                             keys: map<string, string>, lines: int)
    requires IsRun(scanner, run, steps) && n < |run|
    requires MetaIn(run[n].dir) == Some(meta) && meta.identity == run[n].now
    ensures var e := ReadEntry(run[n].dir, meta, keys, lines, id);
            e.Some? ==> id in keys && e.value == scanner.result(run[n].now, keys[id])
  {
    RunKeepsInv(scanner, run, steps, n);
    assert MetaTrue(scanner, run[n].now, run[n].dir, meta);
    hide Inv, MetaTrue, ReadEntry;
    ReadEntryTrue(scanner, run[n].now, run[n].dir, meta, keys, lines, id);
  }

  /** meta.json is the commit point: no step of a writer but the one that
      writes it, and no crash, changes it. */
  lemma OnlyMetaStepCommits(scanner: Scanner, s: State, s': State, step: Step)
    requires Next(scanner, s, s', step) && !step.MetaStep? && Inv(scanner, s)
    ensures MetaIn(s'.dir) == MetaIn(s.dir)
  {
    SpecialNames();
    if step.EntryStep? {
      var w := s.writer.value;
      NamesAreApart(w.job.scanned[w.phase.next], w.job.scanned[w.phase.next]);
    }
    hide IsTemp, EntryName, MetaTrue, ReaderTrue, AnswerTrue, Trusted;
  }
}
