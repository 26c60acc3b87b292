/** The findings cache as its code writes and reads it: one commit and one
    view, step by step over a directory. */
module FindingsWriter {
  import opened Common
  import opened FindingsStore
  import opened FindingsRecords
  import opened FindingsCommit

  /** The states a writer goes through, each by a step of the protocol. */
  ghost predicate Traced(scanner: Scanner, run: seq<State>, steps: seq<Step>, s: State, s': State) {
    && |run| == |steps| + 1 && run[0] == s && run[|steps|] == s'
    && forall i :: 0 <= i < |steps| ==> Next(scanner, run[i], run[i + 1], steps[i])
  }

  lemma TraceStep(scanner: Scanner, run: seq<State>, steps: seq<Step>, s: State, s': State, s'': State, step: Step)
    requires Traced(scanner, run, steps, s, s') && Next(scanner, s', s'', step)
    ensures Traced(scanner, run + [s''], steps + [step], s, s'')
  {
    hide Next;
  }

  /** Decides ValidRanges with a loop over the ranges. */
  method CheckRanges(ranges: seq<(int, int)>) returns (ok: bool)
    ensures ok <==> ValidRanges(ranges, -1)
  {
    var prev, i := -1, 0;
    assert ranges[0..] == ranges;
    while i < |ranges|
      invariant 0 <= i <= |ranges|
      invariant ValidRanges(ranges, -1) <==> ValidRanges(ranges[i..], prev)
    {
      var r := ranges[i];
      assert ranges[i..][0] == r && ranges[i..][1..] == ranges[i + 1..];
      if r.0 < 1 || r.0 > r.1 || r.0 <= prev + 1 {
        return false;
      }
      prev, i := r.1, i + 1;
    }
    return true;
  }

  /** Ranges pass the check exactly when they start at a line, end no earlier
      than they start, and leave a line between one and the next. */
  lemma {:induction false} ValidRangesApart(ranges: seq<(int, int)>, prev: int)
    requires prev >= -1
    ensures ValidRanges(ranges, prev) <==>
            && (forall i :: 0 <= i < |ranges| ==> 1 <= ranges[i].0 <= ranges[i].1)
            && (ranges != [] ==> prev + 1 < ranges[0].0)
            && (forall i, j :: 0 <= i < j < |ranges| && j <= i + 1 ==> ranges[i].1 + 1 < ranges[j].0)
  {
    if ranges != [] && ranges[0].1 >= -1 {
      ValidRangesApart(ranges[1..], ranges[0].1);
      assert forall i :: 1 <= i < |ranges| ==> ranges[i] == ranges[1..][i - 1];
      assert forall i :: 0 <= i < |ranges| - 1 ==> ranges[1..][i] == ranges[i + 1];
    }
  }

  /** A text passes as a scan's exactly when its end is a number of lines in no
      fewer bytes, and its ranges are lines of it, in order, with a line between
      one and the next. */
  lemma TextByLines(text: ScannedText)
    ensures IsText(text) <==>
            && 0 <= text.lines <= text.bytes
            && (forall i :: 0 <= i < |text.ranges| ==> 1 <= text.ranges[i].0 <= text.ranges[i].1 <= text.lines)
            && (forall i, j :: 0 <= i < j < |text.ranges| && j <= i + 1 ==> text.ranges[i].1 + 1 < text.ranges[j].0)
  {
    var r := text.ranges;
    ValidRangesApart(r, -1);
    if IsText(text) {
      EndsAscend(r, |r|);
    }
    hide ValidRanges;
  }

  lemma {:induction false} EndsAscend(r: seq<(int, int)>, n: nat)
    requires n <= |r| && forall i :: 0 <= i < |r| ==> r[i].0 <= r[i].1
    requires forall i, j :: 0 <= i < j < |r| && j <= i + 1 ==> r[i].1 + 1 < r[j].0
    ensures forall i :: 0 <= i < n ==> r[i].1 <= r[n - 1].1
  {
    if n > 1 {
      EndsAscend(r, n - 1);
      assert r[n - 2].1 + 1 < r[n - 1].0;
    }
  }

  /** What a view of the cache holds of the selected signatures, and what it
      decoded from files. */
  datatype View = View(entries: map<string, ScanResult>, current: set<string>, text: Option<ScannedText>, decoded: Record)

  /** The view once the entries of ids were looked for: each that agrees with
      meta.json is in it, held or from its file, and those are current with
      the ids not looked for; what came from a file is decoded. */
  ghost predicate Viewed(dir: Directory, meta: MetaFile, scope: Scope, held: Option<Record>, text: ScannedText,
                         current: set<string>, ids: seq<string>, view: View)
  {
    && view.text == Some(text)
    && (forall id :: id in view.entries <==> id in ids && EntryFrom(dir, meta, scope.keys, text.lines, id, held).Some?)
    && (forall id :: id in view.entries ==>
          EntryFrom(dir, meta, scope.keys, text.lines, id, held) == Some(view.entries[id]))
    && (forall id :: id in view.current <==> if id in ids then id in view.entries else id in current)
    && Decoded(dir, meta, scope, held, text, ids, view.decoded)
  }

  /** What was decoded of the ranges and of the entries of ids. */
  ghost predicate Decoded(dir: Directory, meta: MetaFile, scope: Scope, held: Option<Record>, text: ScannedText,
                          ids: seq<string>, decoded: Record)
  {
    && decoded.identity == meta.identity && decoded.ranges == FreshRanges(dir, meta, scope.rangesKey, held)
    && (forall id :: id in decoded.entries <==> id in ids && FreshEntry(dir, meta, scope.keys, text.lines, id, held).Some?)
    && (forall id :: id in decoded.entries ==>
          FreshEntry(dir, meta, scope.keys, text.lines, id, held) == Some(decoded.entries[id]))
  }

  function WithResult(view: View, id: string, entry: Option<ScanResult>, decoded: Option<DecodedEntry>): View {
    var all := WithEntry(view.decoded, id, decoded);
    if entry.Some?
    then View(view.entries[id := entry.value], view.current + {id}, view.text, all)
    else View(view.entries, view.current - {id}, view.text, all)
  }

  lemma ViewedMore(dir: Directory, meta: MetaFile, scope: Scope, held: Option<Record>, text: ScannedText,
                   current: set<string>, ids: seq<string>, id: string, view: View)
    requires Viewed(dir, meta, scope, held, text, current, ids, view)
    ensures Viewed(dir, meta, scope, held, text, current, ids + [id],
                   WithResult(view, id, EntryFrom(dir, meta, scope.keys, text.lines, id, held),
                              FreshEntry(dir, meta, scope.keys, text.lines, id, held)))
  {
    DecodedMore(dir, meta, scope, held, text, ids, id, view.decoded);
    hide EntryFrom, FreshEntry, FreshRanges, Decoded, WithEntry;
  }

  lemma DecodedMore(dir: Directory, meta: MetaFile, scope: Scope, held: Option<Record>, text: ScannedText,
                    ids: seq<string>, id: string, decoded: Record)
    requires Decoded(dir, meta, scope, held, text, ids, decoded)
    ensures Decoded(dir, meta, scope, held, text, ids + [id],
                    WithEntry(decoded, id, FreshEntry(dir, meta, scope.keys, text.lines, id, held)))
  {
    hide FreshEntry, FreshRanges;
  }

  /** The entry of one signature, for the view and for the record: the one
      held when it is still the one named, else that of its file. */
  method LookFor(dir: Directory, meta: MetaFile, scope: Scope, held: Option<Record>, lines: int, id: string)
    returns (entry: Option<ScanResult>, decoded: Option<DecodedEntry>)
    ensures entry == EntryFrom(dir, meta, scope.keys, lines, id, held)
    ensures decoded == FreshEntry(dir, meta, scope.keys, lines, id, held)
  {
    hide ReadEntry, HeldEntry, LastLine;
    entry, decoded := HeldEntry(held, meta, scope.keys, lines, id), None;
    if entry.None? {
      entry := ReadEntry(dir, meta, scope.keys, lines, id);
      if entry.Some? {
        KeyOfRead(dir, meta, scope, lines, id);
        var e := DecodedEntryOf(scope.keys[id], entry.value);
        decoded := Some(e);
      }
    }
  }

  lemma KeyOfRead(dir: Directory, meta: MetaFile, scope: Scope, lines: int, id: string)
    requires ReadEntry(dir, meta, scope.keys, lines, id).Some?
    ensures id in scope.keys
  {
  }

  /** A view from a meta.json that was read before, and from a record of the
      same state: of each selected signature the entry that agrees with meta.json, from the
      record or from its file; of the others, whether they are current.
      Without the ranges nothing is. What came from a file is decoded. */
  method ViewOf(dir: Directory, meta: MetaFile, scope: Scope, sel: seq<string>, held: Option<Record>) returns (view: View)
    ensures var current := CurrentInMeta(meta, scope.keys, scope.rangesKey);
            var text := RangesFrom(dir, meta, scope.rangesKey, held);
            if current == {} || text.None? then view == View(map[], {}, None, Record(meta.identity, None, map[]))
            else Viewed(dir, meta, scope, held, text.value, current, sel, view)
  {
    var nothing := Record(meta.identity, None, map[]);
    view := View(map[], CurrentInMeta(meta, scope.keys, scope.rangesKey), None, nothing);
    if view.current == {} {
      return;
    }
    var text := RangesFrom(dir, meta, scope.rangesKey, held);
    if text.None? {
      return View(map[], {}, None, nothing);
    }
    view := View(map[], view.current, text, Record(meta.identity, FreshRanges(dir, meta, scope.rangesKey, held), map[]));
    ghost var current := view.current;
    assert sel[..0] == [] && sel[..|sel|] == sel;
    assert Viewed(dir, meta, scope, held, text.value, current, sel[..0], view);
    hide *;
    for i := 0 to |sel|
      invariant Viewed(dir, meta, scope, held, text.value, current, sel[..i], view)
    {
      ViewedMore(dir, meta, scope, held, text.value, current, sel[..i], sel[i], view);
      assert sel[..i + 1] == sel[..i] + [sel[i]];
      var entry, decoded := LookFor(dir, meta, scope, held, text.value.lines, sel[i]);
      view := WithResult(view, sel[i], entry, decoded);
    }
  }

  // ---------------------------------------------------------------------
  // A commit.

  /** The state once the writer's temporary file is open. */
  ghost function WithTemp(s: State, temp: string): State
    requires s.writer.Some?
  {
    s.(dir := s.dir[temp := Partial], writer := Some(s.writer.value.(temp := Some(temp))))
  }

  /** A file written: the step that opens its temporary file, and the step
      that renames it. */
  lemma WriteSteps(scanner: Scanner, run: seq<State>, steps: seq<Step>, s0: State, s: State, s': State, temp: string, step: Step)
    requires Traced(scanner, run, steps, s0, s) && s.writer.Some? && IsTemp(temp) && temp !in s.dir
    requires s.writer.value.temp.None? && s.writer.value.phase != Cleaning
    requires Next(scanner, WithTemp(s, temp), s', step)
    ensures Traced(scanner, run + [WithTemp(s, temp)] + [s'], steps + [TempStep(temp)] + [step], s0, s')
  {
    var mid := WithTemp(s, temp);
    assert Next(scanner, s, mid, TempStep(temp));
    hide Next, Traced, WithTemp;
    TraceStep(scanner, run, steps, s0, s, mid, TempStep(temp));
    TraceStep(scanner, run + [mid], steps + [TempStep(temp)], s0, mid, s', step);
  }

  /** A write that fails: the step that opens its temporary file, if it came
      to that, and the one that removes it and ends the writer. */
  lemma FailSteps(scanner: Scanner, run: seq<State>, steps: seq<Step>, s0: State, s: State, temp: string, made: bool)
    requires Traced(scanner, run, steps, s0, s) && s.writer.Some? && IsTemp(temp) && temp !in s.dir
    requires s.writer.value.temp.None? && s.writer.value.phase != Cleaning
    ensures var s' := s.(writer := None);
            if made then Traced(scanner, run + [WithTemp(s, temp)] + [s'], steps + [TempStep(temp)] + [FailStep], s0, s')
            else Traced(scanner, run + [s'], steps + [FailStep], s0, s')
  {
    var s' := s.(writer := None);
    if made {
      assert s.dir[temp := Partial] - {temp} == s.dir;
      assert Next(scanner, WithTemp(s, temp), s', FailStep);
      hide Next, Traced, WithTemp;
      WriteSteps(scanner, run, steps, s0, s, s', temp, FailStep);
    } else {
      assert Next(scanner, s, s', FailStep);
      hide Next, Traced;
      TraceStep(scanner, run, steps, s0, s, s', FailStep);
    }
  }

  /** What goes wrong with one write: nothing, no temporary file can be made,
      or it cannot be written, closed or renamed. */
  datatype Fault = Sound | NoTemp | Unwritten

  /** What the file system does to a write of a name, by the directory. */
  type Faults = (Directory, string) -> Fault

  /** A file renamed over another name than meta.json's leaves meta.json. */
  lemma MetaKept(dir: Directory, temp: string, name: string, file: File)
    requires IsTemp(temp) && temp !in dir && name != META_NAME
    ensures MetaIn(Renamed(dir[temp := Partial], temp, name, file)) == MetaIn(dir)
  {
    SpecialNames();
  }

  // ---------------------------------------------------------------------
  // The files of a commit.

  datatype Write = Write(name: string, file: File)

  function EntryWrite(scanner: Scanner, job: Job, id: string): Write
    requires id in job.scope.keys
  {
    Write(EntryName(id), EntryOf(job.scope.keys[id], scanner.result(job.start, job.scope.keys[id])))
  }

  predicate HasKeys(job: Job) {
    forall i :: 0 <= i < |job.scanned| ==> job.scanned[i] in job.scope.keys
  }

  /** The entries of the first n signatures scanned, in order; one whose id
      no loader gives has none. */
  function EntryWrites(scanner: Scanner, job: Job, n: nat): seq<Write>
    requires n <= |job.scanned| && HasKeys(job)
  {
    if n == 0 then []
    else
      EntryWrites(scanner, job, n - 1)
      + if ValidID(job.scanned[n - 1]) then [EntryWrite(scanner, job, job.scanned[n - 1])] else []
  }

  function RangesWrite(scanner: Scanner, job: Job): Write {
    Write(RANGES_NAME, FileOf(job.scope.rangesKey, scanner.text(job.start, job.scope.rangesKey)))
  }

  /** meta names what the scan of id found, under its key. */
  function WithSummary(scanner: Scanner, job: Job, meta: MetaFile, id: string): MetaFile
    requires id in job.scope.keys
  {
    var key := job.scope.keys[id];
    meta.(signatures := meta.signatures[id := SummaryOf(key, scanner.result(job.start, key))])
  }

  /** The meta.json that names the first n signatures scanned. */
  function EntryMeta(scanner: Scanner, job: Job, n: nat): MetaFile
    requires n <= |job.scanned| && HasKeys(job)
  {
    if n == 0 then NewMeta(job.start)
    else
      var meta := EntryMeta(scanner, job, n - 1);
      if ValidID(job.scanned[n - 1]) then WithSummary(scanner, job, meta, job.scanned[n - 1]) else meta
  }

  function WithText(scanner: Scanner, job: Job, meta: MetaFile): MetaFile {
    var key := job.scope.rangesKey;
    meta.(ranges := Some(RangesMeta(key, |scanner.text(job.start, key).ranges|)))
  }

  /** The meta.json of the commit, where the directory has another. */
  function CommittedMeta(scanner: Scanner, job: Job, other: Option<MetaFile>): MetaFile
    requires HasKeys(job)
  {
    Merge(WithText(scanner, job, EntryMeta(scanner, job, |job.scanned|)), other)
  }

  /** All a commit writes, in order: the entries, the ranges, meta.json. */
  function Writes(scanner: Scanner, job: Job, other: Option<MetaFile>): seq<Write>
    requires HasKeys(job)
  {
    EntryWrites(scanner, job, |job.scanned|) + [RangesWrite(scanner, job)]
    + [Write(META_NAME, Meta(CommittedMeta(scanner, job, other)))]
  }

  /** A directory with some files written. */
  function Put(dir: Directory, writes: seq<Write>): Directory {
    if writes == [] then dir
    else
      var last := |writes| - 1;
      Put(dir, writes[..last])[writes[last].name := writes[last].file]
  }

  /** The file system lets write k through, those before it being done. */
  predicate SoundAt(faults: Faults, dir: Directory, writes: seq<Write>, k: nat)
    requires k < |writes|
  {
    faults(Put(dir, writes[..k]), writes[k].name) == Sound
  }

  /** The first done writes go through, and the one after them, if there is
      one, does not. */
  ghost predicate Reaches(faults: Faults, dir: Directory, writes: seq<Write>, done: nat) {
    && done <= |writes| && (forall k :: 0 <= k < done ==> SoundAt(faults, dir, writes, k))
    && (done < |writes| ==> !SoundAt(faults, dir, writes, done))
  }

  /** The writes so far, the first of a commit, went through, and left dir. */
  ghost predicate Through(faults: Faults, dir: Directory, writes: seq<Write>, now: Directory) {
    (forall k :: 0 <= k < |writes| ==> SoundAt(faults, dir, writes, k)) && now == Put(dir, writes)
  }

  /** One write more. */
  lemma OneThrough(faults: Faults, dir: Directory, writes: seq<Write>, now: Directory, w: Write)
    requires Through(faults, dir, writes, now) && faults(now, w.name) == Sound
    ensures Through(faults, dir, writes + [w], now[w.name := w.file])
  {
    var more := writes + [w];
    assert more[..|writes|] == writes;
    forall k | 0 <= k < |more|
      ensures SoundAt(faults, dir, more, k)
    {
      if k < |writes| {
        assert SoundAt(faults, dir, writes, k) && more[..k] == writes[..k];
      }
    }
  }

  /** A commit whose next write meets a fault ends there. */
  lemma StopsAt(faults: Faults, dir: Directory, writes: seq<Write>, now: Directory, all: seq<Write>)
    requires Through(faults, dir, writes, now) && writes < all && faults(now, all[|writes|].name) != Sound
    ensures Reaches(faults, dir, all, |writes|) && now == Put(dir, all[..|writes|])
  {
    forall k | 0 <= k < |writes|
      ensures SoundAt(faults, dir, all, k)
    {
      assert SoundAt(faults, dir, writes, k) && all[..k] == writes[..k];
    }
    assert all[..|writes|] == writes;
  }

  lemma AllThrough(faults: Faults, dir: Directory, writes: seq<Write>, now: Directory)
    requires Through(faults, dir, writes, now)
    ensures Reaches(faults, dir, writes, |writes|) && now == Put(dir, writes) && writes[..|writes|] == writes
  {
  }

  lemma {:induction false} WritesBegin(scanner: Scanner, job: Job, n: nat, m: nat)
    requires n <= m <= |job.scanned| && HasKeys(job)
    ensures EntryWrites(scanner, job, n) <= EntryWrites(scanner, job, m)
    decreases m
  {
    if n < m {
      WritesBegin(scanner, job, n, m - 1);
    }
  }

  /** The next entry among all that is written. */
  lemma NextEntry(scanner: Scanner, job: Job, i: nat, other: Option<MetaFile>)
    requires i < |job.scanned| && HasKeys(job)
    ensures var before, id := EntryWrites(scanner, job, i), job.scanned[i];
            && EntryWrites(scanner, job, i + 1) == (if ValidID(id) then before + [EntryWrite(scanner, job, id)] else before)
            && EntryMeta(scanner, job, i + 1) ==
               (if ValidID(id) then WithSummary(scanner, job, EntryMeta(scanner, job, i), id) else EntryMeta(scanner, job, i))
            && (ValidID(id) ==> before < Writes(scanner, job, other)
                                && Writes(scanner, job, other)[|before|] == EntryWrite(scanner, job, id))
  {
    hide ValidID, EntryWrite, WithSummary, RangesWrite, CommittedMeta;
    WritesBegin(scanner, job, i + 1, |job.scanned|);
    if ValidID(job.scanned[i]) {
      var before, w := EntryWrites(scanner, job, i), EntryWrite(scanner, job, job.scanned[i]);
      assert EntryWrites(scanner, job, i + 1) == before + [w];
      NextInMore(before, w, EntryWrites(scanner, job, |job.scanned|),
                 [RangesWrite(scanner, job)] + [Write(META_NAME, Meta(CommittedMeta(scanner, job, other)))]);
    }
  }

  lemma NextInMore(before: seq<Write>, w: Write, entries: seq<Write>, rest: seq<Write>)
    requires before + [w] <= entries
    ensures before < entries + rest && (entries + rest)[|before|] == w
  {
    assert (before + [w])[|before|] == w;
  }

  /** The commit ended with write done, which did not go through. */
  ghost predicate GaveUp(scanner: Scanner, job: Job, faults: Faults, dir: Directory, now: Directory, done: nat) {
    && HasKeys(job)
    && var all := Writes(scanner, job, MetaIn(dir));
    Reaches(faults, dir, all, done) && done < |all| && now == Put(dir, all[..done])
  }

  /** The first n entries are written, and meta names them. */
  ghost predicate EntriesDone(scanner: Scanner, job: Job, faults: Faults, dir: Directory, now: Directory, meta: MetaFile,
                              n: nat)
  {
    && HasKeys(job) && n <= |job.scanned| && meta == EntryMeta(scanner, job, n)
    && Through(faults, dir, EntryWrites(scanner, job, n), now)
  }

  /** So are the ranges. */
  ghost predicate RangesDone(scanner: Scanner, job: Job, faults: Faults, dir: Directory, now: Directory, meta: MetaFile) {
    && HasKeys(job) && meta == WithText(scanner, job, EntryMeta(scanner, job, |job.scanned|))
    && Through(faults, dir, EntryWrites(scanner, job, |job.scanned|) + [RangesWrite(scanner, job)], now)
  }

  /** And meta.json. */
  ghost predicate AllDone(scanner: Scanner, job: Job, faults: Faults, dir: Directory, now: Directory, meta: MetaFile) {
    && HasKeys(job) && meta == CommittedMeta(scanner, job, MetaIn(dir))
    && var all := Writes(scanner, job, MetaIn(dir)); Reaches(faults, dir, all, |all|) && now == Put(dir, all)
  }

  lemma EntriesBegin(scanner: Scanner, job: Job, faults: Faults, dir: Directory)
    requires HasKeys(job)
    ensures EntriesDone(scanner, job, faults, dir, dir, NewMeta(job.start), 0)
  {
  }

  /** The next entry goes through, or the id has none. */
  lemma EntryThrough(scanner: Scanner, job: Job, faults: Faults, dir: Directory, now: Directory, meta: MetaFile, n: nat)
    requires EntriesDone(scanner, job, faults, dir, now, meta, n) && n < |job.scanned|
    requires ValidID(job.scanned[n]) ==> faults(now, EntryName(job.scanned[n])) == Sound
    ensures var id := job.scanned[n];
            && id in job.scope.keys
            && if ValidID(id)
               then EntriesDone(scanner, job, faults, dir, now[EntryName(id) := EntryWrite(scanner, job, id).file],
                                WithSummary(scanner, job, meta, id), n + 1)
               else EntriesDone(scanner, job, faults, dir, now, meta, n + 1)
  {
    NextEntry(scanner, job, n, None);
    if ValidID(job.scanned[n]) {
      OneThrough(faults, dir, EntryWrites(scanner, job, n), now, EntryWrite(scanner, job, job.scanned[n]));
    }
    hide ValidID, EntryName, Through, EntryWrites, EntryMeta, Writes;
  }

  lemma EntryStops(scanner: Scanner, job: Job, faults: Faults, dir: Directory, now: Directory, meta: MetaFile, n: nat)
    returns (done: nat)
    requires EntriesDone(scanner, job, faults, dir, now, meta, n) && n < |job.scanned|
    requires ValidID(job.scanned[n]) && faults(now, EntryName(job.scanned[n])) != Sound
    ensures GaveUp(scanner, job, faults, dir, now, done)
  {
    NextEntry(scanner, job, n, MetaIn(dir));
    done := |EntryWrites(scanner, job, n)|;
    StopsAt(faults, dir, EntryWrites(scanner, job, n), now, Writes(scanner, job, MetaIn(dir)));
    hide ValidID, EntryName, Through, EntryWrites, EntryMeta, Writes, MetaIn, Put, Reaches;
  }

  /** What is written after the entries. */
  lemma AfterEntries(scanner: Scanner, job: Job, other: Option<MetaFile>)
    requires HasKeys(job)
    ensures var entries, all := EntryWrites(scanner, job, |job.scanned|), Writes(scanner, job, other);
            && entries < all && all[|entries|] == RangesWrite(scanner, job) && RangesWrite(scanner, job).name == RANGES_NAME
            && entries + [RangesWrite(scanner, job)] < all && all[|entries| + 1].name == META_NAME
            && |all| == |entries| + 2
  {
    hide EntryWrites, CommittedMeta, FileOf;
  }

  lemma RangesThrough(scanner: Scanner, job: Job, faults: Faults, dir: Directory, now: Directory, meta: MetaFile)
    requires EntriesDone(scanner, job, faults, dir, now, meta, |job.scanned|) && faults(now, RANGES_NAME) == Sound
    ensures RangesDone(scanner, job, faults, dir, now[RANGES_NAME := RangesWrite(scanner, job).file],
                       WithText(scanner, job, meta))
  {
    OneThrough(faults, dir, EntryWrites(scanner, job, |job.scanned|), now, RangesWrite(scanner, job));
    hide Through, EntryWrites, EntryMeta;
  }

  lemma RangesStop(scanner: Scanner, job: Job, faults: Faults, dir: Directory, now: Directory, meta: MetaFile)
    returns (done: nat)
    requires EntriesDone(scanner, job, faults, dir, now, meta, |job.scanned|) && faults(now, RANGES_NAME) != Sound
    ensures GaveUp(scanner, job, faults, dir, now, done)
  {
    AfterEntries(scanner, job, MetaIn(dir));
    done := |EntryWrites(scanner, job, |job.scanned|)|;
    StopsAt(faults, dir, EntryWrites(scanner, job, |job.scanned|), now, Writes(scanner, job, MetaIn(dir)));
    hide Through, EntryWrites, EntryMeta, Writes, MetaIn, Put, Reaches;
  }

  lemma MetaThrough(scanner: Scanner, job: Job, faults: Faults, dir: Directory, now: Directory, meta: MetaFile)
    requires RangesDone(scanner, job, faults, dir, now, meta) && faults(now, META_NAME) == Sound
    ensures var m := Merge(meta, MetaIn(dir)); AllDone(scanner, job, faults, dir, now[META_NAME := Meta(m)], m)
  {
    var m := Merge(meta, MetaIn(dir));
    OneThrough(faults, dir, EntryWrites(scanner, job, |job.scanned|) + [RangesWrite(scanner, job)], now,
               Write(META_NAME, Meta(m)));
    AllThrough(faults, dir, Writes(scanner, job, MetaIn(dir)), now[META_NAME := Meta(m)]);
    hide Through, EntryWrites, EntryMeta, Reaches, Put, MetaIn, Merge, WithText;
  }

  lemma MetaStops(scanner: Scanner, job: Job, faults: Faults, dir: Directory, now: Directory, meta: MetaFile)
    returns (done: nat)
    requires RangesDone(scanner, job, faults, dir, now, meta) && faults(now, META_NAME) != Sound
    ensures GaveUp(scanner, job, faults, dir, now, done)
  {
    AfterEntries(scanner, job, MetaIn(dir));
    var before := EntryWrites(scanner, job, |job.scanned|) + [RangesWrite(scanner, job)];
    done := |before|;
    StopsAt(faults, dir, before, now, Writes(scanner, job, MetaIn(dir)));
    hide Through, EntryWrites, EntryMeta, Writes, MetaIn, Put, Reaches;
  }

  lemma KeyAt(job: Job, i: nat)
    requires HasKeys(job) && i < |job.scanned|
    ensures job.scanned[i] in job.scope.keys
  {
  }

  /** What the directory holds once all is written and the rest removed. */
  ghost predicate Committed(scanner: Scanner, job: Job, dir: Directory, meta: MetaFile) {
    && MetaIn(dir) == Some(meta) && meta.identity == job.start
    && (forall id :: id in job.scanned && ValidID(id) ==>
          && id in job.scope.keys && id in meta.signatures
          && var key := job.scope.keys[id];
             meta.signatures[id] == SummaryOf(key, scanner.result(job.start, key))
             && EntryName(id) in dir && dir[EntryName(id)] == EntryOf(key, scanner.result(job.start, key)))
    && var text := scanner.text(job.start, job.scope.rangesKey);
       meta.ranges == Some(RangesMeta(job.scope.rangesKey, |text.ranges|))
       && RANGES_NAME in dir && dir[RANGES_NAME] == FileOf(job.scope.rangesKey, text)
  }

  /** The first n entries written have id's, and the meta.json names it. */
  ghost predicate IsPut(scanner: Scanner, job: Job, dir: Directory, n: nat, id: string) {
    && HasKeys(job) && n <= |job.scanned| && id in job.scope.keys
    && var d, m := Put(dir, EntryWrites(scanner, job, n)), EntryMeta(scanner, job, n);
    && EntryName(id) in d && d[EntryName(id)] == EntryWrite(scanner, job, id).file
    && id in m.signatures && m.signatures[id] == WithSummary(scanner, job, m, id).signatures[id]
  }

  lemma PutNow(scanner: Scanner, job: Job, dir: Directory, n: nat)
    requires 0 < n <= |job.scanned| && HasKeys(job) && ValidID(job.scanned[n - 1])
    ensures IsPut(scanner, job, dir, n, job.scanned[n - 1])
  {
    hide ValidID, EntryName, Put, Writes;
    NextEntry(scanner, job, n - 1, None);
    PutMore(dir, EntryWrites(scanner, job, n - 1), EntryWrite(scanner, job, job.scanned[n - 1]));
  }

  lemma PutStays(scanner: Scanner, job: Job, dir: Directory, n: nat, id: string)
    requires n < |job.scanned| && ValidID(id) && IsPut(scanner, job, dir, n, id)
    ensures IsPut(scanner, job, dir, n + 1, id)
  {
    hide ValidID, EntryName, Put, Writes;
    NextEntry(scanner, job, n, None);
    var last := job.scanned[n];
    if ValidID(last) {
      NamesAreApart(id, last);
      PutMore(dir, EntryWrites(scanner, job, n), EntryWrite(scanner, job, last));
    }
  }

  lemma {:induction false} EntryIsPut(scanner: Scanner, job: Job, dir: Directory, n: nat, i: nat)
    requires i < n <= |job.scanned| && HasKeys(job) && ValidID(job.scanned[i])
    ensures IsPut(scanner, job, dir, n, job.scanned[i])
    decreases n
  {
    hide *;
    if i < n - 1 {
      EntryIsPut(scanner, job, dir, n - 1, i);
      PutStays(scanner, job, dir, n - 1, job.scanned[i]);
    } else {
      PutNow(scanner, job, dir, n);
    }
  }

  lemma PutMore(dir: Directory, writes: seq<Write>, w: Write)
    ensures Put(dir, writes + [w]) == Put(dir, writes)[w.name := w.file]
  {
    assert (writes + [w])[..|writes|] == writes;
  }

  lemma {:induction false} MetaBegins(scanner: Scanner, job: Job, n: nat)
    requires n <= |job.scanned| && HasKeys(job)
    ensures EntryMeta(scanner, job, n).identity == job.start
  {
    if n > 0 {
      MetaBegins(scanner, job, n - 1);
    }
  }

  /** The directory without what meta does not name. */
  ghost predicate Cleared(now: Directory, put: Directory, meta: MetaFile) {
    && (forall n :: n in now <==> n in put && !IsUnnamed(n, meta)) && (forall n :: n in now ==> now[n] == put[n])
  }

  /** A commit that is done left the scan's results, as the files hold them. */
  lemma DoneIsCommitted(scanner: Scanner, job: Job, faults: Faults, dir: Directory, put: Directory, now: Directory,
                        done: MetaFile)
    requires AllDone(scanner, job, faults, dir, put, done) && Cleared(now, put, done)
    ensures Committed(scanner, job, now, done)
  {
    var n, meta := |job.scanned|, CommittedMeta(scanner, job, MetaIn(dir));
    var entries := EntryWrites(scanner, job, n);
    PutMore(dir, entries, RangesWrite(scanner, job));
    PutMore(dir, entries + [RangesWrite(scanner, job)], Write(META_NAME, Meta(meta)));
    MetaBegins(scanner, job, n);
    SpecialNames();
    NotUnnamed(meta);
    forall id | id in job.scanned && ValidID(id)
      ensures id in job.scope.keys && EntryName(id) in now && now[EntryName(id)] == EntryWrite(scanner, job, id).file
      ensures id in meta.signatures && meta.signatures[id] == WithSummary(scanner, job, meta, id).signatures[id]
    {
      var i :| 0 <= i < n && job.scanned[i] == id;
      EntryIsPut(scanner, job, dir, n, i);
      NamesAreApart(id, id);
      assert !IsUnnamed(EntryName(id), meta);
    }
    hide Put, EntryWrites, EntryMeta, ValidID, EntryName, IsUnnamed, IsTemp;
  }

  lemma NotUnnamed(meta: MetaFile)
    ensures !IsUnnamed(META_NAME, meta) && !IsUnnamed(RANGES_NAME, meta)
  {
    SpecialNames();
  }

  /** Without a fault every commit is done; one that is not met a fault. */
  lemma SoundIsDone(faults: Faults, dir: Directory, writes: seq<Write>, done: nat)
    requires Reaches(faults, dir, writes, done)
    ensures (forall d, name :: faults(d, name) == Sound) ==> done == |writes|
    ensures done == |writes| <==> forall k :: 0 <= k < |writes| ==> SoundAt(faults, dir, writes, k)
  {
  }

  /** The random names of temporary files: never one that is taken. */
  ghost predicate Picks(pick: Directory -> string) {
    forall dir: Directory :: IsTemp(pick(dir)) && pick(dir) !in dir
  }

  class CacheDirectory {
    var files: Directory
    /** The meta.json being put together. */
    var meta: MetaFile
    /** The states of the commit so far, by the protocol's steps. */
    ghost var run: seq<State>
    ghost var steps: seq<Step>

    /** The commit began in s0 and is in phase now, with no file open. */
    ghost predicate During(scanner: Scanner, s0: State, job: Job, phase: Phase)
      reads this
    {
      && |run| == |steps| + 1
      && var s := run[|steps|];
      && Traced(scanner, run, steps, s0, s)
      && s.dir == files && s.writer == Some(Writer(job, phase, meta, None))
    }

    constructor (files: Directory)
      ensures this.files == files
    {
      this.files, meta := files, MetaFile(Identity(0, 0, None, None, None, None), map[], None);
    }

    /** The commit that began in s0 is over, done or given up. */
    ghost predicate Over(scanner: Scanner, s0: State)
      reads this
    {
      && |run| == |steps| + 1
      && var s := run[|steps|];
      && Traced(scanner, run, steps, s0, s) && s.dir == files && s.writer.None?
    }

    /** writeJSONAtomic, by a temporary file of its own: the whole file is
        under its name, every other name as it was; or nothing changed. */
    method WriteAtomic(name: string, file: File, temp: string, fault: Fault) returns (ok: bool)
      requires IsTemp(temp) && temp !in files
      modifies this`files
      ensures ok <==> fault == Sound
      ensures files == if ok then old(files)[name := file] else old(files)
    {
      if fault == NoTemp {
        return false;
      }
      files := files[temp := Partial];
      if fault == Unwritten {
        files := files - {temp};
        assert files == old(files);
        return false;
      }
      files := (files - {temp})[name := file];
      assert files == old(files)[name := file];
      return true;
    }

    /** A write under way: what it leaves when it goes well, and that the
        commit is over when it does not. */
    method WriteOrFail(scanner: Scanner, job: Job, phase: Phase, name: string, file: File, pick: Directory -> string,
                       faults: Faults, ghost s0: State) returns (ok: bool, ghost temp: string)
      requires During(scanner, s0, job, phase) && phase != Cleaning && Picks(pick)
      modifies this`files, this`run, this`steps
      ensures IsTemp(temp) && temp !in old(files) && (ok <==> faults(old(files), name) == Sound)
      ensures files == if ok then old(files)[name := file] else old(files)
      ensures ok ==> files == Renamed(old(files)[temp := Partial], temp, name, file) && run == old(run) && steps == old(steps)
      ensures !ok ==> Over(scanner, s0) && files == old(files)
    {
      ghost var s := run[|steps|];
      var picked := pick(files);
      temp := picked;
      var fault := faults(files, name);
      assert Renamed(files[temp := Partial], temp, name, file) == files[name := file];
      ok := WriteAtomic(name, file, picked, fault);
      if !ok {
        hide Traced, Next, Renamed, WithTemp;
        FailSteps(scanner, run, steps, s0, s, temp, fault == Unwritten);
        if fault == Unwritten {
          run, steps := run + [WithTemp(s, temp)] + [s.(writer := None)], steps + [TempStep(temp)] + [FailStep];
        } else {
          run, steps := run + [s.(writer := None)], steps + [FailStep];
        }
      }
    }

    /** The entry of one scanned signature. */
    method CommitEntry(scanner: Scanner, job: Job, i: nat, pick: Directory -> string, faults: Faults, ghost s0: State)
      returns (ok: bool)
      requires During(scanner, s0, job, Entries(i)) && i < |job.scanned| && job.scanned[i] in job.scope.keys && Picks(pick)
      modifies this
      ensures var id := job.scanned[i];
              && (ok <==> !ValidID(id) || faults(old(files), EntryName(id)) == Sound)
              && files == (if ok && ValidID(id) then old(files)[EntryName(id) := EntryWrite(scanner, job, id).file] else old(files))
              && meta == (if ok && ValidID(id) then WithSummary(scanner, job, old(meta), id) else old(meta))
      ensures if ok then During(scanner, s0, job, Entries(i + 1)) else Over(scanner, s0)
      ensures MetaIn(files) == old(MetaIn(files))
    {
      ghost var s := run[|steps|];
      var id := job.scanned[i];
      if !ValidID(id) {
        ghost var skipped := s.(writer := Some(Writer(job, Entries(i + 1), meta, None)));
        TraceStep(scanner, run, steps, s0, s, skipped, SkipStep);
        run, steps := run + [skipped], steps + [SkipStep];
        return true;
      }
      NamesAreApart(id, id);
      var key := job.scope.keys[id];
      var result := scanner.result(job.start, key);
      ghost var temp;
      ok, temp := WriteOrFail(scanner, job, Entries(i), EntryName(id), EntryOf(key, result), pick, faults, s0);
      if ok {
        MetaKept(old(files), temp, EntryName(id), EntryOf(key, result));
        meta := meta.(signatures := meta.signatures[id := SummaryOf(key, result)]);
        ghost var s' := s.(dir := files, writer := Some(Writer(job, Entries(i + 1), meta, None)));
        assert Next(scanner, WithTemp(s, temp), s', EntryStep);
        hide Next, Traced;
        WriteSteps(scanner, run, steps, s0, s, s', temp, EntryStep);
        run, steps := run + [WithTemp(s, temp)] + [s'], steps + [TempStep(temp)] + [EntryStep];
      }
    }

    /** The ranges file. */
    method CommitRanges(scanner: Scanner, job: Job, pick: Directory -> string, faults: Faults, ghost s0: State)
      returns (ok: bool)
      requires During(scanner, s0, job, Entries(|job.scanned|)) && Picks(pick)
      modifies this
      ensures ok <==> faults(old(files), RANGES_NAME) == Sound
      ensures files == if ok then old(files)[RANGES_NAME := RangesWrite(scanner, job).file] else old(files)
      ensures meta == if ok then WithText(scanner, job, old(meta)) else old(meta)
      ensures if ok then During(scanner, s0, job, Merging) else Over(scanner, s0)
      ensures MetaIn(files) == old(MetaIn(files))
    {
      ghost var s := run[|steps|];
      var key := job.scope.rangesKey;
      var text := scanner.text(job.start, key);
      ghost var temp;
      ok, temp := WriteOrFail(scanner, job, Entries(|job.scanned|), RANGES_NAME, FileOf(key, text), pick, faults, s0);
      if ok {
        SpecialNames();
        MetaKept(old(files), temp, RANGES_NAME, FileOf(key, text));
        meta := meta.(ranges := Some(RangesMeta(key, |text.ranges|)));
        ghost var s' := s.(dir := files, writer := Some(Writer(job, Merging, meta, None)));
        assert Next(scanner, WithTemp(s, temp), s', RangesStep);
        hide Next, Traced;
        WriteSteps(scanner, run, steps, s0, s, s', temp, RangesStep);
        run, steps := run + [WithTemp(s, temp)] + [s'], steps + [TempStep(temp)] + [RangesStep];
      }
    }

    /** Takes what other writers of the same state added to meta.json. */
    method MergeMeta(ghost scanner: Scanner, ghost job: Job, ghost s0: State)
      requires During(scanner, s0, job, Merging)
      modifies this`meta, this`run, this`steps
      ensures During(scanner, s0, job, Committing) && meta == Merge(old(meta), MetaIn(files))
    {
      ghost var s := run[|steps|];
      meta := Merge(meta, MetaIn(files));
      ghost var merged := s.(writer := Some(Writer(job, Committing, meta, None)));
      assert Next(scanner, s, merged, MergeStep);
      hide Next, Traced;
      TraceStep(scanner, run, steps, s0, s, merged, MergeStep);
      run, steps := run + [merged], steps + [MergeStep];
    }

    /** meta.json, with what other writers of the same state added to it. */
    method CommitMeta(scanner: Scanner, job: Job, pick: Directory -> string, faults: Faults, ghost s0: State)
      returns (ok: bool)
      requires During(scanner, s0, job, Merging) && Picks(pick)
      modifies this
      ensures ok <==> faults(old(files), META_NAME) == Sound
      ensures files == if ok then old(files)[META_NAME := Meta(meta)] else old(files)
      ensures if ok then During(scanner, s0, job, Cleaning) && MetaStep in steps && MetaIn(files) == Some(meta)
              else Over(scanner, s0) && MetaIn(files) == old(MetaIn(files))
      ensures meta == Merge(old(meta), old(MetaIn(files)))
    {
      MergeMeta(scanner, job, s0);
      ghost var merged := run[|steps|];
      ghost var temp;
      ok, temp := WriteOrFail(scanner, job, Committing, META_NAME, Meta(meta), pick, faults, s0);
      if ok {
        SpecialNames();
        ghost var s' := merged.(dir := files, writer := Some(Writer(job, Cleaning, meta, None)));
        assert Next(scanner, WithTemp(merged, temp), s', MetaStep);
        hide Next, Traced;
        WriteSteps(scanner, run, steps, s0, merged, s', temp, MetaStep);
        run, steps := run + [WithTemp(merged, temp)] + [s'], steps + [TempStep(temp)] + [MetaStep];
      }
    }

    /** Removes one file, when meta does not name it. */
    method RemoveIfUnnamed(name: string, ghost scanner: Scanner, ghost job: Job, ghost s0: State)
      requires During(scanner, s0, job, Cleaning) && name in files
      modifies this`files, this`run, this`steps
      ensures During(scanner, s0, job, Cleaning) && old(steps) <= steps
      ensures files == if IsUnnamed(name, meta) then old(files) - {name} else old(files)
    {
      if IsUnnamed(name, meta) {
        ghost var s := run[|steps|];
        files := files - {name};
        ghost var s' := s.(dir := files);
        assert Next(scanner, s, s', RemoveStep(name));
        hide Next, Traced;
        TraceStep(scanner, run, steps, s0, s, s', RemoveStep(name));
        run, steps := run + [s'], steps + [RemoveStep(name)];
      }
    }

    /** Removes the entry files meta does not name, and every temporary file:
        what is left is named, or is not the cache's. */
    method RemoveUnnamed(ghost scanner: Scanner, ghost job: Job, ghost s0: State)
      requires During(scanner, s0, job, Cleaning)
      modifies this`files, this`run, this`steps
      ensures During(scanner, s0, job, Cleaning) && old(steps) <= steps
      ensures forall n :: n in files <==> n in old(files) && !IsUnnamed(n, meta)
      ensures forall n :: n in files ==> files[n] == old(files)[n]
    {
      var names := files.Keys;
      hide *;
      while names != {}
        invariant During(scanner, s0, job, Cleaning) && old(steps) <= steps
        invariant forall n :: n in names ==> n in files
        invariant forall n :: n in files <==> n in old(files) && (n in names || !IsUnnamed(n, meta))
        invariant forall n :: n in files ==> files[n] == old(files)[n]
        decreases names
      {
        var n :| n in names;
        names := names - {n};
        RemoveIfUnnamed(n, scanner, job, s0);
      }
    }

    /** The entries of all signatures scanned, one after another, until a
        write fails. */
    method CommitEntries(scanner: Scanner, job: Job, pick: Directory -> string, faults: Faults, ghost s0: State)
      returns (ok: bool, ghost done: nat)
      requires During(scanner, s0, job, Entries(0)) && HasKeys(job) && Picks(pick) && meta == NewMeta(job.start)
      modifies this
      ensures MetaIn(files) == old(MetaIn(files))
      ensures if ok then
                && During(scanner, s0, job, Entries(|job.scanned|))
                && EntriesDone(scanner, job, faults, old(files), files, meta, |job.scanned|)
              else Over(scanner, s0) && GaveUp(scanner, job, faults, old(files), files, done)
    {
      ghost var dir := files;
      EntriesBegin(scanner, job, faults, dir);
      hide *;
      for i := 0 to |job.scanned|
        invariant During(scanner, s0, job, Entries(i)) && MetaIn(files) == MetaIn(dir)
        invariant EntriesDone(scanner, job, faults, dir, files, meta, i)
      {
        ghost var now, m := files, meta;
        KeyAt(job, i);
        ok := CommitEntry(scanner, job, i, pick, faults, s0);
        if !ok {
          done := EntryStops(scanner, job, faults, dir, files, m, i);
          return;
        }
        EntryThrough(scanner, job, faults, dir, now, m, i);
      }
      ok, done := true, 0;
    }

    /** The commit of a scan, from the lock to its release. It is done exactly
        when every write goes through, and else ends with the first that does
        not, those before it being done and meta.json as it was. Done, the
        directory holds what was scanned, as meta.json names it, and no file
        meta.json does not name. All of it by steps of the protocol. */
    method Commit(scanner: Scanner, job: Job, pick: Directory -> string, faults: Faults, ghost s0: State)
      returns (ok: bool, ghost done: nat)
      requires s0.dir == files && s0.writer == Some(Writer(job, Entries(0), NewMeta(job.start), None))
      requires HasKeys(job) && Picks(pick)
      modifies this
      ensures Over(scanner, s0)
      ensures var all := Writes(scanner, job, old(MetaIn(files)));
              && Reaches(faults, old(files), all, done) && (ok <==> done == |all|)
              && (ok <==> forall k :: 0 <= k < |all| ==> SoundAt(faults, old(files), all, k))
      ensures (forall d, name :: faults(d, name) == Sound) ==> ok
      ensures ok ==>
                && MetaStep in steps && meta == CommittedMeta(scanner, job, old(MetaIn(files)))
                && Committed(scanner, job, files, meta)
                && Cleared(files, Put(old(files), Writes(scanner, job, old(MetaIn(files)))), meta)
      ensures !ok ==>
                && MetaIn(files) == old(MetaIn(files))
                && files == Put(old(files), Writes(scanner, job, old(MetaIn(files)))[..done])
    {
      meta := NewMeta(job.start);
      run, steps := [s0], [];
      assert During(scanner, s0, job, Entries(0));
      ghost var dir, put := files, files;
      ok, done, put := WriteAll(scanner, job, pick, faults, s0);
      hide IsUnnamed, Writes, Reaches, Put, Committed, CommittedMeta, During, Over, MetaIn, Traced, Picks, HasKeys, SoundAt;
      ghost var all := Writes(scanner, job, MetaIn(dir));
      SoundIsDone(faults, dir, all, if ok then |all| else done);
      if ok {
        assert AllDone(scanner, job, faults, dir, put, meta);
        RemoveUnnamed(scanner, job, s0);
        DoneIsCommitted(scanner, job, faults, dir, put, files, meta);
        done := |Writes(scanner, job, MetaIn(dir))|;
        Release(scanner, job, s0);
      }
    }

    /** The writes of a commit, up to meta.json. */
    method WriteAll(scanner: Scanner, job: Job, pick: Directory -> string, faults: Faults, ghost s0: State)
      returns (ok: bool, ghost done: nat, ghost put: Directory)
      requires During(scanner, s0, job, Entries(0)) && HasKeys(job) && Picks(pick) && meta == NewMeta(job.start)
      modifies this
      ensures put == files
      ensures if ok then
                && During(scanner, s0, job, Cleaning) && MetaStep in steps
                && AllDone(scanner, job, faults, old(files), files, meta)
              else
                && Over(scanner, s0) && MetaIn(files) == old(MetaIn(files))
                && GaveUp(scanner, job, faults, old(files), files, done)
    {
      ghost var dir := files;
      hide *;
      ok, done := CommitEntries(scanner, job, pick, faults, s0);
      put := files;
      if !ok {
        return;
      }
      ghost var now, m := files, meta;
      ok := CommitRanges(scanner, job, pick, faults, s0);
      put := files;
      if !ok {
        done := RangesStop(scanner, job, faults, dir, files, m);
        return;
      }
      RangesThrough(scanner, job, faults, dir, now, m);
      now, m := files, meta;
      ok := CommitMeta(scanner, job, pick, faults, s0);
      put := files;
      if !ok {
        done := MetaStops(scanner, job, faults, dir, files, m);
        return;
      }
      MetaThrough(scanner, job, faults, dir, now, m);
    }

    ghost method Release(scanner: Scanner, job: Job, s0: State)
      requires During(scanner, s0, job, Cleaning)
      modifies this`run, this`steps
      ensures Over(scanner, s0) && old(steps) <= steps
    {
      var s := run[|steps|];
      var s' := s.(writer := None);
      assert Next(scanner, s, s', ReleaseStep);
      hide Next, Traced;
      TraceStep(scanner, run, steps, s0, s, s', ReleaseStep);
      run, steps := run + [s'], steps + [ReleaseStep];
    }
  }
}
