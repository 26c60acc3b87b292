/** A read that nothing interrupts: the protocol's steps give what the view of
    the cache gives, and every read can come to its answer. */
module FindingsViews {
  import opened Common
  import opened FindingsStore
  import opened FindingsRecords
  import opened FindingsCommit
  import opened FindingsWriter

  /** The reader after n of the selected entries. */
  function ReaderAfter(dir: Directory, first: Reader, text: ScannedText, n: nat): Reader
    requires n <= |first.sel|
  {
    if n == 0 then first
    else
      var before, id := ReaderAfter(dir, first, text, n - 1), first.sel[n - 1];
      var entry := EntryFrom(dir, first.meta, first.scope.keys, text.lines, id, first.held);
      var added := FreshEntry(dir, first.meta, first.scope.keys, text.lines, id, first.held);
      before.(next := n, entries := if entry.Some? then before.entries[id := entry.value] else before.entries,
              decoded := WithEntry(before.decoded, id, added))
  }

  /** What stays the same of the reader, and what it has. */
  ghost predicate HasRead(dir: Directory, first: Reader, text: ScannedText, n: nat, r: Reader)
    requires n <= |first.sel|
  {
    && r == first.(next := n, entries := r.entries, decoded := r.decoded)
    && (forall id :: id in r.entries <==>
          id in first.sel[..n] && EntryFrom(dir, first.meta, first.scope.keys, text.lines, id, first.held).Some?)
    && (forall id :: id in r.entries ==>
          EntryFrom(dir, first.meta, first.scope.keys, text.lines, id, first.held) == Some(r.entries[id]))
  }

  lemma {:induction false} ReaderHasRead(dir: Directory, first: Reader, text: ScannedText, n: nat)
    requires n <= |first.sel| && first.next == 0 && first.entries == map[]
    ensures HasRead(dir, first, text, n, ReaderAfter(dir, first, text, n))
  {
    hide EntryFrom, FreshEntry, WithEntry;
    if n > 0 {
      ReaderHasRead(dir, first, text, n - 1);
      assert first.sel[..n] == first.sel[..n - 1] + [first.sel[n - 1]];
    }
  }

  /** s with its reader r as given. */
  function WithReader(s: State, r: nat, reader: Reader): State {
    s.(readers := s.readers[r := reader])
  }

  lemma {:induction false} EntriesRun(scanner: Scanner, s: State, r: nat, first: Reader, text: ScannedText, n: nat)
    returns (run: seq<State>, steps: seq<Step>)
    requires n <= |first.sel| && first.next == 0 && first.entries == map[] && first.stage == Reading(text)
    ensures Traced(scanner, run, steps, WithReader(s, r, first), WithReader(s, r, ReaderAfter(s.dir, first, text, n)))
  {
    if n == 0 {
      return [WithReader(s, r, first)], [];
    }
    run, steps := EntriesRun(scanner, s, r, first, text, n - 1);
    var before, after := ReaderAfter(s.dir, first, text, n - 1), ReaderAfter(s.dir, first, text, n);
    ReaderHasRead(s.dir, first, text, n - 1);
    EntryStepThere(scanner, s, r, first, text, n);
    hide Traced, Next, ReaderAfter, HasRead;
    TraceStep(scanner, run, steps, WithReader(s, r, first), WithReader(s, r, before), WithReader(s, r, after), ReadEntryStep(r));
    run, steps := run + [WithReader(s, r, after)], steps + [ReadEntryStep(r)];
  }

  lemma EntryStepThere(scanner: Scanner, s: State, r: nat, first: Reader, text: ScannedText, n: nat)
    requires 0 < n <= |first.sel| && first.stage == Reading(text)
    requires HasRead(s.dir, first, text, n - 1, ReaderAfter(s.dir, first, text, n - 1))
    ensures Next(scanner, WithReader(s, r, ReaderAfter(s.dir, first, text, n - 1)),
                 WithReader(s, r, ReaderAfter(s.dir, first, text, n)), ReadEntryStep(r))
  {
    hide EntryFrom, FreshEntry, WithEntry, WithReader, Next;
    var before, after := ReaderAfter(s.dir, first, text, n - 1), ReaderAfter(s.dir, first, text, n);
    var id := first.sel[n - 1];
    var entry := EntryFrom(s.dir, first.meta, first.scope.keys, text.lines, id, first.held);
    var added := FreshEntry(s.dir, first.meta, first.scope.keys, text.lines, id, first.held);
    assert before.sel == first.sel && before.next == n - 1 && before.meta == first.meta && before.scope == first.scope
           && before.held == first.held && before.stage == Reading(text);
    hide ReaderAfter, HasRead;
    OneEntryStep(scanner, s, r, before, after, text);
  }

  lemma OneEntryStep(scanner: Scanner, s: State, r: nat, before: Reader, after: Reader, text: ScannedText)
    requires before.stage == Reading(text) && before.next < |before.sel|
    requires var id := before.sel[before.next];
             var entry := EntryFrom(s.dir, before.meta, before.scope.keys, text.lines, id, before.held);
             var added := FreshEntry(s.dir, before.meta, before.scope.keys, text.lines, id, before.held);
             after == before.(next := before.next + 1,
                              entries := if entry.Some? then before.entries[id := entry.value] else before.entries,
                              decoded := WithEntry(before.decoded, id, added))
    ensures Next(scanner, WithReader(s, r, before), WithReader(s, r, after), ReadEntryStep(r))
  {
    hide EntryFrom, FreshEntry, WithEntry;
    assert s.readers[r := before][r := after] == s.readers[r := after];
  }

  /** What the view method answers for a meta.json and what is held. */
  ghost predicate IsView(dir: Directory, meta: MetaFile, scope: Scope, sel: seq<string>, held: Option<Record>, view: View) {
    var current := CurrentInMeta(meta, scope.keys, scope.rangesKey);
    var text := RangesFrom(dir, meta, scope.rangesKey, held);
    if current == {} || text.None? then view == View(map[], {}, None, Record(meta.identity, None, map[]))
    else Viewed(dir, meta, scope, held, text.value, current, sel, view)
  }

  /** A reader as it begins. */
  function Begun(process: nat, scope: Scope, sel: seq<string>, meta: MetaFile): Reader {
    Reader(process, scope, sel, meta, Looking, 0, None, map[], Record(meta.identity, None, map[]))
  }

  lemma BeginThere(scanner: Scanner, s: State, r: nat, process: nat, scope: Scope, sel: seq<string>, meta: MetaFile)
    requires r !in s.readers && MetaIn(s.dir) == Some(meta)
    ensures Next(scanner, s, WithReader(s, r, Begun(process, scope, sel, meta)), BeginReadStep(r, process, scope, sel))
  {
    hide MetaIn;
  }

  lemma LookThere(scanner: Scanner, s: State, r: nat, reader: Reader) returns (looked: Reader)
    requires reader.stage == Looking
    ensures Next(scanner, WithReader(s, r, reader), WithReader(s, r, looked), LookStep(r))
    ensures looked == reader.(held := Looked(s.records, reader.process, reader.meta.identity),
                              stage := if CurrentInMeta(reader.meta, reader.scope.keys, reader.scope.rangesKey) == {}
                                       then Stopped else NeedRanges)
  {
    hide CurrentInMeta, Looked;
    looked := reader.(held := Looked(s.records, reader.process, reader.meta.identity),
                      stage := if CurrentInMeta(reader.meta, reader.scope.keys, reader.scope.rangesKey) == {}
                               then Stopped else NeedRanges);
    assert WithReader(s, r, looked).readers == WithReader(s, r, reader).readers[r := looked];
  }

  lemma RangesThere(scanner: Scanner, s: State, r: nat, reader: Reader) returns (after: Reader)
    requires reader.stage == NeedRanges
    ensures Next(scanner, WithReader(s, r, reader), WithReader(s, r, after), ReadRangesStep(r))
    ensures var text := RangesFrom(s.dir, reader.meta, reader.scope.rangesKey, reader.held);
            after == reader.(stage := if text.Some? then Reading(text.value) else Stopped, decoded := after.decoded)
  {
    hide RangesFrom, FreshRanges;
    var text := RangesFrom(s.dir, reader.meta, reader.scope.rangesKey, reader.held);
    var ranges := FreshRanges(s.dir, reader.meta, reader.scope.rangesKey, reader.held);
    after := reader.(stage := if text.Some? then Reading(text.value) else Stopped,
                     decoded := reader.decoded.(ranges := ranges));
    assert WithReader(s, r, after).readers == WithReader(s, r, reader).readers[r := after];
  }

  lemma NoTrace(scanner: Scanner, s: State)
    ensures Traced(scanner, [s], [], s, s)
  {
  }

  /** The steps of a read up to its entries. */
  lemma ReadBegins(scanner: Scanner, s: State, r: nat, process: nat, scope: Scope, sel: seq<string>, meta: MetaFile)
    returns (run: seq<State>, steps: seq<Step>, reader: Reader)
    requires r !in s.readers && MetaIn(s.dir) == Some(meta)
    ensures Traced(scanner, run, steps, s, WithReader(s, r, reader))
    ensures var held := Looked(s.records, process, meta.identity);
            var text := RangesFrom(s.dir, meta, scope.rangesKey, held);
            && reader == Reader(process, scope, sel, meta, reader.stage, 0, held, map[], reader.decoded)
            && reader.stage == (if CurrentInMeta(meta, scope.keys, scope.rangesKey) == {} || text.None? then Stopped
                                else Reading(text.value))
  {
    hide MetaIn, CurrentInMeta, RangesFrom, Looked, Traced, Next, WithReader;
    var begun := Begun(process, scope, sel, meta);
    NoTrace(scanner, s);
    BeginThere(scanner, s, r, process, scope, sel, meta);
    TraceStep(scanner, [s], [], s, s, WithReader(s, r, begun), BeginReadStep(r, process, scope, sel));
    run, steps := [s] + [WithReader(s, r, begun)], [] + [BeginReadStep(r, process, scope, sel)];
    reader := LookThere(scanner, s, r, begun);
    TraceStep(scanner, run, steps, s, WithReader(s, r, begun), WithReader(s, r, reader), LookStep(r));
    run, steps := run + [WithReader(s, r, reader)], steps + [LookStep(r)];
    if reader.stage == NeedRanges {
      var looked := reader;
      reader := RangesThere(scanner, s, r, looked);
      TraceStep(scanner, run, steps, s, WithReader(s, r, looked), WithReader(s, r, reader), ReadRangesStep(r));
      run, steps := run + [WithReader(s, r, reader)], steps + [ReadRangesStep(r)];
    }
  }

  lemma TraceBoth(scanner: Scanner, run: seq<State>, steps: seq<Step>, run': seq<State>, steps': seq<Step>, a: State, b: State,
                  c: State) returns (all: seq<State>, taken: seq<Step>)
    requires Traced(scanner, run, steps, a, b) && Traced(scanner, run', steps', b, c)
    ensures Traced(scanner, all, taken, a, c)
  {
    all, taken := run + run'[1..], steps + steps';
    forall i | 0 <= i < |taken|
      ensures Next(scanner, all[i], all[i + 1], taken[i])
    {
      if i < |steps| {
        assert all[i] == run[i] && all[i + 1] == run[i + 1];
      } else {
        assert all[i] == run'[i - |steps|] && all[i + 1] == run'[i - |steps| + 1];
      }
    }
    hide Next;
  }

  /** From any state every read can be taken to its answer by its own steps.
      Where nothing comes between them it answers what the view of the
      directory gives, or nothing when meta.json is of another state. */
  lemma ReadIsView(scanner: Scanner, s: State, r: nat, process: nat, scope: Scope, sel: seq<string>, meta: MetaFile, view: View)
    returns (run: seq<State>, steps: seq<Step>)
    requires r !in s.readers && MetaIn(s.dir) == Some(meta)
    requires IsView(s.dir, meta, scope, sel, Looked(s.records, process, meta.identity), view)
    ensures |run| > 0 && Traced(scanner, run, steps, s, run[|run| - 1])
    ensures run[|run| - 1].answers
            == s.answers + [if meta.identity == s.now then Answer(s.now, scope, view.entries, view.text)
                            else Answer(s.now, scope, map[], None)]
  {
    var reader;
    run, steps, reader := ReadBegins(scanner, s, r, process, scope, sel, meta);
    var last := reader;
    if reader.stage.Reading? {
      var run', steps' := EntriesRun(scanner, s, r, reader, reader.stage.text, |sel|);
      ReaderHasRead(s.dir, reader, reader.stage.text, |sel|);
      last := ReaderAfter(s.dir, reader, reader.stage.text, |sel|);
      run, steps := TraceBoth(scanner, run, steps, run', steps', s, WithReader(s, r, reader), WithReader(s, r, last));
      SameEntries(s.dir, reader, reader.stage.text, last, view);
    }
    hide MetaIn, CurrentInMeta, RangesFrom, FreshRanges, Looked, Traced, Viewed, HasRead, ReaderAfter;
    var a := WithReader(s, r, last);
    var b := AnswerStepThere(scanner, a, r);
    TraceStep(scanner, run, steps, s, a, b, AnswerStep(r));
    TraceEnds(scanner, run + [b], steps + [AnswerStep(r)], s, b);
    run, steps := run + [b], steps + [AnswerStep(r)];
  }

  lemma TraceEnds(scanner: Scanner, run: seq<State>, steps: seq<Step>, a: State, b: State)
    requires Traced(scanner, run, steps, a, b)
    ensures |run| > 0 && run[|run| - 1] == b
  {
    hide Next;
  }

  lemma SameEntries(dir: Directory, first: Reader, text: ScannedText, last: Reader, view: View)
    requires first.next == 0 && HasRead(dir, first, text, |first.sel|, last)
    requires Viewed(dir, first.meta, first.scope, first.held, text, CurrentInMeta(first.meta, first.scope.keys, first.scope.rangesKey),
                    first.sel, view)
    ensures last.entries == view.entries && view.text == Some(text) && last.stage == first.stage && last.next == |last.sel|
    ensures last.meta == first.meta && last.scope == first.scope
  {
    assert first.sel[..|first.sel|] == first.sel;
    hide EntryFrom, Decoded, CurrentInMeta;
    assert forall id :: id in last.entries <==> id in view.entries;
    assert forall id :: id in last.entries ==> Some(last.entries[id]) == Some(view.entries[id]);
  }

  lemma AnswerStepThere(scanner: Scanner, s: State, r: nat) returns (t: State)
    requires r in s.readers
    requires var reader := s.readers[r]; reader.stage.Stopped? || (reader.stage.Reading? && reader.next == |reader.sel|)
    ensures Next(scanner, s, t, AnswerStep(r))
    ensures var reader := s.readers[r];
            t.answers == s.answers + [if reader.meta.identity == s.now
                                      then Answer(s.now, reader.scope, reader.entries,
                                                  if reader.stage.Reading? then Some(reader.stage.text) else None)
                                      else Answer(s.now, reader.scope, map[], None)]
  {
    var reader := s.readers[r];
    var same := Equal(reader.meta.identity, s.now);
    var answer := if same
                  then Answer(s.now, reader.scope, reader.entries,
                              if reader.stage.Reading? then Some(reader.stage.text) else None)
                  else Answer(s.now, reader.scope, map[], None);
    t := s.(readers := s.readers - {r}, answers := s.answers + [answer],
            keeping := if same then s.keeping + [Keeping(reader.process, reader.decoded)] else s.keeping);
  }

  /** A scan that is done while no writer is at work can commit: its check, and
      the lock, lead to the state a commit begins in. */
  lemma ScanCanCommit(scanner: Scanner, s: State, job: Job) returns (checked: State, locked: State)
    requires s.writer.None? && job.start == s.now && HasKeys(job)
    ensures Next(scanner, s, checked, CheckStep(job)) && Next(scanner, checked, locked, LockStep(|s.waiting|))
    ensures locked.dir == s.dir && locked.now == s.now
    ensures locked.writer == Some(Writer(job, Entries(0), NewMeta(job.start), None))
  {
    checked := s.(waiting := s.waiting + [job]);
    locked := s.(waiting := checked.waiting[..|s.waiting|] + checked.waiting[|s.waiting| + 1..],
                 writer := Some(Writer(job, Entries(0), NewMeta(job.start), None)));
    assert checked.waiting[|s.waiting|] == job;
  }
}
