/** What writers of one state of the file add to the findings cache stays
    there while the file stays in that state. */
module FindingsKept {
  import opened Common
  import opened FindingsStore
  import opened FindingsRecords
  import opened FindingsCommit
  import opened FindingsSafety

  /** meta.json describes the file as it is, and names id. */
  predicate Named(s: State, id: string) {
    MetaIn(s.dir).Some? && MetaIn(s.dir).value.identity == s.now && id in MetaIn(s.dir).value.signatures
  }

  // ---------------------------------------------------------------------
  // How far a writer is.

  /** The writer's meta.json names the signatures it has written, and, once
      merged, all those of its state that meta.json names; it is the
      meta.json in the directory once written. */
  ghost predicate OnItsWay(s: State, w: Writer) {
    && w.meta.identity == s.now && w.job.start == s.now
    && (forall i :: 0 <= i < |w.job.scanned| && (w.phase.Entries? ==> i < w.phase.next) && ValidID(w.job.scanned[i]) ==>
          w.job.scanned[i] in w.meta.signatures)
    && (w.phase == Committing ==> forall id :: Named(s, id) ==> id in w.meta.signatures)
    && (w.phase == Cleaning ==> MetaIn(s.dir) == Some(w.meta))
    && (w.temp.Some? ==> IsTemp(w.temp.value))
  }

  ghost predicate Progress(s: State) {
    && (forall i :: 0 <= i < |s.waiting| ==> s.waiting[i].start == s.now)
    && (s.writer.Some? ==> OnItsWay(s, s.writer.value))
  }

  lemma MetaStaysIn(scanner: Scanner, s: State, s': State, step: Step)
    requires Next(scanner, s, s', step) && !step.MetaStep? && Progress(s)
    ensures MetaIn(s'.dir) == MetaIn(s.dir)
  {
    SpecialNames();
    if step.EntryStep? {
      var w := s.writer.value;
      NamesAreApart(w.job.scanned[w.phase.next], w.job.scanned[w.phase.next]);
    }
    hide IsTemp, EntryName;
  }

  /** Steps that take or move no writer and leave the file and the directory. */
  predicate StandsBy(step: Step) {
    || step.CheckStep? || step.GiveUpStep? || step.BeginReadStep? || step.LookStep? || step.ReadRangesStep?
    || step.ReadEntryStep? || step.AnswerStep? || step.KeepStep? || step.DropStep?
  }

  lemma OthersStandBy(scanner: Scanner, s: State, s': State, step: Step)
    requires Next(scanner, s, s', step) && StandsBy(step)
    ensures s'.dir == s.dir && s'.now == s.now && s'.writer == s.writer
  {
    hide MetaIn, CurrentInMeta, RangesFrom, EntryFrom, FreshRanges, FreshEntry, WithEntry, StoredInto, Looked, Equal, ValidID;
  }

  lemma ProgressStays(scanner: Scanner, s: State, s': State, step: Step)
    requires Progress(s) && Next(scanner, s, s', step)
    ensures Progress(s')
  {
    if step.MetaStep? {
    } else if step.EntryStep? || step.MergeStep? {
      MetaStaysIn(scanner, s, s', step);
      hide MetaIn, EntryName, ValidID, IsTemp, Renamed;
    } else if StandsBy(step) {
      OthersStandBy(scanner, s, s', step);
      WaitingForNow(scanner, s, s', step);
      hide Next, Named, Equal;
    } else {
      OtherProgressStays(scanner, s, s', step);
    }
  }

  lemma WaitingForNow(scanner: Scanner, s: State, s': State, step: Step)
    requires Progress(s) && Next(scanner, s, s', step) && StandsBy(step)
    ensures forall i :: 0 <= i < |s'.waiting| ==> s'.waiting[i].start == s'.now
  {
    hide OnItsWay, MetaIn, CurrentInMeta, RangesFrom, EntryFrom, FreshRanges, FreshEntry, WithEntry, StoredInto, Looked,
         Equal;
  }

  lemma OtherProgressStays(scanner: Scanner, s: State, s': State, step: Step)
    requires Progress(s) && Next(scanner, s, s', step)
    requires !step.MetaStep? && !step.EntryStep? && !step.MergeStep? && !StandsBy(step)
    ensures Progress(s')
  {
    MetaStaysIn(scanner, s, s', step);
    hide MetaIn, EntryName, ValidID, IsTemp, Renamed, IsUnnamed;
  }

  /** No step but a change of the file makes meta.json forget a signature. */
  lemma NamedStays(scanner: Scanner, s: State, s': State, step: Step, id: string)
    requires Progress(s) && Next(scanner, s, s', step) && !step.FileStep? && Named(s, id)
    ensures Named(s', id)
  {
    if step.MetaStep? {
    } else {
      MetaStaysIn(scanner, s, s', step);
      hide MetaIn;
    }
  }

  lemma InitProgress(s: State)
    requires Init(s)
    ensures Progress(s)
  {
  }

  lemma {:induction false} RunKeepsProgress(scanner: Scanner, run: seq<State>, steps: seq<Step>, n: nat)
    requires IsRun(scanner, run, steps) && n < |run|
    ensures Progress(run[n])
  {
    hide *;
    RunBegins(scanner, run, steps);
    if n == 0 {
      InitProgress(run[0]);
    } else {
      RunKeepsProgress(scanner, run, steps, n - 1);
      StepAt(scanner, run, steps, n - 1);
      ProgressStays(scanner, run[n - 1], run[n], steps[n - 1]);
    }
  }

  /** The file does not change in the steps from i to j. */
  predicate FileStays(steps: seq<Step>, i: nat, j: nat) {
    forall k :: i <= k < j && k < |steps| ==> !steps[k].FileStep?
  }

  /** A signature named once stays named while the file does not change,
      whatever other writers do. */
  lemma {:induction false} NamedUntilChange(scanner: Scanner, run: seq<State>, steps: seq<Step>, i: nat, j: nat, id: string)
    requires IsRun(scanner, run, steps) && i <= j < |run| && FileStays(steps, i, j)
    requires Named(run[i], id)
    ensures Named(run[j], id)
    decreases j - i
  {
    hide Named, Progress, Next, IsRun;
    RunBegins(scanner, run, steps);
    if i < j {
      NamedUntilChange(scanner, run, steps, i, j - 1, id);
      RunKeepsProgress(scanner, run, steps, j - 1);
      StepAt(scanner, run, steps, j - 1);
      NamedStays(scanner, run[j - 1], run[j], steps[j - 1], id);
    }
  }

  // ---------------------------------------------------------------------
  // What the directory holds, and what may change it.

  /** The directory holds the entry the scan gives for id under a key. */
  ghost predicate Held(scanner: Scanner, at: Identity, dir: Directory, id: string, key: string) {
    EntryName(id) in dir && dir[EntryName(id)] == EntryOf(key, scanner.result(at, key))
  }

  /** The directory holds the ranges the scan gives under a key. */
  ghost predicate TextHeld(scanner: Scanner, at: Identity, dir: Directory, rangesKey: string) {
    RANGES_NAME in dir && dir[RANGES_NAME] == FileOf(rangesKey, scanner.text(at, rangesKey))
  }

  /** meta names id under a key, as the scan gives it. */
  ghost predicate Names(scanner: Scanner, at: Identity, meta: MetaFile, id: string, key: string) {
    id in meta.signatures && meta.signatures[id] == SummaryOf(key, scanner.result(at, key))
  }

  ghost predicate NamesText(scanner: Scanner, at: Identity, meta: MetaFile, rangesKey: string) {
    meta.ranges == Some(RangesMeta(rangesKey, |scanner.text(at, rangesKey).ranges|))
  }

  /** The id whose entry the writer writes next. */
  predicate WritesNext(s: State, id: string) {
    && s.writer.Some? && s.writer.value.phase.Entries?
    && s.writer.value.phase.next < |s.writer.value.job.scanned|
    && s.writer.value.job.scanned[s.writer.value.phase.next] == id
  }

  /** The step does not write id's entry under another key. */
  predicate SameKey(s: State, step: Step, id: string, key: string) {
    step.EntryStep? && WritesNext(s, id) ==>
      id in s.writer.value.job.scope.keys && s.writer.value.job.scope.keys[id] == key
  }

  /** The step does not write ranges under another key. */
  predicate SameRanges(s: State, step: Step, rangesKey: string) {
    step.RangesStep? && s.writer.Some? ==> s.writer.value.job.scope.rangesKey == rangesKey
  }

  /** An entry's own name, apart from those of the other files. */
  lemma EntryWrittenStays(scanner: Scanner, s: State, s': State, id: string, key: string)
    requires ValidID(id) && Progress(s) && EntryWritten(s, s', scanner) && SameKey(s, EntryStep, id, key)
    ensures Held(scanner, s.now, s.dir, id, key) ==> Held(scanner, s.now, s'.dir, id, key)
    ensures WritesNext(s, id) ==> Held(scanner, s.now, s'.dir, id, key)
  {
    var w := s.writer.value;
    NamesAreApart(id, w.job.scanned[w.phase.next]);
    NamesAreApart(id, id);
    hide EntryName, ValidID, IsTemp, MetaIn;
  }

  lemma RemovedStays(scanner: Scanner, s: State, s': State, id: string, key: string, name: string)
    requires ValidID(id) && UnnamedRemoved(s, s', name) && id in s.writer.value.meta.signatures
    ensures Held(scanner, s.now, s.dir, id, key) ==> Held(scanner, s.now, s'.dir, id, key)
  {
    NamesAreApart(id, id);
    hide EntryName, ValidID, IsTemp;
  }

  /** No step but a change of the file, a write under another key, or the
      removal of what no meta.json names takes away an entry. */
  lemma HeldStays(scanner: Scanner, s: State, s': State, id: string, key: string, step: Step)
    requires ValidID(id) && Progress(s) && Next(scanner, s, s', step) && !step.FileStep? && SameKey(s, step, id, key)
    requires step.RemoveStep? && s.writer.Some? ==> id in s.writer.value.meta.signatures
    requires Held(scanner, s.now, s.dir, id, key)
    ensures Held(scanner, s'.now, s'.dir, id, key)
  {
    if StandsBy(step) {
      OthersStandBy(scanner, s, s', step);
      hide *;
    } else if step.EntryStep? {
      hide Progress, SameKey, Held, WritesNext;
      EntryWrittenStays(scanner, s, s', id, key);
    } else if step.RemoveStep? {
      RemovedStays(scanner, s, s', id, key, step.name);
    } else {
      NamesAreApart(id, id);
      hide EntryName, ValidID, IsTemp, MetaIn;
    }
  }

  /** Nor the ranges. */
  lemma TextStays(scanner: Scanner, s: State, s': State, rangesKey: string, step: Step)
    requires Progress(s) && Next(scanner, s, s', step) && !step.FileStep? && SameRanges(s, step, rangesKey)
    requires TextHeld(scanner, s.now, s.dir, rangesKey)
    ensures TextHeld(scanner, s'.now, s'.dir, rangesKey)
  {
    SpecialNames();
    if StandsBy(step) {
      OthersStandBy(scanner, s, s', step);
      hide *;
    } else if step.EntryStep? {
      var w := s.writer.value;
      NamesAreApart(w.job.scanned[w.phase.next], w.job.scanned[w.phase.next]);
    }
    hide EntryName, ValidID, IsTemp, MetaIn;
  }

  // ---------------------------------------------------------------------
  // What a writer has written before its commit.

  /** The writer has been past id's entry. */
  predicate Passed(w: Writer, id: string) {
    id in if w.phase.Entries? && w.phase.next <= |w.job.scanned| then w.job.scanned[..w.phase.next] else w.job.scanned
  }

  /** The entry the writer wrote for id is there, and its meta.json names it;
      so are the ranges, once written. */
  ghost predicate Wrote(scanner: Scanner, s: State, w: Writer, id: string) {
    && w.job.start == s.now && (id in w.job.scanned ==> id in w.job.scope.keys)
    && (Passed(w, id) && id in w.job.scope.keys ==>
          && Held(scanner, s.now, s.dir, id, w.job.scope.keys[id])
          && Names(scanner, s.now, w.meta, id, w.job.scope.keys[id]))
    && (!w.phase.Entries? ==>
          && TextHeld(scanner, s.now, s.dir, w.job.scope.rangesKey)
          && NamesText(scanner, s.now, w.meta, w.job.scope.rangesKey))
  }

  ghost predicate Writing(scanner: Scanner, s: State, id: string) {
    && (forall i :: 0 <= i < |s.waiting| ==>
          s.waiting[i].start == s.now && (id in s.waiting[i].scanned ==> id in s.waiting[i].scope.keys))
    && (s.writer.Some? ==> Wrote(scanner, s, s.writer.value, id))
  }

  /** What the step does to the writer's own record of itself. */
  lemma WriterGrows(scanner: Scanner, s: State, s': State, id: string, step: Step)
    requires Progress(s) && Writing(scanner, s, id) && Next(scanner, s, s', step) && !step.FileStep?
    requires s.writer.Some? && s'.writer.Some?
    ensures var w, w' := s.writer.value, s'.writer.value;
            && w'.job == w.job
            && (Passed(w', id) ==> Passed(w, id) || (step.EntryStep? && WritesNext(s, id)) || !ValidID(id))
            && (Passed(w, id) && id in w.job.scope.keys ==> Names(scanner, s.now, w'.meta, id, w.job.scope.keys[id]))
            && (step.EntryStep? && WritesNext(s, id) && id in w.job.scope.keys ==>
                  Names(scanner, s.now, w'.meta, id, w.job.scope.keys[id]))
            && (!w'.phase.Entries? ==> NamesText(scanner, s.now, w'.meta, w.job.scope.rangesKey))
            && (!w'.phase.Entries? && w.phase.Entries? ==> step.RangesStep?)
  {
    if StandsBy(step) {
      OthersStandBy(scanner, s, s', step);
    }
    hide Held, TextHeld, EntryName, IsTemp, MetaIn, Renamed, IsUnnamed, ValidID;
  }

  /** What the writer wrote stays there while it is at work. */
  lemma WroteStays(scanner: Scanner, s: State, s': State, id: string, step: Step)
    requires ValidID(id) && Progress(s) && Writing(scanner, s, id) && Next(scanner, s, s', step) && !step.FileStep?
    requires s.writer.Some? && s'.writer.Some?
    ensures Wrote(scanner, s', s'.writer.value, id)
  {
    var w, w' := s.writer.value, s'.writer.value;
    WriterGrows(scanner, s, s', id, step);
    NowStays(scanner, s, s', step);
    var scope := w.job.scope;
    if Passed(w', id) && id in scope.keys {
      if step.EntryStep? && WritesNext(s, id) {
        EntryWrittenStays(scanner, s, s', id, scope.keys[id]);
      } else {
        HeldStays(scanner, s, s', id, scope.keys[id], step);
      }
    }
    if !w'.phase.Entries? {
      if w.phase.Entries? {
        RangesWrittenHeld(scanner, s, s');
      } else {
        TextStays(scanner, s, s', scope.rangesKey, step);
      }
    }
    hide Held, TextHeld, Names, NamesText, Progress, Next, Passed, WritesNext;
  }

  lemma NowStays(scanner: Scanner, s: State, s': State, step: Step)
    requires Next(scanner, s, s', step) && !step.FileStep?
    ensures s'.now == s.now
  {
    hide MetaIn, CurrentInMeta, RangesFrom, EntryFrom, FreshRanges, FreshEntry, WithEntry, StoredInto, Looked, Equal, ValidID,
         EntryName, Renamed, IsUnnamed, IsTemp;
  }

  lemma RangesWrittenHeld(scanner: Scanner, s: State, s': State)
    requires Progress(s) && RangesWritten(s, s', scanner)
    ensures TextHeld(scanner, s'.now, s'.dir, s.writer.value.job.scope.rangesKey)
  {
    hide MetaIn;
  }

  /** A writer that takes the lock has written nothing yet. */
  lemma LockWrote(scanner: Scanner, s: State, s': State, i: nat, id: string)
    requires Writing(scanner, s, id) && LockTaken(s, s', i)
    ensures Writing(scanner, s', id)
  {
    hide Held, TextHeld, Names, NamesText;
  }

  lemma WaitingStays(scanner: Scanner, s: State, s': State, id: string, step: Step)
    requires Writing(scanner, s, id) && Next(scanner, s, s', step) && !step.LockStep?
    ensures forall i :: 0 <= i < |s'.waiting| ==>
              s'.waiting[i].start == s'.now && (id in s'.waiting[i].scanned ==> id in s'.waiting[i].scope.keys)
    ensures step.FileStep? || s.writer.None? ==> s'.writer.None?
  {
    hide MetaIn, CurrentInMeta, RangesFrom, EntryFrom, FreshRanges, FreshEntry, WithEntry, StoredInto, Looked, Equal, ValidID,
         EntryName, Renamed, IsUnnamed, IsTemp, Wrote;
  }

  lemma WritingStays(scanner: Scanner, s: State, s': State, id: string, step: Step)
    requires ValidID(id) && Progress(s) && Writing(scanner, s, id) && Next(scanner, s, s', step)
    ensures Writing(scanner, s', id)
  {
    if step.LockStep? {
      hide Writing;
      LockWrote(scanner, s, s', step.i, id);
    } else {
      WaitingStays(scanner, s, s', id, step);
      if s'.writer.Some? {
        WroteStays(scanner, s, s', id, step);
      }
      hide Next, Wrote, Progress;
    }
  }

  lemma InitWriting(scanner: Scanner, s: State, id: string)
    requires Init(s)
    ensures Writing(scanner, s, id)
  {
  }

  lemma {:induction false} RunKeepsWriting(scanner: Scanner, run: seq<State>, steps: seq<Step>, n: nat, id: string)
    requires IsRun(scanner, run, steps) && n < |run| && ValidID(id)
    ensures Writing(scanner, run[n], id)
  {
    hide *;
    RunBegins(scanner, run, steps);
    if n == 0 {
      InitWriting(scanner, run[0], id);
    } else {
      RunKeepsWriting(scanner, run, steps, n - 1, id);
      RunKeepsProgress(scanner, run, steps, n - 1);
      StepAt(scanner, run, steps, n - 1);
      WritingStays(scanner, run[n - 1], run[n], id, steps[n - 1]);
    }
  }

  // ---------------------------------------------------------------------
  // What is committed stays.

  /** The directory holds id's entry, meta.json names it, and a writer at
      work will not name it otherwise or leave it out. */
  ghost predicate EntryKept(scanner: Scanner, s: State, id: string, key: string) {
    && Held(scanner, s.now, s.dir, id, key)
    && MetaIn(s.dir).Some? && MetaIn(s.dir).value.identity == s.now
    && Names(scanner, s.now, MetaIn(s.dir).value, id, key)
    && (s.writer.Some? && (id in s.writer.value.meta.signatures || s.writer.value.phase == Committing
                           || s.writer.value.phase == Cleaning) ==>
          Names(scanner, s.now, s.writer.value.meta, id, key))
  }

  /** The same of the ranges. */
  ghost predicate TextKept(scanner: Scanner, s: State, rangesKey: string) {
    && TextHeld(scanner, s.now, s.dir, rangesKey)
    && MetaIn(s.dir).Some? && MetaIn(s.dir).value.identity == s.now
    && NamesText(scanner, s.now, MetaIn(s.dir).value, rangesKey)
    && (s.writer.Some? && !s.writer.value.phase.Entries? ==>
          NamesText(scanner, s.now, s.writer.value.meta, rangesKey))
  }

  /** The writer's meta.json goes on naming id as the scan gives it. */
  lemma WriterNames(scanner: Scanner, s: State, s': State, id: string, key: string, step: Step)
    requires ValidID(id) && Progress(s) && EntryKept(scanner, s, id, key) && Next(scanner, s, s', step)
    requires !step.FileStep? && SameKey(s, step, id, key) && s'.writer.Some?
    ensures var w' := s'.writer.value;
            id in w'.meta.signatures || w'.phase == Committing || w'.phase == Cleaning ==>
              Names(scanner, s.now, w'.meta, id, key)
  {
    if StandsBy(step) {
      OthersStandBy(scanner, s, s', step);
    }
    hide Held, EntryName, IsTemp, MetaIn, Renamed, IsUnnamed, ValidID;
  }

  lemma WriterNamesText(scanner: Scanner, s: State, s': State, rangesKey: string, step: Step)
    requires Progress(s) && TextKept(scanner, s, rangesKey) && Next(scanner, s, s', step)
    requires !step.FileStep? && SameRanges(s, step, rangesKey) && s'.writer.Some? && !s'.writer.value.phase.Entries?
    ensures NamesText(scanner, s.now, s'.writer.value.meta, rangesKey)
  {
    if StandsBy(step) {
      OthersStandBy(scanner, s, s', step);
    }
    hide TextHeld, EntryName, IsTemp, MetaIn, Renamed, IsUnnamed, ValidID;
  }

  /** meta.json is replaced by the writer's own, or stays. */
  lemma MetaIs(scanner: Scanner, s: State, s': State, step: Step)
    requires Progress(s) && Next(scanner, s, s', step)
    ensures MetaIn(s'.dir) == MetaIn(s.dir) ||
            (&& step.MetaStep? && s.writer.Some? && MetaIn(s'.dir) == Some(s.writer.value.meta)
             && s.writer.value.phase == Committing && s.writer.value.meta.identity == s.now)
  {
    if !step.MetaStep? {
      MetaStaysIn(scanner, s, s', step);
    }
    hide IsTemp, ValidID, EntryName;
  }

  lemma EntryKeptStays(scanner: Scanner, s: State, s': State, id: string, key: string, step: Step)
    requires ValidID(id) && Progress(s) && EntryKept(scanner, s, id, key) && Next(scanner, s, s', step)
    requires !step.FileStep? && SameKey(s, step, id, key)
    ensures EntryKept(scanner, s', id, key)
  {
    if step.RemoveStep? {
      RemovesNamed(scanner, s, s', id, key, step);
    }
    HeldStays(scanner, s, s', id, key, step);
    NowStays(scanner, s, s', step);
    MetaIs(scanner, s, s', step);
    if s'.writer.Some? {
      WriterNames(scanner, s, s', id, key, step);
    }
    hide Held, Names, Next, Progress, MetaIn, SameKey, ValidID;
  }

  lemma RemovesNamed(scanner: Scanner, s: State, s': State, id: string, key: string, step: Step)
    requires EntryKept(scanner, s, id, key) && Next(scanner, s, s', step) && step.RemoveStep?
    ensures s.writer.Some? && id in s.writer.value.meta.signatures
  {
    hide Held, MetaIn, IsUnnamed;
  }

  lemma TextKeptStays(scanner: Scanner, s: State, s': State, rangesKey: string, step: Step)
    requires Progress(s) && TextKept(scanner, s, rangesKey) && Next(scanner, s, s', step)
    requires !step.FileStep? && SameRanges(s, step, rangesKey)
    ensures TextKept(scanner, s', rangesKey)
  {
    TextStays(scanner, s, s', rangesKey, step);
    NowStays(scanner, s, s', step);
    MetaIs(scanner, s, s', step);
    if s'.writer.Some? && !s'.writer.value.phase.Entries? {
      WriterNamesText(scanner, s, s', rangesKey, step);
    }
    hide TextHeld, NamesText, Next, Progress, MetaIn, SameRanges;
  }

  /** The commit of a writer keeps the ranges, and the entry of every id it
      scanned, under its keys. */
  lemma CommitKeeps(scanner: Scanner, s: State, s': State, id: string)
    requires ValidID(id) && Progress(s) && Writing(scanner, s, id) && MetaWritten(s, s')
    requires id in s.writer.value.job.scanned
    ensures id in s.writer.value.job.scope.keys
    ensures EntryKept(scanner, s', id, s.writer.value.job.scope.keys[id])
    ensures TextKept(scanner, s', s.writer.value.job.scope.rangesKey)
  {
    var w := s.writer.value;
    assert Passed(w, id);
    assert Next(scanner, s, s', MetaStep);
    HeldStays(scanner, s, s', id, w.job.scope.keys[id], MetaStep);
    TextStays(scanner, s, s', w.job.scope.rangesKey, MetaStep);
    assert MetaIn(s'.dir) == Some(w.meta);
    hide Held, TextHeld, Next, MetaIn, ValidID, Names, NamesText;
  }

  /** From state i to state n the file does not change, and no writer writes
      id's entry under another key, or ranges under another key, than the
      scope's. */
  predicate Undisturbed(run: seq<State>, steps: seq<Step>, i: nat, n: nat, scope: Scope, id: string)
    requires |run| == |steps| + 1
  {
    forall k :: i <= k < n && k < |steps| ==> Respects(run[k], steps[k], scope, id)
  }

  predicate Respects(s: State, step: Step, scope: Scope, id: string) {
    && !step.FileStep? && (id in scope.keys ==> SameKey(s, step, id, scope.keys[id]))
    && SameRanges(s, step, scope.rangesKey)
  }

  lemma {:induction false} KeptUntil(scanner: Scanner, run: seq<State>, steps: seq<Step>, i: nat, n: nat, scope: Scope,
                                     id: string)
    requires IsRun(scanner, run, steps) && i <= n < |run| && ValidID(id) && id in scope.keys
    requires Undisturbed(run, steps, i, n, scope, id)
    requires EntryKept(scanner, run[i], id, scope.keys[id]) && TextKept(scanner, run[i], scope.rangesKey)
    ensures EntryKept(scanner, run[n], id, scope.keys[id]) && TextKept(scanner, run[n], scope.rangesKey)
    decreases n - i
  {
    hide EntryKept, TextKept, Progress, Next, SameKey, SameRanges, IsRun;
    RunBegins(scanner, run, steps);
    if i < n {
      KeptUntil(scanner, run, steps, i, n - 1, scope, id);
      RunKeepsProgress(scanner, run, steps, n - 1);
      StepAt(scanner, run, steps, n - 1);
      assert Respects(run[n - 1], steps[n - 1], scope, id);
      EntryKeptStays(scanner, run[n - 1], run[n], id, scope.keys[id], steps[n - 1]);
      TextKeptStays(scanner, run[n - 1], run[n], scope.rangesKey, steps[n - 1]);
    }
  }

  // ---------------------------------------------------------------------
  // What a read finds.

  /** A scan gives what its files can say: no fewer findings than it keeps,
      ranges and findings within the text. */
  ghost predicate Sane(scanner: Scanner, at: Identity, scope: Scope, id: string)
    requires id in scope.keys
  {
    && var text, r := scanner.text(at, scope.rangesKey), scanner.result(at, scope.keys[id]);
    && IsText(text) && |r.findings| <= r.count && !EndsPast(r.findings, text.lines)
  }

  /** A read that takes what it can from a record finds id: the ranges, and
      the entry, as the scan gives them. */
  predicate Readable(scanner: Scanner, s: State, scope: Scope, id: string, held: Option<Record>) {
    && MetaIn(s.dir).Some? && id in scope.keys
    && var meta := MetaIn(s.dir).value;
    && meta.identity == s.now && id in CurrentInMeta(meta, scope.keys, scope.rangesKey)
    && RangesFrom(s.dir, meta, scope.rangesKey, held) == Some(scanner.text(s.now, scope.rangesKey))
    && EntryFrom(s.dir, meta, scope.keys, scanner.text(s.now, scope.rangesKey).lines, id, held)
       == Some(scanner.result(s.now, scope.keys[id]))
  }

  /** Ranges that are there as meta names them are taken as the scan gives
      them, from the file and from any true record of the state alike. */
  lemma TextTaken(scanner: Scanner, at: Identity, dir: Directory, meta: MetaFile, rangesKey: string, held: Option<Record>)
    requires TextHeld(scanner, at, dir, rangesKey) && NamesText(scanner, at, meta, rangesKey)
    requires HeldTrue(scanner, at, held) && IsText(scanner.text(at, rangesKey))
    ensures RangesFrom(dir, meta, rangesKey, held) == Some(scanner.text(at, rangesKey))
  {
    hide IsText, DecodedTrue;
  }

  /** So is an entry. */
  lemma EntryTaken(scanner: Scanner, at: Identity, dir: Directory, meta: MetaFile, scope: Scope, id: string,
                   held: Option<Record>)
    requires ValidID(id) && id in scope.keys && HeldTrue(scanner, at, held) && Sane(scanner, at, scope, id)
    requires Held(scanner, at, dir, id, scope.keys[id]) && Names(scanner, at, meta, id, scope.keys[id])
    ensures EntryFrom(dir, meta, scope.keys, scanner.text(at, scope.rangesKey).lines, id, held)
            == Some(scanner.result(at, scope.keys[id]))
  {
    var lines := scanner.text(at, scope.rangesKey).lines;
    assert ReadEntry(dir, meta, scope.keys, lines, id) == Some(scanner.result(at, scope.keys[id]));
    if HeldEntry(held, meta, scope.keys, lines, id).Some? {
      assert DecodedTrue(scanner, at, held.value.entries[id]);
    }
    hide EntryName, ValidID, EndsPast, IsText, ReadEntry;
  }

  /** A record that holds what meta names spares reading: the ranges and the
      entry are taken from it whatever files there are, and nothing is decoded. */
  lemma RecordSpares(scanner: Scanner, at: Identity, dir: Directory, meta: MetaFile, scope: Scope, id: string, rec: Record)
    requires ValidID(id) && id in scope.keys && HeldTrue(scanner, at, Some(rec)) && Sane(scanner, at, scope, id)
    requires Names(scanner, at, meta, id, scope.keys[id]) && NamesText(scanner, at, meta, scope.rangesKey)
    ensures rec.ranges.Some? && rec.ranges.value.key == scope.rangesKey ==>
              && FreshRanges(dir, meta, scope.rangesKey, Some(rec)) == None
              && RangesFrom(dir, meta, scope.rangesKey, Some(rec)) == Some(scanner.text(at, scope.rangesKey))
    ensures var lines := scanner.text(at, scope.rangesKey).lines;
            id in rec.entries && rec.entries[id].key == scope.keys[id] ==>
              && FreshEntry(dir, meta, scope.keys, lines, id, Some(rec)) == None
              && EntryFrom(dir, meta, scope.keys, lines, id, Some(rec)) == Some(scanner.result(at, scope.keys[id]))
  {
    var text := scanner.text(at, scope.rangesKey);
    if id in rec.entries && rec.entries[id].key == scope.keys[id] {
      assert DecodedTrue(scanner, at, rec.entries[id]);
      LastLineDecides(rec.entries[id].findings, text.lines);
    }
    hide ValidID, ReadRanges, ReadEntry, LastLine, EndsPast, ValidRanges;
  }

  /** One that holds another key, or another number of ranges or findings, than
      meta names is not taken from: the files are read. */
  lemma OtherRecordIsNotTaken(dir: Directory, meta: MetaFile, scope: Scope, lines: int, id: string, rec: Record)
    ensures rec.ranges.Some? && (rec.ranges.value.key != scope.rangesKey
                                 || meta.ranges != Some(RangesMeta(scope.rangesKey, rec.ranges.value.count))) ==>
              RangesFrom(dir, meta, scope.rangesKey, Some(rec)) == ReadRanges(dir, meta, scope.rangesKey)
    ensures id in rec.entries && id in meta.signatures
            && (rec.entries[id].key != meta.signatures[id].key || |rec.entries[id].findings| != meta.signatures[id].stored
                || rec.entries[id].lastLine > lines) ==>
              EntryFrom(dir, meta, scope.keys, lines, id, Some(rec)) == ReadEntry(dir, meta, scope.keys, lines, id)
  {
    hide ReadRanges, ReadEntry, ValidID;
  }

  /** A signature kept is readable, from the files and from any true record of
      the file's state alike. */
  lemma KeptIsReadable(scanner: Scanner, s: State, scope: Scope, id: string, held: Option<Record>)
    requires ValidID(id) && id in scope.keys && HeldTrue(scanner, s.now, held) && Sane(scanner, s.now, scope, id)
    requires EntryKept(scanner, s, id, scope.keys[id]) && TextKept(scanner, s, scope.rangesKey)
    ensures Readable(scanner, s, scope, id, held)
  {
    var meta := MetaIn(s.dir).value;
    TextTaken(scanner, s.now, s.dir, meta, scope.rangesKey, held);
    EntryTaken(scanner, s.now, s.dir, meta, scope, id, held);
    hide HeldTrue, Held, TextHeld, ValidID, IsText, MetaIn, RangesFrom, EntryFrom;
  }

  /** The next step leaves a kept signature readable from the files exactly
      when the file does not change and the step has the scope's settings
      where it writes the signature's entry or the ranges. */
  lemma ReadableUntilDisturbed(scanner: Scanner, s: State, s': State, step: Step, scope: Scope, id: string)
    requires Inv(scanner, s) && Progress(s) && Next(scanner, s, s', step) && ValidID(id) && id in scope.keys
    requires EntryKept(scanner, s, id, scope.keys[id]) && TextKept(scanner, s, scope.rangesKey)
    requires Sane(scanner, s.now, scope, id)
    ensures Readable(scanner, s', scope, id, None) <==> Respects(s, step, scope, id)
  {
    if Respects(s, step, scope, id) {
      EntryKeptStays(scanner, s, s', id, scope.keys[id], step);
      TextKeptStays(scanner, s, s', scope.rangesKey, step);
      NowStays(scanner, s, s', step);
      hide Inv, EntryKept, TextKept, Next, Progress, Respects, ValidID;
      KeptIsReadable(scanner, s', scope, id, None);
    } else if step.FileStep? {
      ChangeHides(scanner, s, s', step, scope, id);
    } else {
      OtherSettingsHide(scanner, s, s', step, scope, id);
    }
  }

  lemma ChangeHides(scanner: Scanner, s: State, s': State, step: Step, scope: Scope, id: string)
    requires Next(scanner, s, s', step) && step.FileStep?
    requires MetaIn(s.dir).Some? && MetaIn(s.dir).value.identity == s.now
    ensures !Readable(scanner, s', scope, id, None)
  {
    hide EntryFrom, RangesFrom, CurrentInMeta, MetaIn;
  }

  lemma OtherSettingsHide(scanner: Scanner, s: State, s': State, step: Step, scope: Scope, id: string)
    requires Progress(s) && Next(scanner, s, s', step) && !step.FileStep? && ValidID(id) && id in scope.keys
    requires !SameKey(s, step, id, scope.keys[id]) || !SameRanges(s, step, scope.rangesKey)
    ensures !Readable(scanner, s', scope, id, None)
  {
    if step.EntryStep? {
      var w := s.writer.value;
      EntryWrittenStays(scanner, s, s', id, w.job.scope.keys[id]);
      assert Held(scanner, s.now, s'.dir, id, w.job.scope.keys[id]);
      hide Next, Progress, MetaIn, EntryName, ValidID, SameKey, SameRanges, WritesNext;
      assert w.job.scope.keys[id] != scope.keys[id];
    } else {
      RangesWrittenHeld(scanner, s, s');
      hide Next, Progress, MetaIn, ReadEntry, CurrentInMeta, EntryName;
    }
  }

  /** What a process's read cache gives for the file's state is true. */
  lemma LookedTrue(scanner: Scanner, s: State, process: nat)
    requires Inv(scanner, s)
    ensures HeldTrue(scanner, s.now, Looked(s.records, process, s.now))
  {
    hide ReaderTrue, WriterTrue, Trusted, AnswerTrue, RecordTrue, JobReady;
  }

  /** What a writer scanned is kept once it committed. */
  lemma CommitIsKept(scanner: Scanner, run: seq<State>, steps: seq<Step>, scope: Scope, i: nat, id: string)
    requires IsRun(scanner, run, steps) && i < |steps|
    requires steps[i].MetaStep? && run[i].writer.Some? && run[i].writer.value.job.scope == scope
    requires id in run[i].writer.value.job.scanned && ValidID(id)
    ensures id in scope.keys
    ensures EntryKept(scanner, run[i + 1], id, scope.keys[id]) && TextKept(scanner, run[i + 1], scope.rangesKey)
  {
    assert Next(scanner, run[i], run[i + 1], steps[i]);
    RunKeepsProgress(scanner, run, steps, i);
    RunKeepsWriting(scanner, run, steps, i, id);
    CommitKeeps(scanner, run[i], run[i + 1], id);
    hide EntryKept, TextKept, Writing, Progress, IsRun, ValidID;
  }

  /** A writer that committed: while the file stays in that state and no
      writer of other settings writes over the entry or the ranges, what it
      scanned is readable with its settings, by any process, whatever else
      writers, readers and crashes do, and whatever happened before. */
  lemma CommitStaysReadable(scanner: Scanner, run: seq<State>, steps: seq<Step>, scope: Scope, i: nat, n: nat, id: string,
                            process: nat)
    requires IsRun(scanner, run, steps) && i < n < |run|
    requires steps[i].MetaStep? && run[i].writer.Some? && run[i].writer.value.job.scope == scope
    requires id in run[i].writer.value.job.scanned && ValidID(id)
    requires Undisturbed(run, steps, i, n, scope, id) && (id in scope.keys ==> Sane(scanner, run[n].now, scope, id))
    ensures Readable(scanner, run[n], scope, id, Looked(run[n].records, process, run[n].now))
  {
    CommitIsKept(scanner, run, steps, scope, i, id);
    hide *;
    RestUndisturbed(run, steps, i, n, scope, id);
    KeptUntil(scanner, run, steps, i + 1, n, scope, id);
    RunKeepsInv(scanner, run, steps, n);
    LookedTrue(scanner, run[n], process);
    KeptIsReadable(scanner, run[n], scope, id, Looked(run[n].records, process, run[n].now));
  }

  lemma RestUndisturbed(run: seq<State>, steps: seq<Step>, i: nat, n: nat, scope: Scope, id: string)
    requires |run| == |steps| + 1 && Undisturbed(run, steps, i, n, scope, id)
    ensures Undisturbed(run, steps, i + 1, n, scope, id)
  {
    hide Respects;
  }

  /** Two writers of one state with the same settings, for different
      signatures or the same: once both committed, in any order and with
      anything before, between and after them short of a change of the file
      and of writes over them under other settings, what each of them scanned
      is readable by any process. */
  lemma BothStayReadable(scanner: Scanner, run: seq<State>, steps: seq<Step>, scope: Scope, i: nat, j: nat, n: nat,
                         a: string, b: string, process: nat)
    requires IsRun(scanner, run, steps) && i < j < n < |run|
    requires steps[i].MetaStep? && run[i].writer.Some? && run[i].writer.value.job.scope == scope
    requires steps[j].MetaStep? && run[j].writer.Some? && run[j].writer.value.job.scope == scope
    requires a in run[i].writer.value.job.scanned && ValidID(a) && b in run[j].writer.value.job.scanned && ValidID(b)
    requires Undisturbed(run, steps, i, n, scope, a) && Undisturbed(run, steps, i, n, scope, b)
    requires forall id :: id in scope.keys ==> Sane(scanner, run[n].now, scope, id)
    ensures var held := Looked(run[n].records, process, run[n].now);
            Readable(scanner, run[n], scope, a, held) && Readable(scanner, run[n], scope, b, held)
  {
    assert Undisturbed(run, steps, j, n, scope, b) by {
      hide Respects;
    }
    hide *;
    CommitStaysReadable(scanner, run, steps, scope, i, n, a, process);
    CommitStaysReadable(scanner, run, steps, scope, j, n, b, process);
  }
}
