/** A read in its steps, with writers at work between them, answers what is
    kept. */
module FindingsReads {
  import opened Common
  import opened FindingsStore
  import opened FindingsRecords
  import opened FindingsCommit
  import opened FindingsSafety
  import opened FindingsKept

  /** The meta.json the reader began with names id and the ranges as the scan
      gives them; the reader was not stopped, and has id once it is past it. */
  ghost predicate Finds(scanner: Scanner, now: Identity, r: Reader, scope: Scope, sel: seq<string>, id: string)
    requires id in scope.keys
  {
    && r.scope == scope && r.sel == sel && r.meta.identity == now && r.next <= |sel|
    && Names(scanner, now, r.meta, id, scope.keys[id]) && NamesText(scanner, now, r.meta, scope.rangesKey)
    && !r.stage.Stopped? && (r.stage.Reading? ==> r.stage.text == scanner.text(now, scope.rangesKey))
    && (id in sel[..r.next] ==> id in r.entries && r.entries[id] == scanner.result(now, scope.keys[id]))
  }

  ghost predicate FindsIn(scanner: Scanner, s: State, r: nat, scope: Scope, sel: seq<string>, id: string)
    requires id in scope.keys
  {
    r in s.readers && Finds(scanner, s.now, s.readers[r], scope, sel, id)
  }

  /** An answer has what the scan of the file's state finds for id. */
  ghost predicate Found(scanner: Scanner, at: Identity, a: Answer, scope: Scope, id: string) {
    && a.at == at && a.scope == scope && id in scope.keys && id in a.entries
    && a.entries[id] == scanner.result(at, scope.keys[id]) && a.text == Some(scanner.text(at, scope.rangesKey))
  }

  /** A read that begins while id is kept. */
  lemma BeginsFinding(scanner: Scanner, s: State, s': State, r: nat, process: nat, scope: Scope, sel: seq<string>, id: string)
    requires id in scope.keys && ReadBegun(s, s', r, process, scope, sel)
    requires EntryKept(scanner, s, id, scope.keys[id]) && TextKept(scanner, s, scope.rangesKey)
    ensures FindsIn(scanner, s', r, scope, sel, id)
  {
    hide Held, TextHeld, MetaIn, Names, NamesText;
  }

  /** The reader's own steps, while id is kept. */
  lemma LookFinds(scanner: Scanner, s: State, s': State, r: nat, scope: Scope, sel: seq<string>, id: string)
    requires id in scope.keys && FindsIn(scanner, s, r, scope, sel, id) && RecordLooked(s, s', r)
    ensures FindsIn(scanner, s', r, scope, sel, id)
  {
    var meta := s.readers[r].meta;
    assert id in CurrentInMeta(meta, scope.keys, scope.rangesKey);
    hide CurrentInMeta, Looked;
  }

  lemma RangesFound(scanner: Scanner, s: State, s': State, r: nat, scope: Scope, sel: seq<string>, id: string)
    requires id in scope.keys && FindsIn(scanner, s, r, scope, sel, id) && RangesRead(s, s', r)
    requires TextHeld(scanner, s.now, s.dir, scope.rangesKey) && HeldTrue(scanner, s.now, s.readers[r].held)
    requires Sane(scanner, s.now, scope, id)
    ensures FindsIn(scanner, s', r, scope, sel, id)
  {
    TextTaken(scanner, s.now, s.dir, s.readers[r].meta, scope.rangesKey, s.readers[r].held);
    hide RangesFrom, FreshRanges, TextHeld, HeldTrue, Names, NamesText, IsText;
  }

  lemma EntryFound(scanner: Scanner, s: State, s': State, r: nat, scope: Scope, sel: seq<string>, id: string)
    requires id in scope.keys && FindsIn(scanner, s, r, scope, sel, id) && EntryRead(s, s', r) && ValidID(id)
    requires Held(scanner, s.now, s.dir, id, scope.keys[id]) && HeldTrue(scanner, s.now, s.readers[r].held)
    requires Sane(scanner, s.now, scope, id)
    ensures FindsIn(scanner, s', r, scope, sel, id)
  {
    var reader := s.readers[r];
    EntryTaken(scanner, s.now, s.dir, reader.meta, scope, id, reader.held);
    assert sel[..reader.next + 1] == sel[..reader.next] + [sel[reader.next]];
    hide EntryFrom, FreshEntry, WithEntry, Held, HeldTrue, Names, NamesText, Sane, ValidID;
  }

  /** Steps of others leave a reader as it is. */
  lemma OthersLeaveReader(scanner: Scanner, s: State, s': State, step: Step, r: nat)
    requires Next(scanner, s, s', step) && r in s.readers
    requires step != LookStep(r) && step != ReadRangesStep(r) && step != ReadEntryStep(r) && step != AnswerStep(r)
    ensures r in s'.readers && s'.readers[r] == s.readers[r]
  {
    hide MetaIn, CurrentInMeta, RangesFrom, EntryFrom, FreshRanges, FreshEntry, WithEntry, StoredInto, Looked, Equal, ValidID,
         EntryName, Renamed, IsUnnamed, IsTemp;
  }

  lemma HeldIsTrue(scanner: Scanner, s: State, r: nat)
    requires Inv(scanner, s) && r in s.readers && s.readers[r].meta.identity == s.now
    ensures HeldTrue(scanner, s.now, s.readers[r].held)
  {
    assert ReaderTrue(scanner, s.now, s.past, s.dir, s.readers[r]);
    hide Inv, HeldTrue;
  }

  lemma FindingStays(scanner: Scanner, s: State, s': State, step: Step, r: nat, scope: Scope, sel: seq<string>, id: string)
    requires Inv(scanner, s) && Next(scanner, s, s', step) && !step.FileStep? && step != AnswerStep(r)
    requires ValidID(id) && id in scope.keys && Sane(scanner, s.now, scope, id)
    requires EntryKept(scanner, s, id, scope.keys[id]) && TextKept(scanner, s, scope.rangesKey)
    requires FindsIn(scanner, s, r, scope, sel, id)
    ensures FindsIn(scanner, s', r, scope, sel, id)
  {
    hide Inv, HeldTrue, Sane, Held, TextHeld, Names, NamesText, MetaIn, ValidID, RecordLooked, RangesRead, EntryRead;
    HeldIsTrue(scanner, s, r);
    NowStays(scanner, s, s', step);
    if step == LookStep(r) {
      LookFinds(scanner, s, s', r, scope, sel, id);
    } else if step == ReadRangesStep(r) {
      RangesFound(scanner, s, s', r, scope, sel, id);
    } else if step == ReadEntryStep(r) {
      EntryFound(scanner, s, s', r, scope, sel, id);
    } else {
      OthersLeaveReader(scanner, s, s', step, r);
      hide Next;
    }
  }

  lemma AnswerFinds(scanner: Scanner, s: State, s': State, r: nat, scope: Scope, sel: seq<string>, id: string)
    requires id in scope.keys && FindsIn(scanner, s, r, scope, sel, id) && IdentityChecked(s, s', r) && id in sel
    ensures |s'.answers| == |s.answers| + 1 && Found(scanner, s.now, s'.answers[|s.answers|], scope, id)
  {
    assert sel[..|sel|] == sel;
    hide Names, NamesText;
  }

  // ---------------------------------------------------------------------
  // Every run.

  /** Reader r begins with step b and answers with step e. */
  predicate ReadFrom(steps: seq<Step>, b: nat, e: nat, r: nat, process: nat, scope: Scope, sel: seq<string>) {
    && b < e < |steps| && steps[b] == BeginReadStep(r, process, scope, sel) && steps[e] == AnswerStep(r)
    && forall k :: b < k < e ==> steps[k] != AnswerStep(r)
  }

  lemma Undisturbs(run: seq<State>, steps: seq<Step>, i: nat, n: nat, scope: Scope, id: string, j: nat, m: nat)
    requires |run| == |steps| + 1 && Undisturbed(run, steps, i, n, scope, id) && i <= j <= m <= n
    ensures Undisturbed(run, steps, j, m, scope, id)
    ensures forall k :: i <= k < n && k < |steps| ==> !steps[k].FileStep?
  {
    hide SameKey, SameRanges;
    assert forall k :: i <= k < n && k < |steps| ==> Respects(run[k], steps[k], scope, id);
  }

  lemma {:induction false} FindsUntil(scanner: Scanner, run: seq<State>, steps: seq<Step>, b: nat, n: nat, e: nat, r: nat,
                                      process: nat, scope: Scope, sel: seq<string>, id: string)
    requires IsRun(scanner, run, steps) && ReadFrom(steps, b, e, r, process, scope, sel) && b < n <= e
    requires ValidID(id) && id in scope.keys && Sane(scanner, run[b].now, scope, id)
    requires EntryKept(scanner, run[b], id, scope.keys[id]) && TextKept(scanner, run[b], scope.rangesKey)
    requires Undisturbed(run, steps, b, e, scope, id)
    ensures run[n].now == run[b].now && FindsIn(scanner, run[n], r, scope, sel, id)
    decreases n
  {
    hide Next, IsRun, Inv, Sane, EntryKept, TextKept, FindsIn, Undisturbed, ValidID;
    RunBegins(scanner, run, steps);
    StepAt(scanner, run, steps, n - 1);
    Undisturbs(run, steps, b, e, scope, id, b, n - 1);
    NowStays(scanner, run[n - 1], run[n], steps[n - 1]);
    if n == b + 1 {
      ReadStepIs(scanner, run[b], run[n], r, process, scope, sel);
      BeginsFinding(scanner, run[b], run[n], r, process, scope, sel, id);
    } else {
      FindsUntil(scanner, run, steps, b, n - 1, e, r, process, scope, sel, id);
      KeptUntil(scanner, run, steps, b, n - 1, scope, id);
      RunKeepsInv(scanner, run, steps, n - 1);
      FindingStays(scanner, run[n - 1], run[n], steps[n - 1], r, scope, sel, id);
    }
  }

  lemma ReadStepIs(scanner: Scanner, s: State, s': State, r: nat, process: nat, scope: Scope, sel: seq<string>)
    ensures Next(scanner, s, s', BeginReadStep(r, process, scope, sel)) ==> ReadBegun(s, s', r, process, scope, sel)
    ensures Next(scanner, s, s', AnswerStep(r)) ==> IdentityChecked(s, s', r)
  {
    hide ReadBegun, IdentityChecked;
  }

  /** A read that begins while id's entry and the ranges are kept, and that
      nothing disturbs, answers id and the text as the scan of the file's
      state gives them, whatever writers, other readers and crashes do between
      its steps. */
  lemma KeptIsAnswered(scanner: Scanner, run: seq<State>, steps: seq<Step>, b: nat, e: nat, r: nat, process: nat,
                       scope: Scope, sel: seq<string>, id: string)
    requires IsRun(scanner, run, steps) && ReadFrom(steps, b, e, r, process, scope, sel)
    requires id in sel && ValidID(id) && id in scope.keys && Sane(scanner, run[b].now, scope, id)
    requires EntryKept(scanner, run[b], id, scope.keys[id]) && TextKept(scanner, run[b], scope.rangesKey)
    requires Undisturbed(run, steps, b, e, scope, id)
    ensures |run[e + 1].answers| == |run[e].answers| + 1 && run[e].now == run[b].now
    ensures Found(scanner, run[e].now, run[e + 1].answers[|run[e].answers|], scope, id)
  {
    FindsUntil(scanner, run, steps, b, e, e, r, process, scope, sel, id);
    StepAt(scanner, run, steps, e);
    ReadStepIs(scanner, run[e], run[e + 1], r, process, scope, sel);
    hide Next, IsRun, Sane, EntryKept, TextKept, FindsIn, Found, Undisturbed, ValidID, IdentityChecked;
    AnswerFinds(scanner, run[e], run[e + 1], r, scope, sel, id);
  }

  /** A writer that committed: while the file stays in that state and no
      writer of other settings writes over the entry or the ranges, a read
      with its settings, in any process, that begins after the commit answers
      what the writer scanned. */
  lemma CommitIsAnswered(scanner: Scanner, run: seq<State>, steps: seq<Step>, scope: Scope, i: nat, id: string,
                         b: nat, e: nat, r: nat, process: nat, sel: seq<string>)
    requires IsRun(scanner, run, steps) && i < b && ReadFrom(steps, b, e, r, process, scope, sel)
    requires steps[i].MetaStep? && run[i].writer.Some? && run[i].writer.value.job.scope == scope
    requires id in run[i].writer.value.job.scanned && ValidID(id) && id in sel
    requires Undisturbed(run, steps, i, e, scope, id) && (id in scope.keys ==> Sane(scanner, run[e].now, scope, id))
    ensures |run[e + 1].answers| == |run[e].answers| + 1
    ensures Found(scanner, run[e].now, run[e + 1].answers[|run[e].answers|], scope, id)
  {
    CommitIsKept(scanner, run, steps, scope, i, id);
    hide *;
    Undisturbs(run, steps, i, e, scope, id, i + 1, b);
    Undisturbs(run, steps, i, e, scope, id, b, e);
    KeptUntil(scanner, run, steps, i + 1, b, scope, id);
    NowUntil(scanner, run, steps, b, e, scope, id);
    KeptIsAnswered(scanner, run, steps, b, e, r, process, scope, sel, id);
  }

  lemma {:induction false} NowUntil(scanner: Scanner, run: seq<State>, steps: seq<Step>, b: nat, e: nat, scope: Scope,
                                    id: string)
    requires IsRun(scanner, run, steps) && b <= e < |run| && Undisturbed(run, steps, b, e, scope, id)
    ensures run[e].now == run[b].now
    decreases e
  {
    hide Next, IsRun, Undisturbed;
    RunBegins(scanner, run, steps);
    if b < e {
      Undisturbs(run, steps, b, e, scope, id, b, e - 1);
      StepAt(scanner, run, steps, e - 1);
      NowUntil(scanner, run, steps, b, e - 1, scope, id);
      NowStays(scanner, run[e - 1], run[e], steps[e - 1]);
    }
  }

  /** Two writers of one state with the same settings, for different
      signatures or the same: a read of both that begins once both committed,
      in any order and with anything before and between that does not change
      the file or write over them under other settings, answers what each of
      them scanned. */
  lemma BothAreAnswered(scanner: Scanner, run: seq<State>, steps: seq<Step>, scope: Scope, i: nat, j: nat,
                        x: string, y: string, b: nat, e: nat, r: nat, process: nat, sel: seq<string>)
    requires IsRun(scanner, run, steps) && i < j < b && ReadFrom(steps, b, e, r, process, scope, sel)
    requires steps[i].MetaStep? && run[i].writer.Some? && run[i].writer.value.job.scope == scope
    requires steps[j].MetaStep? && run[j].writer.Some? && run[j].writer.value.job.scope == scope
    requires x in run[i].writer.value.job.scanned && ValidID(x) && x in sel
    requires y in run[j].writer.value.job.scanned && ValidID(y) && y in sel
    requires Undisturbed(run, steps, i, e, scope, x) && Undisturbed(run, steps, j, e, scope, y)
    requires forall id :: id in scope.keys ==> Sane(scanner, run[e].now, scope, id)
    ensures |run[e + 1].answers| == |run[e].answers| + 1
    ensures var a := run[e + 1].answers[|run[e].answers|];
            Found(scanner, run[e].now, a, scope, x) && Found(scanner, run[e].now, a, scope, y)
  {
    hide *;
    CommitIsAnswered(scanner, run, steps, scope, i, x, b, e, r, process, sel);
    CommitIsAnswered(scanner, run, steps, scope, j, y, b, e, r, process, sel);
  }
}
