/** Putting a compressed file under its name: writers that race, fail and are
    killed between any two of their steps. */
module PublishedOutput {
  import opened Common

  const TEMP_PREFIX := ".rx-compress-"
  const TEMP_SUFFIX := ".tmp"

  /** A name a writer gives its temporary file. */
  predicate IsTemp(name: string) {
    && |TEMP_PREFIX| + |TEMP_SUFFIX| < |name|
    && name[..|TEMP_PREFIX|] == TEMP_PREFIX && name[|name| - |TEMP_SUFFIX|..] == TEMP_SUFFIX
  }

  /** What a directory entry leads to, by number: a file that was there
      before, a writer's output, whole or not yet, or the empty file a writer
      claims its name with. */
  datatype File = Before | Output(writer: nat, whole: bool) | Claim(writer: nat)

  // ---------------------------------------------------------------------
  // One writer's operations on a directory.

  datatype Failure = OutputExists | Broken

  /** Which operations work, beside a create that finds its name taken. */
  datatype Works = Works(creates: bool, stats: bool, renames: bool, lstats: bool, removes: bool)

  /** A claim is made, nothing is renamed over it, and it stays. */
  predicate LeavesClaim(works: Works) {
    works.creates && !works.renames && !(works.stats && works.lstats && works.removes)
  }

  /** A directory: its names, and the files they lead to. */
  class OutputDirectory {
    var entries: map<string, nat>
    /** How many files there have been. */
    var files: nat

    constructor (entries: map<string, nat>, files: nat)
      ensures this.entries == entries && this.files == files
    {
      this.entries, this.files := entries, files;
    }

    /** Creates an empty file under a random name nothing holds, in as many
        attempts as are given names. */
    method CreateTemp(names: seq<string>) returns (temp: Option<string>, file: nat)
      requires |names| <= 8 && forall i :: 0 <= i < |names| ==> IsTemp(names[i])
      modifies this
      ensures temp.None? <==> forall i :: 0 <= i < |names| ==> names[i] in old(entries)
      ensures temp.None? ==> entries == old(entries) && files == old(files)
      ensures temp.Some? ==>
                && temp.value !in old(entries) && IsTemp(temp.value) && file == old(files)
                && entries == old(entries)[temp.value := file] && files == old(files) + 1
    {
      for i := 0 to |names|
        invariant entries == old(entries) && files == old(files)
        invariant forall j :: 0 <= j < i ==> names[j] in entries
      {
        if names[i] !in entries {
          file := files;
          entries, files := entries[names[i] := file], files + 1;
          return Some(names[i]), file;
        }
      }
      return None, 0;
    }

    /** Puts the finished file under its name. A failure leaves the name as it
        was, but for a claim that could not be removed. */
    method PublishOutput(temp: string, name: string, overwrite: bool, links: bool, works: Works)
      returns (failure: Option<Failure>)
      requires temp in entries && temp != name
      modifies this
      ensures failure ==
              if overwrite then if works.renames then None else Some(Broken)
              else if name in old(entries) then Some(OutputExists)
              else if links || (works.creates && works.renames) then None else Some(Broken)
      ensures failure.None? ==> name in entries && entries[name] == old(entries)[temp]
      ensures failure.None? ==> (temp in entries <==> !overwrite && links) && (temp in entries ==> entries[temp] == old(entries)[temp])
      ensures failure.Some? ==>
                entries == if !overwrite && !links && name !in old(entries) && LeavesClaim(works)
                           then old(entries)[name := old(files)] else old(entries)
      ensures forall n :: n != name && n != temp ==> (n in entries <==> n in old(entries))
      ensures forall n :: n in entries && n != name ==> n in old(entries) && entries[n] == old(entries)[n]
    {
      if overwrite {
        if !works.renames {
          return Some(Broken);
        }
        var file := entries[temp];
        entries := (entries - {temp})[name := file];
        return None;
      }
      if links {
        if name in entries {
          return Some(OutputExists);
        }
        entries := entries[name := entries[temp]];
        return None;
      }
      failure := ClaimAndRename(temp, name, works);
    }

    /** The same without links: an empty file claims the name, and the
        finished one is renamed over it. When that fails the claim goes, if
        it can be told to be the name's file still, and can be removed. */
    method ClaimAndRename(temp: string, name: string, works: Works) returns (failure: Option<Failure>)
      requires temp in entries && temp != name
      modifies this
      ensures failure == if name in old(entries) then Some(OutputExists)
                         else if works.creates && works.renames then None else Some(Broken)
      ensures failure.None? ==> entries == (old(entries) - {temp})[name := old(entries)[temp]]
      ensures failure.Some? ==>
                entries == if name !in old(entries) && LeavesClaim(works) then old(entries)[name := old(files)] else old(entries)
    {
      if name in entries {
        return Some(OutputExists);
      }
      if !works.creates {
        return Some(Broken);
      }
      var claimed, file := files, entries[temp];
      entries, files := entries[name := claimed], files + 1;
      if !works.renames {
        if works.stats && works.lstats && name in entries && entries[name] == claimed && works.removes {
          entries := entries - {name};
        }
        return Some(Broken);
      }
      entries := (entries - {temp})[name := file];
      return None;
    }
  }

  // ---------------------------------------------------------------------
  // Many writers.

  /** Where a writer is. Writing and Whole: its temporary file is not, or is,
      finished; Claimed: an empty file of its holds the name; Leaving: it
      succeeded or failed, and its temporary name, if there is still one, is
      to be removed. */
  datatype Phase =
    | Starting
    | Writing(temp: string, file: nat)
    | Whole(temp: string, file: nat)
    | Claimed(temp: string, file: nat, claim: nat)
    | Leaving(temp: string, file: nat)
    | Over

  datatype Writer = Writer(target: string, overwrite: bool, phase: Phase, succeeded: bool)

  /** Whether names are claimed where there are no hard links. Then no writer
      overwrites. */
  datatype Mode = Links | Claims

  /** The directory, every file there has been, the writers, and the writer
      of each temporary name that was given: random names do not recur. */
  datatype System = System(dir: map<string, nat>, files: seq<File>, writers: seq<Writer>, owners: map<string, nat>)

  datatype Step =
    | Start(target: string, overwrite: bool)
    | CreateTemp(w: nat, temp: string)
    | FinishText(w: nat)
    | Fail(w: nat)
    | Rename(w: nat)
    | Link(w: nat)
    | MakeClaim(w: nat)
    | RenameClaim(w: nat)
    | DropClaim(w: nat)
    | KeepClaim(w: nat)
    | RemoveTemp(w: nat)
    | Kill(w: nat)

  function Moved(s: System, w: nat, phase: Phase): seq<Writer>
    requires w < |s.writers|
  {
    s.writers[w := s.writers[w].(phase := phase)]
  }

  function Succeeds(s: System, w: nat, phase: Phase): seq<Writer>
    requires w < |s.writers|
  {
    s.writers[w := s.writers[w].(phase := phase, succeeded := true)]
  }

  ghost predicate Next(mode: Mode, s: System, t: System, step: Step) {
    match step
    case Start(target, overwrite) =>
      && !IsTemp(target) && (mode == Claims ==> !overwrite)
      && t == s.(writers := s.writers + [Writer(target, overwrite, Starting, false)])
    case CreateTemp(w, temp) =>
      && w < |s.writers| && s.writers[w].phase == Starting && IsTemp(temp) && temp !in s.dir && temp !in s.owners
      && t == System(s.dir[temp := |s.files|], s.files + [Output(w, false)], Moved(s, w, Writing(temp, |s.files|)),
                     s.owners[temp := w])
    case FinishText(w) =>
      && w < |s.writers| && s.writers[w].phase.Writing? && s.writers[w].phase.file < |s.files|
      && var p := s.writers[w].phase;
      t == s.(files := s.files[p.file := Output(w, true)], writers := Moved(s, w, Whole(p.temp, p.file)))
    case Fail(w) =>
      // The text, a rename or a link fails, or the name is taken.
      && w < |s.writers| && (s.writers[w].phase.Writing? || s.writers[w].phase.Whole?)
      && t == s.(writers := Moved(s, w, Leaving(s.writers[w].phase.temp, s.writers[w].phase.file)))
    case Rename(w) =>
      && w < |s.writers| && s.writers[w].phase.Whole? && s.writers[w].overwrite
      && var p, name := s.writers[w].phase, s.writers[w].target;
      p.temp in s.dir && t == s.(dir := (s.dir - {p.temp})[name := s.dir[p.temp]],
                                 writers := Succeeds(s, w, Leaving(p.temp, p.file)))
    case Link(w) =>
      && w < |s.writers| && s.writers[w].phase.Whole? && !s.writers[w].overwrite
      && var p, name := s.writers[w].phase, s.writers[w].target;
      && name !in s.dir && p.temp in s.dir
      && t == s.(dir := s.dir[name := s.dir[p.temp]], writers := Succeeds(s, w, Leaving(p.temp, p.file)))
    case MakeClaim(w) =>
      && mode == Claims && w < |s.writers| && s.writers[w].phase.Whole? && !s.writers[w].overwrite
      && var p, name := s.writers[w].phase, s.writers[w].target;
      && name !in s.dir
      && t == s.(dir := s.dir[name := |s.files|], files := s.files + [Claim(w)],
                 writers := Moved(s, w, Claimed(p.temp, p.file, |s.files|)))
    case RenameClaim(w) =>
      && w < |s.writers| && s.writers[w].phase.Claimed?
      && var p, name := s.writers[w].phase, s.writers[w].target;
      p.temp in s.dir && t == s.(dir := (s.dir - {p.temp})[name := s.dir[p.temp]],
                                 writers := Succeeds(s, w, Leaving(p.temp, p.file)))
    case DropClaim(w) =>
      // The rename failed: the claim is removed while the name is still it.
      && w < |s.writers| && s.writers[w].phase.Claimed?
      && var p, name := s.writers[w].phase, s.writers[w].target;
      t == s.(dir := if name in s.dir && s.dir[name] == p.claim then s.dir - {name} else s.dir,
              writers := Moved(s, w, Leaving(p.temp, p.file)))
    case KeepClaim(w) =>
      // The rename failed, and the claim is not removed.
      && w < |s.writers| && s.writers[w].phase.Claimed?
      && t == s.(writers := Moved(s, w, Leaving(s.writers[w].phase.temp, s.writers[w].phase.file)))
    case RemoveTemp(w) =>
      // The name is there after a link or a failure, and gone after a rename.
      && w < |s.writers| && s.writers[w].phase.Leaving?
      && t == s.(dir := s.dir - {s.writers[w].phase.temp}, writers := Moved(s, w, Over))
    case Kill(w) =>
      && w < |s.writers| && t == s.(writers := Moved(s, w, Over))
  }

  // ---------------------------------------------------------------------
  // What every step keeps.

  /** The writer's temporary name leads to its own file. */
  ghost predicate OwnsTemp(s: System, w: nat, temp: string, file: nat, whole: bool) {
    && IsTemp(temp) && temp in s.dir && s.dir[temp] == file < |s.files| && s.files[file].Output? && s.files[file].writer == w
    && (whole ==> s.files[file].whole)
  }

  /** The writer's claim holds its name. */
  ghost predicate OwnsClaim(s: System, w: nat, name: string, claim: nat) {
    name in s.dir && s.dir[name] == claim < |s.files| && s.files[claim] == Claim(w)
  }

  /** The writer has a temporary file, and its name. */
  predicate HasTemp(p: Phase) {
    p.Writing? || p.Whole? || p.Claimed?
  }

  /** The writer has given a temporary name that it has not let go. */
  predicate GaveTemp(p: Phase) {
    HasTemp(p) || p.Leaving?
  }

  /** The writer's files are where it left them. */
  ghost predicate Holds(mode: Mode, s: System, w: nat)
    requires w < |s.writers|
  {
    var me := s.writers[w];
    && !IsTemp(me.target) && (mode == Claims ==> !me.overwrite)
    && (GaveTemp(me.phase) ==> IsTemp(me.phase.temp) && me.phase.temp in s.owners && s.owners[me.phase.temp] == w)
    && (HasTemp(me.phase) ==> OwnsTemp(s, w, me.phase.temp, me.phase.file, me.phase.Whole? || me.phase.Claimed?))
    && (me.phase.Claimed? ==> mode == Claims && OwnsClaim(s, w, me.target, me.phase.claim))
    && (me.succeeded ==> me.phase.Leaving? || me.phase.Over?)
  }

  /** The name leads to the whole output of a writer of it that succeeded. */
  ghost predicate IsPublished(s: System, name: string) {
    && name in s.dir && s.dir[name] < |s.files| && s.files[s.dir[name]].Output? && s.files[s.dir[name]].whole
    && var w := s.files[s.dir[name]].writer;
    w < |s.writers| && s.writers[w].succeeded && s.writers[w].target == name
  }

  ghost predicate IsClaimed(s: System, name: string) {
    && name in s.dir && s.dir[name] < |s.files| && s.files[s.dir[name]].Claim?
  }

  /** The name leads where it led before, or nowhere as before. */
  ghost predicate IsAsBefore(s: System, before: map<string, nat>, name: string) {
    (name in s.dir <==> name in before) && (name in before ==> s.dir[name] == before[name])
  }

  ghost predicate NameIsSound(mode: Mode, s: System, before: map<string, nat>, name: string) {
    || IsAsBefore(s, before, name)
    || IsPublished(s, name)
    || (mode == Claims && name !in before && IsClaimed(s, name))
  }

  ghost predicate AllHold(mode: Mode, s: System) {
    forall w :: 0 <= w < |s.writers| ==> Holds(mode, s, w)
  }

  /** Names lead to files there are, and those from before are what they were. */
  ghost predicate FilesKnown(s: System, before: map<string, nat>) {
    && (forall n :: n in s.dir ==> s.dir[n] < |s.files|)
    && (forall n :: n in before ==> before[n] < |s.files| && s.files[before[n]] == Before)
  }

  ghost predicate NamesSound(mode: Mode, s: System, before: map<string, nat>) {
    forall name :: !IsTemp(name) ==> NameIsSound(mode, s, before, name)
  }

  /** What a writer that succeeded published is there; one that did not
      overwrite took a name nothing held. */
  ghost predicate WinnerSound(s: System, before: map<string, nat>, w: nat)
    requires w < |s.writers|
  {
    s.writers[w].succeeded ==>
      IsPublished(s, s.writers[w].target) && (!s.writers[w].overwrite ==> s.writers[w].target !in before)
  }

  ghost predicate WinnersSound(s: System, before: map<string, nat>) {
    && (forall w :: 0 <= w < |s.writers| ==> WinnerSound(s, before, w))
    && (forall v, w :: 0 <= v < w < |s.writers| && AlikeWinners(s.writers[v], s.writers[w]) ==> false)
  }

  ghost predicate Inv(mode: Mode, s: System, before: map<string, nat>) {
    AllHold(mode, s) && FilesKnown(s, before) && NamesSound(mode, s, before) && WinnersSound(s, before)
  }

  /** Two writers that did not overwrite and both published one name. */
  predicate AlikeWinners(v: Writer, w: Writer) {
    v.succeeded && w.succeeded && !v.overwrite && !w.overwrite && v.target == w.target
  }

  predicate Init(s: System, before: map<string, nat>) {
    && s.dir == before && s.writers == [] && s.owners == map[]
    && (forall n :: n in before ==> before[n] < |s.files| && s.files[before[n]] == Before)
  }

  lemma InitKeeps(mode: Mode, s: System, before: map<string, nat>)
    requires Init(s, before)
    ensures Inv(mode, s, before)
  {
    hide IsTemp, IsPublished, IsClaimed;
  }

  /** Files stay what they are, an output perhaps now whole. */
  ghost predicate FilesGrow(files: seq<File>, files': seq<File>) {
    && |files| <= |files'|
    && forall i :: 0 <= i < |files| ==> files'[i] == files[i] || (files[i].Output? && files'[i] == Output(files[i].writer, true))
  }

  /** A step moves one writer, files only grow, and names given stay given. */
  ghost predicate MovesOne(s: System, t: System, w: nat) {
    && w < |s.writers| == |t.writers| && FilesGrow(s.files, t.files)
    && t.writers == s.writers[w := t.writers[w]]
    && t.writers[w].target == s.writers[w].target && t.writers[w].overwrite == s.writers[w].overwrite
    && (s.writers[w].succeeded ==> t.writers[w].succeeded)
    && (forall n :: n in t.dir ==> t.dir[n] < |t.files|)
    && (forall n :: n in s.owners ==> n in t.owners && t.owners[n] == s.owners[n])
  }

  lemma MovedParts(s: System, t: System, w: nat)
    requires MovesOne(s, t, w)
    ensures w < |s.writers| == |t.writers|
    ensures forall v :: 0 <= v < |s.writers| && v != w ==> t.writers[v] == s.writers[v]
    ensures forall v :: 0 <= v < |s.writers| ==>
              t.writers[v].target == s.writers[v].target && t.writers[v].overwrite == s.writers[v].overwrite
    ensures s.writers[w].succeeded ==> t.writers[w].succeeded
  {
    hide FilesGrow;
  }

  /** The directory is as it was, but for two names. */
  ghost predicate OnlyNames(s: System, t: System, a: string, b: string) {
    forall n :: n != a && n != b ==> (n in t.dir <==> n in s.dir) && (n in s.dir ==> t.dir[n] == s.dir[n])
  }

  /** Another writer's files are where they were, when its names are none of
      those that may have changed. */
  lemma OthersHold(mode: Mode, s: System, t: System, w: nat, v: nat, a: string, b: string)
    requires MovesOne(s, t, w) && OnlyNames(s, t, a, b) && v < |s.writers| && v != w && v < |t.writers|
    requires Holds(mode, s, v)
    requires HasTemp(s.writers[v].phase) ==> s.writers[v].phase.temp != a && s.writers[v].phase.temp != b
    requires s.writers[v].phase.Claimed? ==> s.writers[v].target != a && s.writers[v].target != b
    ensures Holds(mode, t, v)
  {
    hide IsTemp;
  }

  /** What another name leads to is as sound as before. */
  lemma OtherNameSound(mode: Mode, s: System, t: System, before: map<string, nat>, w: nat, a: string, b: string, other: string)
    requires MovesOne(s, t, w) && OnlyNames(s, t, a, b) && other != a && other != b
    ensures NameIsSound(mode, s, before, other) ==> NameIsSound(mode, t, before, other)
    ensures IsPublished(s, other) ==> IsPublished(t, other)
  {
  }

  lemma FilesStayKnown(s: System, t: System, before: map<string, nat>, w: nat)
    requires FilesKnown(s, before) && MovesOne(s, t, w)
    ensures FilesKnown(t, before)
  {
  }

  /** Winners are as sound as the names they published. */
  lemma WinnersStay(s: System, t: System, before: map<string, nat>, w: nat)
    requires WinnersSound(s, before) && MovesOne(s, t, w) && t.writers[w].succeeded == s.writers[w].succeeded
    requires forall v :: 0 <= v < |s.writers| && IsPublished(s, s.writers[v].target) ==> IsPublished(t, s.writers[v].target)
    ensures WinnersSound(t, before)
  {
    hide IsPublished, FilesGrow;
    forall v | 0 <= v < |t.writers|
      ensures WinnerSound(t, before, v)
    {
      assert WinnerSound(s, before, v);
    }
  }

  lemma InvParts(mode: Mode, s: System, before: map<string, nat>)
    requires Inv(mode, s, before)
    ensures AllHold(mode, s) && FilesKnown(s, before) && NamesSound(mode, s, before) && WinnersSound(s, before)
  {
    hide AllHold, FilesKnown, NamesSound, WinnersSound;
  }

  lemma InvFrom(mode: Mode, s: System, t: System, before: map<string, nat>)
    requires |s.writers| == |t.writers| && FilesKnown(t, before) && WinnersSound(t, before)
    requires forall v :: 0 <= v < |s.writers| ==> Holds(mode, t, v)
    requires forall name :: !IsTemp(name) ==> NameIsSound(mode, t, before, name)
    ensures Inv(mode, t, before)
  {
    hide Holds, NameIsSound, IsTemp, FilesKnown, WinnersSound;
  }

  /** What a writer's files say of its names. */
  lemma HoldAt(mode: Mode, s: System, w: nat)
    requires AllHold(mode, s) && w < |s.writers|
    ensures Holds(mode, s, w) && !IsTemp(s.writers[w].target)
    ensures HasTemp(s.writers[w].phase) ==>
              && IsTemp(s.writers[w].phase.temp)
              && s.writers[w].phase.temp in s.owners && s.owners[s.writers[w].phase.temp] == w
  {
    hide IsTemp;
    assert Holds(mode, s, w);
  }

  lemma SoundAt(mode: Mode, s: System, before: map<string, nat>, name: string)
    requires NamesSound(mode, s, before) && !IsTemp(name)
    ensures NameIsSound(mode, s, before, name)
  {
    hide NameIsSound, IsTemp;
  }

  /** A step of writer w that changes no name but a temporary one of its own,
      new or given before. */
  lemma TempStepKeeps(mode: Mode, s: System, t: System, before: map<string, nat>, w: nat, temp: string)
    requires Inv(mode, s, before) && MovesOne(s, t, w) && OnlyNames(s, t, temp, temp)
    requires IsTemp(temp) && (temp in s.owners ==> s.owners[temp] == w) && Holds(mode, t, w)
    requires t.writers[w].succeeded == s.writers[w].succeeded
    ensures Inv(mode, t, before)
  {
    hide *;
    InvParts(mode, s, before);
    MovedParts(s, t, w);
    forall v | 0 <= v < |s.writers|
      ensures Holds(mode, t, v)
    {
      if v != w {
        HoldAt(mode, s, v);
        OthersHold(mode, s, t, w, v, temp, temp);
      }
    }
    forall name | !IsTemp(name)
      ensures NameIsSound(mode, t, before, name)
    {
      SoundAt(mode, s, before, name);
      OtherNameSound(mode, s, t, before, w, temp, temp, name);
    }
    forall v | 0 <= v < |s.writers| && IsPublished(s, s.writers[v].target)
      ensures IsPublished(t, s.writers[v].target)
    {
      HoldAt(mode, s, v);
      OtherNameSound(mode, s, t, before, w, temp, temp, s.writers[v].target);
    }
    FilesStayKnown(s, t, before, w);
    WinnersStay(s, t, before, w);
    InvFrom(mode, s, t, before);
  }

  lemma StartKeeps(mode: Mode, s: System, t: System, before: map<string, nat>, target: string, overwrite: bool)
    requires Inv(mode, s, before) && Next(mode, s, t, Start(target, overwrite))
    ensures Inv(mode, t, before)
  {
    hide IsTemp;
    forall w | 0 <= w < |t.writers|
      ensures Holds(mode, t, w)
    {
      assert w < |s.writers| ==> Holds(mode, s, w);
    }
    forall name | !IsTemp(name)
      ensures NameIsSound(mode, t, before, name)
    {
      assert NameIsSound(mode, s, before, name);
    }
    forall w | 0 <= w < |t.writers|
      ensures WinnerSound(t, before, w)
    {
      assert w < |s.writers| ==> WinnerSound(s, before, w);
    }
    hide Holds, NameIsSound, WinnerSound;
  }

  /** The temporary name a quiet step may change. */
  ghost function TempOf(s: System, step: Step): string
    requires step.CreateTemp? || (!step.Start? && step.w < |s.writers| && GaveTemp(s.writers[step.w].phase))
  {
    if step.CreateTemp? then step.temp else s.writers[step.w].phase.temp
  }

  /** Steps of a writer that leave every target name as it is. */
  lemma QuietStepMoves(mode: Mode, s: System, t: System, before: map<string, nat>, step: Step)
    requires Inv(mode, s, before) && Next(mode, s, t, step)
    requires step.CreateTemp? || step.FinishText? || step.Fail? || step.KeepClaim? || step.RemoveTemp?
    ensures step.w < |s.writers| && (step.CreateTemp? || GaveTemp(s.writers[step.w].phase))
    ensures MovesOne(s, t, step.w) && OnlyNames(s, t, TempOf(s, step), TempOf(s, step)) && Holds(mode, t, step.w)
    ensures t.writers[step.w].succeeded == s.writers[step.w].succeeded && IsTemp(TempOf(s, step))
    ensures TempOf(s, step) in s.owners ==> s.owners[TempOf(s, step)] == step.w
  {
    assert step.w < |s.writers|;
    assert Holds(mode, s, step.w);
    hide IsTemp, NamesSound, WinnersSound;
  }

  /** A writer that is killed leaves everything where it is. */
  lemma KillKeeps(mode: Mode, s: System, t: System, before: map<string, nat>, w: nat)
    requires Inv(mode, s, before) && Next(mode, s, t, Kill(w))
    ensures Inv(mode, t, before)
  {
    hide IsTemp;
    assert MovesOne(s, t, w);
    forall v | 0 <= v < |t.writers|
      ensures Holds(mode, t, v)
    {
      assert Holds(mode, s, v);
    }
    forall name | !IsTemp(name)
      ensures NameIsSound(mode, t, before, name)
    {
      assert NameIsSound(mode, s, before, name);
    }
    forall v | 0 <= v < |s.writers| && IsPublished(s, s.writers[v].target)
      ensures IsPublished(t, s.writers[v].target)
    {
    }
    hide *;
    InvParts(mode, s, before);
    MovedParts(s, t, w);
    FilesStayKnown(s, t, before, w);
    WinnersStay(s, t, before, w);
    InvFrom(mode, s, t, before);
  }

  lemma QuietStepKeeps(mode: Mode, s: System, t: System, before: map<string, nat>, step: Step)
    requires Inv(mode, s, before) && Next(mode, s, t, step)
    requires step.CreateTemp? || step.FinishText? || step.Fail? || step.KeepClaim? || step.RemoveTemp? || step.Kill?
    ensures Inv(mode, t, before)
  {
    hide *;
    if step.Kill? {
      KillKeeps(mode, s, t, before, step.w);
    } else {
      QuietStepMoves(mode, s, t, before, step);
      TempStepKeeps(mode, s, t, before, step.w, TempOf(s, step));
    }
  }

  // ---------------------------------------------------------------------
  // Taking the name.

  /** The writer's name is free for it, is its claim, or may be replaced. */
  ghost predicate MayTake(s: System, w: nat, name: string)
    requires w < |s.writers|
  {
    s.writers[w].overwrite || name !in s.dir || (s.dir[name] < |s.files| && s.files[s.dir[name]] == Claim(w))
  }

  /** A writer puts its whole file under its name, by a rename or a link. */
  ghost predicate Publishes(s: System, t: System, w: nat)
    requires w < |s.writers|
  {
    var me := s.writers[w];
    && MovesOne(s, t, w) && (me.phase.Whole? || me.phase.Claimed?) && OnlyNames(s, t, me.target, me.phase.temp)
    && t.writers[w].succeeded && t.writers[w].phase == Leaving(me.phase.temp, me.phase.file)
    && me.target in t.dir && t.dir[me.target] == me.phase.file
  }

  lemma PublishMoves(mode: Mode, s: System, t: System, before: map<string, nat>, step: Step)
    requires Inv(mode, s, before) && Next(mode, s, t, step) && (step.Rename? || step.Link? || step.RenameClaim?)
    ensures step.w < |s.writers| && Publishes(s, t, step.w) && MayTake(s, step.w, s.writers[step.w].target)
  {
    assert step.w < |s.writers|;
    assert Holds(mode, s, step.w);
    hide IsTemp, NamesSound, WinnersSound;
  }

  lemma NameIsPublished(mode: Mode, s: System, t: System, before: map<string, nat>, w: nat)
    requires w < |s.writers| && Holds(mode, s, w) && Publishes(s, t, w)
    ensures IsPublished(t, s.writers[w].target)
  {
    hide IsTemp;
  }

  /** A claim that another writer holds is not on a name this one may take. */
  lemma ClaimsApart(mode: Mode, s: System, w: nat, v: nat)
    requires AllHold(mode, s) && w < |s.writers| && v < |s.writers| && v != w && s.writers[v].phase.Claimed?
    requires MayTake(s, w, s.writers[w].target)
    ensures s.writers[v].target != s.writers[w].target
  {
    assert Holds(mode, s, v) && Holds(mode, s, w);
    hide IsTemp;
  }

  /** The writer that published is leaving. */
  lemma PublisherHolds(mode: Mode, s: System, t: System, w: nat)
    requires w < |s.writers| && Holds(mode, s, w) && Publishes(s, t, w)
    ensures w < |t.writers| && Holds(mode, t, w)
  {
    hide IsTemp;
  }

  lemma PublishedParts(s: System, t: System, w: nat)
    requires w < |s.writers| && Publishes(s, t, w)
    ensures MovesOne(s, t, w) && HasTemp(s.writers[w].phase)
    ensures OnlyNames(s, t, s.writers[w].target, s.writers[w].phase.temp)
  {
    hide MovesOne, OnlyNames;
  }

  /** Who takes a name without overwriting takes one no one had or took. */
  lemma NameWasFree(mode: Mode, s: System, before: map<string, nat>, w: nat)
    requires Inv(mode, s, before) && w < |s.writers| && !s.writers[w].overwrite && MayTake(s, w, s.writers[w].target)
    ensures s.writers[w].target !in before && !IsPublished(s, s.writers[w].target)
  {
    assert Holds(mode, s, w) && NameIsSound(mode, s, before, s.writers[w].target);
    hide IsTemp, Holds;
  }

  /** The new winner is the only one of its name that did not overwrite. */
  lemma WinnerJoins(s: System, t: System, before: map<string, nat>, w: nat)
    requires WinnersSound(s, before) && MovesOne(s, t, w) && IsPublished(t, s.writers[w].target)
    requires forall v :: 0 <= v < |s.writers| && IsPublished(s, s.writers[v].target) ==> IsPublished(t, s.writers[v].target)
    requires !s.writers[w].overwrite ==> s.writers[w].target !in before && !IsPublished(s, s.writers[w].target)
    ensures WinnersSound(t, before)
  {
    hide IsPublished, FilesGrow;
    forall v | 0 <= v < |t.writers|
      ensures WinnerSound(t, before, v)
    {
      assert WinnerSound(s, before, v);
    }
    forall v, u | 0 <= v < u < |t.writers|
      ensures !AlikeWinners(t.writers[v], t.writers[u])
    {
      assert WinnerSound(s, before, v) && WinnerSound(s, before, u);
    }
  }

  lemma PublishKeeps(mode: Mode, s: System, t: System, before: map<string, nat>, w: nat)
    requires Inv(mode, s, before) && w < |s.writers| && Publishes(s, t, w) && MayTake(s, w, s.writers[w].target)
    ensures Inv(mode, t, before)
  {
    hide *;
    var name, temp := s.writers[w].target, PublishedTemp(s, t, w);
    InvParts(mode, s, before);
    PublishedParts(s, t, w);
    MovedParts(s, t, w);
    HoldAt(mode, s, w);
    NameIsPublished(mode, s, t, before, w);
    forall v | 0 <= v < |s.writers|
      ensures Holds(mode, t, v)
    {
      if v == w {
        PublisherHolds(mode, s, t, w);
      } else {
        OtherStillHolds(mode, s, t, w, v, name, temp);
      }
    }
    forall n | !IsTemp(n)
      ensures NameIsSound(mode, t, before, n)
    {
      if n == name {
        PublishedIsSound(mode, t, before, n);
      } else {
        SoundAt(mode, s, before, n);
        OtherNameSound(mode, s, t, before, w, name, temp, n);
      }
    }
    forall v | 0 <= v < |s.writers| && IsPublished(s, s.writers[v].target)
      ensures IsPublished(t, s.writers[v].target)
    {
      HoldAt(mode, s, v);
      if s.writers[v].target != name {
        OtherNameSound(mode, s, t, before, w, name, temp, s.writers[v].target);
      }
    }
    if !s.writers[w].overwrite {
      NameWasFree(mode, s, before, w);
    }
    FilesStayKnown(s, t, before, w);
    WinnerJoins(s, t, before, w);
    InvFrom(mode, s, t, before);
  }

  /** The temporary name of a writer that publishes. */
  ghost function PublishedTemp(s: System, t: System, w: nat): (temp: string)
    requires w < |s.writers| && Publishes(s, t, w)
    ensures temp == s.writers[w].phase.temp
  {
    s.writers[w].phase.temp
  }

  lemma OtherStillHolds(mode: Mode, s: System, t: System, w: nat, v: nat, name: string, temp: string)
    requires AllHold(mode, s) && w < |s.writers| && v < |s.writers| && v != w && HasTemp(s.writers[w].phase)
    requires MovesOne(s, t, w) && OnlyNames(s, t, name, temp) && MayTake(s, w, name)
    requires name == s.writers[w].target && temp == s.writers[w].phase.temp
    ensures v < |t.writers| && Holds(mode, t, v)
  {
    hide *;
    MovedParts(s, t, w);
    HoldAt(mode, s, v);
    HoldAt(mode, s, w);
    ClaimHasTemp();
    if s.writers[v].phase.Claimed? {
      ClaimsApart(mode, s, w, v);
    }
    OthersHold(mode, s, t, w, v, name, temp);
  }

  lemma ClaimHasTemp()
    ensures forall p: Phase :: p.Claimed? ==> HasTemp(p)
  {
  }

  lemma PublishedIsSound(mode: Mode, t: System, before: map<string, nat>, name: string)
    requires IsPublished(t, name)
    ensures NameIsSound(mode, t, before, name)
  {
    hide IsPublished;
  }

  lemma PublishStepKeeps(mode: Mode, s: System, t: System, before: map<string, nat>, step: Step)
    requires Inv(mode, s, before) && Next(mode, s, t, step) && (step.Rename? || step.Link? || step.RenameClaim?)
    ensures Inv(mode, t, before)
  {
    hide *;
    PublishMoves(mode, s, t, before, step);
    PublishKeeps(mode, s, t, before, step.w);
  }

  /** A claim made or dropped changes its writer's name only, and where there
      was no file before. */
  lemma ClaimMoves(mode: Mode, s: System, t: System, before: map<string, nat>, step: Step)
    requires Inv(mode, s, before) && Next(mode, s, t, step) && (step.MakeClaim? || step.DropClaim?)
    ensures step.w < |s.writers| && MovesOne(s, t, step.w) && HasTemp(s.writers[step.w].phase)
    ensures var name := s.writers[step.w].target;
            OnlyNames(s, t, name, name) && MayTake(s, step.w, name) && !s.writers[step.w].overwrite
    ensures t.writers[step.w].succeeded == s.writers[step.w].succeeded && Holds(mode, t, step.w)
  {
    assert step.w < |s.writers|;
    assert Holds(mode, s, step.w);
    hide IsTemp, NamesSound, WinnersSound;
  }

  /** The name is as free after it as before, or claimed. */
  lemma ClaimIsSound(mode: Mode, s: System, t: System, before: map<string, nat>, step: Step)
    requires Inv(mode, s, before) && Next(mode, s, t, step) && (step.MakeClaim? || step.DropClaim?)
    requires step.w < |s.writers| && s.writers[step.w].target !in before
    ensures NameIsSound(mode, t, before, s.writers[step.w].target)
  {
    assert Holds(mode, s, step.w);
    hide IsTemp, NamesSound, WinnersSound;
  }

  lemma ClaimStepKeeps(mode: Mode, s: System, t: System, before: map<string, nat>, step: Step)
    requires Inv(mode, s, before) && Next(mode, s, t, step) && (step.MakeClaim? || step.DropClaim?)
    ensures Inv(mode, t, before)
  {
    hide *;
    ClaimMoves(mode, s, t, before, step);
    var w := step.w;
    var name := s.writers[w].target;
    NameWasFree(mode, s, before, w);
    ClaimIsSound(mode, s, t, before, step);
    InvParts(mode, s, before);
    MovedParts(s, t, w);
    forall v | 0 <= v < |s.writers|
      ensures Holds(mode, t, v)
    {
      if v != w {
        ClaimerLeaves(mode, s, t, w, v, name);
      }
    }
    forall n | !IsTemp(n)
      ensures NameIsSound(mode, t, before, n)
    {
      if n != name {
        SoundAt(mode, s, before, n);
        OtherNameSound(mode, s, t, before, w, name, name, n);
      }
    }
    forall v | 0 <= v < |s.writers| && IsPublished(s, s.writers[v].target)
      ensures IsPublished(t, s.writers[v].target)
    {
      OtherNameSound(mode, s, t, before, w, name, name, s.writers[v].target);
    }
    FilesStayKnown(s, t, before, w);
    WinnersStay(s, t, before, w);
    InvFrom(mode, s, t, before);
  }

  lemma ClaimerLeaves(mode: Mode, s: System, t: System, w: nat, v: nat, name: string)
    requires AllHold(mode, s) && w < |s.writers| && v < |s.writers| && v != w
    requires MovesOne(s, t, w) && OnlyNames(s, t, name, name) && MayTake(s, w, name) && name == s.writers[w].target
    ensures v < |t.writers| && Holds(mode, t, v)
  {
    hide *;
    MovedParts(s, t, w);
    HoldAt(mode, s, v);
    HoldAt(mode, s, w);
    if s.writers[v].phase.Claimed? {
      ClaimsApart(mode, s, w, v);
    }
    OthersHold(mode, s, t, w, v, name, name);
  }

  lemma StepKeeps(mode: Mode, s: System, t: System, before: map<string, nat>, step: Step)
    requires Inv(mode, s, before) && Next(mode, s, t, step)
    ensures Inv(mode, t, before)
  {
    hide Inv, Next;
    match step
    case Start(target, overwrite) => StartKeeps(mode, s, t, before, target, overwrite);
    case Rename(_) => PublishStepKeeps(mode, s, t, before, step);
    case Link(_) => PublishStepKeeps(mode, s, t, before, step);
    case RenameClaim(_) => PublishStepKeeps(mode, s, t, before, step);
    case MakeClaim(_) => ClaimStepKeeps(mode, s, t, before, step);
    case DropClaim(_) => ClaimStepKeeps(mode, s, t, before, step);
    case _ => QuietStepKeeps(mode, s, t, before, step);
  }

  // ---------------------------------------------------------------------
  // Every run.

  ghost predicate IsRun(mode: Mode, run: seq<System>, steps: seq<Step>, before: map<string, nat>) {
    && |run| == |steps| + 1 && Init(run[0], before)
    && forall i :: 0 <= i < |steps| ==> Next(mode, run[i], run[i + 1], steps[i])
  }

  lemma {:induction false} RunKeeps(mode: Mode, run: seq<System>, steps: seq<Step>, before: map<string, nat>, n: nat)
    requires IsRun(mode, run, steps, before) && n < |run|
    ensures Inv(mode, run[n], before)
  {
    hide Inv, Next;
    if n == 0 {
      InitKeeps(mode, run[0], before);
    } else {
      RunKeeps(mode, run, steps, before, n - 1);
      assert Next(mode, run[n - 1], run[n - 1 + 1], steps[n - 1]);
      StepKeeps(mode, run[n - 1], run[n], before, steps[n - 1]);
    }
  }

  /** In every run of writers, failures and kills, an output's name leads to
      what it led to before, or to the whole output of one writer of it; only
      where names are claimed may a name that was free lead to an empty
      claim instead. */
  lemma NamesAreWhole(mode: Mode, run: seq<System>, steps: seq<Step>, before: map<string, nat>, n: nat, name: string)
    requires IsRun(mode, run, steps, before) && n < |run| && !IsTemp(name)
    ensures NameIsSound(mode, run[n], before, name)
  {
    RunKeeps(mode, run, steps, before, n);
  }

  /** Of the writers that do not overwrite, at most one succeeds for a name,
      and none when something held it before. */
  lemma OneWinner(mode: Mode, run: seq<System>, steps: seq<Step>, before: map<string, nat>, n: nat, v: nat, w: nat)
    requires IsRun(mode, run, steps, before) && n < |run| && v < |run[n].writers| && w < |run[n].writers|
    requires run[n].writers[v].succeeded && !run[n].writers[v].overwrite
    requires run[n].writers[w].succeeded && !run[n].writers[w].overwrite
    ensures run[n].writers[v].target == run[n].writers[w].target ==> v == w
    ensures run[n].writers[v].target !in before
  {
    RunKeeps(mode, run, steps, before, n);
    var s := run[n];
    assert WinnerSound(s, before, v);
    if v < w {
      assert !AlikeWinners(s.writers[v], s.writers[w]);
    } else if w < v {
      assert !AlikeWinners(s.writers[w], s.writers[v]);
    }
    hide Holds, IsPublished, NameIsSound;
  }

  /** A step changes where a name leads only by publishing a whole output, and
      then its writer has succeeded; or by making or dropping a claim on a
      name that led nowhere before. */
  lemma OnlySuccessChanges(mode: Mode, s: System, t: System, before: map<string, nat>, step: Step, name: string)
    requires Inv(mode, s, before) && Next(mode, s, t, step) && !IsTemp(name)
    requires !(name in s.dir <==> name in t.dir) || (name in s.dir && name in t.dir && s.dir[name] != t.dir[name])
    ensures step.Rename? || step.Link? || step.RenameClaim? || step.MakeClaim? || step.DropClaim?
    ensures s.writers[step.w].target == name
    ensures step.MakeClaim? ==> name !in s.dir
    ensures step.DropClaim? ==> IsClaimed(s, name) && name !in t.dir && name !in before
    ensures step.Rename? || step.Link? || step.RenameClaim? ==> IsPublished(t, name) && t.writers[step.w].succeeded
  {
    if !step.Start? {
      assert step.w < |s.writers|;
      assert Holds(mode, s, step.w);
    }
    if step.DropClaim? {
      NameWasFree(mode, s, before, step.w);
    }
    if step.Rename? || step.Link? || step.RenameClaim? {
      PublishMoves(mode, s, t, before, step);
      NameIsPublished(mode, s, t, before, step.w);
    }
    hide AllHold, NamesSound, WinnersSound, IsTemp, IsPublished;
  }

  // ---------------------------------------------------------------------
  // What failures leave.

  /** The writer's claim is on the name. */
  predicate HasClaim(s: System, w: nat, name: string) {
    w < |s.writers| && s.writers[w].phase.Claimed? && s.writers[w].target == name
  }

  /** A claim holds the name whose writer is no longer at it. */
  ghost predicate IsStray(s: System, name: string) {
    IsClaimed(s, name) && !HasClaim(s, s.files[s.dir[name]].writer, name)
  }

  /** A writer is killed between its claim on the name and the rename, or
      fails to rename and to remove the claim. */
  predicate LeavesStray(s: System, step: Step, name: string) {
    (step.Kill? || step.KeepClaim?) && HasClaim(s, step.w, name)
  }

  /** Names are claimed in one mode only, and were free. */
  lemma ClaimedWasFree(mode: Mode, s: System, before: map<string, nat>, name: string)
    requires Inv(mode, s, before) && !IsTemp(name) && IsClaimed(s, name)
    ensures mode == Claims && name !in before && !IsAsBefore(s, before, name) && !IsPublished(s, name)
  {
    assert NameIsSound(mode, s, before, name);
    hide IsTemp, AllHold, WinnersSound;
  }

  lemma StrayStep(mode: Mode, s: System, t: System, before: map<string, nat>, step: Step, name: string)
    requires Inv(mode, s, before) && Next(mode, s, t, step) && !IsTemp(name)
    ensures IsStray(t, name) <==> IsStray(s, name) || LeavesStray(s, step, name)
  {
    if !step.Start? {
      assert step.w < |s.writers|;
      assert Holds(mode, s, step.w);
    }
    if IsClaimed(s, name) {
      ClaimedWasFree(mode, s, before, name);
    }
    hide AllHold, NamesSound, WinnersSound, IsTemp, IsPublished;
  }

  /** Some step before state n left a stray claim on the name. */
  predicate StrayLeft(run: seq<System>, steps: seq<Step>, n: nat, name: string) {
    exists k :: 0 <= k < n && k < |run| && k < |steps| && LeavesStray(run[k], steps[k], name)
  }

  /** A stray claim is there in every run exactly when one was left: no one
      removes it, and it is of no one who is still at it. */
  lemma {:induction false} StrayStays(mode: Mode, run: seq<System>, steps: seq<Step>, before: map<string, nat>, n: nat,
                                      name: string)
    requires IsRun(mode, run, steps, before) && n < |run| && !IsTemp(name)
    ensures IsStray(run[n], name) <==> StrayLeft(run, steps, n, name)
  {
    hide Next, Inv, IsStray, LeavesStray, IsTemp;
    if n == 0 {
      NoStrayAtFirst(run[0], before, name);
    } else {
      StrayStays(mode, run, steps, before, n - 1, name);
      RunKeeps(mode, run, steps, before, n - 1);
      assert Next(mode, run[n - 1], run[n - 1 + 1], steps[n - 1]);
      StrayStep(mode, run[n - 1], run[n], before, steps[n - 1], name);
    }
  }

  lemma NoStrayAtFirst(s: System, before: map<string, nat>, name: string)
    requires Init(s, before)
    ensures !IsStray(s, name)
  {
  }

  /** In every run, once every writer of a name failed, or was killed, the name
      leads where it led before, exactly when none of them was killed between
      its claim on the name and the rename, or could not remove the claim. */
  lemma FailuresLeaveName(mode: Mode, run: seq<System>, steps: seq<Step>, before: map<string, nat>, n: nat, name: string)
    requires IsRun(mode, run, steps, before) && n < |run| && !IsTemp(name)
    requires forall w :: 0 <= w < |run[n].writers| && run[n].writers[w].target == name ==>
               !run[n].writers[w].succeeded && !run[n].writers[w].phase.Claimed?
    ensures IsAsBefore(run[n], before, name) <==> !StrayLeft(run, steps, n, name)
  {
    RunKeeps(mode, run, steps, before, n);
    StrayStays(mode, run, steps, before, n, name);
    assert NameIsSound(mode, run[n], before, name) by {
      hide IsTemp, NameIsSound, AllHold, WinnersSound;
    }
    if IsClaimed(run[n], name) {
      ClaimedWasFree(mode, run[n], before, name);
    }
    hide Inv, IsRun, IsTemp, StrayLeft;
  }

  // ---------------------------------------------------------------------
  // What a writer can always do.

  /** The writer's file is under its name, and it succeeded. */
  ghost predicate Published(s: System, t: System, w: nat, file: nat) {
    && w < |s.writers| == |t.writers| && t.writers[w].succeeded
    && s.writers[w].target in t.dir && t.dir[s.writers[w].target] == file
  }

  /** In every state a writer can start and, under a fresh name, create its
      file and finish it; one whose file is finished can publish it: over
      whatever the name leads to when it overwrites, and when the name is free
      when it does not, by a link or, where names are claimed, by a claim and a
      rename. It can fail before that, and remove its temporary name after. */
  lemma WritersCanGoOn(mode: Mode, s: System, before: map<string, nat>, w: nat, temp: string, target: string, overwrite: bool)
    requires Inv(mode, s, before)
    ensures !IsTemp(target) && (mode == Claims ==> !overwrite) ==> exists t :: Next(mode, s, t, Start(target, overwrite))
    ensures w < |s.writers| ==>
              var p, free := s.writers[w].phase, s.writers[w].target !in s.dir;
              && (p == Starting && IsTemp(temp) && temp !in s.dir && temp !in s.owners ==> exists t :: Next(mode, s, t, CreateTemp(w, temp)))
              && (p.Writing? ==> exists t :: Next(mode, s, t, FinishText(w)))
              && (p.Writing? || p.Whole? ==> exists t :: Next(mode, s, t, Fail(w)))
              && (p.Whole? && s.writers[w].overwrite ==>
                    exists t :: Next(mode, s, t, Rename(w)) && Published(s, t, w, p.file))
              && (p.Whole? && !s.writers[w].overwrite && free ==>
                    exists t :: Next(mode, s, t, Link(w)) && Published(s, t, w, p.file))
              && (p.Whole? && mode == Claims && free ==> exists t :: Next(mode, s, t, MakeClaim(w)))
              && (p.Claimed? ==>
                    && (exists t :: Next(mode, s, t, RenameClaim(w)) && Published(s, t, w, p.file))
                    && (exists t :: Next(mode, s, t, DropClaim(w)) && s.writers[w].target !in t.dir)
                    && (exists t :: Next(mode, s, t, KeepClaim(w)) && t.dir == s.dir))
              && (p.Leaving? ==> exists t :: Next(mode, s, t, RemoveTemp(w)) && p.temp !in t.dir)
  {
    assert Next(mode, s, s.(writers := s.writers + [Writer(target, overwrite, Starting, false)]), Start(target, overwrite))
           <==> !IsTemp(target) && (mode == Claims ==> !overwrite);
    if w < |s.writers| {
      assert Holds(mode, s, w);
      WriterCanGoOn(mode, s, w, temp);
    }
    hide AllHold, NamesSound, WinnersSound, IsTemp, FilesKnown;
  }

  lemma WriterCanGoOn(mode: Mode, s: System, w: nat, temp: string)
    requires w < |s.writers| && Holds(mode, s, w)
    ensures var p, free := s.writers[w].phase, s.writers[w].target !in s.dir;
            && (p == Starting && IsTemp(temp) && temp !in s.dir && temp !in s.owners ==> exists t :: Next(mode, s, t, CreateTemp(w, temp)))
            && (p.Writing? ==> exists t :: Next(mode, s, t, FinishText(w)))
            && (p.Writing? || p.Whole? ==> exists t :: Next(mode, s, t, Fail(w)))
            && (p.Whole? && s.writers[w].overwrite ==>
                  exists t :: Next(mode, s, t, Rename(w)) && Published(s, t, w, p.file))
            && (p.Whole? && !s.writers[w].overwrite && free ==>
                  exists t :: Next(mode, s, t, Link(w)) && Published(s, t, w, p.file))
            && (p.Whole? && mode == Claims && free ==> exists t :: Next(mode, s, t, MakeClaim(w)))
            && (p.Claimed? ==>
                  && (exists t :: Next(mode, s, t, RenameClaim(w)) && Published(s, t, w, p.file))
                  && (exists t :: Next(mode, s, t, DropClaim(w)) && s.writers[w].target !in t.dir)
                  && (exists t :: Next(mode, s, t, KeepClaim(w)) && t.dir == s.dir))
            && (p.Leaving? ==> exists t :: Next(mode, s, t, RemoveTemp(w)) && p.temp !in t.dir)
  {
    var me := s.writers[w];
    var p, name := me.phase, me.target;
    match p
    case Starting =>
      var t := System(s.dir[temp := |s.files|], s.files + [Output(w, false)], Moved(s, w, Writing(temp, |s.files|)), s.owners[temp := w]);
      assert IsTemp(temp) && temp !in s.dir && temp !in s.owners ==> Next(mode, s, t, CreateTemp(w, temp));
    case Writing(_, file) =>
      assert Next(mode, s, s.(files := s.files[file := Output(w, true)], writers := Moved(s, w, Whole(p.temp, file))), FinishText(w));
      assert Next(mode, s, s.(writers := Moved(s, w, Leaving(p.temp, file))), Fail(w));
    case Whole(_, file) =>
      var published := Succeeds(s, w, Leaving(p.temp, file));
      var renamed := s.(dir := (s.dir - {p.temp})[name := s.dir[p.temp]], writers := published);
      var linked := s.(dir := s.dir[name := s.dir[p.temp]], writers := published);
      var claimed := s.(dir := s.dir[name := |s.files|], files := s.files + [Claim(w)],
                        writers := Moved(s, w, Claimed(p.temp, file, |s.files|)));
      assert Next(mode, s, s.(writers := Moved(s, w, Leaving(p.temp, file))), Fail(w));
      assert me.overwrite ==> Next(mode, s, renamed, Rename(w)) && Published(s, renamed, w, file);
      assert !me.overwrite && name !in s.dir ==> Next(mode, s, linked, Link(w)) && Published(s, linked, w, file);
      assert mode == Claims && name !in s.dir ==> Next(mode, s, claimed, MakeClaim(w));
    case Claimed(_, file, _) =>
      var renamed := s.(dir := (s.dir - {p.temp})[name := s.dir[p.temp]], writers := Succeeds(s, w, Leaving(p.temp, file)));
      var dropped := s.(dir := s.dir - {name}, writers := Moved(s, w, Leaving(p.temp, file)));
      var kept := s.(writers := Moved(s, w, Leaving(p.temp, file)));
      assert Next(mode, s, renamed, RenameClaim(w)) && Published(s, renamed, w, file);
      assert Next(mode, s, dropped, DropClaim(w)) && name !in dropped.dir;
      assert Next(mode, s, kept, KeepClaim(w)) && kept.dir == s.dir;
    case Leaving(_, _) =>
      var removed := s.(dir := s.dir - {p.temp}, writers := Moved(s, w, Over));
      assert Next(mode, s, removed, RemoveTemp(w)) && p.temp !in removed.dir;
    case Over =>
  }
}
