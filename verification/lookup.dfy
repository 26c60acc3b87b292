/** The lookups over a line index: binary searches for the checkpoint a read
    starts from. */
module Lookup {
  import opened TimeSection

  ghost predicate Flips(p: nat -> bool, lo: nat, hi: nat) {
    forall i: nat, j: nat :: lo <= i <= j < hi && p(i) ==> p(j)
  }

  /** sort.Search: the first position in lo..hi where p holds, hi when there
      is none, by bisection. */
  function Search(p: nat -> bool, lo: nat, hi: nat): (r: nat)
    requires lo <= hi
    ensures lo <= r <= hi
    ensures Flips(p, lo, hi) ==> (forall i: nat :: lo <= i < r ==> !p(i)) && (forall i: nat :: r <= i < hi ==> p(i))
    decreases hi - lo
  {
    if lo == hi then lo
    else
      var h := (lo + hi) / 2;
      if !p(h) then Search(p, h + 1, hi) else Search(p, lo, h)
  }

  /** What a search gives when it finds no entry. */
  const FILE_HEAD := Checkpoint(0, 0)

  ghost predicate LinesAscend(index: seq<Checkpoint>) {
    forall i, j :: 0 <= i < j < |index| ==> index[i].line <= index[j].line
  }

  ghost predicate OffsetsAscend(index: seq<Checkpoint>) {
    forall i, j :: 0 <= i < j < |index| ==> index[i].offset < index[j].offset
  }

  /** The last entry of the index not past line target; FILE_HEAD without one. */
  function FindNearestCheckpoint(index: seq<Checkpoint>, target: int): Checkpoint {
    if |index| == 0 then FILE_HEAD
    else
      var i := Search((i: nat) => i < |index| && index[i].line > target, 0, |index|);
      if i == 0 then FILE_HEAD else index[i - 1]
  }

  /** The last entry of the index not past byte target; FILE_HEAD without one. */
  function FindNearestCheckpointForOffset(index: seq<Checkpoint>, target: int): Checkpoint {
    if |index| == 0 then FILE_HEAD
    else
      var i := Search((i: nat) => i < |index| && index[i].offset > target, 0, |index|);
      if i == 0 then FILE_HEAD else index[i - 1]
  }

  /** The checkpoint i is the last one up to the line. */
  ghost predicate IsNearest(index: seq<Checkpoint>, i: int, line: int) {
    && 0 <= i < |index| && index[i].line <= line
    && (forall j :: i < j < |index| ==> line < index[j].line)
  }

  /** The search by line finds the last checkpoint up to the target, and the
      zero entry exactly when there is none. */
  lemma NearestByLine(index: seq<Checkpoint>, target: int) returns (k: int)
    requires LinesAscend(index)
    ensures if |index| == 0 || target < index[0].line
            then FindNearestCheckpoint(index, target) == Checkpoint(0, 0)
            else IsNearest(index, k, target) && FindNearestCheckpoint(index, target) == index[k]
  {
    var p := (i: nat) => i < |index| && index[i].line > target;
    var i := Search(p, 0, |index|);
    k := i - 1;
    if |index| > 0 {
      assert p(0) <==> target < index[0].line;
      assert 0 < i ==> !p(i - 1);
      assert i < |index| ==> p(i);
    }
  }

  /** The search by offset finds the last checkpoint up to the target, and
      the zero entry exactly when there is none. */
  lemma NearestByOffset(index: seq<Checkpoint>, target: int) returns (k: int)
    requires OffsetsAscend(index)
    ensures if |index| == 0 || target < index[0].offset
            then FindNearestCheckpointForOffset(index, target) == Checkpoint(0, 0)
            else && 0 <= k < |index| && FindNearestCheckpointForOffset(index, target) == index[k]
                 && index[k].offset <= target && (k + 1 < |index| ==> target < index[k + 1].offset)
  {
    var p := (i: nat) => i < |index| && index[i].offset > target;
    var i := Search(p, 0, |index|);
    k := i - 1;
    if |index| > 0 {
      assert p(0) <==> target < index[0].offset;
      assert 0 < i ==> !p(i - 1);
      assert i < |index| ==> p(i);
    }
  }

  /** The entry for a pass that is to pass context lines before it meets byte
      offset: FILE_HEAD, or the nearest one to the line that many above the
      checkpoint before the byte. */
  function CheckpointForContext(index: seq<Checkpoint>, offset: int, context: int): Checkpoint {
    if |index| == 0 then FILE_HEAD
    else
      var holding := FindNearestCheckpointForOffset(index, offset);
      if holding.line == 0 then FILE_HEAD
      else FindNearestCheckpoint(index, holding.line - context)
  }

  // ---------------------------------------------------------------------
  // Over the index a walk of the text writes.

  /** index is a line index of lines with the given step: its checkpoints are
      starts of lines, at least step bytes apart, and every line starts less
      than step bytes after the last checkpoint up to it. */
  ghost predicate IsLineIndex(index: seq<Checkpoint>, lines: seq<Line>, step: int) {
    StartsLines(index, lines) && IsApart(index, step) && IsDense(index, lines, step)
  }

  ghost predicate StartsLines(index: seq<Checkpoint>, lines: seq<Line>) {
    && (index == [] <==> lines == [])
    && (index != [] ==> index[0] == Checkpoint(1, 0))
    && (forall i :: 0 <= i < |index| ==>
          1 <= index[i].line <= |lines| && index[i].offset == lines[index[i].line - 1].start)
  }

  ghost predicate IsApart(index: seq<Checkpoint>, step: int) {
    forall i, j :: 0 <= i < j < |index| ==>
      index[i].line < index[j].line && index[i].offset + step <= index[j].offset
  }

  ghost predicate IsDense(index: seq<Checkpoint>, lines: seq<Line>, step: int) {
    forall n, i :: 0 <= n < |lines| && IsNearest(index, i, n + 1) ==> lines[n].start < index[i].offset + step
  }

  lemma NearestIsUpTo(index: seq<Checkpoint>, k: int, line: int)
    requires IsNearest(index, k, line)
    ensures 0 <= k < |index| && index[k] in index && index[k].line <= line
  {
  }

  /** The checkpoint found for a line is the start of that line or of one
      before it, less than step bytes away. */
  lemma NearestIsClose(index: seq<Checkpoint>, lines: seq<Line>, step: int, number: int)
    requires IsText(lines) && IsLineIndex(index, lines, step) && step >= 1 && 1 <= number <= |lines|
    ensures var cp := FindNearestCheckpoint(index, number);
            && cp in index && cp.line <= number
            && cp.offset <= lines[number - 1].start < cp.offset + step
  {
    hide FindNearestCheckpoint, IsNearest;
    var k := NearestByLine(index, number);
    NearestIsUpTo(index, k, number);
    if index[k].line < number {
      StartsAscend(lines, index[k].line - 1, number - 1);
    }
  }

  /** The checkpoint at or before a byte starts the line that holds it, or
      one before it. */
  lemma CheckpointBeforeByte(index: seq<Checkpoint>, lines: seq<Line>, step: int, offset: nat, holding: int)
    requires IsText(lines) && IsLineIndex(index, lines, step) && step >= 1
    requires 1 <= holding <= |lines| && lines[holding - 1].start <= offset < lines[holding - 1].end
    ensures 1 <= FindNearestCheckpointForOffset(index, offset).line <= holding
  {
    hide FindNearestCheckpointForOffset, IsNearest;
    var k := NearestByOffset(index, offset);
    assert index[0].offset == 0;
    var line := index[k].line;
    assert 1 <= line <= |lines| && lines[line - 1].start == index[k].offset <= offset;
    if line > holding {
      StartsAscend(lines, holding - 1, line - 1);
    }
  }

  /** A pass for context lines before the line that holds a byte: it starts at
      the last checkpoint up to the line wanted, which is that many lines above
      the last checkpoint up to the byte; at the head of the file exactly when
      no checkpoint is up to it, the line wanted being none of the file. It has
      that many lines or more before the line that holds the byte. */
  lemma ContextIsReached(index: seq<Checkpoint>, lines: seq<Line>, step: int, offset: nat, holding: int, context: int)
    returns (h: int, k: int)
    requires IsText(lines) && IsLineIndex(index, lines, step) && step >= 1
    requires 1 <= holding <= |lines| && lines[holding - 1].start <= offset < lines[holding - 1].end
    ensures && 0 <= h < |index| && index[h].offset <= offset && (h + 1 < |index| ==> offset < index[h + 1].offset)
            && var cp, wanted := CheckpointForContext(index, offset, context), index[h].line - context;
            if wanted < 1 then cp == Checkpoint(0, 0)
            else
              && IsNearest(index, k, wanted) && cp == index[k]
              && cp.line + context <= holding && cp.offset == lines[cp.line - 1].start
  {
    hide FindNearestCheckpoint, FindNearestCheckpointForOffset, IsNearest;
    CheckpointBeforeByte(index, lines, step, offset, holding);
    h := NearestByOffset(index, offset);
    var line := FindNearestCheckpointForOffset(index, offset).line;
    k := NearestByLine(index, line - context);
    if line - context >= 1 {
      NearestIsUpTo(index, k, line - context);
    }
  }
}
