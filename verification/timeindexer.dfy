/** timeIndexer and frameMarks: the time section collected line by line while
    a walk reads the text. */
module TimeIndexing {
  import opened Common
  import opened TimeSection

  /** How often a seekable frame of many lines gets another checkpoint. */
  const CHECKPOINT_LINE_INTERVAL := 10000

  /** The running maximum before a line; known is false without one. */
  datatype Mark = Mark(line: int, max: int, known: bool)

  /** A frame of a seekable file: the text it holds. */
  datatype Frame = Frame(offset: nat, size: nat) {
    function End(): nat {
      offset + size
    }
  }

  // ---------------------------------------------------------------------
  // Values of the lines seen so far do not depend on the lines after them.

  lemma {:induction false} ValuesOfPrefix(lines: seq<Line>, line: Line, n: nat, hasZone: bool)
    requires n <= |lines|
    ensures var more := lines + [line];
            && Highest(more, n) == Highest(lines, n)
            && Count(more, n) == Count(lines, n)
            && FirstStamped(more, n) == FirstStamped(lines, n)
            && LastStamped(more, n) == LastStamped(lines, n)
            && Backward(more, n) == Backward(lines, n)
            && ZonePoints(more, n, hasZone) == ZonePoints(lines, n, hasZone)
  {
    if n > 0 {
      ValuesOfPrefix(lines, line, n - 1, hasZone);
      assert (lines + [line])[n - 1] == lines[n - 1];
    }
  }

  /** How one more line moves each value. */
  lemma NextValues(lines: seq<Line>, line: Line, hasZone: bool)
    ensures var more, n := lines + [line], |lines|;
            if line.stamp.None? then
              && Highest(more, n + 1) == Highest(lines, n)
              && Count(more, n + 1) == Count(lines, n)
              && FirstStamped(more, n + 1) == FirstStamped(lines, n)
              && LastStamped(more, n + 1) == LastStamped(lines, n)
              && Backward(more, n + 1) == Backward(lines, n)
              && ZonePoints(more, n + 1, hasZone) == ZonePoints(lines, n, hasZone)
            else
              var stamp, before := line.stamp.value, Highest(lines, n);
              var point := TimePoint(stamp.ms, n + 1, line.start);
              && Highest(more, n + 1) == Some(if before.None? then point else HigherPoint(before.value, point))
              && Count(more, n + 1) == Count(lines, n) + 1
              && FirstStamped(more, n + 1) ==
                 (if FirstStamped(lines, n).Some? then FirstStamped(lines, n) else Some(n))
              && LastStamped(more, n + 1) == Some(n)
              && PointOf(more, n) == point
              && Backward(more, n + 1) ==
                 (if before.Some? && before.value.ms - stamp.ms > BACKWARD_STEP_MS
                  then (Backward(lines, n).0 + 1, Max(Backward(lines, n).1, before.value.ms - stamp.ms))
                  else Backward(lines, n))
              && ZonePoints(more, n + 1, hasZone) ==
                 WithZone(ZonePoints(lines, n, hasZone), n + 1, ZoneOf(stamp, hasZone))
  {
    ValuesOfPrefix(lines, line, |lines|, hasZone);
  }

  ghost predicate IsMark(m: Mark, lines: seq<Line>) {
    && 1 <= m.line <= |lines| + 1
    && var h := Highest(lines, m.line - 1);
    && m.known == h.Some?
    && (m.known ==> m.max == h.value.ms)
  }

  ghost predicate Ascending(marks: seq<Mark>) {
    forall i, j :: 0 <= i < j < |marks| ==> marks[i].line < marks[j].line
  }

  ghost predicate Marked(marks: seq<Mark>, line: int) {
    exists i :: 0 <= i < |marks| && marks[i].line == line
  }

  ghost predicate AreMarks(marks: seq<Mark>, lines: seq<Line>) {
    Ascending(marks) && forall i :: 0 <= i < |marks| ==> IsMark(marks[i], lines)
  }

  /** zones and tooMany record the full list of change points. */
  ghost predicate Records(zones: seq<ZoneOffset>, tooMany: bool, points: seq<ZoneOffset>) {
    && (tooMany <==> |points| > MAX_ZONE_OFFSETS)
    && zones == (if tooMany then [] else points)
  }

  class TimeIndexer {
    const hasZone: bool
    var hasMax: bool
    var maxAt: TimePoint
    var lines: int
    var first: TimePoint
    var last: TimePoint
    var firstOffset: int
    var firstText: string
    var backwardSteps: int
    var maxBackwardMs: int
    var marks: seq<Mark>
    var frames: FrameMarks?
    var zones: seq<ZoneOffset>
    var tooManyZones: bool

    /** The lines observed so far. */
    ghost var seen: seq<Line>

    /** The running maximum and the backward steps are those of text. */
    ghost predicate Maximum(text: seq<Line>)
      reads this`hasMax, this`maxAt, this`backwardSteps, this`maxBackwardMs
    {
      && Highest(text, |text|) == (if hasMax then Some(maxAt) else None)
      && (backwardSteps, maxBackwardMs) == Backward(text, |text|)
    }

    ghost predicate Zones(text: seq<Line>)
      reads this`zones, this`tooManyZones
    {
      Records(zones, tooManyZones, ZonePoints(text, |text|, hasZone))
    }

    /** lines, first and last are what text gives. */
    ghost predicate Ends(text: seq<Line>)
      reads this`lines, this`first, this`last, this`firstOffset, this`firstText
    {
      var first', last' := FirstStamped(text, |text|), LastStamped(text, |text|);
      && lines == Count(text, |text|)
      && (lines > 0 <==> first'.Some?) && (lines > 0 <==> last'.Some?)
      && (first'.Some? ==>
            && first == PointOf(text, first'.value)
            && firstOffset == text[first'.value].stamp.value.offsetMinutes
            && firstText == text[first'.value].stamp.value.text)
      && (last'.Some? ==> last == PointOf(text, last'.value))
    }

    ghost predicate Valid()
      reads this
    {
      IsText(seen) && Maximum(seen) && Zones(seen) && Ends(seen) && AreMarks(marks, seen)
    }

    /** The frames, if any, are at the end of the lines seen, and every line
        a checkpoint of theirs can name is marked. */
    ghost predicate FramesFollow()
      reads this, frames
    {
      frames != null ==> frames.Follows(seen) && Covers(marks, seen, frames.frames)
    }

    constructor (hasZone: bool)
      ensures Valid() && seen == [] && frames == null && marks == [] && this.hasZone == hasZone
    {
      this.hasZone := hasZone;
      hasMax, maxAt := false, TimePoint(0, 0, 0);
      lines, first, last := 0, TimePoint(0, 0, 0), TimePoint(0, 0, 0);
      firstOffset, firstText, backwardSteps, maxBackwardMs := 0, "", 0, 0;
      marks, frames, zones, tooManyZones, seen := [], null, [], false, [];
    }

    /** From here on Observe marks lines by the rule for these frames. */
    method UseFrames(table: seq<Frame>)
      requires Valid() && seen == [] && Contiguous(table)
      modifies this`frames
      ensures Valid() && FramesFollow() && frames != null && fresh(frames) && frames.frames == table
    {
      frames := new FrameMarks(table);
    }

    /** Notes the running maximum ahead of line, the next one to come. */
    method MarkBefore(line: int)
      requires Valid() && line == |seen| + 1
      modifies this`marks
      ensures Valid() && Marked(marks, line) && old(marks) <= marks
      ensures |marks| <= |old(marks)| + 1
      ensures forall m :: Marked(marks, m) <==> Marked(old(marks), m) || m == line
    {
      var n := |marks|;
      if n > 0 && marks[n - 1].line == line {
        return;
      }
      MarkAppended(marks, Mark(line, maxAt.ms, hasMax), seen);
      marks := marks + [Mark(line, maxAt.ms, hasMax)];
      hide IsMark, Ascending, Marked;
    }

    /** Reads the own timestamp of the next line, number number. */
    method Observe(line: Line, number: int)
      requires Valid() && FramesFollow() && number == |seen| + 1
      requires IsText(seen + [line])
      modifies this, frames
      ensures Valid() && FramesFollow() && frames == old(frames)
      ensures frames != null ==> frames.frames == old(frames.frames)
      ensures seen == old(seen) + [line]
      ensures forall m :: Marked(old(marks), m) ==> Marked(marks, m)
    {
      if frames != null {
        frames.MarkLine(this, line, number);
      }
      MarksStay(marks, seen, line);
      ObserveStamp(line, number);
    }

    /** The stamp of the line, when it has one. */
    method ObserveStamp(line: Line, number: int)
      requires Maximum(seen) && Zones(seen) && Ends(seen) && number == |seen| + 1
      modifies this
      ensures Maximum(seen) && Zones(seen) && Ends(seen) && seen == old(seen) + [line]
      ensures frames == old(frames) && marks == old(marks)
    {
      hide TimeIndexer.Maximum, TimeIndexer.Zones, TimeIndexer.Ends;
      if line.stamp.Some? {
        ObserveEnds(line, number, line.stamp.value);
        ObserveZone(line, number, line.stamp.value);
        ObserveMax(line, number, line.stamp.value);
      } else {
        NothingObserved(line);
      }
      seen := seen + [line];
    }

    /** A line without a stamp changes no value kept. */
    lemma NothingObserved(line: Line)
      requires Maximum(seen) && Zones(seen) && Ends(seen) && line.stamp.None?
      ensures Maximum(seen + [line]) && Zones(seen + [line]) && Ends(seen + [line])
    {
      NextValues(seen, line, hasZone);
    }

    /** Counts the line, and keeps it as the last and perhaps the first. */
    method ObserveEnds(line: Line, number: int, stamp: Stamp)
      requires Ends(seen) && number == |seen| + 1 && line.stamp == Some(stamp)
      modifies this`lines, this`first, this`last, this`firstOffset, this`firstText
      ensures Ends(seen + [line])
    {
      NextValues(seen, line, hasZone);
      hide Highest, Count, FirstStamped, LastStamped, Backward, ZonePoints;
      lines := lines + 1;
      var point := TimePoint(stamp.ms, number, line.start);
      if lines == 1 {
        first, firstOffset, firstText := point, stamp.offsetMinutes, stamp.text;
      }
      last := point;
    }

    /** Moves the running maximum when the stamp is above it, and counts a
        step back when it is far below. */
    method ObserveMax(line: Line, number: int, stamp: Stamp)
      requires Maximum(seen) && number == |seen| + 1 && line.stamp == Some(stamp)
      modifies this`hasMax, this`maxAt, this`backwardSteps, this`maxBackwardMs
      ensures Maximum(seen + [line])
    {
      NextValues(seen, line, hasZone);
      hide Highest, Count, FirstStamped, LastStamped, Backward, ZonePoints;
      var point := TimePoint(stamp.ms, number, line.start);
      if !hasMax {
        hasMax, maxAt := true, point;
        return;
      }
      var behind := maxAt.ms - stamp.ms;
      if behind > BACKWARD_STEP_MS {
        backwardSteps := backwardSteps + 1;
        maxBackwardMs := Max(maxBackwardMs, behind);
      }
      maxAt := HigherPoint(maxAt, point);
    }

    /** Keeps zones at the change points of the stamped lines, this one
        included. */
    method ObserveZone(line: Line, number: int, stamp: Stamp)
      requires Zones(seen) && number == |seen| + 1 && line.stamp == Some(stamp)
      modifies this`zones, this`tooManyZones
      ensures Zones(seen + [line])
    {
      NextValues(seen, line, hasZone);
      hide Highest, Count, FirstStamped, LastStamped, Backward, ZonePoints;
      if tooManyZones {
        return;
      }
      var offset := if hasZone then stamp.offsetMinutes else 0;
      var n := |zones|;
      if n > 0 && zones[n - 1].offsetMinutes == offset {
        return;
      }
      if n == MAX_ZONE_OFFSETS {
        tooManyZones, zones := true, [];
        return;
      }
      zones := zones + [ZoneOffset(number, offset)];
    }

    /** The section of the lines seen, or None when one of the checkpoints
        names a line without a mark. */
    method Result(checkpoints: seq<Checkpoint>) returns (section: Option<Section>)
      requires Valid() && CheckpointsOf(checkpoints, seen)
      ensures section.Some? <==> forall i :: 0 <= i < |checkpoints| ==> Marked(marks, checkpoints[i].line)
      ensures section.Some? ==> section.value == SectionOf(seen, hasZone, checkpoints)
    {
      var maxBefore := AlignMarks(checkpoints, marks, seen);
      if maxBefore.None? {
        return None;
      }
      var first', last', max', text': Option<string>, zone := None, None, None, None, None;
      if lines > 0 {
        first', last', max', text' := Some(first), Some(last), Some(maxAt), Some(firstText);
        if hasZone {
          zone := Some(firstOffset);
        }
      }
      section := Some(Section(hasZone, lines, backwardSteps, maxBackwardMs, maxBefore.value,
                              if tooManyZones then None else Some(zones), first', last', max', text', zone));
      StampedEnds(seen, |seen|);
      HighestIsFirstMaximum(seen, |seen|);
      assert maxBefore.value == SectionOf(seen, hasZone, checkpoints).maxBefore;
    }
  }

  /** The later point only if it is higher. */
  function HigherPoint(current: TimePoint, next: TimePoint): TimePoint {
    if next.ms > current.ms then next else current
  }

  lemma MarkAppended(marks: seq<Mark>, m: Mark, lines: seq<Line>)
    requires AreMarks(marks, lines) && IsMark(m, lines) && m.line == |lines| + 1
    requires marks != [] ==> marks[|marks| - 1].line != m.line
    ensures AreMarks(marks + [m], lines)
    ensures forall line :: Marked(marks + [m], line) <==> Marked(marks, line) || line == m.line
  {
    var more := marks + [m];
    forall i | 0 <= i < |marks|
      ensures marks[i].line < m.line
    {
      assert IsMark(marks[i], lines);
      if i < |marks| - 1 {
        assert marks[i].line < marks[|marks| - 1].line && IsMark(marks[|marks| - 1], lines);
      }
    }
    forall line
      ensures Marked(more, line) <==> Marked(marks, line) || line == m.line
    {
      if Marked(marks, line) {
        var i :| 0 <= i < |marks| && marks[i].line == line;
        assert more[i].line == line;
      }
      assert more[|marks|] == m;
    }
  }

  lemma MarksStay(marks: seq<Mark>, lines: seq<Line>, line: Line)
    requires AreMarks(marks, lines)
    ensures AreMarks(marks, lines + [line])
  {
    forall i | 0 <= i < |marks|
      ensures IsMark(marks[i], lines + [line])
    {
      ValuesOfPrefix(lines, line, marks[i].line - 1, false);
    }
  }

  /** Pairs every checkpoint with the mark of the same line; neither list is
      gone back in. */
  method AlignMarks(checkpoints: seq<Checkpoint>, marks: seq<Mark>, ghost lines: seq<Line>)
    returns (maxBefore: Option<seq<Option<int>>>)
    requires AreMarks(marks, lines) && CheckpointsOf(checkpoints, lines)
    ensures maxBefore.Some? <==> forall i :: 0 <= i < |checkpoints| ==> Marked(marks, checkpoints[i].line)
    ensures maxBefore.Some? ==>
              && |maxBefore.value| == |checkpoints|
              && forall i :: 0 <= i < |checkpoints| ==> maxBefore.value[i] == HighestMs(lines, checkpoints[i].line - 1)
  {
    var out: seq<Option<int>> := [];
    var j := 0;
    for i := 0 to |checkpoints|
      invariant 0 <= j <= |marks| && |out| == i
      invariant forall k :: 0 <= k < j ==> i > 0 && marks[k].line < checkpoints[i - 1].line
      invariant forall k :: 0 <= k < i ==> Marked(marks, checkpoints[k].line)
      invariant forall k :: 0 <= k < i ==> out[k] == HighestMs(lines, checkpoints[k].line - 1)
    {
      var line := checkpoints[i].line;
      while j < |marks| && marks[j].line < line
        invariant 0 <= j <= |marks|
        invariant forall k :: 0 <= k < j ==> marks[k].line < line
      {
        j := j + 1;
      }
      if j == |marks| || marks[j].line != line {
        assert !Marked(marks, line);
        return None;
      }
      out := out + [if marks[j].known then Some(marks[j].max) else None];
      assert IsMark(marks[j], lines);
    }
    return Some(out);
  }

  // ---------------------------------------------------------------------
  // Frames, and the lines their checkpoints may be on.

  ghost predicate Contiguous(frames: seq<Frame>) {
    && (frames != [] ==> frames[0].offset == 0)
    && forall j, k :: 0 <= j < k < |frames| && k <= j + 1 ==> frames[k].offset == frames[j].End()
  }

  lemma {:induction false} FramesAscend(frames: seq<Frame>, j: nat, k: nat)
    requires Contiguous(frames) && j < k < |frames|
    ensures frames[j].End() <= frames[k].offset
    decreases k - j
  {
    if j + 1 < k {
      FramesAscend(frames, j, k - 1);
    }
  }

  /** Line number holds byte at of the text. */
  ghost predicate HoldsByte(lines: seq<Line>, number: int, at: nat) {
    1 <= number <= |lines| && lines[number - 1].start <= at < lines[number - 1].end
  }

  lemma HoldingLineIsOne(lines: seq<Line>, m: int, n: int, at: nat)
    requires IsText(lines) && HoldsByte(lines, m, at) && HoldsByte(lines, n, at)
    ensures m == n
  {
    if m < n {
      StartsAscend(lines, m - 1, n - 1);
    } else if n < m {
      StartsAscend(lines, n - 1, m - 1);
    }
  }

  /** The checkpoint rule of a seekable file: a frame that holds text gets a
      checkpoint on the line with its first byte, and one on every line that
      starts inside it a multiple of the interval after that line. */
  ghost predicate CanName(lines: seq<Line>, frame: Frame, holding: int, number: int) {
    && frame.size > 0
    && HoldsByte(lines, holding, frame.offset)
    && (number == holding ||
        (&& holding < number <= |lines|
         && frame.offset <= lines[number - 1].start < frame.End()
         && (number - holding) % CHECKPOINT_LINE_INTERVAL == 0))
  }

  /** Every line a checkpoint of the frames can name is marked. */
  ghost predicate Covers(marks: seq<Mark>, lines: seq<Line>, frames: seq<Frame>) {
    forall k, holding, number ::
      0 <= k < |frames| && CanName(lines, frames[k], holding, number) ==> Marked(marks, number)
  }

  /** firstLines holds, for each of the first next frames, the line with its
      first byte. */
  ghost predicate FirstBytes(frames: seq<Frame>, firstLines: seq<int>, next: nat, lines: seq<Line>) {
    && |firstLines| == |frames| && next <= |frames|
    && forall k :: 0 <= k < next ==> HoldsByte(lines, firstLines[k], frames[k].offset)
  }

  /** No frame from next on begins before byte at. */
  ghost predicate Beyond(frames: seq<Frame>, next: nat, at: nat) {
    forall k :: next <= k < |frames| ==> at <= frames[k].offset
  }

  ghost predicate Reached(frames: seq<Frame>, firstLines: seq<int>, next: nat, lines: seq<Line>) {
    FirstBytes(frames, firstLines, next, lines) && Beyond(frames, next, End(lines))
  }

  /** The frames before current end at byte at or before it. */
  ghost predicate Passed(frames: seq<Frame>, current: nat, at: nat) {
    current <= |frames| && forall k :: 0 <= k < current ==> frames[k].End() <= at
  }

  function LastStart(lines: seq<Line>): nat {
    if lines == [] then 0 else lines[|lines| - 1].start
  }

  class FrameMarks {
    const frames: seq<Frame>
    /** A line number for each frame, valid below next. */
    var firstLines: seq<int>
    /** How many frames begin in the lines read. */
    var next: nat
    /** How many frames end at or before the last line's start. */
    var current: nat

    ghost predicate Follows(lines: seq<Line>)
      reads this
    {
      Contiguous(frames) && Reached(frames, firstLines, next, lines) && Passed(frames, current, LastStart(lines))
    }

    constructor (table: seq<Frame>)
      requires Contiguous(table)
      ensures frames == table && Follows([])
    {
      frames := table;
      firstLines := seq(|table|, _ => 0);
      next, current := 0, 0;
    }

    /** Marks the line, not observed yet, when a checkpoint can name it. */
    method MarkLine(t: TimeIndexer, line: Line, number: int)
      requires t.Valid() && number == |t.seen| + 1 && IsText(t.seen + [line])
      requires Follows(t.seen) && Covers(t.marks, t.seen, frames)
      modifies this, t`marks
      ensures t.Valid() && Follows(t.seen + [line]) && Covers(t.marks, t.seen + [line], frames)
      ensures forall m :: Marked(old(t.marks), m) ==> Marked(t.marks, m)
    {
      ghost var lines := t.seen + [line];
      hide TimeIndexer.Valid, IsText, Covers, Contiguous, Reached, Marked, Passed;
      MarkFrames(t, line, number);
      PassFrames(t.seen, line);
      if current < |frames| {
        FrameBegan(frames, firstLines, next, current, lines);
        var after := number - firstLines[current];
        if after > 0 && after % CHECKPOINT_LINE_INTERVAL == 0 {
          t.MarkBefore(number);
        }
      }
      CoversLine(t.marks, old(t.marks), t.seen, line, frames, firstLines, next, current);
    }

    /** The frames before next are noted, with the line among the lines they
        begin in, and every mark there was before is still there. */
    ghost predicate Marking(t: TimeIndexer, line: Line, before: seq<Mark>)
      reads this, t
    {
      && next <= |frames| == |firstLines| && t.Valid() && Contiguous(frames)
      && FirstBytes(frames, firstLines, next, t.seen + [line]) && Beyond(frames, next, line.start)
      && FramesMarked(t.marks, frames, firstLines, next, |t.seen| + 1)
      && forall m :: Marked(before, m) ==> Marked(t.marks, m)
    }

    /** Notes the next frame, which begins in the line. */
    method MarkFrame(t: TimeIndexer, line: Line, number: int, ghost before: seq<Mark>)
      requires Marking(t, line, before) && number == |t.seen| + 1
      requires next < |frames| && frames[next].offset < line.end
      modifies this`next, this`firstLines, t`marks
      ensures Marking(t, line, before) && next == old(next) + 1
    {
      hide TimeIndexer.Valid, Marked, Contiguous, HoldsByte, FirstBytes, Beyond, FramesMarked;
      FrameBegins(frames, firstLines, next, t.seen, line);
      ghost var marks := t.marks;
      if frames[next].size > 0 {
        t.MarkBefore(number);
      }
      FramesMarkedStep(marks, t.marks, frames, firstLines, next, number);
      firstLines := firstLines[next := number];
      next := next + 1;
    }

    /** Notes the frames that begin in the line, and marks it when one of
        them holds text. */
    method MarkFrames(t: TimeIndexer, line: Line, number: int)
      requires t.Valid() && number == |t.seen| + 1 && IsText(t.seen + [line])
      requires Contiguous(frames) && Reached(frames, firstLines, next, t.seen)
      modifies this`next, this`firstLines, t`marks
      ensures t.Valid() && Reached(frames, firstLines, next, t.seen + [line])
      ensures forall m :: Marked(old(t.marks), m) ==> Marked(t.marks, m)
      ensures FramesMarked(t.marks, frames, firstLines, next, number)
    {
      ghost var before := t.marks;
      hide IsText, Contiguous, HoldsByte;
      assert Marking(t, line, before) && next <= |frames| by {
        ReachedFirst(frames, firstLines, next, t.seen, line);
      }
      MarkAll(t, line, number, before);
      FramesAfter(frames, next, line.end);
    }

    method MarkAll(t: TimeIndexer, line: Line, number: int, ghost before: seq<Mark>)
      requires Marking(t, line, before) && number == |t.seen| + 1 && next <= |frames|
      modifies this`next, this`firstLines, t`marks
      ensures Marking(t, line, before)
      ensures next <= |frames| && (next < |frames| ==> line.end <= frames[next].offset)
    {
      hide *;
      while next < |frames| && frames[next].offset < line.end
        invariant Marking(t, line, before) && next <= |frames|
        decreases |frames| - next
      {
        MarkFrame(t, line, number, before);
      }
    }

    /** Advances current past every frame that ends at or before the line's
        start, empty ones included. */
    method PassFrames(ghost seen: seq<Line>, line: Line)
      requires IsText(seen + [line]) && Passed(frames, current, LastStart(seen))
      modifies this`current
      ensures Passed(frames, current, line.start)
      ensures current < |frames| ==> line.start < frames[current].End()
    {
      if seen != [] {
        StartsAscend(seen + [line], |seen| - 1, |seen|);
      }
      while current < |frames| && line.start >= frames[current].End()
        invariant Passed(frames, current, line.start)
      {
        current := current + 1;
      }
    }
  }

  /** The line is marked when it holds the first byte of a frame of text. */
  ghost predicate FramesMarked(marks: seq<Mark>, frames: seq<Frame>, firstLines: seq<int>, next: nat, number: int)
    requires next <= |frames| == |firstLines|
  {
    forall k :: 0 <= k < next && firstLines[k] == number && frames[k].size > 0 ==> Marked(marks, number)
  }

  lemma FramesMarkedStep(before: seq<Mark>, marks: seq<Mark>, frames: seq<Frame>, firstLines: seq<int>, next: nat,
                         number: int)
    requires next < |frames| == |firstLines| && FramesMarked(before, frames, firstLines, next, number)
    requires forall m :: Marked(before, m) ==> Marked(marks, m)
    requires frames[next].size > 0 ==> Marked(marks, number)
    ensures FramesMarked(marks, frames, firstLines[next := number], next + 1, number)
  {
  }

  /** What was reached before a line, seen with the line. */
  lemma ReachedFirst(frames: seq<Frame>, firstLines: seq<int>, next: nat, seen: seq<Line>, line: Line)
    requires Reached(frames, firstLines, next, seen) && IsText(seen + [line])
    ensures FirstBytes(frames, firstLines, next, seen + [line]) && Beyond(frames, next, line.start)
    ensures forall k :: 0 <= k < next ==> firstLines[k] <= |seen|
  {
    var lines := seen + [line];
    if seen != [] {
      assert lines[|seen|].start == lines[|seen| - 1].end;
    }
    forall k | 0 <= k < next
      ensures HoldsByte(lines, firstLines[k], frames[k].offset) && firstLines[k] <= |seen|
    {
      assert HoldsByte(seen, firstLines[k], frames[k].offset);
    }
  }

  /** The next frame begins in the line. */
  lemma FrameBegins(frames: seq<Frame>, firstLines: seq<int>, next: nat, seen: seq<Line>, line: Line)
    requires FirstBytes(frames, firstLines, next, seen + [line]) && Beyond(frames, next, line.start)
    requires next < |frames| && frames[next].offset < line.end
    ensures FirstBytes(frames, firstLines[next := |seen| + 1], next + 1, seen + [line])
    ensures Beyond(frames, next + 1, line.start)
  {
  }

  lemma FramesAfter(frames: seq<Frame>, next: nat, at: nat)
    requires Contiguous(frames) && (next < |frames| ==> at <= frames[next].offset)
    ensures Beyond(frames, next, at)
  {
    forall k | next <= k < |frames|
      ensures at <= frames[k].offset
    {
      if next < k {
        FramesAscend(frames, next, k);
      }
    }
  }

  /** The frame the line starts in began with the line or before it. */
  lemma FrameBegan(frames: seq<Frame>, firstLines: seq<int>, next: nat, current: nat, lines: seq<Line>)
    requires Contiguous(frames) && Reached(frames, firstLines, next, lines) && lines != [] && IsText(lines)
    requires Passed(frames, current, LastStart(lines)) && current < |frames|
    ensures current < next && |firstLines| == |frames|
  {
    var last := lines[|lines| - 1];
    assert last.start < last.end == End(lines);
    if current > 0 {
      assert frames[current].offset == frames[current - 1].End() <= last.start;
    }
  }

  lemma LineWithin(lines: seq<Line>, number: int)
    requires IsText(lines) && 1 <= number <= |lines|
    ensures lines[number - 1].end <= End(lines)
  {
    if number < |lines| {
      StartsAscend(lines, number - 1, |lines| - 1);
    }
  }

  /** After a line's own marks, every line that can be named is covered. */
  lemma CoversLine(marks: seq<Mark>, before: seq<Mark>, seen: seq<Line>, line: Line,
                   frames: seq<Frame>, firstLines: seq<int>, next: nat, current: nat)
    requires IsText(seen + [line]) && Covers(before, seen, frames)
    requires Contiguous(frames) && Reached(frames, firstLines, next, seen + [line]) && Passed(frames, current, line.start)
    requires forall m :: Marked(before, m) ==> Marked(marks, m)
    requires FramesMarked(marks, frames, firstLines, next, |seen| + 1)
    requires current < |frames| ==>
               && current < next && line.start < frames[current].End()
               && var after := |seen| + 1 - firstLines[current];
               (after > 0 && after % CHECKPOINT_LINE_INTERVAL == 0 ==> Marked(marks, |seen| + 1))
    ensures Covers(marks, seen + [line], frames)
  {
    var lines, n := seen + [line], |seen| + 1;
    forall k, holding, number | 0 <= k < |frames| && CanName(lines, frames[k], holding, number)
      ensures Marked(marks, number)
    {
      LineWithin(lines, holding);
      HoldingLineIsOne(lines, holding, firstLines[k], frames[k].offset);
      if number < n {
        assert CanName(seen, frames[k], holding, number);
      } else if holding < n {
        assert lines[n - 1] == line;
        if current < k {
          FramesAscend(frames, current, k);
        }
      }
    }
  }
}
