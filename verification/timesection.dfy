/** The section of timestamps in an index, as a property of the text's lines:
    what each recorded value means, what a reader of a stored section requires,
    and why every section an index build can write meets it. */
module TimeSection {
  import opened Common

  /** The years 1 to 9999, in milliseconds since the Unix epoch. */
  const MIN_VALUE_MS := -62135596800000
  const MAX_VALUE_MS := 253402300799999

  const MAX_TEXT_BYTES := 64
  const MAX_ZONE_OFFSETS := 1024
  const MAX_ZONE_OFFSET_MINUTES := 18 * 60
  const BACKWARD_STEP_MS := 1000

  predicate InValueRange(ms: int) {
    MIN_VALUE_MS <= ms <= MAX_VALUE_MS
  }

  /** A value is in range exactly when its day, counted from 1970, is one of
      the years 1 to 9999. */
  lemma ValuesAreOfYears(ms: int)
    ensures InValueRange(ms) <==> -719162 <= ms / 86400000 <= 2932896
  {
  }

  /** A line's own timestamp: its value, the zone offset the line writes, and
      the timestamp's text. */
  datatype Stamp = Stamp(ms: int, offsetMinutes: int, text: string)

  /** One line of the text: the bytes it takes, and its timestamp if any.
      Line number k is lines[k - 1]. */
  datatype Line = Line(start: nat, end: nat, stamp: Option<Stamp>)

  datatype TimePoint = TimePoint(ms: int, line: int, offset: int)

  datatype ZoneOffset = ZoneOffset(line: int, offsetMinutes: int)

  datatype Checkpoint = Checkpoint(line: int, offset: int)

  predicate Printable(text: string) {
    |text| <= 64 && forall i :: 0 <= i < |text| ==> ' ' <= text[i] <= '~'
  }

  /** What the timestamp parser promises of a stamp. */
  predicate InRange(s: Stamp) {
    && InValueRange(s.ms)
    && -1080 <= s.offsetMinutes <= 1080
    && Printable(s.text)
  }

  /** The lines of one text: none empty, one after the other from byte 0,
      their stamps as the parser gives them. */
  ghost predicate IsText(lines: seq<Line>) {
    && (forall i :: 0 <= i < |lines| ==> lines[i].start < lines[i].end)
    && (lines != [] ==> lines[0].start == 0)
    && (forall i, j :: 0 <= i < j < |lines| && j <= i + 1 ==> lines[j].start == lines[i].end)
    && (forall i :: 0 <= i < |lines| ==> lines[i].stamp.Some? ==> InRange(lines[i].stamp.value))
  }

  function End(lines: seq<Line>): nat {
    if lines == [] then 0 else lines[|lines| - 1].end
  }

  lemma {:induction false} StartsAscend(lines: seq<Line>, i: nat, j: nat)
    requires IsText(lines) && i < j < |lines|
    ensures lines[i].end <= lines[j].start
    decreases j - i
  {
    if i + 1 < j {
      StartsAscend(lines, i, j - 1);
    }
  }

  // ---------------------------------------------------------------------
  // The values, over the first n lines.

  function PointOf(lines: seq<Line>, i: nat): TimePoint
    requires i < |lines| && lines[i].stamp.Some?
  {
    TimePoint(lines[i].stamp.value.ms, i + 1, lines[i].start)
  }

  /** The first of the lines that hold the highest value. */
  function Highest(lines: seq<Line>, n: nat): Option<TimePoint>
    requires n <= |lines|
  {
    if n == 0 then None
    else
      var before := Highest(lines, n - 1);
      if lines[n - 1].stamp.None? then before
      else if before.None? || before.value.ms < lines[n - 1].stamp.value.ms then Some(PointOf(lines, n - 1))
      else before
  }

  function Count(lines: seq<Line>, n: nat): nat
    requires n <= |lines|
  {
    if n == 0 then 0 else Count(lines, n - 1) + if lines[n - 1].stamp.Some? then 1 else 0
  }

  function FirstStamped(lines: seq<Line>, n: nat): Option<nat>
    requires n <= |lines|
    ensures FirstStamped(lines, n).Some? ==>
              FirstStamped(lines, n).value < n && lines[FirstStamped(lines, n).value].stamp.Some?
  {
    if n == 0 then None
    else if FirstStamped(lines, n - 1).Some? then FirstStamped(lines, n - 1)
    else if lines[n - 1].stamp.Some? then Some(n - 1)
    else None
  }

  function LastStamped(lines: seq<Line>, n: nat): Option<nat>
    requires n <= |lines|
    ensures LastStamped(lines, n).Some? ==>
              LastStamped(lines, n).value < n && lines[LastStamped(lines, n).value].stamp.Some?
  {
    if n == 0 then None
    else if lines[n - 1].stamp.Some? then Some(n - 1)
    else LastStamped(lines, n - 1)
  }

  /** How far the line i is below the highest value before it, 0 when it is
      not. */
  function Behind(lines: seq<Line>, i: nat): nat
    requires i < |lines|
  {
    var before := Highest(lines, i);
    if lines[i].stamp.Some? && before.Some? && before.value.ms - lines[i].stamp.value.ms > 1000
    then before.value.ms - lines[i].stamp.value.ms else 0
  }

  /** The number of backward steps, and the largest. */
  function Backward(lines: seq<Line>, n: nat): (nat, nat)
    requires n <= |lines|
  {
    if n == 0 then (0, 0)
    else
      var (steps, most) := Backward(lines, n - 1);
      var behind := Behind(lines, n - 1);
      if behind == 0 then (steps, most) else (steps + 1, Max(most, behind))
  }

  /** A stamp's zone offset as the section counts it: 0 throughout when the
      format has no zone. */
  function ZoneOf(s: Stamp, hasZone: bool): int {
    if hasZone then s.offsetMinutes else 0
  }

  /** points, and one more where the offset of line differs from the last. */
  function WithZone(points: seq<ZoneOffset>, line: nat, zone: int): seq<ZoneOffset> {
    if points != [] && points[|points| - 1].offsetMinutes == zone then points
    else points + [ZoneOffset(line, zone)]
  }

  /** Every change point of the recorded offset. */
  function ZonePoints(lines: seq<Line>, n: nat, hasZone: bool): seq<ZoneOffset>
    requires n <= |lines|
  {
    if n == 0 then []
    else
      var points := ZonePoints(lines, n - 1, hasZone);
      if lines[n - 1].stamp.None? then points
      else WithZone(points, n, ZoneOf(lines[n - 1].stamp.value, hasZone))
  }

  datatype Section = Section(
    hasZone: bool,
    timestampedLines: int,
    backwardSteps: int,
    maxBackwardMs: int,
    maxBefore: seq<Option<int>>,
    zoneOffsets: Option<seq<ZoneOffset>>,
    first: Option<TimePoint>,
    last: Option<TimePoint>,
    max: Option<TimePoint>,
    firstText: Option<string>,
    firstZone: Option<int>)

  function HighestMs(lines: seq<Line>, n: nat): Option<int>
    requires n <= |lines|
  {
    var h := Highest(lines, n);
    if h.None? then None else Some(h.value.ms)
  }

  ghost predicate CheckpointsOf(checkpoints: seq<Checkpoint>, lines: seq<Line>) {
    && (forall i :: 0 <= i < |checkpoints| ==> 1 <= checkpoints[i].line <= |lines|)
    && (forall i, j :: 0 <= i < j < |checkpoints| ==> checkpoints[i].line <= checkpoints[j].line)
  }

  /** The section that describes lines, one max_before entry a checkpoint. */
  function SectionOf(lines: seq<Line>, hasZone: bool, checkpoints: seq<Checkpoint>): Section
    requires forall i :: 0 <= i < |checkpoints| ==> 1 <= checkpoints[i].line <= |lines|
  {
    var n := |lines|;
    var first := FirstStamped(lines, n);
    var last := LastStamped(lines, n);
    var points := ZonePoints(lines, n, hasZone);
    var (steps, most) := Backward(lines, n);
    Section(
      hasZone, Count(lines, n), steps, most,
      seq(|checkpoints|, i requires 0 <= i < |checkpoints| => HighestMs(lines, checkpoints[i].line - 1)),
      if |points| > 1024 then None else Some(points),
      if first.None? then None else Some(PointOf(lines, first.value)),
      if last.None? then None else Some(PointOf(lines, last.value)),
      Highest(lines, n),
      if first.None? then None else Some(lines[first.value].stamp.value.text),
      if hasZone && first.Some? then Some(lines[first.value].stamp.value.offsetMinutes) else None)
  }

  // ---------------------------------------------------------------------
  // What the values mean.

  /** Highest is the earliest line with the highest value, and there is one
      exactly when some line has a value. */
  lemma {:induction false} HighestIsFirstMaximum(lines: seq<Line>, n: nat)
    requires n <= |lines|
    ensures var h := Highest(lines, n);
            && (h.None? <==> forall i :: 0 <= i < n ==> lines[i].stamp.None?)
            && (h.Some? ==>
                  && 1 <= h.value.line <= n && lines[h.value.line - 1].stamp.Some?
                  && h.value == PointOf(lines, h.value.line - 1)
                  && (forall i :: 0 <= i < n && lines[i].stamp.Some? ==> lines[i].stamp.value.ms <= h.value.ms)
                  && (forall i :: 0 <= i < h.value.line - 1 && lines[i].stamp.Some? ==>
                        lines[i].stamp.value.ms < h.value.ms))
  {
    if n > 0 {
      HighestIsFirstMaximum(lines, n - 1);
    }
  }

  lemma {:induction false} StampedEnds(lines: seq<Line>, n: nat)
    requires n <= |lines|
    ensures var first, last := FirstStamped(lines, n), LastStamped(lines, n);
            && (first.None? <==> forall i :: 0 <= i < n ==> lines[i].stamp.None?)
            && (last.None? <==> first.None?)
            && (first.None? <==> Count(lines, n) == 0)
            && (first.Some? ==> forall i :: 0 <= i < n && lines[i].stamp.Some? ==> first.value <= i <= last.value)
  {
    if n > 0 {
      StampedEnds(lines, n - 1);
    }
  }

  /** points[k] is the last change point at or before line number i + 1. */
  ghost predicate Governs(points: seq<ZoneOffset>, k: nat, i: nat) {
    && k < |points| && points[k].line <= i + 1
    && (k + 1 < |points| ==> i + 1 < points[k + 1].line)
  }

  /** The change points give back every line's recorded offset: it is the
      offset of the last point at or before the line. */
  lemma {:induction false} ZonePointsGiveOffsets(lines: seq<Line>, n: nat, hasZone: bool, i: nat)
    requires i < n <= |lines| && lines[i].stamp.Some?
    ensures var points := ZonePoints(lines, n, hasZone);
            exists k: nat :: Governs(points, k, i) && points[k].offsetMinutes == ZoneOf(lines[i].stamp.value, hasZone)
  {
    ZonePointsChange(lines, n, hasZone);
    var points, before := ZonePoints(lines, n, hasZone), ZonePoints(lines, n - 1, hasZone);
    if i == n - 1 {
      assert points[|points| - 1].offsetMinutes == ZoneOf(lines[i].stamp.value, hasZone);
      assert Governs(points, |points| - 1, i);
    } else {
      ZonePointsGiveOffsets(lines, n - 1, hasZone, i);
      var k: nat :| Governs(before, k, i) && before[k].offsetMinutes == ZoneOf(lines[i].stamp.value, hasZone);
      assert Governs(points, k, i) && points[k] == before[k];
    }
  }

  /** The list starts at the first timestamped line. */
  ghost predicate ZoneListStarts(points: seq<ZoneOffset>, lines: seq<Line>, n: nat, hasZone: bool)
    requires n <= |lines|
  {
    var first := FirstStamped(lines, n);
    && (points == [] <==> first.None?)
    && (first.Some? && points != [] ==>
          points[0] == ZoneOffset(first.value + 1, ZoneOf(lines[first.value].stamp.value, hasZone)))
  }

  /** The point names one of the first n lines, a timestamped one, and its
      offset. */
  ghost predicate NamesLine(point: ZoneOffset, lines: seq<Line>, n: nat, hasZone: bool)
    requires n <= |lines|
  {
    && 1 <= point.line <= n && lines[point.line - 1].stamp.Some?
    && point.offsetMinutes == ZoneOf(lines[point.line - 1].stamp.value, hasZone)
  }

  predicate Changes(before: ZoneOffset, after: ZoneOffset) {
    before.line < after.line && before.offsetMinutes != after.offsetMinutes
  }

  /** Each point names a line, after the point before it and with another
      offset. */
  ghost predicate ZoneListChanges(points: seq<ZoneOffset>, lines: seq<Line>, n: nat, hasZone: bool)
    requires n <= |lines|
  {
    && (forall k :: 0 <= k < |points| ==> NamesLine(points[k], lines, n, hasZone))
    && (forall i, k :: 0 <= i < k < |points| && k <= i + 1 ==> Changes(points[i], points[k]))
  }

  lemma {:induction false} ZonePointsStart(lines: seq<Line>, n: nat, hasZone: bool)
    requires n <= |lines|
    ensures ZoneListStarts(ZonePoints(lines, n, hasZone), lines, n, hasZone)
    ensures !hasZone ==> |ZonePoints(lines, n, hasZone)| <= 1
  {
    if n > 0 {
      ZonePointsStart(lines, n - 1, hasZone);
    }
  }

  lemma {:induction false} ZonePointsChange(lines: seq<Line>, n: nat, hasZone: bool)
    requires n <= |lines|
    ensures ZoneListChanges(ZonePoints(lines, n, hasZone), lines, n, hasZone)
  {
    if n > 0 {
      ZonePointsChange(lines, n - 1, hasZone);
      var before, points := ZonePoints(lines, n - 1, hasZone), ZonePoints(lines, n, hasZone);
      if points != before {
        assert points == before + [points[|points| - 1]] && NamesLine(points[|points| - 1], lines, n, hasZone);
        assert before != [] ==> Changes(before[|before| - 1], points[|points| - 1]);
        hide ZonePoints, Changes;
      }
    }
  }

  /** The lines that are a step back. */
  ghost function StepsBack(lines: seq<Line>, n: nat): set<int>
    requires n <= |lines|
  {
    set i: int | 0 <= i < n && Behind(lines, i) > 0
  }

  lemma {:induction false} StepsBackCounted(lines: seq<Line>, n: nat)
    requires n <= |lines|
    ensures Backward(lines, n).0 == |StepsBack(lines, n)|
  {
    if n > 0 {
      StepsBackCounted(lines, n - 1);
      var last := if Behind(lines, n - 1) > 0 then {n - 1} else {};
      assert StepsBack(lines, n) == StepsBack(lines, n - 1) + last;
      hide Behind;
    }
  }

  /** The steps back are counted, one for each line more than a second below
      a line before it; the largest step is one of them. */
  lemma {:induction false} BackwardIsLargestStep(lines: seq<Line>, n: nat)
    requires n <= |lines|
    ensures var (steps, most) := Backward(lines, n);
            && steps == |StepsBack(lines, n)|
            && (steps == 0 <==> forall i :: 0 <= i < n ==> Behind(lines, i) == 0)
            && (forall i :: 0 <= i < n ==> Behind(lines, i) <= most)
            && (steps == 0 ==> most == 0)
            && (steps > 0 ==> exists i :: 0 <= i < n && Behind(lines, i) == most)
  {
    StepsBackCounted(lines, n);
    hide StepsBack;
    if n > 0 {
      BackwardIsLargestStep(lines, n - 1);
      var (steps, most) := Backward(lines, n - 1);
      if Behind(lines, n - 1) <= most && steps > 0 {
        var i :| 0 <= i < n - 1 && Behind(lines, i) == most;
      }
      hide Behind;
    }
  }

  lemma {:induction false} HighestGrows(lines: seq<Line>, m: nat, n: nat)
    requires m <= n <= |lines|
    ensures Highest(lines, m).Some? ==>
              Highest(lines, n).Some? && Highest(lines, m).value.ms <= Highest(lines, n).value.ms
    decreases n - m
  {
    if m < n {
      HighestGrows(lines, m, n - 1);
    }
  }

  // ---------------------------------------------------------------------
  // What a reader of a stored section requires of it.

  predicate OnALine(p: TimePoint, lineCount: int) {
    1 <= p.line <= lineCount && InValueRange(p.ms)
  }

  ghost predicate ValidSpan(s: Section, lineCount: int) {
    && s.timestampedLines >= 0
    && (s.first.Some? <==> s.timestampedLines > 0)
    && (s.last.Some? <==> s.timestampedLines > 0)
    && (s.max.Some? <==> s.timestampedLines > 0)
    && (s.timestampedLines > 0 ==>
          && OnALine(s.first.value, lineCount) && OnALine(s.last.value, lineCount)
          && OnALine(s.max.value, lineCount)
          && s.first.value.line <= s.last.value.line)
  }

  ghost predicate ValidText(s: Section) {
    && (s.firstText.Some? <==> s.first.Some?)
    && (s.firstText.Some? ==> Printable(s.firstText.value))
  }

  ghost predicate ValidFirstZone(s: Section) {
    s.firstZone.Some? ==> -1080 <= s.firstZone.value <= 1080
  }

  /** zone_offsets of a section that already has a valid span. */
  ghost predicate ValidZones(s: Section)
    requires s.timestampedLines > 0 ==> s.first.Some? && s.last.Some?
  {
    if s.zoneOffsets.None? then s.hasZone
    else
      var points := s.zoneOffsets.value;
      && |points| <= 1024
      && (points != [] <==> s.timestampedLines > 0)
      && (points != [] ==>
            && points[0] == ZoneOffset(s.first.value.line, if s.firstZone.Some? then s.firstZone.value else 0)
            && (!s.hasZone ==> |points| == 1)
            && (forall k :: 0 <= k < |points| ==>
                  && -1080 <= points[k].offsetMinutes <= 1080
                  && points[k].line <= s.last.value.line)
            && (forall i, k :: 0 <= i < k < |points| && k <= i + 1 ==> Changes(points[i], points[k])))
  }

  ghost predicate ValidMaxBefore(s: Section) {
    && (forall i :: 0 <= i < |s.maxBefore| && s.maxBefore[i].Some? ==> InValueRange(s.maxBefore[i].value))
    && (forall i, j :: 0 <= i < j < |s.maxBefore| && s.maxBefore[i].Some? ==>
          s.maxBefore[j].Some? && s.maxBefore[i].value <= s.maxBefore[j].value)
  }

  /** max_before of a checkpoint on checkpointLine, against the file's max. */
  predicate AgreesWithMax(v: Option<int>, checkpointLine: int, highest: TimePoint) {
    if checkpointLine > highest.line then v == Some(highest.ms)
    else v.Some? ==> v.value < highest.ms
  }

  predicate OffsetsInOrder(earlier: TimePoint, later: TimePoint) {
    && (earlier.line == later.line <==> earlier.offset == later.offset)
    && earlier.offset <= later.offset
  }

  ghost predicate ValidMax(s: Section, checkpoints: seq<Checkpoint>)
    requires |s.maxBefore| == |checkpoints| && (s.max.Some? ==> s.first.Some? && s.last.Some?)
  {
    if s.max.None? then forall i :: 0 <= i < |s.maxBefore| ==> s.maxBefore[i].None?
    else
      var first, highest, last := s.first.value, s.max.value, s.last.value;
      && first.line <= highest.line <= last.line
      && first.ms <= highest.ms && last.ms <= highest.ms
      && 0 <= first.offset
      && OffsetsInOrder(first, highest) && OffsetsInOrder(highest, last)
      && (forall i :: 0 <= i < |checkpoints| ==> AgreesWithMax(s.maxBefore[i], checkpoints[i].line, highest))
  }

  /** A stored section a reader may trust, in an index of lineCount lines
      and these checkpoints. */
  ghost predicate Acceptable(s: Section, lineCount: int, checkpoints: seq<Checkpoint>) {
    && ValidSpan(s, lineCount)
    && ValidText(s)
    && ValidFirstZone(s)
    && ValidZones(s)
    && |s.maxBefore| == |checkpoints|
    && ValidMaxBefore(s)
    && ValidMax(s, checkpoints)
  }

  // ---------------------------------------------------------------------
  // Every section a build writes is acceptable.

  lemma SectionSpan(lines: seq<Line>, hasZone: bool, checkpoints: seq<Checkpoint>)
    requires IsText(lines) && CheckpointsOf(checkpoints, lines)
    ensures var s := SectionOf(lines, hasZone, checkpoints);
            ValidSpan(s, |lines|) && ValidText(s) && ValidFirstZone(s)
  {
    HighestIsFirstMaximum(lines, |lines|);
    StampedEnds(lines, |lines|);
  }

  lemma SectionZones(lines: seq<Line>, hasZone: bool, checkpoints: seq<Checkpoint>)
    requires IsText(lines) && CheckpointsOf(checkpoints, lines)
    ensures var s := SectionOf(lines, hasZone, checkpoints);
            ValidSpan(s, |lines|) && ValidZones(s)
  {
    SectionSpan(lines, hasZone, checkpoints);
    StampedEnds(lines, |lines|);
    ZonePointsStart(lines, |lines|, hasZone);
    ZonePointsChange(lines, |lines|, hasZone);
  }

  lemma SectionMaxBefore(lines: seq<Line>, hasZone: bool, checkpoints: seq<Checkpoint>)
    requires IsText(lines) && CheckpointsOf(checkpoints, lines)
    ensures ValidMaxBefore(SectionOf(lines, hasZone, checkpoints))
  {
    var s := SectionOf(lines, hasZone, checkpoints);
    forall i | 0 <= i < |checkpoints|
      ensures s.maxBefore[i].Some? ==> InValueRange(s.maxBefore[i].value)
    {
      HighestIsFirstMaximum(lines, checkpoints[i].line - 1);
    }
    forall i, j | 0 <= i < j < |checkpoints| && s.maxBefore[i].Some?
      ensures s.maxBefore[j].Some? && s.maxBefore[i].value <= s.maxBefore[j].value
    {
      HighestGrows(lines, checkpoints[i].line - 1, checkpoints[j].line - 1);
    }
  }

  /** The value before a checkpoint: the file's highest when it comes after
      that line, a lower one or none when it does not. */
  lemma CheckpointAgreesWithMax(lines: seq<Line>, checkpointLine: int)
    requires 1 <= checkpointLine <= |lines| && Highest(lines, |lines|).Some?
    ensures AgreesWithMax(HighestMs(lines, checkpointLine - 1), checkpointLine, Highest(lines, |lines|).value)
  {
    HighestIsFirstMaximum(lines, |lines|);
    HighestIsFirstMaximum(lines, checkpointLine - 1);
  }

  lemma PointsInOrder(lines: seq<Line>, i: nat, j: nat)
    requires IsText(lines) && i <= j < |lines| && lines[i].stamp.Some? && lines[j].stamp.Some?
    ensures OffsetsInOrder(PointOf(lines, i), PointOf(lines, j))
  {
    if i < j {
      StartsAscend(lines, i, j);
    }
  }

  lemma SectionMax(lines: seq<Line>, hasZone: bool, checkpoints: seq<Checkpoint>)
    requires IsText(lines) && CheckpointsOf(checkpoints, lines)
    ensures var s := SectionOf(lines, hasZone, checkpoints);
            ValidSpan(s, |lines|) && ValidMax(s, checkpoints)
  {
    SectionSpan(lines, hasZone, checkpoints);
    HighestIsFirstMaximum(lines, |lines|);
    StampedEnds(lines, |lines|);
    var s := SectionOf(lines, hasZone, checkpoints);
    if s.max.None? {
      forall i | 0 <= i < |checkpoints|
        ensures s.maxBefore[i].None?
      {
        HighestGrows(lines, checkpoints[i].line - 1, |lines|);
      }
    } else {
      var first, last := FirstStamped(lines, |lines|).value, LastStamped(lines, |lines|).value;
      var top := s.max.value.line - 1;
      PointsInOrder(lines, first, top);
      PointsInOrder(lines, top, last);
      forall i | 0 <= i < |checkpoints|
        ensures AgreesWithMax(s.maxBefore[i], checkpoints[i].line, s.max.value)
      {
        CheckpointAgreesWithMax(lines, checkpoints[i].line);
      }
    }
  }

  /** Whatever the lines hold, and whichever checkpoints the index has, the
      section that describes them passes every check. */
  lemma SectionIsAcceptable(lines: seq<Line>, hasZone: bool, checkpoints: seq<Checkpoint>)
    requires IsText(lines) && CheckpointsOf(checkpoints, lines)
    ensures Acceptable(SectionOf(lines, hasZone, checkpoints), |lines|, checkpoints)
  {
    SectionSpan(lines, hasZone, checkpoints);
    SectionZones(lines, hasZone, checkpoints);
    SectionMaxBefore(lines, hasZone, checkpoints);
    SectionMax(lines, hasZone, checkpoints);
  }

  /** A search from time t may start at a checkpoint, skipping every line
      before it, exactly when the checkpoint's entry is null or below t. */
  lemma SkippingIsSound(lines: seq<Line>, hasZone: bool, checkpoints: seq<Checkpoint>, i: nat, t: int)
    requires CheckpointsOf(checkpoints, lines) && i < |checkpoints|
    ensures var v := SectionOf(lines, hasZone, checkpoints).maxBefore[i];
            (v.None? || v.value < t) <==>
            forall k :: 0 <= k < checkpoints[i].line - 1 && lines[k].stamp.Some? ==> lines[k].stamp.value.ms < t
  {
    HighestIsFirstMaximum(lines, checkpoints[i].line - 1);
  }
}
