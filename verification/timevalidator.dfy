/** validTimeIndex: the checks of a stored time section, as they are read
    one after the other. */
module TimeValidator {
  import opened Common
  import opened TimeSection

  datatype Refusal =
    | TimestampedLines | PointsDoNotMatch | LineOutsideFile | ValueOutsideYears | FirstAfterLast
    | FirstTextDoesNotMatch | FirstTextTooLong | FirstTextNotPrintable
    | FirstZoneTooLarge
    | ZonesNull | TooManyZones | ZonesDoNotMatch | ZonesStart | ZonesOfZoneless
    | ZoneTooLarge(entry: nat) | ZoneAfterLast(entry: nat) | ZoneNoChange(entry: nat)
    | MaxBeforeCount | MaxBeforeDecreases(entry: nat) | MaxBeforeOutsideYears(entry: nat)
    | MaxBeforeOfUntimed(entry: nat) | MaxOutside | MaxTooLow | FirstOffsetNegative | OffsetsOutOfOrder
    | MaxBeforeDisagrees(entry: nat)

  /** Reports why a stored section cannot be used in an index of lineCount
      lines (0 when it records none), or None when it can. */
  method ValidTimeIndex(s: Section, lineCount: int, checkpoints: seq<Checkpoint>) returns (refusal: Option<Refusal>)
    ensures refusal.None? <==> Acceptable(s, lineCount, checkpoints)
  {
    refusal := ValidTimeSpan(s, lineCount);
    if refusal.Some? {
      return;
    }
    refusal := ValidFirstText(s);
    if refusal.Some? {
      return;
    }
    if s.firstZone.Some? &&
       (s.firstZone.value < -MAX_ZONE_OFFSET_MINUTES || s.firstZone.value > MAX_ZONE_OFFSET_MINUTES) {
      return Some(FirstZoneTooLarge);
    }
    refusal := ValidZoneOffsets(s);
    if refusal.Some? {
      return;
    }
    if |s.maxBefore| != |checkpoints| {
      return Some(MaxBeforeCount);
    }
    refusal := MaxBeforeNeverDecreases(s);
    if refusal.Some? {
      return;
    }
    refusal := ValidMaxPoint(s, checkpoints);
  }

  method ValidTimeSpan(s: Section, lineCount: int) returns (refusal: Option<Refusal>)
    ensures refusal.None? <==> ValidSpan(s, lineCount)
  {
    if s.timestampedLines < 0 {
      return Some(TimestampedLines);
    }
    var hasLines := s.timestampedLines > 0;
    if s.first.Some? != hasLines || s.last.Some? != hasLines || s.max.Some? != hasLines {
      return Some(PointsDoNotMatch);
    }
    if !hasLines {
      return None;
    }
    var points := [s.first.value, s.last.value, s.max.value];
    for i := 0 to 3
      invariant forall j :: 0 <= j < i ==> OnALine(points[j], lineCount)
    {
      if points[i].line < 1 || points[i].line > lineCount {
        assert !OnALine(points[i], lineCount);
        return Some(LineOutsideFile);
      }
      if !InValueRange(points[i].ms) {
        assert !OnALine(points[i], lineCount);
        return Some(ValueOutsideYears);
      }
    }
    assert OnALine(points[0], lineCount) && OnALine(points[1], lineCount) && OnALine(points[2], lineCount);
    if s.first.value.line > s.last.value.line {
      return Some(FirstAfterLast);
    }
    return None;
  }

  method ValidFirstText(s: Section) returns (refusal: Option<Refusal>)
    ensures refusal.None? <==> ValidText(s)
  {
    if s.firstText.Some? != s.first.Some? {
      return Some(FirstTextDoesNotMatch);
    }
    if s.firstText.None? {
      return None;
    }
    var text := s.firstText.value;
    if |text| > MAX_TEXT_BYTES {
      return Some(FirstTextTooLong);
    }
    for i := 0 to |text|
      invariant forall j :: 0 <= j < i ==> ' ' <= text[j] <= '~'
    {
      if text[i] < ' ' || text[i] > '~' {
        return Some(FirstTextNotPrintable);
      }
    }
    return None;
  }

  method ValidZoneOffsets(s: Section) returns (refusal: Option<Refusal>)
    requires s.timestampedLines > 0 ==> s.first.Some? && s.last.Some?
    ensures refusal.None? <==> ValidZones(s)
  {
    if s.zoneOffsets.None? {
      return if s.hasZone then None else Some(ZonesNull);
    }
    var points := s.zoneOffsets.value;
    if |points| > MAX_ZONE_OFFSETS {
      return Some(TooManyZones);
    }
    if (|points| > 0) != (s.timestampedLines > 0) {
      return Some(ZonesDoNotMatch);
    }
    if points == [] {
      return None;
    }
    var firstOffset := if s.firstZone.Some? then s.firstZone.value else 0;
    if points[0].line != s.first.value.line || points[0].offsetMinutes != firstOffset {
      return Some(ZonesStart);
    }
    if !s.hasZone && |points| > 1 {
      return Some(ZonesOfZoneless);
    }
    for i := 0 to |points|
      invariant forall k :: 0 <= k < i ==>
                  && -MAX_ZONE_OFFSET_MINUTES <= points[k].offsetMinutes <= MAX_ZONE_OFFSET_MINUTES
                  && points[k].line <= s.last.value.line
      invariant forall j, k :: 0 <= j < k < i && k <= j + 1 ==> Changes(points[j], points[k])
    {
      var p := points[i];
      if p.offsetMinutes < -MAX_ZONE_OFFSET_MINUTES || p.offsetMinutes > MAX_ZONE_OFFSET_MINUTES {
        return Some(ZoneTooLarge(i));
      }
      if p.line > s.last.value.line {
        return Some(ZoneAfterLast(i));
      }
      if i > 0 && (p.line <= points[i - 1].line || p.offsetMinutes == points[i - 1].offsetMinutes) {
        assert !Changes(points[i - 1], points[i]);
        return Some(ZoneNoChange(i));
      }
    }
    return None;
  }

  /** Holds each entry to the last one that had a value. */
  method MaxBeforeNeverDecreases(s: Section) returns (refusal: Option<Refusal>)
    ensures refusal.None? <==> ValidMaxBefore(s)
  {
    var entries := s.maxBefore;
    var previous: Option<int> := None;
    ghost var at := 0;
    for i := 0 to |entries|
      invariant previous.None? ==> forall j :: 0 <= j < i ==> entries[j].None?
      invariant previous.Some? ==> 0 <= at < i && entries[at] == previous && at == i - 1
      invariant forall j :: 0 <= j < i && entries[j].Some? ==>
                  InValueRange(entries[j].value) && previous.Some? && entries[j].value <= previous.value
      invariant forall j, k :: 0 <= j < k < i && entries[j].Some? ==>
                  entries[k].Some? && entries[j].value <= entries[k].value
    {
      var v := entries[i];
      if previous.Some? && (v.None? || v.value < previous.value) {
        assert 0 <= at < i && entries[at].Some?;
        return Some(MaxBeforeDecreases(i));
      }
      if v.Some? && !InValueRange(v.value) {
        return Some(MaxBeforeOutsideYears(i));
      }
      if v.Some? {
        previous := v;
      }
      at := i;
    }
    return None;
  }

  method ValidMaxPoint(s: Section, checkpoints: seq<Checkpoint>) returns (refusal: Option<Refusal>)
    requires |s.maxBefore| == |checkpoints| && (s.max.Some? ==> s.first.Some? && s.last.Some?)
    ensures refusal.None? <==> ValidMax(s, checkpoints)
  {
    if s.max.None? {
      for i := 0 to |s.maxBefore|
        invariant forall j :: 0 <= j < i ==> s.maxBefore[j].None?
      {
        if s.maxBefore[i].Some? {
          return Some(MaxBeforeOfUntimed(i));
        }
      }
      return None;
    }
    var first, highest, last := s.first.value, s.max.value, s.last.value;
    if highest.line < first.line || highest.line > last.line {
      return Some(MaxOutside);
    }
    if highest.ms < first.ms || highest.ms < last.ms {
      return Some(MaxTooLow);
    }
    if first.offset < 0 {
      return Some(FirstOffsetNegative);
    }
    var points := [first, highest, last];
    for i := 0 to 2
      invariant forall j :: 0 <= j < i ==> OffsetsInOrder(points[j], points[j + 1])
    {
      var earlier, later := points[i], points[i + 1];
      var sameLine := earlier.line == later.line;
      if sameLine != (earlier.offset == later.offset) || earlier.offset > later.offset {
        assert !OffsetsInOrder(points[i], points[i + 1]);
        return Some(OffsetsOutOfOrder);
      }
    }
    assert OffsetsInOrder(points[0], points[1]) && OffsetsInOrder(points[1], points[2]);
    for i := 0 to |s.maxBefore|
      invariant forall j :: 0 <= j < i ==> AgreesWithMax(s.maxBefore[j], checkpoints[j].line, highest)
    {
      if !AgreesWithMax(s.maxBefore[i], checkpoints[i].line, highest) {
        return Some(MaxBeforeDisagrees(i));
      }
    }
    return None;
  }
}
