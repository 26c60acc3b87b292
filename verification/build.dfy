/** The time section of a whole build: what a walk collects is what a reader
    of the index accepts. */
module Build {
  import opened Common
  import opened TimeSection
  import opened TimeIndexing
  import opened Lookup
  import opened Walk
  import opened SeekableIndex

  /** lines are all the lines of text. */
  ghost predicate WholeText(lines: seq<Line>, text: seq<byte>, own: seq<byte> -> Option<Stamp>) {
    LinesOf(lines, text, own) && End(lines) == |text|
  }

  lemma IndexIsCheckpoints(index: seq<Checkpoint>, lines: seq<Line>, step: int)
    requires IsLineIndex(index, lines, step)
    ensures CheckpointsOf(index, lines)
  {
  }

  lemma NamedIsMarked(marks: seq<Mark>, checkpoints: seq<Checkpoint>, lines: seq<Line>, table: seq<Frame>)
    requires NamedByFrames(checkpoints, lines, table) && Covers(marks, lines, table)
    ensures forall i :: 0 <= i < |checkpoints| ==> Marked(marks, checkpoints[i].line)
  {
    forall i | 0 <= i < |checkpoints|
      ensures Marked(marks, checkpoints[i].line)
    {
      assert IsNamed(checkpoints[i], lines, table);
    }
    hide CanName, Marked, CheckpointsOf;
  }

  /** The section once the walk saw every line. */
  method TakeSection(times: TimeIndexer, checkpoints: seq<Checkpoint>, ghost lines: seq<Line>)
    returns (section: Option<Section>)
    requires times.Valid() && times.seen == lines && CheckpointsOf(checkpoints, lines)
    requires forall i :: 0 <= i < |checkpoints| ==> Marked(times.marks, checkpoints[i].line)
    ensures section.Some? && section.value == SectionOf(lines, times.hasZone, checkpoints)
    ensures Acceptable(section.value, |lines|, checkpoints)
  {
    section := times.Result(checkpoints);
    assert IsText(lines);
    SectionIsAcceptable(lines, times.hasZone, checkpoints);
  }

  /** The index of a text that is walked from its first byte. It has a section
      of timestamps exactly when a format is known, and a reader accepts that
      section. */
  method BuildText(text: seq<byte>, size: nat, step: int, own: seq<byte> -> Option<Stamp>, hasZone: Option<bool>)
    returns (stats: WalkStats, section: Option<Section>, ghost lines: seq<Line>)
    requires size >= 1 && step >= 1 && Promises(own)
    ensures WholeText(lines, text, own) && stats.lineCount == |lines| && IsLineIndex(stats.lineIndex, lines, step)
    ensures section.Some? <==> hasZone.Some?
    ensures section.Some? ==>
              && CheckpointsOf(stats.lineIndex, lines)
              && section.value == SectionOf(lines, hasZone.value, stats.lineIndex)
              && Acceptable(section.value, stats.lineCount, stats.lineIndex)
  {
    hide LinesOf, IsLineIndex, Acceptable, CheckpointsOf, SectionOf, TimeIndexer.Valid, TimeIndexer.FramesFollow;
    section := None;
    if hasZone.None? {
      stats, lines := WalkLines(text, size, step, own, null);
    } else {
      var times := NewTimes(hasZone.value);
      stats, lines := WalkLines(text, size, step, own, times);
      IndexIsCheckpoints(stats.lineIndex, lines, step);
      section := TakeSection(times, stats.lineIndex, lines);
    }
  }

  method NewTimes(hasZone: bool) returns (times: TimeIndexer)
    ensures fresh(times) && Saw(times, [], []) && times.hasZone == hasZone && times.frames == null
  {
    times := new TimeIndexer(hasZone);
  }

  method NewTimesOver(hasZone: bool, table: seq<Frame>) returns (times: TimeIndexer)
    requires Contiguous(table)
    ensures fresh(times) && Saw(times, [], []) && times.hasZone == hasZone
    ensures times.frames != null && fresh(times.frames) && times.frames.frames == table
  {
    times := new TimeIndexer(hasZone);
    times.UseFrames(table);
  }

  /** Indexes a seekable file: one pass over its frames lists the lines each
      holds and the checkpoints, the walk of their text collects the time
      section. Both count the same lines, the section exists, and a reader
      accepts it. */
  method BuildSeekable(text: seq<byte>, size: nat, step: int, own: seq<byte> -> Option<Stamp>, hasZone: bool,
                       table: seq<Frame>)
    returns (frames: seq<FrameLines>, index: seq<Checkpoint>, lineCount: nat, section: Option<Section>,
             ghost lines: seq<Line>)
    requires size >= 1 && step >= 1 && Promises(own) && TableOf(table, text)
    ensures WholeText(lines, text, own) && lineCount == |lines| && |frames| == |table| && LinesListed(frames, table, text)
    ensures NamedByFrames(index, lines, table) && LinesAscend(index) && OffsetsAscend(index)
    ensures section.Some? && section.value == SectionOf(lines, hasZone, index)
    ensures Acceptable(section.value, lineCount, index)
  {
    frames, index, lineCount := ListFrames(text, table);
    assert Contiguous(table);
    var times := NewTimesOver(hasZone, table);
    var stats;
    hide LinesOf, IsLineIndex, Acceptable, SectionOf, IsText, CanName, TableOf, OfFrames, IsNamed, LinesAscend, OffsetsAscend,
         LinesListed, Contiguous;
    stats, lines := WalkLines(text, size, step, own, times);
    assert WholeText(lines, text, own);
    IndexIsNamed(table, text, lines, own);
    LinesByBreaks(lines, text, own);
    NamedIsMarked(times.marks, index, lines, table);
    section := TakeSection(times, index, lines);
  }
}
