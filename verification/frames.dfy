/** Which lines each frame of a seekable file holds, and the checkpoints of
    the file's index, by one loop over the frames' texts. */
module SeekableIndex {
  import opened Common
  import opened TimeSection
  import opened TimeIndexing
  import opened Lookup
  import opened Walk

  // ---------------------------------------------------------------------
  // Lines by their breaks.

  /** The line breaks among the first n bytes of text. */
  function Breaks(text: seq<byte>, n: nat): nat
    requires n <= |text|
  {
    if n == 0 then 0 else Breaks(text, n - 1) + (if text[n - 1] == LF then 1 else 0)
  }

  /** The number of the line that byte at is on, or would be on. */
  function LineAt(text: seq<byte>, at: nat): nat
    requires at <= |text|
  {
    Breaks(text, at) + 1
  }

  /** Whether the first n bytes of text end inside a line. */
  predicate Open(text: seq<byte>, n: nat)
    requires n <= |text|
  {
    n > 0 && text[n - 1] != LF
  }

  lemma {:induction false} BreaksOfPiece(text: seq<byte>, a: nat, b: nat)
    requires a <= b <= |text|
    ensures Breaks(text, b) == Breaks(text, a) + CountByte(text[a..b], LF)
    decreases b
  {
    if a < b {
      BreaksOfPiece(text, a, b - 1);
      assert text[a..b] == text[a..b - 1] + [text[b - 1]];
      CountByteConcat(text[a..b - 1], [text[b - 1]], LF);
    }
  }

  lemma {:induction false} NoBreaks(text: seq<byte>, a: nat, b: nat)
    requires a <= b <= |text| && forall i :: a <= i < b ==> text[i] != LF
    ensures Breaks(text, b) == Breaks(text, a)
    decreases b
  {
    if a < b {
      NoBreaks(text, a, b - 1);
    }
  }

  /** Before a byte of the line with index k there are k line breaks. */
  lemma {:induction false} BreaksInLine(lines: seq<Line>, text: seq<byte>, own: seq<byte> -> Option<Stamp>, k: nat, at: nat)
    requires LinesOf(lines, text, own) && k < |lines| && lines[k].start <= at < lines[k].end <= |text|
    ensures Breaks(text, at) == k
    decreases at
  {
    assert IsLineOf(lines[k], text, own);
    LineEndIsBreak(text, lines[k].start);
    if at > lines[k].start {
      BreaksInLine(lines, text, own, k, at - 1);
    } else if k > 0 {
      assert IsLineOf(lines[k - 1], text, own) && lines[k].start == lines[k - 1].end;
      LineEndIsBreak(text, lines[k - 1].start);
      BreaksInLine(lines, text, own, k - 1, at - 1);
    }
  }

  /** The line that holds a byte is the one its breaks give. */
  lemma {:induction false} LineAtHolds(lines: seq<Line>, text: seq<byte>, own: seq<byte> -> Option<Stamp>, at: nat, n: nat)
    requires LinesOf(lines, text, own) && n <= |lines| && at < End(lines[..n])
    ensures at < |text| && HoldsByte(lines, LineAt(text, at), at)
    decreases n
  {
    assert lines[..n][n - 1] == lines[n - 1];
    assert IsLineOf(lines[n - 1], text, own);
    if at >= lines[n - 1].start {
      BreaksInLine(lines, text, own, n - 1, at);
    } else {
      assert n > 1 && lines[n - 1].start == lines[n - 2].end;
      LineAtHolds(lines, text, own, at, n - 1);
    }
  }

  /** A text has a line for every break, and one more when it ends inside a
      line. */
  lemma LinesByBreaks(lines: seq<Line>, text: seq<byte>, own: seq<byte> -> Option<Stamp>)
    requires LinesOf(lines, text, own) && End(lines) == |text|
    ensures |lines| == Breaks(text, |text|) + (if Open(text, |text|) then 1 else 0)
  {
    hide LinesOf;
    if lines != [] {
      var k := |lines| - 1;
      LastLine(lines, text, own, k);
      BreaksInLine(lines, text, own, k, |text| - 1);
    }
  }

  lemma LastLine(lines: seq<Line>, text: seq<byte>, own: seq<byte> -> Option<Stamp>, k: nat)
    requires LinesOf(lines, text, own) && k == |lines| - 1 && End(lines) == |text|
    ensures lines[k].start < lines[k].end == |text|
  {
    assert IsLineOf(lines[k], text, own);
    hide LineEnd;
  }

  // ---------------------------------------------------------------------
  // The checkpoints of one frame.

  /** Whether a checkpoint stands inside a frame that begins at byte offset:
      a line starts there, a multiple of the interval after the frame's
      first line. */
  predicate IsInterior(text: seq<byte>, offset: nat, at: nat)
    requires offset < at <= |text|
  {
    text[at - 1] == LF && (Breaks(text, at) - Breaks(text, offset)) % CHECKPOINT_LINE_INTERVAL == 0
  }

  /** The interior checkpoints after offset, up to byte at. */
  function Interior(text: seq<byte>, offset: nat, at: nat): seq<Checkpoint>
    requires offset <= at <= |text|
  {
    if at == offset then []
    else Interior(text, offset, at - 1) + (if IsInterior(text, offset, at) then [Checkpoint(LineAt(text, at), at)] else [])
  }

  lemma {:induction false} NoneBetween(text: seq<byte>, offset: nat, a: nat, b: nat)
    requires offset <= a <= b <= |text| && forall i :: a <= i < b ==> text[i] != LF
    ensures Interior(text, offset, b) == Interior(text, offset, a)
    decreases b
  {
    if a < b {
      NoneBetween(text, offset, a, b - 1);
    }
  }

  /** The position of the first line break in data from a position on, -1
      when there is none. */
  method IndexBreak(data: seq<byte>, start: nat) returns (at: int)
    requires start <= |data|
    ensures at < 0 ==> forall i :: start <= i < |data| ==> data[i] != LF
    ensures at >= 0 ==> start <= at < |data| && data[at] == LF && forall i :: start <= i < at ==> data[i] != LF
  {
    at := start;
    while at < |data|
      invariant start <= at <= |data| && forall i :: start <= i < at ==> data[i] != LF
    {
      if data[at] == LF {
        return;
      }
      at := at + 1;
    }
    at := -1;
  }

  /** From one line start of a frame to the next: the number of the line, and
      the checkpoints with it. */
  lemma NextStart(text: seq<byte>, offset: nat, a: nat, b: nat)
    requires offset <= a < b <= |text| && text[b - 1] == LF && forall i :: a <= i < b - 1 ==> text[i] != LF
    ensures LineAt(text, b) == LineAt(text, a) + 1
    ensures Interior(text, offset, b - 1) == Interior(text, offset, a)
  {
    NoBreaks(text, a, b - 1);
    NoneBetween(text, offset, a, b - 1);
  }

  /** A checkpoint on every line that starts inside the frame a multiple of
      the interval after its first line. */
  method InteriorCheckpoints(data: seq<byte>, offset: nat, firstLine: nat, ghost text: seq<byte>)
    returns (out: seq<Checkpoint>)
    requires 0 < |data| && offset + |data| <= |text| && data == Piece(text, offset, offset + |data|)
    requires firstLine == LineAt(text, offset)
    ensures out == Interior(text, offset, offset + |data| - 1)
  {
    var lineNumber, lineStart := firstLine, 0;
    out := [];
    while true
      invariant 0 <= lineStart < |data| && lineNumber == LineAt(text, offset + lineStart)
      invariant out == Interior(text, offset, offset + lineStart)
      decreases |data| - lineStart
    {
      var breakAt := IndexBreak(data, lineStart);
      assert forall i :: 0 <= i < |data| ==> data[i] == text[offset + i];
      if breakAt < 0 {
        NoLaterBreak(data, text, offset, lineStart, |data| - 1);
        break;
      }
      ghost var start := offset + lineStart;
      NoLaterBreak(data, text, offset, lineStart, breakAt);
      NextStart(text, offset, start, offset + breakAt + 1);
      lineStart := breakAt + 1;
      lineNumber := lineNumber + 1;
      if lineStart >= |data| {
        break;
      }
      if (lineNumber - firstLine) % CHECKPOINT_LINE_INTERVAL == 0 {
        out := out + [Checkpoint(lineNumber, offset + lineStart)];
      }
    }
  }

  lemma NoLaterBreak(data: seq<byte>, text: seq<byte>, offset: nat, a: nat, b: nat)
    requires a <= b <= |data| && offset + |data| <= |text| && data == Piece(text, offset, offset + |data|)
    requires forall i :: a <= i < b ==> data[i] != LF
    ensures forall i :: offset + a <= i < offset + b ==> text[i] != LF
    ensures Interior(text, offset, offset + b) == Interior(text, offset, offset + a)
  {
    forall i | offset + a <= i < offset + b
      ensures text[i] != LF
    {
      assert text[i] == data[i - offset];
    }
    NoneBetween(text, offset, offset + a, offset + b);
  }

  // ---------------------------------------------------------------------
  // All frames.

  /** The frames of a table hold the text, one after another. */
  ghost predicate TableOf(table: seq<Frame>, text: seq<byte>) {
    Contiguous(table) && FrameStart(table, |table|) == |text|
  }

  /** Where frame k begins, or, past the last one, the text ends. */
  function FrameStart(table: seq<Frame>, k: nat): nat
    requires k <= |table|
  {
    if k == 0 then 0 else table[k - 1].End()
  }

  lemma {:induction false} FramesWithin(table: seq<Frame>, text: seq<byte>, k: nat)
    requires TableOf(table, text) && k < |table|
    ensures table[k].offset == FrameStart(table, k) <= table[k].End() == FrameStart(table, k + 1) <= |text|
  {
    if k < |table| - 1 {
      FramesAscend(table, k, |table| - 1);
    }
  }

  /** How many lines end with frame k: one a break, and one more with the last
      frame when the text stops inside a line. */
  function EndedIn(table: seq<Frame>, text: seq<byte>, k: nat): nat
    requires k < |table| && table[k].End() <= |text|
  {
    CountByte(text[table[k].offset..table[k].End()], LF) + (if k == |table| - 1 && Open(text, |text|) then 1 else 0)
  }

  /** The lines a frame holds: from the one with its first byte, those it
      ends. */
  datatype FrameLines = FrameLines(first: int, last: int, count: nat)

  /** The checkpoints of one frame that ends so many lines: on the line with
      its first byte, if it has one, and inside it, when it ends many. */
  function OfFrame(text: seq<byte>, frame: Frame, ended: nat): seq<Checkpoint>
    requires frame.End() <= |text|
  {
    if frame.size == 0 then []
    else
      [Checkpoint(LineAt(text, frame.offset), frame.offset)]
      + (if ended > CHECKPOINT_LINE_INTERVAL then Interior(text, frame.offset, frame.End() - 1) else [])
  }

  /** The checkpoints of the first n frames. */
  ghost function OfFrames(table: seq<Frame>, text: seq<byte>, n: nat): seq<Checkpoint>
    requires TableOf(table, text) && n <= |table|
  {
    if n == 0 then []
    else
      FramesWithin(table, text, n - 1);
      OfFrames(table, text, n - 1) + OfFrame(text, table[n - 1], EndedIn(table, text, n - 1))
  }

  /** The lines each of the first n frames holds. */
  ghost predicate LinesListed(frames: seq<FrameLines>, table: seq<Frame>, text: seq<byte>)
    requires TableOf(table, text)
  {
    && |frames| <= |table|
    && forall k :: 0 <= k < |frames| ==>
         && table[k].offset <= table[k].End() <= |text|
         && frames[k] == FrameLines(LineAt(text, table[k].offset),
                                    LineAt(text, table[k].offset) + EndedIn(table, text, k) - 1, EndedIn(table, text, k))
  }

  /** What is known once n frames were read. */
  ghost predicate Listing(table: seq<Frame>, text: seq<byte>, n: nat, frames: seq<FrameLines>, index: seq<Checkpoint>,
                          linesBefore: nat, atLineStart: bool, lineCount: nat)
    requires TableOf(table, text) && n <= |table| && FrameStart(table, n) <= |text|
  {
    && |frames| == n && LinesListed(frames, table, text) && index == OfFrames(table, text, n)
    && linesBefore == Breaks(text, FrameStart(table, n)) && atLineStart == !Open(text, FrameStart(table, n))
    && lineCount == linesBefore + (if 0 < n == |table| && Open(text, |text|) then 1 else 0)
  }

  /** One frame read: the lines it holds and its checkpoints. */
  method ReadFrame(table: seq<Frame>, n: nat, data: seq<byte>, linesBefore: nat, atLineStart: bool, ghost text: seq<byte>)
    returns (frame: FrameLines, added: seq<Checkpoint>, breaks: nat, atStart: bool)
    requires TableOf(table, text) && n < |table| && table[n].End() <= |text|
    requires data == Piece(text, table[n].offset, table[n].End())
    requires linesBefore == Breaks(text, table[n].offset) && atLineStart == !Open(text, table[n].offset)
    ensures breaks == CountByte(data, LF) && atStart == !Open(text, table[n].End())
    ensures frame.count == EndedIn(table, text, n)
    ensures frame.first == LineAt(text, table[n].offset) && frame.last == frame.first + frame.count - 1
    ensures added == OfFrame(text, table[n], frame.count)
  {
    FramesWithin(table, text, n);
    breaks := CountByte(data, LF);
    atStart := if |data| > 0 then data[|data| - 1] == LF else atLineStart;
    assert |data| > 0 ==> data[|data| - 1] == text[table[n].End() - 1];
    var ended := breaks + (if n == |table| - 1 && !atStart then 1 else 0);
    frame := FrameLines(linesBefore + 1, linesBefore + ended, ended);
    added := [];
    if table[n].size > 0 {
      added := [Checkpoint(frame.first, table[n].offset)];
      if ended > CHECKPOINT_LINE_INTERVAL {
        var inside := InteriorCheckpoints(data, table[n].offset, frame.first, text);
        added := added + inside;
      }
    }
  }

  lemma ListingMore(table: seq<Frame>, text: seq<byte>, n: nat, frames: seq<FrameLines>, index: seq<Checkpoint>,
                    linesBefore: nat, atLineStart: bool, lineCount: nat, frame: FrameLines, breaks: nat)
    requires TableOf(table, text) && n < |table| && table[n].offset == FrameStart(table, n) <= table[n].End() <= |text|
    requires Listing(table, text, n, frames, index, linesBefore, atLineStart, lineCount)
    requires breaks == CountByte(text[table[n].offset..table[n].End()], LF)
    requires frame.count == EndedIn(table, text, n)
    requires frame.first == LineAt(text, table[n].offset) && frame.last == frame.first + frame.count - 1
    ensures Listing(table, text, n + 1, frames + [frame], index + OfFrame(text, table[n], frame.count),
                    linesBefore + breaks, !Open(text, table[n].End()), lineCount + frame.count)
  {
    BreaksOfPiece(text, table[n].offset, table[n].End());
    ListedMore(frames, table, text, frame);
    hide Contiguous, CountByte, OfFrame, Open, LinesListed, TableOf;
  }

  lemma ListedMore(frames: seq<FrameLines>, table: seq<Frame>, text: seq<byte>, frame: FrameLines)
    requires TableOf(table, text) && LinesListed(frames, table, text) && |frames| < |table|
    requires var n := |frames|;
             && table[n].End() <= |text| && frame.count == EndedIn(table, text, n)
             && frame.first == LineAt(text, table[n].offset) && frame.last == frame.first + frame.count - 1
    ensures LinesListed(frames + [frame], table, text)
  {
    hide Contiguous, CountByte, EndedIn;
  }

  /** One pass over the frames, each decompressed to its part of the text. */
  method ListFrames(text: seq<byte>, table: seq<Frame>)
    returns (frames: seq<FrameLines>, index: seq<Checkpoint>, lineCount: nat)
    requires TableOf(table, text)
    ensures |frames| == |table| && LinesListed(frames, table, text) && index == OfFrames(table, text, |table|)
    ensures lineCount == Breaks(text, |text|) + (if Open(text, |text|) then 1 else 0)
  {
    frames, index, lineCount := [], [], 0;
    var linesBefore, atLineStart := 0, true;
    for n := 0 to |table|
      invariant FrameStart(table, n) <= |text|
      invariant Listing(table, text, n, frames, index, linesBefore, atLineStart, lineCount)
    {
      FramesWithin(table, text, n);
      hide TableOf, Open, OfFrame, EndedIn, Contiguous, LinesListed, CountByte, Breaks, OfFrames, LineAt;
      var frame, added, breaks;
      ghost var before := atLineStart;
      var data := Piece(text, table[n].offset, table[n].End());
      frame, added, breaks, atLineStart := ReadFrame(table, n, data, linesBefore, atLineStart, text);
      ListingMore(table, text, n, frames, index, linesBefore, before, lineCount, frame, breaks);
      frames, index := frames + [frame], index + added;
      linesBefore, lineCount := linesBefore + breaks, lineCount + frame.count;
    }
  }

  // ---------------------------------------------------------------------
  // What the lists mean.

  /** Every line is held by one frame: the first frame's first line is line 1,
      each frame goes on with the line after those of the frame before, and
      the last frame's last line is the text's. */
  lemma FramesShareLines(table: seq<Frame>, text: seq<byte>, frames: seq<FrameLines>, lines: seq<Line>,
                         own: seq<byte> -> Option<Stamp>, k: nat)
    requires TableOf(table, text) && |frames| == |table| && LinesListed(frames, table, text) && k < |frames|
    requires LinesOf(lines, text, own) && End(lines) == |text|
    ensures k == 0 ==> frames[k].first == 1
    ensures k + 1 < |frames| ==> frames[k + 1].first == frames[k].last + 1
    ensures k + 1 == |frames| ==> frames[k].last == |lines|
  {
    FramesWithin(table, text, k);
    BreaksOfPiece(text, table[k].offset, table[k].End());
    if k + 1 < |frames| {
      FramesWithin(table, text, k + 1);
    } else {
      LinesByBreaks(lines, text, own);
    }
    hide LinesOf, Contiguous, CountByte, Open;
  }

  lemma {:induction false} BreaksAscend(text: seq<byte>, a: nat, b: nat)
    requires a <= b <= |text|
    ensures Breaks(text, a) <= Breaks(text, b)
    decreases b
  {
    if a < b {
      BreaksAscend(text, a, b - 1);
    }
  }

  /** Checkpoints at ascending bytes from lo to before hi, each with the
      number of the line its byte is on. */
  ghost predicate Placed(index: seq<Checkpoint>, text: seq<byte>, lo: nat, hi: nat)
    requires hi <= |text|
  {
    && (forall i :: 0 <= i < |index| ==> IsPlaced(index[i], text, lo, hi))
    && (forall i, j :: 0 <= i < j < |index| ==> index[i].offset < index[j].offset)
  }

  predicate IsPlaced(c: Checkpoint, text: seq<byte>, lo: nat, hi: nat)
    requires hi <= |text|
  {
    lo <= c.offset < hi && c.line == LineAt(text, c.offset)
  }

  lemma PlacedTogether(a: seq<Checkpoint>, b: seq<Checkpoint>, text: seq<byte>, lo: nat, mid: nat, hi: nat)
    requires lo <= mid <= hi <= |text| && Placed(a, text, lo, mid) && Placed(b, text, mid, hi)
    ensures Placed(a + b, text, lo, hi)
  {
    forall i | 0 <= i < |a + b|
      ensures IsPlaced((a + b)[i], text, lo, hi)
    {
      assert if i < |a| then IsPlaced(a[i], text, lo, mid) else IsPlaced(b[i - |a|], text, mid, hi);
    }
    forall i, j | 0 <= i < j < |a + b|
      ensures (a + b)[i].offset < (a + b)[j].offset
    {
      assert i < |a| ==> IsPlaced(a[i], text, lo, mid);
      assert j >= |a| ==> IsPlaced(b[j - |a|], text, mid, hi);
      assert i >= |a| ==> b[i - |a|].offset < b[j - |a|].offset;
    }
  }

  ghost predicate AllInterior(index: seq<Checkpoint>, text: seq<byte>, offset: nat, at: nat)
    requires offset <= at <= |text|
  {
    forall c :: c in index ==> offset < c.offset <= at && IsInterior(text, offset, c.offset)
  }

  /** Interior checkpoints stand where the rule puts them. */
  lemma {:induction false} InteriorPlaced(text: seq<byte>, offset: nat, at: nat)
    requires offset <= at < |text|
    ensures Placed(Interior(text, offset, at), text, offset + 1, at + 1)
    ensures AllInterior(Interior(text, offset, at), text, offset, at)
    decreases at
  {
    hide *;
    if at > offset {
      InteriorPlaced(text, offset, at - 1);
      LastInterior(text, offset, at);
      PlacedTogether(Interior(text, offset, at - 1), AtLast(text, offset, at), text, offset + 1, at, at + 1);
    } else {
      NoInterior(text, offset);
    }
  }

  lemma NoInterior(text: seq<byte>, offset: nat)
    requires offset < |text|
    ensures Placed(Interior(text, offset, offset), text, offset + 1, offset + 1)
    ensures AllInterior(Interior(text, offset, offset), text, offset, offset)
  {
  }

  /** The interior checkpoint at one byte, if any. */
  function AtLast(text: seq<byte>, offset: nat, at: nat): seq<Checkpoint>
    requires offset < at <= |text|
  {
    if IsInterior(text, offset, at) then [Checkpoint(LineAt(text, at), at)] else []
  }

  lemma LastInterior(text: seq<byte>, offset: nat, at: nat)
    requires offset < at < |text| && AllInterior(Interior(text, offset, at - 1), text, offset, at - 1)
    ensures Interior(text, offset, at) == Interior(text, offset, at - 1) + AtLast(text, offset, at)
    ensures Placed(AtLast(text, offset, at), text, at, at + 1)
    ensures AllInterior(Interior(text, offset, at), text, offset, at)
  {
    hide LineAt;
    assert Interior(text, offset, at) == Interior(text, offset, at - 1) + AtLast(text, offset, at);
  }

  /** A frame's checkpoints are on the line with its first byte, or interior. */
  lemma FramePlaced(text: seq<byte>, frame: Frame, ended: nat)
    requires frame.End() <= |text|
    ensures Placed(OfFrame(text, frame, ended), text, frame.offset, frame.End())
    ensures forall c :: c in OfFrame(text, frame, ended) ==>
              && frame.size > 0 && frame.offset <= c.offset < frame.End() && c.line == LineAt(text, c.offset)
              && (c.offset == frame.offset || IsInterior(text, frame.offset, c.offset))
  {
    if frame.size > 0 {
      var first := [Checkpoint(LineAt(text, frame.offset), frame.offset)];
      assert Placed(first, text, frame.offset, frame.offset + 1);
      InteriorPlaced(text, frame.offset, frame.End() - 1);
      PlacedTogether(first, Interior(text, frame.offset, frame.End() - 1), text, frame.offset, frame.offset + 1, frame.End());
      assert Placed(first, text, frame.offset, frame.End());
      InPlace(Interior(text, frame.offset, frame.End() - 1), text, frame.offset + 1, frame.End());
      hide Interior, IsInterior, LineAt, Placed;
    }
  }

  lemma InPlace(index: seq<Checkpoint>, text: seq<byte>, lo: nat, hi: nat)
    requires hi <= |text| && Placed(index, text, lo, hi)
    ensures forall c :: c in index ==> IsPlaced(c, text, lo, hi)
  {
  }

  lemma {:induction false} FramesPlaced(table: seq<Frame>, text: seq<byte>, n: nat)
    requires TableOf(table, text) && n <= |table|
    ensures FrameStart(table, n) <= |text| && Placed(OfFrames(table, text, n), text, 0, FrameStart(table, n))
  {
    if n > 0 {
      FramesWithin(table, text, n - 1);
      FramesPlaced(table, text, n - 1);
      FramePlaced(text, table[n - 1], EndedIn(table, text, n - 1));
      PlacedTogether(OfFrames(table, text, n - 1), OfFrame(text, table[n - 1], EndedIn(table, text, n - 1)), text, 0,
                     FrameStart(table, n - 1), FrameStart(table, n));
    }
  }

  /** A line starts after each line break. */
  lemma StartAfterBreak(lines: seq<Line>, text: seq<byte>, own: seq<byte> -> Option<Stamp>, at: nat)
    requires LinesOf(lines, text, own) && End(lines) == |text| && 0 < at < |text| && text[at - 1] == LF
    ensures LineAt(text, at) <= |lines| && lines[LineAt(text, at) - 1].start == at
  {
    ByteIsHeld(lines, text, own, at);
    var k := LineAt(text, at) - 1;
    if lines[k].start < at {
      LineWithin(lines, text, own, k);
      BreaksInLine(lines, text, own, k, at - 1);
      hide LinesOf;
    }
  }

  lemma LineWithin(lines: seq<Line>, text: seq<byte>, own: seq<byte> -> Option<Stamp>, k: nat)
    requires LinesOf(lines, text, own) && k < |lines|
    ensures lines[k].end <= |text|
  {
    assert IsLineOf(lines[k], text, own);
  }

  lemma ByteIsHeld(lines: seq<Line>, text: seq<byte>, own: seq<byte> -> Option<Stamp>, at: nat)
    requires LinesOf(lines, text, own) && End(lines) == |text| && at < |text|
    ensures HoldsByte(lines, LineAt(text, at), at)
  {
    assert lines[..|lines|] == lines;
    hide LinesOf, LineAt, HoldsByte;
    LineAtHolds(lines, text, own, at, |lines|);
  }

  /** The line of an interior checkpoint, by the breaks since its frame's
      first byte. */
  lemma InteriorLine(text: seq<byte>, offset: nat, at: nat)
    requires offset < at <= |text| && IsInterior(text, offset, at)
    ensures text[at - 1] == LF && LineAt(text, offset) < LineAt(text, at)
    ensures (LineAt(text, at) - LineAt(text, offset)) % CHECKPOINT_LINE_INTERVAL == 0
  {
    BreaksAscend(text, offset, at - 1);
  }

  /** The frame can name the line of each of its checkpoints. */
  lemma CheckpointNamed(lines: seq<Line>, text: seq<byte>, own: seq<byte> -> Option<Stamp>, frame: Frame, c: Checkpoint)
    requires LinesOf(lines, text, own) && End(lines) == |text| && frame.End() <= |text| && frame.size > 0
    requires frame.offset <= c.offset < frame.End() && c.line == LineAt(text, c.offset)
    requires c.offset == frame.offset || IsInterior(text, frame.offset, c.offset)
    ensures 1 <= c.line <= |lines| && CanName(lines, frame, LineAt(text, frame.offset), c.line)
  {
    hide *;
    ByteIsHeld(lines, text, own, frame.offset);
    if c.offset > frame.offset {
      InteriorLine(text, frame.offset, c.offset);
      StartAfterBreak(lines, text, own, c.offset);
    }
    RuleNames(lines, frame, LineAt(text, frame.offset), c);
  }

  lemma RuleNames(lines: seq<Line>, frame: Frame, holding: int, c: Checkpoint)
    requires frame.size > 0 && HoldsByte(lines, holding, frame.offset)
    requires (c.offset == frame.offset && c.line == holding) ||
             (&& holding < c.line <= |lines| && lines[c.line - 1].start == c.offset
              && frame.offset <= c.offset < frame.End() && (c.line - holding) % CHECKPOINT_LINE_INTERVAL == 0)
    ensures 1 <= c.line <= |lines| && CanName(lines, frame, holding, c.line)
  {
  }

  /** Every checkpoint is one the frames' rule can name, in line order. */
  ghost predicate NamedByFrames(checkpoints: seq<Checkpoint>, lines: seq<Line>, table: seq<Frame>) {
    && CheckpointsOf(checkpoints, lines)
    && forall i :: 0 <= i < |checkpoints| ==> IsNamed(checkpoints[i], lines, table)
  }

  ghost predicate IsNamed(c: Checkpoint, lines: seq<Line>, table: seq<Frame>) {
    exists k, holding :: 0 <= k < |table| && CanName(lines, table[k], holding, c.line)
  }

  lemma {:induction false} AllNamed(table: seq<Frame>, text: seq<byte>, n: nat, lines: seq<Line>,
                                    own: seq<byte> -> Option<Stamp>, c: Checkpoint)
    requires TableOf(table, text) && n <= |table| && LinesOf(lines, text, own) && End(lines) == |text|
    requires c in OfFrames(table, text, n)
    ensures IsNamed(c, lines, table) && 1 <= c.line <= |lines|
  {
    FramesWithin(table, text, n - 1);
    if c in OfFrames(table, text, n - 1) {
      AllNamed(table, text, n - 1, lines, own, c);
    } else {
      FramePlaced(text, table[n - 1], EndedIn(table, text, n - 1));
      CheckpointNamed(lines, text, own, table[n - 1], c);
    }
    hide LinesOf, OfFrame, CanName, EndedIn, Placed, TableOf;
  }

  /** The index of a seekable file is in line order and in byte order, with
      the first byte of every frame of text among its checkpoints, and each
      checkpoint is on a line the frames' rule can name, so one the walk of
      the text has marked. */
  lemma IndexIsNamed(table: seq<Frame>, text: seq<byte>, lines: seq<Line>, own: seq<byte> -> Option<Stamp>)
    requires TableOf(table, text) && LinesOf(lines, text, own) && End(lines) == |text|
    ensures var index := OfFrames(table, text, |table|);
            NamedByFrames(index, lines, table) && LinesAscend(index) && OffsetsAscend(index)
  {
    hide *;
    var index := OfFrames(table, text, |table|);
    FramesWhole(table, text);
    FramesPlaced(table, text, |table|);
    PlacedInOrder(index, text);
    forall i | 0 <= i < |index|
      ensures IsNamed(index[i], lines, table) && 1 <= index[i].line <= |lines|
    {
      AllNamed(table, text, |table|, lines, own, index[i]);
    }
    NamedInOrder(index, lines, table);
  }

  lemma FramesWhole(table: seq<Frame>, text: seq<byte>)
    requires TableOf(table, text)
    ensures FrameStart(table, |table|) == |text|
  {
  }

  lemma PlacedInOrder(index: seq<Checkpoint>, text: seq<byte>)
    requires Placed(index, text, 0, |text|)
    ensures LinesAscend(index) && OffsetsAscend(index)
  {
    forall i, j | 0 <= i < j < |index|
      ensures index[i].line <= index[j].line
    {
      assert IsPlaced(index[i], text, 0, |text|) && IsPlaced(index[j], text, 0, |text|);
      BreaksAscend(text, index[i].offset, index[j].offset);
    }
  }

  lemma NamedInOrder(index: seq<Checkpoint>, lines: seq<Line>, table: seq<Frame>)
    requires LinesAscend(index)
    requires forall i :: 0 <= i < |index| ==> IsNamed(index[i], lines, table) && 1 <= index[i].line <= |lines|
    ensures NamedByFrames(index, lines, table)
  {
    hide IsNamed;
  }

  /** Every frame of text has its checkpoint. */
  lemma {:induction false} FrameHasCheckpoint(table: seq<Frame>, text: seq<byte>, n: nat, k: nat)
    requires TableOf(table, text) && k < n <= |table| && table[k].size > 0
    ensures table[k].offset <= |text|
    ensures Checkpoint(LineAt(text, table[k].offset), table[k].offset) in OfFrames(table, text, n)
  {
    hide *;
    FramesWithin(table, text, k);
    FramesWithin(table, text, n - 1);
    OfFramesUnfold(table, text, n);
    if k < n - 1 {
      FrameHasCheckpoint(table, text, n - 1, k);
    } else {
      FirstInFrame(text, table[k], EndedIn(table, text, k));
    }
  }

  lemma OfFramesUnfold(table: seq<Frame>, text: seq<byte>, n: nat)
    requires TableOf(table, text) && 0 < n <= |table| && table[n - 1].End() <= |text|
    ensures OfFrames(table, text, n)
            == OfFrames(table, text, n - 1) + OfFrame(text, table[n - 1], EndedIn(table, text, n - 1))
  {
    hide TableOf, OfFrame, EndedIn;
  }

  lemma FirstInFrame(text: seq<byte>, frame: Frame, ended: nat)
    requires frame.End() <= |text| && frame.size > 0
    ensures Checkpoint(LineAt(text, frame.offset), frame.offset) in OfFrame(text, frame, ended)
  {
    hide Interior, LineAt;
  }
}
