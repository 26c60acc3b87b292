/** The pass that indexes a text: it takes lines through a buffer of fixed
    size, sets checkpoints, counts how the lines of a sample end, and shows
    every line to the indexer of timestamps. */
module Walk {
  import opened Common
  import opened TimeSection
  import opened TimeIndexing
  import opened Lookup

  const LF: byte := 10
  const CR: byte := 13

  /** The position after the line that starts at text[at]: after its line
      break, or the end of the text. */
  function LineEnd(text: seq<byte>, at: nat): (end: nat)
    requires at < |text|
    ensures at < end <= |text|
    decreases |text| - at
  {
    if text[at] == LF || at + 1 == |text| then at + 1 else LineEnd(text, at + 1)
  }

  /** A line holds a line break only as its last byte, and ends without one
      only at the end of the text. */
  lemma {:induction false} LineEndIsBreak(text: seq<byte>, at: nat)
    requires at < |text|
    ensures forall i :: at <= i < LineEnd(text, at) - 1 ==> text[i] != LF
    ensures LineEnd(text, at) < |text| ==> text[LineEnd(text, at) - 1] == LF
    decreases |text| - at
  {
    if text[at] != LF && at + 1 < |text| {
      LineEndIsBreak(text, at + 1);
    }
  }

  lemma {:induction false} LineEndPast(text: seq<byte>, at: nat, until: nat)
    requires at <= until <= |text| && at < |text|
    requires forall i :: at <= i < until ==> text[i] != LF
    ensures LineEnd(text, at) == (if until == |text| then |text| else LineEnd(text, until))
    decreases until - at
  {
    if at < until && at + 1 < |text| {
      LineEndPast(text, at + 1, until);
    }
  }

  /** The bytes of text from start to end. */
  function Piece(text: seq<byte>, start: nat, end: nat): seq<byte>
    requires start <= end <= |text|
  {
    text[start..end]
  }

  datatype Slice = Found | BufferFull | Eof

  /** A reader of a text through a buffer of size bytes. */
  class LineReader {
    const text: seq<byte>
    const size: nat
    var pos: nat

    ghost predicate Valid()
      reads this
    {
      size >= 1 && pos <= |text|
    }

    constructor (text: seq<byte>, size: nat)
      requires size >= 1
      ensures Valid() && this.text == text && pos == 0
    {
      this.text, this.size, pos := text, size, 0;
    }

    /** Reads up to a line break, as far as the buffer holds. */
    method ReadSlice() returns (chunk: seq<byte>, status: Slice)
      requires Valid()
      modifies this`pos
      ensures Valid() && old(pos) <= pos && chunk == text[old(pos)..pos]
      ensures status == Found ==> old(pos) < |text| && pos == LineEnd(text, old(pos))
      ensures status != Found ==> forall i :: old(pos) <= i < pos ==> text[i] != LF
      ensures status == BufferFull ==> old(pos) < pos
      ensures status == Eof ==> pos == |text|
    {
      var start := pos;
      var limit := Min(start + size, |text|);
      while pos < limit
        invariant start <= pos <= limit
        invariant forall i :: start <= i < pos ==> text[i] != LF
      {
        if text[pos] == LF {
          LineEndPast(text, start, pos);
          pos := pos + 1;
          return text[start..pos], Found;
        }
        pos := pos + 1;
      }
      return text[start..pos], if pos - start == size then BufferFull else Eof;
    }

    /** Reads a line with its break, or nothing once there is none. Slices are
        joined until one has a break or the text is over. */
    method NextLine() returns (line: seq<byte>)
      requires Valid()
      modifies this`pos
      ensures Valid() && old(pos) <= pos <= |text| && line == Piece(text, old(pos), pos)
      ensures pos == (if old(pos) == |text| then |text| else LineEnd(text, old(pos)))
      ensures |line| == pos - old(pos) && (|line| == 0 <==> old(pos) == |text|)
    {
      var start := pos;
      var chunk, status := ReadSlice();
      line := chunk;
      while status == BufferFull
        invariant Valid() && start <= pos && line == text[start..pos]
        invariant status != Found ==> forall i :: start <= i < pos ==> text[i] != LF
        invariant status == Found ==> start < |text| && pos == LineEnd(text, start)
        invariant status == Eof ==> pos == |text|
        decreases |text| - pos, if status == BufferFull then 1 else 0
      {
        ghost var mid := pos;
        chunk, status := ReadSlice();
        if status == Found {
          LineEndPast(text, start, mid);
        }
        line := line + chunk;
      }
      if status == Eof && start < |text| {
        LineEndPast(text, start, |text|);
      }
    }
  }

  /** line without the CR and LF bytes at its end. */
  function TrimEnd(line: seq<byte>): (r: seq<byte>)
    ensures r <= line
    ensures r != [] ==> r[|r| - 1] != LF && r[|r| - 1] != CR
    ensures forall i :: |r| <= i < |line| ==> line[i] == LF || line[i] == CR
  {
    if line != [] && (line[|line| - 1] == LF || line[|line| - 1] == CR) then TrimEnd(line[..|line| - 1]) else line
  }

  method StripLineEnd(line: seq<byte>) returns (r: seq<byte>)
    ensures r == TrimEnd(line)
  {
    var n := |line|;
    assert line[..n] == line;
    while n > 0 && (line[n - 1] == LF || line[n - 1] == CR)
      invariant n <= |line| && TrimEnd(line[..n]) == TrimEnd(line)
    {
      assert line[..n][..n - 1] == line[..n - 1];
      n := n - 1;
    }
    r := line[..n];
  }

  // ---------------------------------------------------------------------
  // Line endings.

  /** Line endings are counted until this many bytes were seen. */
  const SAMPLE_BYTES := 65536

  function CountByte(s: seq<byte>, b: byte): nat {
    if s == [] then 0 else (if s[0] == b then 1 else 0) + CountByte(s[1..], b)
  }

  /** The CR LF pairs of s. */
  function CountPairs(s: seq<byte>): nat {
    if |s| < 2 then 0 else (if s[0] == CR && s[1] == LF then 1 else 0) + CountPairs(s[1..])
  }

  lemma {:induction false} CountByteConcat(a: seq<byte>, b: seq<byte>, c: byte)
    ensures CountByte(a + b, c) == CountByte(a, c) + CountByte(b, c)
    decreases |a|
  {
    if a == [] {
      assert a + b == b;
    } else {
      CountByteConcat(a[1..], b, c);
      assert (a + b)[1..] == a[1..] + b;
    }
  }

  /** No pair spans two parts when the first does not end with CR. */
  lemma {:induction false} CountPairsConcat(a: seq<byte>, b: seq<byte>)
    requires a == [] || a[|a| - 1] != CR
    ensures CountPairs(a + b) == CountPairs(a) + CountPairs(b)
    decreases |a|
  {
    if a == [] {
      assert a + b == b;
    } else {
      CountPairsConcat(a[1..], b);
      assert (a + b)[1..] == a[1..] + b;
    }
  }

  datatype Endings = Endings(crlf: int, cr: int, lf: int)

  /** The endings of a whole text: pairs, and CR and LF bytes outside one. */
  function EndingsOf(s: seq<byte>): Endings {
    var pairs := CountPairs(s);
    Endings(pairs, CountByte(s, CR) - pairs, CountByte(s, LF) - pairs)
  }

  /** How the endings are named: the one style present, LF when there is
      none, mixed when there are several. */
  function Style(e: Endings): string {
    var present := (if e.crlf > 0 then ["CRLF"] else []) + (if e.lf > 0 then ["LF"] else []) +
                   (if e.cr > 0 then ["CR"] else []);
    if |present| == 0 then "LF" else if |present| == 1 then present[0] else "mixed"
  }

  /** A CR and the LF after it. */
  predicate HasPair(s: seq<byte>) {
    exists i :: 0 <= i < |s| - 1 && s[i] == 0x0D && s[i + 1] == 0x0A
  }

  /** A CR that no LF follows. */
  predicate HasLoneCR(s: seq<byte>) {
    exists i :: 0 <= i < |s| && s[i] == 0x0D && (i + 1 < |s| ==> s[i + 1] != 0x0A)
  }

  /** An LF that follows no CR. */
  predicate HasLoneLF(s: seq<byte>) {
    exists i :: 0 <= i < |s| && s[i] == 0x0A && (i > 0 ==> s[i - 1] != 0x0D)
  }

  /** The counts are above 0 exactly when there is such an ending. */
  lemma {:induction false} EndingsArePresent(s: seq<byte>)
    ensures var e := EndingsOf(s);
            && e.crlf >= 0 && e.cr >= 0 && e.lf >= 0
            && (e.crlf > 0 <==> HasPair(s)) && (e.cr > 0 <==> HasLoneCR(s)) && (e.lf > 0 <==> HasLoneLF(s))
  {
    if |s| > 1 && s[0] == CR && s[1] == LF {
      PairFirst(s);
      EndingsArePresent(s[2..]);
      hide HasPair, HasLoneCR, HasLoneLF;
      assert s[1..][1..] == s[2..];
    } else if s != [] {
      FirstEnding(s);
      EndingsArePresent(s[1..]);
      hide HasPair, HasLoneCR, HasLoneLF;
    }
  }

  lemma PairFirst(s: seq<byte>)
    requires |s| > 1 && s[0] == CR && s[1] == LF
    ensures HasPair(s) && (HasLoneCR(s) <==> HasLoneCR(s[2..])) && (HasLoneLF(s) <==> HasLoneLF(s[2..]))
  {
    var rest := s[2..];
    assert forall i :: 0 <= i < |rest| ==> rest[i] == s[i + 2];
    assert s[0] == 0x0D && s[1] == 0x0A;
    if HasLoneCR(s) {
      var i :| 0 <= i < |s| && s[i] == 0x0D && (i + 1 < |s| ==> s[i + 1] != 0x0A);
      assert i >= 2 && rest[i - 2] == s[i];
    }
    if HasLoneLF(s) {
      var i :| 0 <= i < |s| && s[i] == 0x0A && (i > 0 ==> s[i - 1] != 0x0D);
      assert i >= 2 && rest[i - 2] == s[i];
    }
    if HasLoneCR(rest) {
      var i :| 0 <= i < |rest| && rest[i] == 0x0D && (i + 1 < |rest| ==> rest[i + 1] != 0x0A);
      assert s[i + 2] == rest[i];
    }
    if HasLoneLF(rest) {
      var i :| 0 <= i < |rest| && rest[i] == 0x0A && (i > 0 ==> rest[i - 1] != 0x0D);
      assert s[i + 2] == rest[i];
    }
  }

  /** What a first byte that is not of a pair adds to the endings of the
      rest. */
  lemma FirstEnding(s: seq<byte>)
    requires s != [] && !(|s| > 1 && s[0] == CR && s[1] == LF)
    ensures var rest := s[1..];
            && (HasPair(s) <==> HasPair(rest))
            && (HasLoneCR(s) <==> s[0] == CR || HasLoneCR(rest))
            && (HasLoneLF(s) <==> s[0] == LF || HasLoneLF(rest))
  {
    var rest := s[1..];
    assert forall i :: 0 <= i < |rest| ==> rest[i] == s[i + 1];
    if HasLoneCR(rest) {
      var i :| 0 <= i < |rest| && rest[i] == 0x0D && (i + 1 < |rest| ==> rest[i + 1] != 0x0A);
      assert s[i + 1] == rest[i];
    }
    if HasLoneLF(rest) {
      var i :| 0 <= i < |rest| && rest[i] == 0x0A && (i > 0 ==> rest[i - 1] != 0x0D);
      assert s[i + 1] == rest[i];
    }
    if HasPair(rest) {
      var i :| 0 <= i < |rest| - 1 && rest[i] == 0x0D && rest[i + 1] == 0x0A;
      assert s[i + 1] == rest[i];
    }
  }

  /** The style named of a sample, by its bytes. */
  lemma StyleIsPresent(s: seq<byte>)
    ensures var style := Style(EndingsOf(s));
            && (style == "LF" <==> !HasPair(s) && !HasLoneCR(s))
            && (style == "CRLF" <==> HasPair(s) && !HasLoneCR(s) && !HasLoneLF(s))
            && (style == "CR" <==> HasLoneCR(s) && !HasPair(s) && !HasLoneLF(s))
            && (style == "mixed" <==> (HasPair(s) && HasLoneCR(s)) || (HasPair(s) && HasLoneLF(s)) || (HasLoneCR(s) && HasLoneLF(s)))
  {
    EndingsArePresent(s);
    assert |"LF"| == 2 && |"CRLF"| == 4 && |"CR"| == 2 && "LF"[0] != "CR"[0] && |"mixed"| == 5;
    hide HasPair, HasLoneCR, HasLoneLF, EndingsOf;
  }

  /** The end of the sample: whole lines, until they reach SAMPLE_BYTES. */
  function SampleEnd(lines: seq<Line>, n: nat): nat
    requires n <= |lines|
  {
    if n == 0 then 0
    else if SampleEnd(lines, n - 1) >= 65536 then SampleEnd(lines, n - 1)
    else lines[n - 1].end
  }

  /** The sample is all the lines while they are short of the limit, and
      else ends with the line that reaches it. */
  lemma {:induction false} SampleIsFirstLines(lines: seq<Line>, n: nat)
    requires IsText(lines) && n <= |lines|
    ensures var s := SampleEnd(lines, n);
            if s < 65536 then s == End(lines[..n])
            else exists k :: 0 <= k < n && s == lines[k].end && lines[k].start < 65536
  {
    if n > 0 {
      SampleIsFirstLines(lines, n - 1);
      if SampleEnd(lines, n - 1) >= SAMPLE_BYTES {
        var k :| 0 <= k < n - 1 && SampleEnd(lines, n - 1) == lines[k].end && lines[k].start < SAMPLE_BYTES;
      } else {
        assert n > 1 ==> lines[n - 1].start == lines[n - 2].end;
      }
    }
  }

  /** sample with one more line, while it is short. */
  function Extend(sample: seq<byte>, line: seq<byte>): seq<byte> {
    if |sample| >= 65536 then sample else sample + line
  }

  class LineEndingTally {
    var endings: Endings
    var sampled: nat

    constructor ()
      ensures endings == Endings(0, 0, 0) && sampled == 0
    {
      endings, sampled := Endings(0, 0, 0), 0;
    }

    /** Takes one line into the counts while the sample is short: they stay
        those of the sample as a whole. */
    method Observe(line: seq<byte>, ghost sample: seq<byte>)
      requires endings == EndingsOf(sample) && sampled == |sample|
      requires sample == [] || sample[|sample| - 1] != CR
      modifies this
      ensures sampled == |Extend(sample, line)| && endings == EndingsOf(Extend(sample, line))
    {
      if sampled >= SAMPLE_BYTES {
        return;
      }
      CountPairsConcat(sample, line);
      CountByteConcat(sample, line, CR);
      CountByteConcat(sample, line, LF);
      var crlf := CountPairs(line);
      endings := Endings(endings.crlf + crlf,
                         endings.cr + CountByte(line, CR) - crlf,
                         endings.lf + CountByte(line, LF) - crlf);
      sampled := sampled + |line|;
    }
  }

  // ---------------------------------------------------------------------
  // The walk.

  /** The parser gives stamps as it promises them. */
  ghost predicate Promises(own: seq<byte> -> Option<Stamp>) {
    forall line: seq<byte> :: own(line).Some? ==> InRange(own(line).value)
  }

  /** lines are the first lines of text, each with the stamp of its bytes
      before the CR and LF. */
  ghost predicate LinesOf(lines: seq<Line>, text: seq<byte>, own: seq<byte> -> Option<Stamp>) {
    && IsText(lines)
    && forall i :: 0 <= i < |lines| ==> IsLineOf(lines[i], text, own)
  }

  ghost predicate IsLineOf(line: Line, text: seq<byte>, own: seq<byte> -> Option<Stamp>) {
    && line.start < |text| && line.end == LineEnd(text, line.start)
    && line == ReadLine(text, line.start, line.end, own)
  }

  /** The line in text[start..end], with the stamp the parser gives it. */
  function ReadLine(text: seq<byte>, start: nat, end: nat, own: seq<byte> -> Option<Stamp>): Line
    requires start <= end <= |text|
  {
    Line(start, end, own(TrimEnd(text[start..end])))
  }

  lemma OneMoreLine(lines: seq<Line>, line: Line, text: seq<byte>, own: seq<byte> -> Option<Stamp>)
    requires LinesOf(lines, text, own) && Promises(own)
    requires line.start == End(lines) && IsLineOf(line, text, own)
    ensures LinesOf(lines + [line], text, own)
  {
    hide IsLineOf;
    assert line.start < line.end && (line.stamp.Some? ==> InRange(line.stamp.value)) by {
      LineIsSound(line, text, own);
    }
  }

  lemma LineIsSound(line: Line, text: seq<byte>, own: seq<byte> -> Option<Stamp>)
    requires IsLineOf(line, text, own) && Promises(own)
    ensures line.start < line.end <= |text| && (line.stamp.Some? ==> InRange(line.stamp.value))
  {
  }

  /** The index so far, with the next line due to start a checkpoint once
      the text read reached next. */
  ghost predicate IndexSoFar(index: seq<Checkpoint>, lines: seq<Line>, step: int, due: bool, next: int) {
    && step >= 1 && IsLineIndex(index, lines, step)
    && (due ==> next == End(lines) + step)
    && (lines == [] ==> due)
    && (lines != [] ==> index[|index| - 1].offset + step <= if due then End(lines) else next)
    && (!due ==> End(lines) < next && next <= index[|index| - 1].offset + step)
  }

  /** The state after a line, given the index that covers it. */
  lemma CrossingStep(index: seq<Checkpoint>, lines: seq<Line>, step: int, next: int)
    requires step >= 1 && lines != [] && index != [] && IsLineIndex(index, lines, step)
    requires next == index[|index| - 1].offset + step
    ensures var crossed := End(lines) >= next;
            IndexSoFar(index, lines, step, crossed, if crossed then End(lines) + step else next)
  {
  }

  /** The line read takes the checkpoint that is due. */
  lemma CheckpointTaken(index: seq<Checkpoint>, lines: seq<Line>, line: Line, step: int, next: int)
    requires IndexSoFar(index, lines, step, true, next) && line.start == End(lines)
    ensures IsLineIndex(index + [Checkpoint(|lines| + 1, line.start)], lines + [line], step)
    ensures next == line.start + step
  {
    StartsAfterCheckpoint(index, lines, line);
    ApartAfterCheckpoint(index, lines, line, step);
    DenseAfterCheckpoint(index, lines, line, step);
  }

  lemma StartsAfterCheckpoint(index: seq<Checkpoint>, lines: seq<Line>, line: Line)
    requires StartsLines(index, lines) && line.start == End(lines)
    ensures StartsLines(index + [Checkpoint(|lines| + 1, line.start)], lines + [line])
  {
  }

  lemma ApartAfterCheckpoint(index: seq<Checkpoint>, lines: seq<Line>, line: Line, step: int)
    requires IsApart(index, step) && StartsLines(index, lines) && step >= 1
    requires index != [] ==> index[|index| - 1].offset + step <= line.start
    ensures IsApart(index + [Checkpoint(|lines| + 1, line.start)], step)
  {
    forall i | 0 <= i < |index|
      ensures index[i].line <= |lines| && index[i].offset + step <= line.start
    {
      if i < |index| - 1 {
        assert index[i].offset + step <= index[|index| - 1].offset;
      }
    }
  }

  /** With no checkpoint due, the last one covers the line read. */
  lemma NoCheckpoint(index: seq<Checkpoint>, lines: seq<Line>, line: Line, step: int, next: int)
    requires IndexSoFar(index, lines, step, false, next) && line.start == End(lines)
    ensures IsLineIndex(index, lines + [line], step)
    ensures index != [] && next == index[|index| - 1].offset + step
  {
    assert index != [] && StartsLines(index, lines + [line]);
    assert index[|index| - 1].line <= |lines|;
    DenseAfterLine(index, lines, line, step);
  }

  /** A line that takes a checkpoint keeps the index dense. */
  lemma DenseAfterCheckpoint(index: seq<Checkpoint>, lines: seq<Line>, line: Line, step: int)
    requires IsDense(index, lines, step) && step >= 1
    ensures IsDense(index + [Checkpoint(|lines| + 1, line.start)], lines + [line], step)
  {
    var taken, more := index + [Checkpoint(|lines| + 1, line.start)], lines + [line];
    forall n, i | 0 <= n < |more| && IsNearest(taken, i, n + 1)
      ensures more[n].start < taken[i].offset + step
    {
      assert taken[|index|].line == |lines| + 1;
      if n < |lines| {
        assert forall j :: 0 <= j < |index| ==> taken[j] == index[j];
        assert IsNearest(index, i, n + 1);
      }
    }
  }

  /** So does a line that starts less than step bytes after the last
      checkpoint. */
  lemma DenseAfterLine(index: seq<Checkpoint>, lines: seq<Line>, line: Line, step: int)
    requires IsDense(index, lines, step) && index != []
    requires index[|index| - 1].line <= |lines| && line.start < index[|index| - 1].offset + step
    ensures IsDense(index, lines + [line], step)
  {
    var more := lines + [line];
    forall n, i | 0 <= n < |more| && IsNearest(index, i, n + 1)
      ensures more[n].start < index[i].offset + step
    {
      var last := index[|index| - 1];
      assert n == |lines| ==> i == |index| - 1;
    }
  }

  /** Where the sample ends there is a line break, unless the text ends
      there. */
  lemma {:induction false} SampleEndsALine(lines: seq<Line>, n: nat, text: seq<byte>, own: seq<byte> -> Option<Stamp>)
    requires LinesOf(lines, text, own) && n <= |lines|
    ensures var s := SampleEnd(lines, n);
            && (n == 0 ==> s == 0) && (n > 0 ==> s <= lines[n - 1].end <= |text|)
            && (0 < s < |text| ==> text[s - 1] == LF)
  {
    hide LinesOf, IsText, IsLineOf, LineEnd;
    if n > 0 {
      SampleEndsALine(lines, n - 1, text, own);
      EndsWithBreak(lines, n - 1, text, own);
    }
  }

  /** A line begins where the one before it ends, and ends the text or with a
      break. */
  lemma EndsWithBreak(lines: seq<Line>, k: nat, text: seq<byte>, own: seq<byte> -> Option<Stamp>)
    requires LinesOf(lines, text, own) && k < |lines|
    ensures lines[k].start < lines[k].end <= |text| && (k > 0 ==> lines[k].start == lines[k - 1].end)
    ensures lines[k].end < |text| ==> text[lines[k].end - 1] == LF
  {
    assert IsLineOf(lines[k], text, own) && lines[k].start < lines[k].end;
    LineEndIsBreak(text, lines[k].start);
    hide LineEnd;
  }

  lemma {:induction false} SampleOfPrefix(lines: seq<Line>, line: Line, n: nat)
    requires n <= |lines|
    ensures SampleEnd(lines + [line], n) == SampleEnd(lines, n)
  {
    if n > 0 {
      SampleOfPrefix(lines, line, n - 1);
    }
  }

  /** How many bytes of the text the sample of all its lines takes. */
  function SampleLen(lines: seq<Line>): nat {
    SampleEnd(lines, |lines|)
  }

  /** What the sample's end says of the text before it. */
  lemma SampleEnds(lines: seq<Line>, text: seq<byte>, own: seq<byte> -> Option<Stamp>)
    requires LinesOf(lines, text, own)
    ensures var s := SampleLen(lines);
            && s <= End(lines) && s <= |text| && (s < SAMPLE_BYTES ==> s == End(lines)) && (0 < s < |text| ==> text[s - 1] == LF)
  {
    SampleEndsALine(lines, |lines|, text, own);
    LinesAreText(lines, text, own);
    hide LinesOf, IsText;
    SampleIsFirstLines(lines, |lines|);
    assert lines[..|lines|] == lines;
  }

  lemma SampleMore(lines: seq<Line>, line: Line)
    ensures SampleLen(lines + [line]) == if SampleLen(lines) >= SAMPLE_BYTES then SampleLen(lines) else line.end
  {
    SampleOfPrefix(lines, line, |lines|);
  }

  /** One more line: the sample takes it while it is short of the limit. */
  lemma SampleStep(lines: seq<Line>, line: Line, text: seq<byte>, own: seq<byte> -> Option<Stamp>)
    requires LinesOf(lines, text, own) && line.start == End(lines) && IsLineOf(line, text, own)
    ensures var s, t := SampleLen(lines), SampleLen(lines + [line]);
            && s <= t <= |text| && line.start <= line.end <= |text| && (s < SAMPLE_BYTES ==> s == line.start)
            && t == (if s >= SAMPLE_BYTES then s else line.end)
            && (s > 0 ==> text[s - 1] != CR)
  {
    hide LinesOf, SampleLen, End;
    SampleEnds(lines, text, own);
    SampleMore(lines, line);
  }

  datatype WalkStats = WalkStats(lineIndex: seq<Checkpoint>, lineCount: int, totalBytes: int, lineEnding: string)

  /** times has seen lines, with the line of each checkpoint marked. */
  ghost predicate Saw(times: TimeIndexer, lines: seq<Line>, index: seq<Checkpoint>)
    reads times, times.frames
  {
    && times.Valid() && times.FramesFollow() && times.seen == lines
    && forall i :: 0 <= i < |index| ==> Marked(times.marks, index[i].line)
  }

  /** The line as the time section sees it: its bytes, and the stamp of its
      text without the CR and LF. */
  method StampLine(ghost text: seq<byte>, start: nat, line: seq<byte>, own: seq<byte> -> Option<Stamp>)
    returns (read: Line)
    requires start + |line| <= |text| && line == Piece(text, start, start + |line|)
    ensures read == ReadLine(text, start, start + |line|, own) && read.start == start
  {
    var stripped := StripLineEnd(line);
    read := Line(start, start + |line|, own(stripped));
  }

  /** Tells times about the next line: first that a checkpoint names it, when
      one is due, then the line itself. */
  method ShowLine(times: TimeIndexer, line: Line, number: int, due: bool, ghost lines: seq<Line>,
                  ghost index: seq<Checkpoint>)
    requires Saw(times, lines, index) && number == |lines| + 1 && IsText(lines + [line])
    modifies times, times.frames
    ensures times.frames == old(times.frames)
    ensures times.frames != null ==> times.frames.frames == old(times.frames.frames)
    ensures Saw(times, lines + [line], Taken(index, number, line.start, due))
  {
    if due {
      times.MarkBefore(number);
    }
    times.Observe(line, number);
  }

  /** index, with the checkpoint of a line when one is due. */
  function Taken(index: seq<Checkpoint>, number: int, start: nat, due: bool): seq<Checkpoint> {
    if due then index + [Checkpoint(number, start)] else index
  }

  /** What the walk knows of the text it has read: its lines, the index of
      them, and whether the next line starts a checkpoint. */
  ghost predicate Walked(text: seq<byte>, step: int, own: seq<byte> -> Option<Stamp>,
                         lines: seq<Line>, index: seq<Checkpoint>, due: bool, next: int)
  {
    LinesOf(lines, text, own) && IndexSoFar(index, lines, step, due, next) && SampleLen(lines) <= |text|
  }

  /** The bytes the line endings are counted in so far. */
  ghost function Sample(text: seq<byte>, lines: seq<Line>): seq<byte> {
    if SampleLen(lines) <= |text| then text[..SampleLen(lines)] else text
  }

  lemma WalkStarts(text: seq<byte>, step: int, own: seq<byte> -> Option<Stamp>)
    requires step >= 1
    ensures Walked(text, step, own, [], [], true, step) && End([]) == 0
    ensures Sample(text, []) == [] && EndingsOf([]) == Endings(0, 0, 0)
  {
  }

  /** The walk over one more line: its checkpoint when one is due, the next
      one due when it crosses the step, its endings in the sample while that
      is short. */
  lemma WalkStep(text: seq<byte>, step: int, own: seq<byte> -> Option<Stamp>,
                 lines: seq<Line>, index: seq<Checkpoint>, due: bool, next: int, start: nat, end: nat)
    requires Walked(text, step, own, lines, index, due, next) && Promises(own)
    requires start == End(lines) < |text| && end == LineEnd(text, start)
    ensures var line := ReadLine(text, start, end, own);
            var crossed := end >= next;
            var sample := Sample(text, lines);
            && Walked(text, step, own, lines + [line], Taken(index, |lines| + 1, start, due),
                      crossed, if crossed then end + step else next)
            && IsText(lines + [line]) && End(lines + [line]) == end
            && (sample == [] || sample[|sample| - 1] != CR)
            && Sample(text, lines + [line]) == Extend(sample, Piece(text, start, end))
  {
    var line := ReadLine(text, start, end, own);
    assert IsLineOf(line, text, own) && line.start == start && line.end == end;
    hide LinesOf, IsLineOf, IndexSoFar, IsText, ReadLine, Extend, LineEnd, Promises, TrimEnd;
    OneMoreLine(lines, line, text, own);
    LinesAreText(lines + [line], text, own);
    SampleGrows(lines, line, text, own);
    IndexStep(index, lines, line, step, due, next);
  }

  lemma LinesAreText(lines: seq<Line>, text: seq<byte>, own: seq<byte> -> Option<Stamp>)
    requires LinesOf(lines, text, own)
    ensures IsText(lines)
  {
  }

  lemma SampleGrows(lines: seq<Line>, line: Line, text: seq<byte>, own: seq<byte> -> Option<Stamp>)
    requires LinesOf(lines, text, own) && line.start == End(lines) && IsLineOf(line, text, own)
    ensures var sample := Sample(text, lines);
            && (sample == [] || sample[|sample| - 1] != CR)
            && SampleLen(lines + [line]) <= |text|
            && line.start <= line.end <= |text|
            && Sample(text, lines + [line]) == Extend(sample, text[line.start..line.end])
  {
    SampleStep(lines, line, text, own);
    SampleAt(text, lines);
    SampleAt(text, lines + [line]);
    hide *;
    var s := SampleLen(lines);
    ExtendCases(text[..s], text[line.start..line.end]);
    if s == line.start {
      LineGrows(text, s, line.end);
    }
  }

  lemma LineGrows(text: seq<byte>, start: nat, end: nat)
    requires start <= end <= |text|
    ensures text[..end] == text[..start] + text[start..end]
  {
  }

  lemma SampleAt(text: seq<byte>, lines: seq<Line>)
    requires SampleLen(lines) <= |text|
    ensures Sample(text, lines) == text[..SampleLen(lines)]
  {
  }

  lemma ExtendCases(sample: seq<byte>, line: seq<byte>)
    ensures |sample| >= SAMPLE_BYTES ==> Extend(sample, line) == sample
    ensures |sample| < SAMPLE_BYTES ==> Extend(sample, line) == sample + line
  {
  }

  lemma IndexStep(index: seq<Checkpoint>, lines: seq<Line>, line: Line, step: int, due: bool, next: int)
    requires IndexSoFar(index, lines, step, due, next) && line.start == End(lines)
    ensures var crossed := line.end >= next;
            IndexSoFar(Taken(index, |lines| + 1, line.start, due), lines + [line], step, crossed,
                       if crossed then line.end + step else next)
  {
    assert step >= 1 && End(lines + [line]) == line.end;
    hide IndexSoFar, IsLineIndex, End;
    if due {
      CheckpointTaken(index, lines, line, step, next);
      var taken := index + [Checkpoint(|lines| + 1, line.start)];
      assert taken[|taken| - 1].offset == line.start;
      CrossingStep(taken, lines + [line], step, next);
    } else {
      NoCheckpoint(index, lines, line, step, next);
      CrossingStep(index, lines + [line], step, next);
    }
  }

  /** The tally counts the endings of the sample so far. */
  ghost predicate Tallied(endings: LineEndingTally, text: seq<byte>, lines: seq<Line>)
    reads endings
  {
    endings.endings == EndingsOf(Sample(text, lines)) && endings.sampled == |Sample(text, lines)|
  }

  /** Counts the endings of the next line. */
  method TallyLine(endings: LineEndingTally, line: seq<byte>, ghost text: seq<byte>, ghost lines: seq<Line>,
                   ghost read: Line)
    requires Tallied(endings, text, lines)
    requires Sample(text, lines) == [] || Sample(text, lines)[|Sample(text, lines)| - 1] != CR
    requires Sample(text, lines + [read]) == Extend(Sample(text, lines), line)
    modifies endings
    ensures Tallied(endings, text, lines + [read])
  {
    endings.Observe(line, Sample(text, lines));
  }

  /** times, when there is one, has seen lines, and keeps the frames it was
      given. */
  ghost predicate Timed(times: TimeIndexer?, frames: FrameMarks?, table: seq<Frame>, lines: seq<Line>,
                        index: seq<Checkpoint>)
    reads times, frames
  {
    if times == null then frames == null
    else times.frames == frames && Saw(times, lines, index) && (frames != null ==> frames.frames == table)
  }

  /** Shows the line to times, when there is one. */
  method ShowTimes(times: TimeIndexer?, line: Line, number: int, due: bool, ghost lines: seq<Line>,
                   ghost index: seq<Checkpoint>, ghost frames: FrameMarks?, ghost table: seq<Frame>)
    requires Timed(times, frames, table, lines, index) && number == |lines| + 1 && IsText(lines + [line])
    modifies times, frames
    ensures Timed(times, frames, table, lines + [line], Taken(index, number, line.start, due))
  {
    if times != null {
      hide Saw;
      ShowLine(times, line, number, due, lines, index);
    }
  }

  /** The state between two passes of the walk's loop: what has been read of
      br is lines, with their index, and endings and times have seen them. */
  ghost predicate Walking(br: LineReader, step: int, own: seq<byte> -> Option<Stamp>, times: TimeIndexer?,
                          endings: LineEndingTally, frames: FrameMarks?, table: seq<Frame>, lines: seq<Line>,
                          index: seq<Checkpoint>, due: bool, next: int)
    reads br, endings, times, frames
  {
    && br.Valid() && br.pos == End(lines)
    && Walked(br.text, step, own, lines, index, due, next) && Promises(own)
    && Tallied(endings, br.text, lines) && Timed(times, frames, table, lines, index)
  }

  /** One pass of the walk's loop: the next line, empty at the end of the
      text, and what it changes. */
  method TakeLine(br: LineReader, step: int, own: seq<byte> -> Option<Stamp>, times: TimeIndexer?,
                  endings: LineEndingTally, number: int, offset: nat, index: seq<Checkpoint>, due: bool, next: int,
                  ghost lines: seq<Line>, ghost frames: FrameMarks?, ghost table: seq<Frame>)
    returns (line: seq<byte>, index': seq<Checkpoint>, due': bool, next': int, ghost lines': seq<Line>)
    requires Walking(br, step, own, times, endings, frames, table, lines, index, due, next)
    requires number == |lines| + 1 && offset == End(lines)
    modifies br, endings, times, frames
    ensures Walking(br, step, own, times, endings, frames, table, lines', index', due', next')
    ensures if |line| == 0 then offset == |br.text| && |lines'| == |lines| && End(lines') == offset
            else |lines'| == number && offset < End(lines') == offset + |line| <= |br.text|
  {
    hide Walked, Promises, Tallied, Timed, End, LineEnd, Piece, ReadLine, IsText, Extend, Sample, Taken;
    line := br.NextLine();
    index', due', next', lines' := index, due, next, lines;
    if |line| == 0 {
      return;
    }
    WalkStep(br.text, step, own, lines, index, due, next, offset, offset + |line|);
    var read := StampLine(br.text, offset, line, own);
    TallyLine(endings, line, br.text, lines, read);
    ShowTimes(times, read, number, due, lines, index, frames, table);
    index' := Taken(index, number, offset, due);
    due' := offset + |line| >= next;
    next' := if due' then offset + |line| + step else next;
    lines' := lines + [read];
  }

  /** The walk's loop, from the start of the text. */
  method ReadAll(br: LineReader, step: int, own: seq<byte> -> Option<Stamp>, times: TimeIndexer?,
                 endings: LineEndingTally, ghost frames: FrameMarks?, ghost table: seq<Frame>)
    returns (index: seq<Checkpoint>, currentLine: int, currentOffset: nat, ghost lines: seq<Line>)
    requires br.Valid() && br.pos == 0 && step >= 1 && Promises(own)
    requires endings.endings == Endings(0, 0, 0) && endings.sampled == 0
    requires Timed(times, frames, table, [], [])
    modifies br, endings, times, frames
    ensures LinesOf(lines, br.text, own) && End(lines) == currentOffset == |br.text| && currentLine == |lines|
    ensures IsLineIndex(index, lines, step) && Tallied(endings, br.text, lines)
    ensures Timed(times, frames, table, lines, index)
  {
    currentLine, currentOffset, index, lines := 0, 0, [], [];
    var checkpointDue, nextCheckpoint := true, step;
    WalkStarts(br.text, step, own);
    assert Walking(br, step, own, times, endings, frames, table, lines, index, checkpointDue, nextCheckpoint);
    assert 0 == End(lines) <= |br.text|;
    hide *;
    while true
      invariant Walking(br, step, own, times, endings, frames, table, lines, index, checkpointDue, nextCheckpoint)
      invariant currentOffset == End(lines) <= |br.text| && currentLine == |lines|
      decreases |br.text| - currentOffset
    {
      var line;
      line, index, checkpointDue, nextCheckpoint, lines :=
        TakeLine(br, step, own, times, endings, currentLine + 1, currentOffset, index, checkpointDue,
                 nextCheckpoint, lines, frames, table);
      if |line| == 0 {
        break;
      }
      currentLine := currentLine + 1;
      currentOffset := currentOffset + |line|;
    }
    WalkEnds(br, step, own, times, endings, frames, table, lines, index, checkpointDue, nextCheckpoint);
  }

  lemma WalkEnds(br: LineReader, step: int, own: seq<byte> -> Option<Stamp>, times: TimeIndexer?,
                 endings: LineEndingTally, frames: FrameMarks?, table: seq<Frame>, lines: seq<Line>,
                 index: seq<Checkpoint>, due: bool, next: int)
    requires Walking(br, step, own, times, endings, frames, table, lines, index, due, next)
    ensures LinesOf(lines, br.text, own) && IsLineIndex(index, lines, step)
    ensures Tallied(endings, br.text, lines) && Timed(times, frames, table, lines, index)
  {
    hide Tallied, Timed;
  }

  /** Walks the text once. lines, which the walk does not keep, are the lines
      it read: they make up the text, the checkpoints index them, the ending
      is that of their sample, and times has seen them all, with
      the line of every checkpoint marked before. */
  method WalkLines(text: seq<byte>, size: nat, step: int, own: seq<byte> -> Option<Stamp>, times: TimeIndexer?)
    returns (stats: WalkStats, ghost lines: seq<Line>)
    requires size >= 1 && step >= 1 && Promises(own)
    requires times != null ==> Saw(times, [], [])
    modifies if times == null then {} else {times, times.frames}
    ensures LinesOf(lines, text, own) && End(lines) == |text|
    ensures stats.lineCount == |lines| && stats.totalBytes == |text|
    ensures IsLineIndex(stats.lineIndex, lines, step)
    ensures stats.lineEnding == Style(EndingsOf(Sample(text, lines)))
    ensures times != null ==>
              && Saw(times, lines, stats.lineIndex) && times.frames == old(times.frames)
              && (times.frames != null ==> times.frames.frames == old(times.frames.frames))
  {
    var br := new LineReader(text, size);
    var endings := new LineEndingTally();
    ghost var frames := if times == null then null else times.frames;
    ghost var table := if frames == null then [] else frames.frames;
    var index, lineCount, totalBytes;
    index, lineCount, totalBytes, lines := ReadAll(br, step, own, times, endings, frames, table);
    stats := WalkStats(index, lineCount, totalBytes, Style(endings.endings));
  }
}
