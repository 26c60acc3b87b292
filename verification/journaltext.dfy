/** The message part of a journal entry's text: stripped, and its lines
    indented in place, within the room reserved for it. */
module JournalText {
  import opened Common
  import PrintableUtf8

  type Bytes = seq<byte>

  const TAB: byte := 0x09
  const LF: byte := 0x0A
  const CR: byte := 0x0D
  const ESCAPE: byte := 0x1B
  const BELL: byte := 0x07
  const SPACE: byte := 0x20

  function Spaces(n: nat): (s: Bytes)
    ensures |s| == n
  {
    seq(n, _ => SPACE)
  }

  function Count(s: Bytes, b: byte): nat {
    if |s| == 0 then 0 else Count(s[..|s| - 1], b) + (if s[|s| - 1] == b then 1 else 0)
  }

  lemma {:induction false} CountOfTwo(s: Bytes, t: Bytes, b: byte)
    ensures Count(s + t, b) == Count(s, b) + Count(t, b)
    decreases |t|
  {
    if |t| == 0 {
      assert s + t == s;
    } else {
      CountOfTwo(s, t[..|t| - 1], b);
      assert (s + t)[..|s + t| - 1] == s + t[..|t| - 1];
    }
  }

  lemma {:induction false} NoneCounted(s: Bytes, b: byte)
    requires forall i :: 0 <= i < |s| ==> s[i] != b
    ensures Count(s, b) == 0
  {
    if |s| > 0 {
      NoneCounted(s[..|s| - 1], b);
    }
  }

  lemma CountOfOne(b: byte, c: byte)
    ensures Count([b], c) == if b == c then 1 else 0
  {
    assert [b][..0] == [];
  }

  // ---------------------------------------------------------------------
  // Stripping.

  /** The end of the color sequence whose digits begin at from, or None. */
  function ColorEnd(m: Bytes, from: nat): (r: Option<nat>)
    ensures r.Some? ==> from < r.value <= |m| && forall i :: from <= i < r.value ==> m[i] != LF
    decreases |m| - from
  {
    if from >= |m| then None
    else if m[from] == 0x6D then Some(from + 1)
    else if 0x30 <= m[from] <= 0x39 || m[from] == 0x3B || m[from] == 0 then ColorEnd(m, from + 1)
    else None
  }

  /** The end of the OSC sequence whose text begins at from, or None. */
  function OscEnd(m: Bytes, from: nat): (r: Option<nat>)
    ensures r.Some? ==> from < r.value <= |m| && forall i :: from <= i < r.value ==> m[i] != LF
    decreases |m| - from
  {
    if from >= |m| then None
    else if m[from] == BELL then Some(from + 1)
    else if m[from] == ESCAPE then if from + 1 < |m| && m[from + 1] == 0x5C then Some(from + 2) else None
    else if 0x20 <= m[from] <= 0x7E then OscEnd(m, from + 1)
    else None
  }

  /** The end of the run of carriage returns at from. */
  function CRsEnd(m: Bytes, from: nat): (end: nat)
    requires from <= |m|
    ensures from <= end <= |m| && (forall i :: from <= i < end ==> m[i] == CR) && (end < |m| ==> m[end] != CR)
    decreases |m| - from
  {
    if from < |m| && m[from] == CR then CRsEnd(m, from + 1) else from
  }

  /** What the byte at `at`, and those it takes with it, become, and where the
      rest begins. */
  function Token(m: Bytes, at: nat): (r: (Bytes, nat))
    requires at < |m|
    ensures at < r.1 <= |m|
  {
    if m[at] == TAB then (Spaces(8), at + 1)
    else if m[at] == CR then
      var end := CRsEnd(m, at);
      (if end < |m| && m[end] != LF then m[at..end] else [], end)
    else if m[at] == ESCAPE then
      if at + 1 == |m| then ([ESCAPE], at + 1)
      else
        var end := if m[at + 1] == 0x5B then ColorEnd(m, at + 2) else if m[at + 1] == 0x5D then OscEnd(m, at + 2) else None;
        if end.Some? then ([], end.value) else (m[at..at + 2], at + 2)
    else ([m[at]], at + 1)
  }

  /** The message from a position on, stripped. */
  function StripFrom(m: Bytes, at: nat): Bytes
    requires at <= |m|
    decreases |m| - at
  {
    if at == |m| then [] else Token(m, at).0 + StripFrom(m, Token(m, at).1)
  }

  /** One token: only a tab grows, to 8 bytes, and no line break is lost. */
  lemma TokenBound(m: Bytes, at: nat)
    requires at < |m|
    ensures var (t, next) := Token(m, at);
            && |t| <= next - at + 7 * Count(m[at..next], TAB)
            && Count(t, LF) == Count(m[at..next], LF)
  {
    var (t, next) := Token(m, at);
    if m[at] == TAB {
      assert m[at..next] == [TAB];
      CountOfOne(TAB, TAB);
      CountOfOne(TAB, LF);
      NoneCounted(t, LF);
    } else if m[at] == CR {
      NoneCounted(m[at..next], LF);
      NoneCounted(t, LF);
    } else if m[at] == ESCAPE {
      if at + 1 < |m| && |t| == 0 {
        NoneCounted(m[at..next], LF);
      } else {
        assert t == m[at..next];
      }
    } else {
      assert t == m[at..next];
    }
  }

  /** Stripping keeps every line break, and makes a message longer by 7 bytes
      a tab at most. */
  lemma {:induction false} StripBound(m: Bytes, at: nat)
    requires at <= |m|
    ensures |StripFrom(m, at)| <= |m| - at + 7 * Count(m[at..], TAB)
    ensures Count(StripFrom(m, at), LF) == Count(m[at..], LF)
    decreases |m| - at
  {
    if at < |m| {
      var (t, next) := Token(m, at);
      TokenBound(m, at);
      hide Token;
      StripBound(m, next);
      assert m[at..] == m[at..next] + m[next..];
      CountOfTwo(m[at..next], m[next..], TAB);
      CountOfTwo(m[at..next], m[next..], LF);
      CountOfTwo(t, StripFrom(m, next), LF);
    }
  }

  // ---------------------------------------------------------------------
  // The lines of a message.

  /** The length of the first line of s, its line break included. */
  function FirstLine(s: Bytes): (n: nat)
    ensures n <= |s| && (|s| > 0 ==> n > 0)
  {
    if |s| == 0 then 0 else if s[0] == LF then 1 else 1 + FirstLine(s[1..])
  }

  /** Every line of s with indent spaces before it. */
  function IndentEach(s: Bytes, indent: nat): Bytes
    decreases |s|
  {
    if |s| == 0 then [] else Spaces(indent) + s[..FirstLine(s)] + IndentEach(s[FirstLine(s)..], indent)
  }

  /** The message with a final line break. */
  function Ended(s: Bytes): (e: Bytes)
    ensures |e| > 0 && e[|e| - 1] == LF && s <= e && |s| <= |e| <= |s| + 1
  {
    if |s| == 0 || s[|s| - 1] != LF then s + [LF] else s
  }

  /** The first line as it is, and every later one after indent spaces. */
  function Lines(e: Bytes, indent: nat): Bytes {
    e[..FirstLine(e)] + IndentEach(e[FirstLine(e)..], indent)
  }

  /** The lines of a message as printed: the first after the prefix, every
      later one after indent spaces, each ended by a line break. */
  function Printed(s: Bytes, indent: nat): Bytes {
    Lines(Ended(s), indent)
  }

  /** The line breaks of a text. */
  function BreaksIn(e: Bytes): nat {
    Count(e, LF)
  }

  /** The pieces of s between its line breaks. */
  function Split(s: Bytes): (pieces: seq<Bytes>)
    ensures |pieces| > 0
    ensures forall i, k :: 0 <= i < |pieces| && 0 <= k < |pieces[i]| ==> pieces[i][k] != LF
    decreases |s|
  {
    if |s| == 0 then [[]]
    else
      var rest := Split(s[1..]);
      if s[0] == LF then [[]] + rest else [[s[0]] + rest[0]] + rest[1..]
  }

  /** The pieces printed one after another, each after some bytes and ended by
      a line break. */
  function JoinLines(pieces: seq<Bytes>, before: Bytes): Bytes {
    if |pieces| == 0 then [] else before + pieces[0] + [LF] + JoinLines(pieces[1..], before)
  }

  lemma {:induction false} FirstLineOfMore(s: Bytes, t: Bytes)
    requires forall i :: 0 <= i < |s| ==> s[i] != LF
    requires |t| > 0 && t[0] == LF
    ensures FirstLine(s + t) == |s| + 1
  {
    if |s| > 0 {
      assert (s + t)[1..] == s[1..] + t;
      FirstLineOfMore(s[1..], t);
    } else {
      assert s + t == t;
    }
  }

  lemma {:induction false} FirstLineIsBreak(s: Bytes)
    requires |s| > 0 && s[|s| - 1] == LF
    ensures FirstLine(s) > 0 && s[FirstLine(s) - 1] == LF && forall i :: 0 <= i < FirstLine(s) - 1 ==> s[i] != LF
  {
    if s[0] != LF {
      FirstLineIsBreak(s[1..]);
      assert forall i :: 0 < i < |s| ==> s[i] == s[1..][i - 1];
    }
  }

  /** The first line is known by its line break. */
  lemma FirstLineAt(s: Bytes, n: nat)
    requires 0 < n <= |s| && s[n - 1] == LF && forall i :: 0 <= i < n - 1 ==> s[i] != LF
    ensures FirstLine(s) == n
  {
    assert s == s[..n - 1] + s[n - 1..];
    FirstLineOfMore(s[..n - 1], s[n - 1..]);
  }

  lemma {:induction false} SplitFirst(s: Bytes, k: nat)
    requires k <= |s| && (forall i :: 0 <= i < k ==> s[i] != LF) && (k < |s| ==> s[k] == LF)
    ensures Split(s) == if k == |s| then [s] else [s[..k]] + Split(s[k + 1..])
    decreases k
  {
    if k > 0 {
      SplitFirst(s[1..], k - 1);
      if k < |s| {
        assert s[1..][k..] == s[k + 1..] && [s[0]] + s[1..][..k - 1] == s[..k];
        assert ([s[1..][..k - 1]] + Split(s[k + 1..]))[1..] == Split(s[k + 1..]);
      } else {
        assert [s[0]] + s[1..] == s;
      }
    } else if k < |s| {
      assert s[..0] == [];
    }
  }

  /** Lines that all end with a break, indented each: their pieces, each after
      the spaces and ended by a break. */
  lemma {:induction false} IndentIsJoin(s: Bytes, indent: nat)
    requires |s| > 0 && s[|s| - 1] == LF
    ensures IndentEach(s, indent) == JoinLines(Split(s[..|s| - 1]), Spaces(indent))
    decreases |s|
  {
    var n, body, before := FirstLine(s), s[..|s| - 1], Spaces(indent);
    FirstLineIsBreak(s);
    LinesSplit(s, n);
    if n == |s| {
      LastIndented(s, indent);
      JoinCons(body, [], before);
    } else {
      hide *;
      var rest := s[n..];
      IndentIsJoin(rest, indent);
      JoinCons(s[..n - 1], Split(rest[..|rest| - 1]), before);
      FirstIndented(s, n, indent);
    }
  }

  /** Lines split at their breaks: the first line, and the lines after it. */
  lemma LinesSplit(s: Bytes, n: nat)
    requires 0 < n <= |s| && s[n - 1] == LF == s[|s| - 1] && forall i :: 0 <= i < n - 1 ==> s[i] != LF
    ensures var body := s[..|s| - 1];
            && s[..n] == s[..n - 1] + [LF]
            && Split(body) == if n == |s| then [body] else [s[..n - 1]] + Split(s[n..][..|s[n..]| - 1])
  {
    var body := s[..|s| - 1];
    SplitFirst(body, n - 1);
    if n < |s| {
      assert s[n..][..|s[n..]| - 1] == body[n..] && body[..n - 1] == s[..n - 1];
    }
    hide Split;
  }

  lemma JoinCons(piece: Bytes, rest: seq<Bytes>, before: Bytes)
    ensures JoinLines([piece] + rest, before) == before + piece + [LF] + JoinLines(rest, before)
    ensures ([piece] + rest)[1..] == rest && [piece] + [] == [piece]
    ensures JoinLines([], before) == []
  {
    assert ([piece] + rest)[1..] == rest;
  }

  lemma LastIndented(s: Bytes, indent: nat)
    requires |s| > 0 && FirstLine(s) == |s| && s[|s| - 1] == LF
    ensures IndentEach(s, indent) == Spaces(indent) + s[..|s| - 1] + [LF] + []
  {
    assert s[..|s|] == s == s[..|s| - 1] + [LF] && IndentEach(s[|s|..], indent) == [];
    hide FirstLine, Spaces;
    Regroup(Spaces(indent), s[..|s| - 1], [LF], []);
  }

  lemma FirstIndented(s: Bytes, n: nat, indent: nat)
    requires 0 < n < |s| && FirstLine(s) == n && s[..n] == s[..n - 1] + [LF]
    ensures IndentEach(s, indent) == Spaces(indent) + s[..n - 1] + [LF] + IndentEach(s[n..], indent)
  {
    Regroup(Spaces(indent), s[..n - 1], [LF], IndentEach(s[n..], indent));
    hide FirstLine, Spaces;
  }

  lemma Regroup(a: Bytes, b: Bytes, c: Bytes, d: Bytes)
    ensures a + (b + c) + d == a + b + c + d == a + (b + c + d) == a + (b + (c + d))
    ensures [] + d == d && b + c + d == b + (c + d)
  {
  }

  /** What is printed is the message split at its line breaks, a final one
      aside, and joined again: the first piece as it is, every later one
      after the spaces, each ended by a break. */
  lemma PrintedIsSplitAndJoin(s: Bytes, indent: nat)
    ensures var e := Ended(s);
            var pieces := Split(e[..|e| - 1]);
            Printed(s, indent) == pieces[0] + [LF] + JoinLines(pieces[1..], Spaces(indent))
  {
    EndedIs(s);
    PrintedIs(s, indent);
    EndedJoins(Ended(s), indent);
    hide *;
  }

  lemma EndedJoins(e: Bytes, indent: nat)
    requires |e| > 0 && e[|e| - 1] == LF
    ensures var pieces := Split(e[..|e| - 1]);
            e[..FirstLine(e)] + IndentEach(e[FirstLine(e)..], indent)
            == pieces[0] + [LF] + JoinLines(pieces[1..], Spaces(indent))
  {
    hide *;
    var n, first := FirstLine(e), e[..FirstLine(e)];
    FirstLineIsBreak(e);
    LinesSplit(e, n);
    if n < |e| {
      var rest := e[n..];
      IndentIsJoin(rest, indent);
      JoinCons(e[..n - 1], Split(rest[..|rest| - 1]), []);
    } else {
      NoneIndented(e, n, indent);
      JoinCons(e[..n - 1], [], Spaces(indent));
    }
  }

  lemma NoneIndented(e: Bytes, n: nat, indent: nat)
    requires n == |e| > 0
    ensures e[..n] == e && IndentEach(e[n..], indent) == [] && e[..n] + [] == e[..n] && e[..|e| - 1] == e[..n - 1]
    ensures [e[..|e| - 1]] + [] == [e[..|e| - 1]]
  {
  }

  lemma {:induction false} IndentEachLen(s: Bytes, indent: nat)
    requires |s| > 0 ==> s[|s| - 1] == LF
    ensures |IndentEach(s, indent)| == |s| + indent * Count(s, LF)
    decreases |s|
  {
    if |s| > 0 {
      var rest := s[FirstLine(s)..];
      OneLineLen(s, indent);
      IndentEachLen(rest, indent);
      OneMoreIndent(indent, 1 + Count(rest, LF));
    }
  }

  /** The first line counts for one break and one indent. */
  lemma OneLineLen(s: Bytes, indent: nat)
    requires |s| > 0 && s[|s| - 1] == LF
    ensures var n := FirstLine(s);
            |IndentEach(s, indent)| == indent + n + |IndentEach(s[n..], indent)| && Count(s, LF) == 1 + Count(s[n..], LF)
  {
    var n := FirstLine(s);
    FirstLineIsBreak(s);
    OneBreak(s[..n]);
    CountOfTwo(s[..n], s[n..], LF);
    assert s == s[..n] + s[n..];
  }

  lemma OneMoreIndent(indent: nat, breaks: nat)
    requires breaks > 0
    ensures indent * breaks == indent + indent * (breaks - 1) && indent * (breaks - 1) >= 0
  {
  }

  lemma OneBreak(line: Bytes)
    requires |line| > 0 && line[|line| - 1] == LF && forall i :: 0 <= i < |line| - 1 ==> line[i] != LF
    ensures Count(line, LF) == 1
  {
    NoneCounted(line[..|line| - 1], LF);
  }

  /** What is printed: the message with a final break, and the spaces after
      every other break. */
  lemma PrintedLen(s: Bytes, indent: nat)
    ensures BreaksIn(Ended(s)) >= 1
    ensures |Printed(s, indent)| == |Ended(s)| + indent * (BreaksIn(Ended(s)) - 1)
  {
    var e := Ended(s);
    OneLineLen(e, indent);
    IndentEachLen(e[FirstLine(e)..], indent);
    hide IndentEach, FirstLine, Count, Ended;
  }

  // ---------------------------------------------------------------------
  // The room.

  const MAX_BLOB_LINE_LEN := 20

  /** An upper bound of what is appended for a message. */
  function MessageRoom(m: Bytes, indent: nat): nat {
    Max(|m| + 7 * Count(m, TAB) + indent * Count(m, LF) + 1, MAX_BLOB_LINE_LEN)
  }

  /** The stripped message as printed never takes more than the room. */
  lemma PrintedFits(m: Bytes, indent: nat)
    ensures |StripFrom(m, 0)| <= |Printed(StripFrom(m, 0), indent)| <= MessageRoom(m, indent)
  {
    hide StripFrom, Printed, Count, Ended;
    var s := StripFrom(m, 0);
    StripBound(m, 0);
    assert m[0..] == m;
    PrintedLen(s, indent);
    BreaksEnded(s);
    LessIndent(indent, Count(Ended(s), LF) - 1, Count(m, LF));
  }

  lemma BreaksEnded(s: Bytes)
    ensures Count(Ended(s), LF) <= Count(s, LF) + 1 && |s| <= |Ended(s)| <= |s| + 1
  {
    CountOfTwo(s, [LF], LF);
    CountOfOne(LF, LF);
  }

  lemma LessIndent(indent: nat, a: nat, b: nat)
    requires a <= b
    ensures 0 <= indent * a <= indent * b
  {
  }

  // ---------------------------------------------------------------------
  // The buffer.

  /** s with t in its place at a position. */
  function Placed(s: Bytes, at: nat, t: Bytes): (r: Bytes)
    requires at + |t| <= |s|
    ensures |r| == |s|
  {
    s[..at] + t + s[at + |t|..]
  }

  /** Moves a[from..until] to dest, further right, as memmove does. */
  method CopyRight(a: array<byte>, from: nat, until: nat, dest: nat)
    requires from <= until <= a.Length && from <= dest && dest + (until - from) <= a.Length
    modifies a
    ensures a[..] == Placed(old(a[..]), dest, old(a[from..until]))
  {
    var i := until - from;
    while i > 0
      invariant 0 <= i <= until - from
      invariant forall k :: 0 <= k < a.Length && (k < dest + i || dest + (until - from) <= k) ==> a[k] == old(a[k])
      invariant forall k :: dest + i <= k < dest + (until - from) ==> a[k] == old(a[k - dest + from])
    {
      i := i - 1;
      a[dest + i] := a[from + i];
    }
  }

  method FillSpaces(a: array<byte>, from: nat, until: nat)
    requires from <= until <= a.Length
    modifies a
    ensures a[..] == Placed(old(a[..]), from, Spaces(until - from))
  {
    for i := from to until
      invariant forall k :: 0 <= k < a.Length && (k < from || i <= k) ==> a[k] == old(a[k])
      invariant forall k :: from <= k < i ==> a[k] == SPACE
    {
      a[i] := SPACE;
    }
  }

  /** The last line break in a[from..until]. */
  method LastBreak(a: array<byte>, from: nat, until: nat) returns (p: nat)
    requires from <= until <= a.Length && exists k :: from <= k < until && a[k] == LF
    ensures from <= p < until && a[p] == LF && forall k :: p < k < until ==> a[k] != LF
  {
    var i := until;
    while a[i - 1] != LF
      invariant from < i <= until && forall k :: i <= k < until ==> a[k] != LF
      invariant exists k :: from <= k < i && a[k] == LF
      decreases i
    {
      i := i - 1;
    }
    return i - 1;
  }

  method CountBreaks(a: array<byte>, from: nat, until: nat) returns (n: nat)
    requires from <= until <= a.Length
    ensures n == BreaksIn(a[from..until])
  {
    n := 0;
    for i := from to until
      invariant n == Count(a[from..i], LF)
    {
      assert a[from..i + 1][..i - from] == a[from..i];
      if a[i] == LF {
        n := n + 1;
      }
    }
  }

  /** The lines moved so far: those of e before read are where they were, from
      start on, and those after are indented and end the buffer. */
  ghost predicate Moved(before: Bytes, now: Bytes, start: nat, e: Bytes, indent: nat, inner: nat, read: nat, write: nat) {
    && start + |e| <= |before| == |now| && before[start..start + |e|] == e
    && start < read <= start + |e| && e[read - start - 1] == LF
    && inner == Count(e[..read - start], LF) - 1
    && read <= write <= |now| && write == read + indent * inner
    && now[..read] == before[..read]
    && now[write..] == IndentEach(e[read - start..], indent)
  }

  /** One line more: the piece between the break at p and read, moved, with
      the spaces before it. */
  lemma MovedMore(before: Bytes, now: Bytes, start: nat, e: Bytes, indent: nat, inner: nat, read: nat, write: nat, p: nat)
    requires Moved(before, now, start, e, indent, inner, read, write) && inner > 0
    requires start <= p < read - 1 && now[p] == LF && forall k :: p < k < read - 1 ==> now[k] != LF
    ensures indent <= write - (read - p - 1) && p + 1 <= write - (read - p - 1) - indent
    ensures var n := read - p - 1;
            var moved := Placed(now, write - n, now[p + 1..read]);
            var filled := Placed(moved, write - n - indent, Spaces(indent));
            Moved(before, filled, start, e, indent, inner - 1, p + 1, write - n - indent)
  {
    hide Count, IndentEach, Spaces;
    var n, q, r := read - p - 1, p + 1 - start, read - start;
    assert forall k {:trigger e[k]} :: 0 <= k < r ==> e[k] == now[start + k];
    LineMoved(e, q, r, indent);
    OneMoreIndent(indent, inner);
    assert now[p + 1..read] == e[q..r];
    PlacedTwice(now, write, e[q..r], Spaces(indent));
    assert (now[..write - n - indent])[..p + 1] == now[..p + 1] == before[..p + 1];
    hide Placed;
  }

  /** Line q..r of e, with the spaces before it, ahead of the lines after it. */
  lemma LineMoved(e: Bytes, q: nat, r: nat, indent: nat)
    requires 0 < q < r <= |e| && e[r - 1] == LF == e[q - 1] && forall k :: q <= k < r - 1 ==> e[k] != LF
    ensures IndentEach(e[q..], indent) == Spaces(indent) + e[q..r] + IndentEach(e[r..], indent)
    ensures Count(e[..r], LF) == Count(e[..q], LF) + 1
  {
    var rest, line := e[q..], e[q..r];
    assert rest[..r - q] == line && rest[r - q..] == e[r..];
    FirstLineAt(rest, r - q);
    assert e[..r] == e[..q] + line;
    CountOfTwo(e[..q], line, LF);
    OneBreak(line);
    hide Count, FirstLine;
  }

  /** t and u before it, placed at the end of what comes before write. */
  lemma PlacedTwice(s: Bytes, write: nat, t: Bytes, u: Bytes)
    requires |t| + |u| <= write <= |s|
    ensures var r := Placed(Placed(s, write - |t|, t), write - |t| - |u|, u);
            && r[write - |t| - |u|..] == u + t + s[write..]
            && r[..write - |t| - |u|] == s[..write - |t| - |u|]
  {
  }

  /** A text that grows at its end in an array, as Go's append does. */
  class TextBuffer {
    var data: array<byte>
    var len: nat

    ghost predicate Valid()
      reads this
    {
      len <= data.Length
    }

    ghost function Contents(): Bytes
      requires Valid()
      reads this, data
    {
      data[..len]
    }

    constructor (capacity: nat)
      ensures Valid() && fresh(data) && data.Length == capacity && len == 0
    {
      data, len := new byte[capacity](_ => 0), 0;
    }

    /** Makes room for n more bytes: nothing changes when there is, and else
        the text moves to an array twice as long or longer. */
    method Grow(n: nat)
      requires Valid()
      modifies this`data
      ensures Valid() && Contents() == old(Contents()) && data.Length - len >= n
      ensures if old(data.Length) - len >= n then data == old(data)
              else fresh(data) && data.Length == Max(len + n, 2 * old(data.Length))
    {
      if data.Length - len >= n {
        return;
      }
      var was := data;
      var grown := new byte[Max(len + n, 2 * data.Length)](_ => 0);
      for i := 0 to len
        invariant forall k :: 0 <= k < i ==> grown[k] == was[k]
      {
        grown[i] := was[i];
      }
      data := grown;
    }

    /** Appends bytes; the array is the same one when it has room. */
    method Append(b: Bytes)
      requires Valid()
      modifies this, data
      ensures Valid() && Contents() == old(Contents()) + b
      ensures if old(data.Length - len) >= |b| then data == old(data) else fresh(data)
    {
      Grow(|b|);
      var d, n := data, len;
      for i := 0 to |b|
        invariant data == d && len == n && n + |b| <= d.Length
        invariant forall k :: 0 <= k < n ==> d[k] == old(data[k])
        invariant forall k :: n <= k < n + i ==> d[k] == b[k - n]
      {
        d[n + i] := b[i];
      }
      len := n + |b|;
    }

    /** Turns the message in the text from start on into its printed lines. */
    method IndentLines(start: nat, indent: nat)
      requires Valid() && start <= len
      modifies this, data
      ensures Valid() && Contents() == old(Contents()[..start]) + Printed(old(Contents()[start..]), indent)
      ensures if old(data.Length) >= start + |Printed(old(Contents()[start..]), indent)| then data == old(data) else fresh(data)
    {
      hide BreaksIn, Lines, Ended, Printed, Spaces;
      ghost var message, head := Contents()[start..], Contents()[..start];
      ghost var e := Ended(message);
      EndedIs(message);
      PrintedIs(message, indent);
      assert Contents() == head + message && (|message| > 0 ==> data[len - 1] == message[|message| - 1]);
      if len == start || data[len - 1] != LF {
        Append([LF]);
      }
      assert Contents() == head + e;
      CountAndMove(start, indent, head, e);
    }

    /** IndentLines for a message e whose last byte is a break. */
    method CountAndMove(start: nat, indent: nat, ghost head: Bytes, ghost e: Bytes)
      requires Valid() && start <= len && Contents() == head + e && |head| == start
      requires |e| > 0 && e[|e| - 1] == LF
      modifies this, data
      ensures Valid() && Contents() == head + Lines(e, indent)
      ensures if old(data.Length) >= start + |e| + (BreaksIn(e) - 1) * indent then data == old(data) else fresh(data)
    {
      hide BreaksIn, Lines, Spaces;
      assert data[start..len] == e;
      BreakCounts(e);
      var breaks := CountBreaks(data, start, len);
      var inner := breaks - 1;
      if inner == 0 {
        OneLine(e, indent);
        return;
      }
      GrowAndMove(start, indent, inner, head, e);
    }

    /** Makes room for the spaces, and moves the lines to where they go. */
    method GrowAndMove(start: nat, indent: nat, inner: nat, ghost head: Bytes, ghost e: Bytes)
      requires Valid() && start <= len && Contents() == head + e && |head| == start
      requires |e| > 0 && e[|e| - 1] == LF && inner == BreaksIn(e) - 1
      modifies this, data
      ensures Valid() && Contents() == head + Lines(e, indent)
      ensures if old(data.Length) >= start + |e| + inner * indent then data == old(data) else fresh(data)
    {
      hide BreaksIn, Lines, Spaces;
      LessIndent(indent, 0, inner);
      ghost var text := head + e;
      var room := inner * indent;
      Grow(room);
      assert data[..len] == text && text[start..] == e && text[..start] == head;
      assert data[start..len] == e && data[..start] == head;
      MoveLines(data, start, len, len + room, inner, indent, e);
      len := len + room;
    }
  }

  lemma EndedIs(s: Bytes)
    ensures Ended(s) == if |s| == 0 || s[|s| - 1] != LF then s + [LF] else s
  {
  }

  lemma PrintedIs(s: Bytes, indent: nat)
    ensures var e := Ended(s);
            && Printed(s, indent) == Lines(e, indent)
            && |Printed(s, indent)| == |e| + (BreaksIn(e) - 1) * indent >= |e|
  {
    hide Lines, BreaksIn, Ended;
    PrintedLen(s, indent);
    LessIndent(indent, 0, BreaksIn(Ended(s)) - 1);
  }

  lemma OneLine(e: Bytes, indent: nat)
    requires |e| > 0 && e[|e| - 1] == LF && BreaksIn(e) == 1
    ensures Lines(e, indent) == e
  {
    var n := FirstLine(e);
    FirstLineIsBreak(e);
    OnlyBreakEnds(e, n);
    assert e[..n] == e && e[n..] == [];
  }

  /** With one break in all, the first line is the whole text. */
  lemma OnlyBreakEnds(e: Bytes, n: nat)
    requires 0 < n <= |e| && e[|e| - 1] == LF && e[n - 1] == LF && BreaksIn(e) == 1
    ensures n == |e|
  {
    if n < |e| {
      var a, b := e[..n], e[n..];
      assert e == a + b;
      CountOfTwo(a, b, LF);
      BreakCounts(a);
      BreakCounts(b);
    }
  }

  lemma BreakCounts(s: Bytes)
    requires |s| > 0 && s[|s| - 1] == LF
    ensures BreaksIn(s) > 0
  {
  }

  lemma PlacedPrefix(s: Bytes, at: nat, t: Bytes, total: nat)
    requires at + |t| <= total <= |s|
    ensures Placed(s, at, t)[..total] == Placed(s[..total], at, t)
  {
  }

  /** Moves the lines of a[start..end] right, from the last to the second,
      each with indent spaces before it. */
  method MoveLines(a: array<byte>, start: nat, end: nat, total: nat, breaks: nat, indent: nat, ghost e: Bytes)
    requires start <= end <= total <= a.Length && total == end + breaks * indent
    requires |e| > 0 && a[start..end] == e && e[|e| - 1] == LF && breaks == BreaksIn(e) - 1
    modifies a
    ensures a[..total] == old(a[..start]) + Lines(e, indent)
  {
    hide *;
    ghost var before := a[..total];
    var read, write, inner := end, total, breaks;
    SliceOf(a[..], start, end, total);
    assert a[..][start..end] == e && a[..][..total] == before;
    NothingMoved(before, start, e, indent, breaks);
    while inner > 0
      invariant start < read <= write <= total <= a.Length && 0 <= inner
      invariant Moved(before, a[..total], start, e, indent, inner, read, write)
    {
      read, write := MoveLine(a, start, total, inner, indent, read, write, e, before);
      inner := inner - 1;
    }
    AllMoved(before, a[..total], start, e, indent, read, write);
  }

  lemma SliceOf(all: Bytes, start: nat, end: nat, total: nat)
    requires start <= end <= total <= |all|
    ensures all[..total][start..end] == all[start..end] && |all[start..end]| == end - start
  {
  }

  lemma NothingMoved(before: Bytes, start: nat, e: Bytes, indent: nat, breaks: nat)
    requires start + |e| + breaks * indent == |before| && before[start..start + |e|] == e
    requires |e| > 0 && e[|e| - 1] == LF && breaks == BreaksIn(e) - 1
    ensures Moved(before, before, start, e, indent, breaks, start + |e|, |before|)
    ensures start < start + |e| <= |before|
  {
    hide Count, IndentEach, FirstLine;
    LessIndent(indent, 0, breaks);
    NoneIndented(e, |e|, indent);
    var read := start + |e|;
    assert e[..read - start] == e && e[read - start..] == e[|e|..] && before[|before|..] == [];
    assert before[..read] == before[..read];
  }

  /** One line moved: the last of those that are still where they were. */
  method MoveLine(a: array<byte>, start: nat, total: nat, inner: nat, indent: nat, read: nat, write: nat, ghost e: Bytes,
                  ghost before: Bytes)
    returns (read': nat, write': nat)
    requires start < read <= write <= total <= a.Length && inner > 0
    requires Moved(before, a[..total], start, e, indent, inner, read, write)
    modifies a
    ensures Moved(before, a[..total], start, e, indent, inner - 1, read', write')
    ensures start < read' <= write' <= total
  {
    hide *;
    ghost var now := a[..total];
    BreakIsThere(before, now, start, e, indent, inner, read, write);
    assert exists k :: start <= k < read - 1 && a[k] == LF by {
      var k :| start <= k < read - 1 && now[k] == LF;
      assert a[k] == LF;
    }
    var p := LastBreak(a, start, read - 1);
    assert now[p] == LF && forall k :: p < k < read - 1 ==> now[k] == a[k];
    MovedMore(before, now, start, e, indent, inner, read, write, p);
    var n := read - p - 1;
    PlaceLine(a, total, p + 1, read, write, indent);
    return p + 1, write - n - indent;
  }

  /** Moves a line to end at write, and fills the spaces before it. */
  method PlaceLine(a: array<byte>, ghost total: nat, from: nat, until: nat, write: nat, indent: nat)
    requires from <= until <= write <= total <= a.Length && from + indent <= write - (until - from)
    modifies a
    ensures var now, n := old(a[..total]), until - from;
            a[..total] == Placed(Placed(now, write - n, now[from..until]), write - n - indent, Spaces(indent))
  {
    hide *;
    var n := until - from;
    ghost var all, now := a[..], a[..total];
    assert all[..total] == now && a[from..until] == now[from..until];
    CopyRight(a, from, until, write - n);
    PlacedPrefix(all, write - n, now[from..until], total);
    ghost var moved := a[..];
    FillSpaces(a, write - n - indent, write - n);
    PlacedPrefix(moved, write - n - indent, Spaces(indent), total);
    assert a[..][..total] == a[..total];
  }

  lemma BreakIsThere(before: Bytes, now: Bytes, start: nat, e: Bytes, indent: nat, inner: nat, read: nat, write: nat)
    requires Moved(before, now, start, e, indent, inner, read, write) && inner > 0
    ensures exists k :: start <= k < read - 1 && now[k] == LF
  {
    var head := e[..read - start];
    if forall k :: 0 <= k < |head| - 1 ==> head[k] != LF {
      OneBreak(head);
    } else {
      var k :| 0 <= k < |head| - 1 && head[k] == LF;
      assert now[start + k] == now[..read][start + k] == before[start..start + |e|][k] == LF;
    }
  }

  /** With no break left to pass, the first line is where it was. */
  lemma AllMoved(before: Bytes, now: Bytes, start: nat, e: Bytes, indent: nat, read: nat, write: nat)
    requires Moved(before, now, start, e, indent, 0, read, write)
    ensures now == before[..start] + Lines(e, indent)
  {
    var head := e[..read - start];
    FirstLineIsBreak(head);
    OnlyBreakEnds(head, FirstLine(head));
    FirstLineIsBreak(head);
    FirstLineAt(e, read - start);
    assert now == now[..read] + now[read..] && now[..read] == before[..start] + head;
    hide Count, FirstLine, IndentEach;
  }

  // ---------------------------------------------------------------------
  // A whole message.

  lemma {:induction false} OrdinaryRun(m: Bytes, at: nat, run: nat)
    requires at <= run <= |m| && forall i :: at <= i < run ==> m[i] != TAB && m[i] != CR && m[i] != ESCAPE
    ensures StripFrom(m, at) == m[at..run] + StripFrom(m, run)
    decreases run - at
  {
    if at < run {
      OrdinaryByte(m, at);
      hide *;
      OrdinaryRun(m, at + 1, run);
      assert m[at..run] == [m[at]] + m[at + 1..run];
      Regroup([], [m[at]], m[at + 1..run], StripFrom(m, run));
    } else {
      assert m[at..run] == [];
      Regroup([], [], [], StripFrom(m, run));
    }
  }

  lemma OrdinaryByte(m: Bytes, at: nat)
    requires at < |m| && m[at] != TAB && m[at] != CR && m[at] != ESCAPE
    ensures StripFrom(m, at) == [m[at]] + StripFrom(m, at + 1)
  {
  }

  /** The ordinary bytes at i, and what the special one after them becomes. */
  method AppendRun(dst: TextBuffer, m: Bytes, i: nat) returns (next: nat)
    requires dst.Valid() && i < |m|
    modifies dst, dst.data
    ensures dst.Valid() && i < next <= |m|
    ensures dst.Contents() + StripFrom(m, next) == old(dst.Contents()) + StripFrom(m, i)
    ensures dst.data == old(dst.data) || fresh(dst.data)
    ensures old(dst.data.Length) >= old(dst.len) + |StripFrom(m, i)| ==> dst.data == old(dst.data)
  {
    var run := i;
    while run < |m| && m[run] != TAB && m[run] != CR && m[run] != ESCAPE
      invariant i <= run <= |m| && forall k :: i <= k < run ==> m[k] != TAB && m[k] != CR && m[k] != ESCAPE
    {
      run := run + 1;
    }
    next := AppendPast(dst, m, i, run);
  }

  method AppendPast(dst: TextBuffer, m: Bytes, i: nat, run: nat) returns (next: nat)
    requires dst.Valid() && i <= run <= |m| && i < |m|
    requires forall k :: i <= k < run ==> m[k] != TAB && m[k] != CR && m[k] != ESCAPE
    requires run < |m| ==> m[run] == TAB || m[run] == CR || m[run] == ESCAPE
    modifies dst, dst.data
    ensures dst.Valid() && i < next <= |m|
    ensures dst.Contents() + StripFrom(m, next) == old(dst.Contents()) + StripFrom(m, i)
    ensures dst.data == old(dst.data) || fresh(dst.data)
    ensures old(dst.data.Length) >= old(dst.len) + |StripFrom(m, i)| ==> dst.data == old(dst.data)
  {
    hide Token, StripFrom;
    ghost var text := dst.Contents();
    OrdinaryRun(m, i, run);
    dst.Append(m[i..run]);
    next := run;
    if run < |m| {
      TokenThenRest(m, run);
      dst.Append(Token(m, run).0);
      next := Token(m, run).1;
      Regroup(text, m[i..run], Token(m, run).0, StripFrom(m, next));
    } else {
      Regroup(text, m[i..run], [], StripFrom(m, next));
    }
  }

  lemma TokenThenRest(m: Bytes, at: nat)
    requires at < |m|
    ensures at < Token(m, at).1 <= |m| && StripFrom(m, at) == Token(m, at).0 + StripFrom(m, Token(m, at).1)
  {
    hide Token;
  }

  /** Appends what StripFrom makes of the message, a run of plain bytes and a
      token at a time. */
  method AppendStripped(dst: TextBuffer, m: Bytes)
    requires dst.Valid()
    modifies dst, dst.data
    ensures dst.Valid() && dst.Contents() == old(dst.Contents()) + StripFrom(m, 0)
    ensures if old(dst.data.Length - dst.len) >= |StripFrom(m, 0)| then dst.data == old(dst.data) else fresh(dst.data)
  {
    var i := 0;
    while i < |m|
      invariant 0 <= i <= |m| && dst.Valid() && dst.Contents() + StripFrom(m, i) == old(dst.Contents()) + StripFrom(m, 0)
      invariant dst.data == old(dst.data) || fresh(dst.data)
      invariant old(dst.data.Length) >= old(dst.len) + |StripFrom(m, 0)| ==> dst.data == old(dst.data)
      decreases |m| - i
    {
      i := AppendRun(dst, m, i);
    }
  }

  // ---------------------------------------------------------------------
  // The blob line.

  /** Go's lengths are below this. */
  const INT_LIMIT := 0x8000_0000_0000_0000

  /** The decimal digits of n. */
  function Decimal(n: nat): Bytes {
    if n < 10 then [0x30 + n] else Decimal(n / 10) + [0x30 + n % 10]
  }

  function DecimalValue(digits: Bytes): int {
    if |digits| == 0 then 0
    else 10 * DecimalValue(digits[..|digits| - 1]) + digits[|digits| - 1] - 0x30
  }

  /** The digits read as the number, and are as many as it needs. */
  lemma {:induction false} DecimalReads(n: nat)
    ensures DecimalValue(Decimal(n)) == n && |Decimal(n)| >= 1
    ensures n >= 10 ==> |Decimal(n)| == |Decimal(n / 10)| + 1
  {
    if n >= 10 {
      DecimalReads(n / 10);
      assert Decimal(n)[..|Decimal(n)| - 1] == Decimal(n / 10);
    } else {
      assert [0x30 + n as byte][..0] == [];
    }
  }

  lemma FourDigits(n: nat)
    requires n < 1024
    ensures |Decimal(n)| <= 4
  {
    DecimalReads(n);
    DecimalReads(n / 10);
    DecimalReads(n / 10 / 10);
    hide DecimalValue;
  }

  /** The units of a size, largest first: the letter, and how many bytes. */
  const UNITS: seq<(byte, nat)> := [(0x45, 0x1000_0000_0000_0000), (0x50, 0x4_0000_0000_0000), (0x54, 0x100_0000_0000),
                                    (0x47, 0x4000_0000), (0x4D, 0x10_0000), (0x4B, 0x400)]

  /** The first unit not above size, from unit i on. */
  function UnitFor(size: nat, i: nat): (u: nat)
    requires i <= |UNITS|
    ensures i <= u <= |UNITS| && (u < |UNITS| ==> UNITS[u].1 <= size)
    ensures forall j :: i <= j < u ==> size < UNITS[j].1
    decreases |UNITS| - i
  {
    if i == |UNITS| || UNITS[i].1 <= size then i else UnitFor(size, i + 1)
  }

  /** The tenths digit of a size in unit u, from the next smaller unit. */
  function Tenths(size: nat, u: nat): (d: nat)
    requires u < |UNITS|
    ensures d < 10
  {
    if u < |UNITS| - 1 then size / UNITS[u + 1].1 * 10 / UNITS[|UNITS| - 1].1 % 10 else size * 10 / UNITS[u].1 % 10
  }

  function Point(tenths: nat): Bytes
    requires tenths < 10
  {
    if tenths > 0 then [0x2E, 0x30 + tenths] else []
  }

  /** A size in words: how often UnitFor's unit goes into it, a digit after the
      point unless that is 0, and the unit's letter; with no unit, the number
      and a B. */
  function FormatBytes(size: nat): Bytes {
    var u := UnitFor(size, 0);
    if u == |UNITS| then Decimal(size) + [0x42]
    else Decimal(size / UNITS[u].1) + (Point(Tenths(size, u)) + [UNITS[u].0])
  }

  /** Below the largest unit the number before the point is less than 1024,
      and at least 1. */
  lemma NumberIsSmall(size: nat, u: nat)
    requires u == UnitFor(size, 0) < |UNITS| && size < INT_LIMIT
    ensures 1 <= size / UNITS[u].1 < 1024
  {
    if u == 0 {
    } else if u == 1 {
      assert size < UNITS[0].1;
    } else if u == 2 {
      assert size < UNITS[1].1;
    } else if u == 3 {
      assert size < UNITS[2].1;
    } else if u == 4 {
      assert size < UNITS[3].1;
    } else {
      assert size < UNITS[4].1;
    }
  }

  /** No size of a Go slice takes more than seven characters. */
  lemma FormatBytesFits(size: nat)
    requires size < INT_LIMIT
    ensures |FormatBytes(size)| <= 7
  {
    var u := UnitFor(size, 0);
    if u == |UNITS| {
      assert size < UNITS[|UNITS| - 1].1;
      FourDigits(size);
    } else {
      NumberIsSmall(size, u);
      FourDigits(size / UNITS[u].1);
    }
    hide Decimal, Tenths, UnitFor;
  }

  const BLOB_DATA: Bytes := [0x20, 0x62, 0x6C, 0x6F, 0x62, 0x20, 0x64, 0x61, 0x74, 0x61, 0x5D, 0x0A]

  /** The line that stands for size unprintable bytes. */
  function BlobLine(size: nat): Bytes {
    [0x5B] + (FormatBytes(size) + BLOB_DATA)
  }

  lemma BlobLineFits(size: nat)
    requires size < INT_LIMIT
    ensures |BlobLine(size)| <= 20
  {
    hide FormatBytes;
    FormatBytesFits(size);
  }

  /** Appends a number, its tenths when they are not 0, and a unit. */
  method AppendNumber(dst: TextBuffer, number: nat, tenths: nat, unit: byte)
    requires dst.Valid() && tenths < 10
    modifies dst, dst.data
    ensures dst.Valid() && dst.Contents() == old(dst.Contents()) + (Decimal(number) + (Point(tenths) + [unit]))
    ensures dst.data == old(dst.data) || fresh(dst.data)
    ensures old(dst.data.Length - dst.len) >= |Decimal(number) + (Point(tenths) + [unit])| ==> dst.data == old(dst.data)
  {
    ghost var text := dst.Contents();
    hide Decimal;
    dst.Append(Decimal(number));
    if tenths > 0 {
      dst.Append([0x2E, 0x30 + tenths]);
      Regroup(text, Decimal(number), Point(tenths), [unit]);
    } else {
      Regroup(text, Decimal(number), [], [unit]);
      assert [] + [unit] == [unit];
    }
    dst.Append([unit]);
  }

  /** Appends a size in words, by the first unit in the table not above it. */
  method AppendFormatBytes(dst: TextBuffer, size: nat)
    requires dst.Valid()
    modifies dst, dst.data
    ensures dst.Valid() && dst.Contents() == old(dst.Contents()) + FormatBytes(size)
    ensures dst.data == old(dst.data) || fresh(dst.data)
    ensures old(dst.data.Length - dst.len) >= |FormatBytes(size)| ==> dst.data == old(dst.data)
  {
    for i := 0 to |UNITS|
      invariant dst.Valid() && dst.data == old(dst.data) && dst.Contents() == old(dst.Contents()) && dst.len == old(dst.len)
      invariant UnitFor(size, i) == UnitFor(size, 0)
    {
      if size >= UNITS[i].1 {
        hide Decimal, Tenths, Point;
        AppendNumber(dst, size / UNITS[i].1, Tenths(size, i), UNITS[i].0);
        return;
      }
    }
    hide Decimal, Tenths;
    AppendNumber(dst, size, 0, 0x42);
    assert [] + [0x42 as byte] == [0x42];
  }

  /** Appends the line that says how long an unprintable message is. */
  method AppendBlobLine(dst: TextBuffer, size: nat)
    requires dst.Valid()
    modifies dst, dst.data
    ensures dst.Valid() && dst.Contents() == old(dst.Contents()) + BlobLine(size)
    ensures dst.data == old(dst.data) || fresh(dst.data)
    ensures old(dst.data.Length - dst.len) >= |BlobLine(size)| ==> dst.data == old(dst.data)
  {
    hide FormatBytes;
    ghost var text := dst.Contents();
    dst.Append([0x5B]);
    AppendFormatBytes(dst, size);
    dst.Append(BLOB_DATA);
    Regroup(text, [0x5B], FormatBytes(size), BLOB_DATA);
  }

  /** What is printed for a message: its lines, or, when it is not printable
      once stripped, a line that says how long it is. */
  function MessageText(m: Bytes, indent: nat): Bytes {
    var s := StripFrom(m, 0);
    if PrintableUtf8.Printable(s) then Printed(s, indent) else BlobLine(|s|)
  }

  /** Appends the message part of an entry's text. It fits the room, so a
      buffer that has it keeps its array. */
  method AppendMessage(dst: TextBuffer, m: Bytes, indent: nat)
    requires dst.Valid() && |StripFrom(m, 0)| < INT_LIMIT
    modifies dst, dst.data
    ensures dst.Valid() && dst.Contents() == old(dst.Contents()) + MessageText(m, indent)
    ensures |MessageText(m, indent)| <= MessageRoom(m, indent)
    ensures old(dst.data.Length - dst.len) >= MessageRoom(m, indent) ==> dst.data == old(dst.data)
  {
    hide StripFrom, Printed, MessageRoom, BlobLine, PrintableUtf8.Printable;
    var start := dst.len;
    ghost var head, s := dst.Contents(), StripFrom(m, 0);
    PrintedFits(m, indent);
    BlobFits(m, indent);
    BlobLineFits(|s|);
    AppendStripped(dst, m);
    assert (head + s)[..start] == head && (head + s)[start..] == s;
    assert dst.data[start..dst.len] == s;
    var printable := PrintableUtf8.AllMayBePrinted(dst.data[start..dst.len]);
    if printable {
      dst.IndentLines(start, indent);
    } else {
      var size := dst.len - start;
      dst.len := start;
      assert dst.Contents() == head;
      AppendBlobLine(dst, size);
    }
  }

  lemma BlobFits(m: Bytes, indent: nat)
    ensures MAX_BLOB_LINE_LEN <= MessageRoom(m, indent)
  {
  }
}
