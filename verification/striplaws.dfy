/** What stripping does to a message, by the pieces a message is made of, and
    which text an entry gets for its message. */
module StripLaws {
  import opened Common
  import opened JournalText
  import PrintableUtf8

  // ---------------------------------------------------------------------
  // The pieces of a message.

  /** A byte that is nothing special, a tab, a run of carriage returns, a
      color sequence with its parameters, an OSC sequence with its text and
      its ending, an escape with the byte after it, and one at the end. */
  datatype Piece =
    | Plain(b: byte)
    | Tab
    | Returns(n: nat)
    | Color(params: Bytes)
    | Osc(text: Bytes, bell: bool)
    | Pair(b: byte)
    | LastEscape

  function Repeat(b: byte, n: nat): (r: Bytes)
    ensures |r| == n
  {
    seq(n, _ => b)
  }

  function BytesOf(p: Piece): Bytes {
    match p
    case Plain(b) => [b]
    case Tab => [9]
    case Returns(n) => Repeat(13, n)
    case Color(params) => [27, 0x5B] + (params + [0x6D])
    case Osc(text, bell) => [27, 0x5D] + (text + if bell then [7] else [27, 0x5C])
    case Pair(b) => [27, b]
    case LastEscape => [27]
  }

  function TextOf(pieces: seq<Piece>): Bytes {
    if pieces == [] then [] else BytesOf(pieces[0]) + TextOf(pieces[1..])
  }

  predicate IsParam(b: byte) {
    0x30 <= b <= 0x39 || b == 0x3B || b == 0
  }

  predicate IsOscByte(b: byte) {
    0x20 <= b <= 0x7E
  }

  /** t begins as a color sequence goes on, up to its end at k. */
  predicate ColorEndsAt(t: Bytes, k: nat) {
    k < |t| && t[k] == 0x6D && forall i :: 0 <= i < k ==> IsParam(t[i])
  }

  /** t begins as an OSC sequence goes on, up to its ending at k. */
  predicate OscEndsAt(t: Bytes, k: nat) {
    && k < |t| && (t[k] == 7 || (t[k] == 27 && k + 1 < |t| && t[k + 1] == 0x5C))
    && forall i :: 0 <= i < k ==> IsOscByte(t[i])
  }

  /** p is the piece that stands before rest. */
  predicate Stands(p: Piece, rest: Bytes) {
    match p
    case Plain(b) => b != 9 && b != 13 && b != 27
    case Tab => true
    case Returns(n) => n > 0 && (rest != [] ==> rest[0] != 13)
    case Color(params) => forall i :: 0 <= i < |params| ==> IsParam(params[i])
    case Osc(text, bell) => forall i :: 0 <= i < |text| ==> IsOscByte(text[i])
    case Pair(b) =>
      && (b == 0x5B ==> forall k :: 0 <= k < |rest| ==> !ColorEndsAt(rest, k))
      && (b == 0x5D ==> forall k :: 0 <= k < |rest| ==> !OscEndsAt(rest, k))
    case LastEscape => rest == []
  }

  predicate AllStand(pieces: seq<Piece>) {
    pieces == [] || (Stands(pieces[0], TextOf(pieces[1..])) && AllStand(pieces[1..]))
  }

  /** What a piece becomes before rest: a tab eight spaces, a sequence nothing,
      carriage returns nothing before a line break or at the end; all else
      stays. */
  function ShownAs(p: Piece, rest: Bytes): Bytes {
    match p
    case Tab => Repeat(0x20, 8)
    case Color(_) => []
    case Osc(_, _) => []
    case Returns(n) => if rest == [] || rest[0] == 10 then [] else Repeat(13, n)
    case _ => BytesOf(p)
  }

  function Shown(pieces: seq<Piece>): Bytes {
    if pieces == [] then [] else ShownAs(pieces[0], TextOf(pieces[1..])) + Shown(pieces[1..])
  }

  // ---------------------------------------------------------------------
  // The ends of runs and sequences.

  lemma {:induction false} ColorEndFound(m: Bytes, from: nat, k: nat)
    requires from <= |m| && ColorEndsAt(m[from..], k)
    ensures ColorEnd(m, from) == Some(from + k + 1)
    decreases k
  {
    assert m[from + k] == m[from..][k];
    if k > 0 {
      assert IsParam(m[from..][0]) && forall i :: 0 <= i < k ==> m[from..][i] == m[from + i];
      var rest := m[from + 1..];
      assert forall i :: 0 <= i < |rest| ==> rest[i] == m[from..][i + 1];
      assert m[from + 1..][k - 1] == m[from..][k];
      ColorEndFound(m, from + 1, k - 1);
    }
  }

  lemma {:induction false} ColorEndOnly(m: Bytes, from: nat)
    requires from <= |m| && ColorEnd(m, from).Some?
    ensures from < ColorEnd(m, from).value && ColorEndsAt(m[from..], ColorEnd(m, from).value - from - 1)
    decreases |m| - from
  {
    if m[from] != 0x6D {
      ColorEndOnly(m, from + 1);
      assert forall i :: 0 < i < |m| - from ==> m[from..][i] == m[from + 1..][i - 1];
    }
  }

  lemma {:induction false} OscEndFound(m: Bytes, from: nat, k: nat)
    requires from <= |m| && OscEndsAt(m[from..], k)
    ensures OscEnd(m, from) == Some(from + k + if m[from + k] == 7 then 1 else 2)
    decreases k
  {
    assert m[from + k] == m[from..][k];
    if k > 0 {
      assert IsOscByte(m[from..][0]) && forall i :: 0 <= i < |m| - from ==> m[from..][i] == m[from + i];
      var rest := m[from + 1..];
      assert forall i :: 0 <= i < |rest| ==> rest[i] == m[from..][i + 1];
      OscEndFound(m, from + 1, k - 1);
    } else if m[from] == 27 {
      assert m[from..][1] == m[from + 1];
    }
  }

  lemma {:induction false} OscEndOnly(m: Bytes, from: nat) returns (k: nat)
    requires from <= |m| && OscEnd(m, from).Some?
    ensures OscEndsAt(m[from..], k) && OscEnd(m, from).value == from + k + if m[from + k] == 7 then 1 else 2
    decreases |m| - from
  {
    assert forall i :: 0 <= i < |m| - from ==> m[from..][i] == m[from + i];
    if m[from] == 7 || m[from] == 27 {
      k := 0;
    } else {
      var j := OscEndOnly(m, from + 1);
      var rest := m[from + 1..];
      assert forall i :: 0 <= i < |rest| ==> rest[i] == m[from..][i + 1];
      k := j + 1;
    }
  }

  lemma {:induction false} ReturnsEnd(m: Bytes, at: nat, n: nat)
    requires at + n <= |m| && (forall i :: at <= i < at + n ==> m[i] == 13) && (at + n < |m| ==> m[at + n] != 13)
    ensures CRsEnd(m, at) == at + n
    decreases n
  {
    if n > 0 {
      ReturnsEnd(m, at + 1, n - 1);
    }
  }

  // ---------------------------------------------------------------------
  // Stripping by pieces.

  /** The piece that stands at m[at..] is what the next token is made of. */
  lemma TokenOfPiece(m: Bytes, at: nat, p: Piece, rest: Bytes)
    requires at <= |m| && m[at..] == BytesOf(p) + rest && Stands(p, rest)
    ensures at < |m| && Token(m, at) == (ShownAs(p, rest), at + |BytesOf(p)|)
  {
    assert m[at..][0] == BytesOf(p)[0] == m[at];
    match p
    case Returns(k) => ReturnsToken(m, at, k, rest);
    case Color(params) => ColorToken(m, at, params, rest);
    case Osc(text, bell) => OscToken(m, at, text, if bell then [7] else [27, 0x5C], rest);
    case Pair(b) =>
      assert m[at..][1] == m[at + 1];
      PairStays(m, at, b, rest);
    case _ =>
  }

  lemma ReturnsToken(m: Bytes, at: nat, n: nat, rest: Bytes)
    requires at <= |m| && m[at..] == Repeat(13, n) + rest && Stands(Returns(n), rest)
    ensures at < |m| && Token(m, at) == (ShownAs(Returns(n), rest), at + n)
  {
    var all := m[at..];
    assert forall i :: at <= i < |m| ==> m[i] == all[i - at];
    assert at + n < |m| ==> m[at + n] == rest[0];
    assert m[at..at + n] == all[..n] == Repeat(13, n);
    ReturnsEnd(m, at, n);
    hide CRsEnd, ColorEnd, OscEnd;
  }

  lemma ColorToken(m: Bytes, at: nat, params: Bytes, rest: Bytes)
    requires at <= |m| && m[at..] == [27, 0x5B] + (params + [0x6D]) + rest
    requires forall i :: 0 <= i < |params| ==> IsParam(params[i])
    ensures at < |m| && Token(m, at) == ([], at + |params| + 3)
  {
    hide *;
    SequenceAfter(m, at, 0x5B, params + [0x6D], rest);
    ColorEnds(m[at + 2..], params, rest);
    ColorEndFound(m, at + 2, |params|);
    SequenceTaken(m, at);
  }

  lemma ColorEnds(t: Bytes, params: Bytes, rest: Bytes)
    requires t == params + [0x6D] + rest && forall i :: 0 <= i < |params| ==> IsParam(params[i])
    ensures ColorEndsAt(t, |params|)
  {
    hide IsParam;
  }

  lemma OscToken(m: Bytes, at: nat, text: Bytes, ending: Bytes, rest: Bytes)
    requires at <= |m| && m[at..] == [27, 0x5D] + (text + ending) + rest && (ending == [7] || ending == [27, 0x5C])
    requires forall i :: 0 <= i < |text| ==> IsOscByte(text[i])
    ensures at < |m| && Token(m, at) == ([], at + |text| + 2 + |ending|)
  {
    hide *;
    SequenceAfter(m, at, 0x5D, text + ending, rest);
    OscEnds(m[at + 2..], text, ending, rest);
    OscEndFound(m, at + 2, |text|);
    assert m[at + 2 + |text|] == (text + ending)[|text|] == ending[0];
    SequenceTaken(m, at);
  }

  lemma SequenceTaken(m: Bytes, at: nat)
    requires at + 2 <= |m| && m[at] == 27
    ensures m[at + 1] == 0x5B && ColorEnd(m, at + 2).Some? ==> Token(m, at) == ([], ColorEnd(m, at + 2).value)
    ensures m[at + 1] == 0x5D && OscEnd(m, at + 2).Some? ==> Token(m, at) == ([], OscEnd(m, at + 2).value)
  {
    hide ColorEnd, OscEnd;
  }

  lemma OscEnds(t: Bytes, text: Bytes, ending: Bytes, rest: Bytes)
    requires t == text + ending + rest && (ending == [7] || ending == [27, 0x5C])
    requires forall i :: 0 <= i < |text| ==> IsOscByte(text[i])
    ensures OscEndsAt(t, |text|)
  {
    assert t[|text|] == ending[0] && (|ending| == 2 ==> t[|text| + 1] == ending[1]);
    hide IsOscByte;
  }

  /** What follows the two bytes a sequence begins with. */
  lemma SequenceAfter(m: Bytes, at: nat, second: byte, tail: Bytes, rest: Bytes)
    requires at <= |m| && m[at..] == [27, second] + tail + rest
    ensures at + 2 + |tail| <= |m| && m[at] == 27 && m[at + 1] == second
    ensures m[at + 2..] == tail + rest
    ensures forall i :: 0 <= i < |tail| ==> m[at + 2..][i] == tail[i] && m[at + 2 + i] == tail[i]
  {
    var all := m[at..];
    assert all[0] == m[at] && all[1] == m[at + 1] && m[at + 2..] == all[2..];
  }

  lemma PairStays(m: Bytes, at: nat, b: byte, rest: Bytes)
    requires at + 2 <= |m| && m[at] == 27 && m[at + 1] == b && m[at..] == [27, b] + rest && Stands(Pair(b), rest)
    ensures Token(m, at) == ([27, b], at + 2)
  {
    assert m[at + 2..] == rest && m[at..at + 2] == [27, b];
    if b == 0x5B && ColorEnd(m, at + 2).Some? {
      ColorEndOnly(m, at + 2);
      assert false;
    }
    if b == 0x5D && OscEnd(m, at + 2).Some? {
      var k := OscEndOnly(m, at + 2);
      assert false;
    }
  }

  ghost predicate StandAt(m: Bytes, at: nat, pieces: seq<Piece>) {
    at <= |m| && m[at..] == TextOf(pieces) && AllStand(pieces)
  }

  ghost predicate IsShown(m: Bytes, at: nat, pieces: seq<Piece>) {
    at <= |m| && StripFrom(m, at) == Shown(pieces)
  }

  lemma PieceThenRest(m: Bytes, at: nat, pieces: seq<Piece>) returns (next: nat)
    requires pieces != [] && StandAt(m, at, pieces)
    ensures StandAt(m, next, pieces[1..]) && (IsShown(m, next, pieces[1..]) ==> IsShown(m, at, pieces))
  {
    hide *;
    var p := pieces[0];
    var rest := StandParts(m, at, pieces);
    next := at + |BytesOf(p)|;
    TokenOfPiece(m, at, p, rest);
    RestAfter(m, at, BytesOf(p), rest);
    TokenThenRest(m, at);
    RestStands(m, next, pieces, rest);
    ShownParts(m, at, next, pieces, rest);
  }

  lemma StandParts(m: Bytes, at: nat, pieces: seq<Piece>) returns (rest: Bytes)
    requires pieces != [] && StandAt(m, at, pieces)
    ensures at <= |m| && m[at..] == BytesOf(pieces[0]) + rest && Stands(pieces[0], rest)
    ensures rest == TextOf(pieces[1..]) && AllStand(pieces[1..])
  {
    rest := TextOf(pieces[1..]);
    hide BytesOf, Stands;
  }

  lemma RestAfter(m: Bytes, at: nat, first: Bytes, rest: Bytes)
    requires at <= |m| && m[at..] == first + rest
    ensures at + |first| <= |m| && m[at + |first|..] == rest
  {
    assert m[at + |first|..] == m[at..][|first|..];
  }

  lemma RestStands(m: Bytes, next: nat, pieces: seq<Piece>, rest: Bytes)
    requires pieces != [] && next <= |m| && m[next..] == rest == TextOf(pieces[1..]) && AllStand(pieces[1..])
    ensures StandAt(m, next, pieces[1..])
  {
  }

  lemma ShownParts(m: Bytes, at: nat, next: nat, pieces: seq<Piece>, rest: Bytes)
    requires pieces != [] && at <= |m| && next <= |m| && rest == TextOf(pieces[1..])
    requires StripFrom(m, at) == ShownAs(pieces[0], rest) + StripFrom(m, next)
    ensures IsShown(m, next, pieces[1..]) ==> IsShown(m, at, pieces)
  {
    hide ShownAs, StripFrom, TextOf;
  }

  lemma NoPieces(m: Bytes, at: nat)
    requires StandAt(m, at, [])
    ensures IsShown(m, at, [])
  {
  }

  /** A message is stripped piece by piece. */
  lemma {:induction false} StripShows(m: Bytes, at: nat, pieces: seq<Piece>)
    requires StandAt(m, at, pieces)
    ensures IsShown(m, at, pieces)
    decreases |pieces|
  {
    hide *;
    if pieces == [] {
      NoPieces(m, at);
    } else {
      var next := PieceThenRest(m, at, pieces);
      StripShows(m, next, pieces[1..]);
    }
  }

  /** The piece a message begins with. */
  lemma FirstPiece(m: Bytes) returns (p: Piece)
    requires m != []
    ensures 0 < |BytesOf(p)| <= |m| && m == BytesOf(p) + m[|BytesOf(p)|..] && Stands(p, m[|BytesOf(p)|..])
  {
    if m[0] == 9 {
      p := Tab;
    } else if m[0] == 13 {
      var n := CRsEnd(m, 0);
      p := Returns(n);
      assert m[..n] == Repeat(13, n);
    } else if m[0] == 27 {
      p := EscapePiece(m);
    } else {
      p := Plain(m[0]);
    }
  }

  lemma EscapePiece(m: Bytes) returns (p: Piece)
    requires m != [] && m[0] == 27
    ensures 0 < |BytesOf(p)| <= |m| && m == BytesOf(p) + m[|BytesOf(p)|..] && Stands(p, m[|BytesOf(p)|..])
  {
    if |m| == 1 {
      return LastEscape;
    }
    var t := m[2..];
    if m[1] == 0x5B && exists k :: 0 <= k < |t| && ColorEndsAt(t, k) {
      var k :| 0 <= k < |t| && ColorEndsAt(t, k);
      p := Color(t[..k]);
      ColorPiece(m, k);
    } else if m[1] == 0x5D && exists k :: 0 <= k < |t| && OscEndsAt(t, k) {
      var k :| 0 <= k < |t| && OscEndsAt(t, k);
      p := Osc(t[..k], t[k] == 7);
      OscPiece(m, k);
    } else {
      p := Pair(m[1]);
      assert m == [27, m[1]] + t;
    }
  }

  lemma ColorPiece(m: Bytes, k: nat)
    requires |m| > 1 && m[0] == 27 && m[1] == 0x5B && ColorEndsAt(m[2..], k)
    ensures var p := Color(m[2..][..k]);
            |BytesOf(p)| <= |m| && m == BytesOf(p) + m[|BytesOf(p)|..] && Stands(p, m[|BytesOf(p)|..])
  {
    var t := m[2..];
    assert m == [27, 0x5B] + (t[..k] + [0x6D]) + t[k + 1..];
    hide IsParam;
  }

  lemma OscPiece(m: Bytes, k: nat)
    requires |m| > 1 && m[0] == 27 && m[1] == 0x5D && OscEndsAt(m[2..], k)
    ensures var p := Osc(m[2..][..k], m[2..][k] == 7);
            |BytesOf(p)| <= |m| && m == BytesOf(p) + m[|BytesOf(p)|..] && Stands(p, m[|BytesOf(p)|..])
  {
    var t := m[2..];
    var ending := if t[k] == 7 then [7] else [27, 0x5C];
    assert t == t[..k] + ending + t[k + |ending|..];
    assert m == [27, 0x5D] + (t[..k] + ending) + t[k + |ending|..];
    hide IsOscByte;
  }

  /** Every message is made of pieces, and is stripped as they are shown. */
  lemma {:induction false} EveryMessageIsPieces(m: Bytes) returns (pieces: seq<Piece>)
    ensures TextOf(pieces) == m && AllStand(pieces) && StripFrom(m, 0) == Shown(pieces)
    decreases |m|
  {
    pieces := [];
    if m != [] {
      var p := FirstPiece(m);
      hide BytesOf, Stands, ShownAs, StripFrom, Shown;
      var more := EveryMessageIsPieces(m[|BytesOf(p)|..]);
      pieces := [p] + more;
      assert pieces[1..] == more;
    }
    assert m[0..] == m;
    StripShows(m, 0, pieces);
  }

  // ---------------------------------------------------------------------
  // The text of a message.

  /** A code point that may be printed: no control character but tab and line
      break, no surrogate, none of those that stand for no character, and none
      past the last. */
  lemma PrintablePoints(v: nat)
    ensures PrintableUtf8.IsPrintable(v) <==>
            && (v == 9 || v == 10 || 0x20 <= v < 0x7F || 0xA0 <= v <= 0x10FFFF)
            && !(0xD800 <= v <= 0xDFFF) && !(0xFDD0 <= v <= 0xFDEF) && v % 0x10000 != 0xFFFE && v % 0x10000 != 0xFFFF
  {
  }

  /** A message whose stripped bytes are the UTF-8 of points that may be
      printed: its lines, the first as it is, the others after the indent. */
  lemma PrintableIsPrinted(m: Bytes, indent: nat, points: seq<nat>)
    requires PrintableUtf8.AllPrintable(points) && StripFrom(m, 0) == PrintableUtf8.EncodeAll(points)
    ensures var e := Ended(StripFrom(m, 0));
            var pieces := Split(e[..|e| - 1]);
            MessageText(m, indent) == pieces[0] + [10] + JoinLines(pieces[1..], Repeat(0x20, indent))
  {
    PrintableUtf8.EncodedIsPrintable(points);
    PrintedIsSplitAndJoin(StripFrom(m, 0), indent);
    assert Spaces(indent) == Repeat(0x20, indent);
    hide Printed, Split, JoinLines, StripFrom, PrintableUtf8.Printable, PrintableUtf8.EncodeAll;
  }

  /** Any other message: a line with the size of what stripping leaves. */
  lemma OtherIsBlob(m: Bytes, indent: nat)
    requires forall points: seq<nat> :: PrintableUtf8.AllPrintable(points) ==> StripFrom(m, 0) != PrintableUtf8.EncodeAll(points)
    ensures MessageText(m, indent)
            == [0x5B] + (FormatBytes(|StripFrom(m, 0)|)
                         + [0x20, 0x62, 0x6C, 0x6F, 0x62, 0x20, 0x64, 0x61, 0x74, 0x61, 0x5D, 0x0A])
  {
    if PrintableUtf8.Printable(StripFrom(m, 0)) {
      var points := PrintableUtf8.PrintableIsEncoded(StripFrom(m, 0));
    }
    hide FormatBytes, StripFrom, PrintableUtf8.Printable, PrintableUtf8.EncodeAll, Printed;
  }

  /** size as a number of a unit, a digit after the point unless that is 0,
      and the unit's letter. */
  predicate InUnit(size: nat, unit: nat, letter: byte, tenth: int)
    requires unit > 0
  {
    0 <= tenth < 10 && FormatBytes(size) == Decimal(size / unit) + (Point(tenth) + [letter])
  }

  /** A size below 1 KiB is its number and a B; any other is a number of the
      largest unit, from KiB to EiB, that is not above it, with a digit after
      the point made from how many next smaller units there are. */
  lemma SizeInWords(size: nat)
    ensures size < 0x400 ==> FormatBytes(size) == Decimal(size) + [0x42]
    ensures 0x400 <= size < 0x10_0000 ==> InUnit(size, 0x400, 0x4B, size * 10 / 0x400 % 10)
    ensures 0x10_0000 <= size < 0x4000_0000 ==> InUnit(size, 0x10_0000, 0x4D, size / 0x400 * 10 / 0x400 % 10)
    ensures 0x4000_0000 <= size < 0x100_0000_0000 ==> InUnit(size, 0x4000_0000, 0x47, size / 0x10_0000 * 10 / 0x400 % 10)
    ensures 0x100_0000_0000 <= size < 0x4_0000_0000_0000 ==>
              InUnit(size, 0x100_0000_0000, 0x54, size / 0x4000_0000 * 10 / 0x400 % 10)
    ensures 0x4_0000_0000_0000 <= size < 0x1000_0000_0000_0000 ==>
              InUnit(size, 0x4_0000_0000_0000, 0x50, size / 0x100_0000_0000 * 10 / 0x400 % 10)
    ensures 0x1000_0000_0000_0000 <= size ==>
              InUnit(size, 0x1000_0000_0000_0000, 0x45, size / 0x4_0000_0000_0000 * 10 / 0x400 % 10)
  {
    UnitIs(size);
    UnitsAre();
    WordsByUnit(size, UnitFor(size, 0));
    TenthsAre(size);
    hide Decimal, UnitFor, Point, FormatBytes, Tenths, InUnit;
  }

  lemma UnitsAre()
    ensures UNITS == [(0x45, 0x1000_0000_0000_0000), (0x50, 0x4_0000_0000_0000), (0x54, 0x100_0000_0000),
                      (0x47, 0x4000_0000), (0x4D, 0x10_0000), (0x4B, 0x400)]
  {
  }

  lemma WordsByUnit(size: nat, u: nat)
    requires u == UnitFor(size, 0)
    ensures if u == 6 then FormatBytes(size) == Decimal(size) + [0x42]
            else u < 6 && UNITS[u].1 > 0 && InUnit(size, UNITS[u].1, UNITS[u].0, Tenths(size, u))
  {
    hide Decimal, UnitFor, Point, Tenths;
  }

  lemma TenthsAre(size: nat)
    ensures Tenths(size, 5) == size * 10 / 0x400 % 10
    ensures Tenths(size, 4) == size / 0x400 * 10 / 0x400 % 10 && Tenths(size, 3) == size / 0x10_0000 * 10 / 0x400 % 10
    ensures Tenths(size, 2) == size / 0x4000_0000 * 10 / 0x400 % 10
    ensures Tenths(size, 1) == size / 0x100_0000_0000 * 10 / 0x400 % 10
    ensures Tenths(size, 0) == size / 0x4_0000_0000_0000 * 10 / 0x400 % 10
  {
    UnitsAre();
  }

  lemma UnitIs(size: nat)
    ensures UnitFor(size, 0) == if size >= 0x1000_0000_0000_0000 then 0 else if size >= 0x4_0000_0000_0000 then 1
                                else if size >= 0x100_0000_0000 then 2 else if size >= 0x4000_0000 then 3
                                else if size >= 0x10_0000 then 4 else if size >= 0x400 then 5 else 6
  {
    var u := UnitFor(size, 0);
    UnitsAre();
    assert forall j :: 0 <= j < u ==> size < UNITS[j].1;
    assert u > 0 ==> size < UNITS[0].1;
    assert u > 1 ==> size < UNITS[1].1;
    assert u > 2 ==> size < UNITS[2].1;
    assert u > 3 ==> size < UNITS[3].1;
    assert u > 4 ==> size < UNITS[4].1;
    assert u > 5 ==> size < UNITS[5].1;
    assert u == 0 || u == 1 || u == 2 || u == 3 || u == 4 || u == 5 || u == 6;
    assert u < 6 ==> UNITS[u].1 <= size;
    hide UnitFor;
  }
}
