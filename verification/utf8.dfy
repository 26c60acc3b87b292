/** Which bytes may be printed: UTF-8 as systemd decodes it, without control
    characters. */
module PrintableUtf8 {
  import opened Common

  type Bytes = seq<byte>

  // ---------------------------------------------------------------------
  // Code points.

  const CODE_POINTS := 0x11_0000

  /** A code point that may be written: no surrogate, and none of those that
      stand for no character. */
  predicate IsValid(v: nat) {
    v < CODE_POINTS && !(0xD800 <= v < 0xE000) && !(0xFDD0 <= v <= 0xFDEF) && v % 0x1_0000 < 0xFFFE
  }

  predicate IsControl(v: nat) {
    (v < 0x20 && v != 0x09 && v != 0x0A) || 0x7F <= v <= 0x9F
  }

  predicate IsPrintable(v: nat) {
    IsValid(v) && !IsControl(v)
  }

  /** How many bytes a value takes. */
  function EncodedLen(v: nat): (n: nat)
    ensures 1 <= n <= 6
  {
    if v < 0x80 then 1 else if v < 0x800 then 2 else if v < 0x1_0000 then 3 else if v < 0x20_0000 then 4
    else if v < 0x400_0000 then 5 else 6
  }

  /** A code point in UTF-8. */
  function Encode(v: nat): (e: Bytes)
    requires v < CODE_POINTS
    ensures |e| == EncodedLen(v)
  {
    if v < 0x80 then [v]
    else if v < 0x800 then [0xC0 + v / 0x40, 0x80 + v % 0x40]
    else if v < 0x1_0000 then [0xE0 + v / 0x1000, 0x80 + v / 0x40 % 0x40, 0x80 + v % 0x40]
    else [0xF0 + v / 0x4_0000, 0x80 + v / 0x1000 % 0x40, 0x80 + v / 0x40 % 0x40, 0x80 + v % 0x40]
  }

  predicate AllPrintable(points: seq<nat>) {
    forall i :: 0 <= i < |points| ==> IsPrintable(points[i])
  }

  function EncodeAll(points: seq<nat>): Bytes
    requires AllPrintable(points)
  {
    if |points| == 0 then [] else Encode(points[0]) + EncodeAll(points[1..])
  }

  // ---------------------------------------------------------------------
  // Decoding.

  /** The length a first byte gives its sequence; 0 for a byte that begins
      none. Five and six are lengths too, of values no code point has. */
  function LeadLen(c: byte): (n: nat)
    ensures n <= 6
  {
    if c < 0x80 then 1 else if c < 0xC0 then 0 else if c < 0xE0 then 2 else if c < 0xF0 then 3
    else if c < 0xF8 then 4 else if c < 0xFC then 5 else if c < 0xFE then 6 else 0
  }

  /** What a first byte gives of the value. */
  function LeadBits(c: byte): nat
    requires LeadLen(c) >= 2
  {
    match LeadLen(c)
    case 2 => c - 0xC0
    case 3 => c - 0xE0
    case 4 => c - 0xF0
    case 5 => c - 0xF8
    case _ => c - 0xFC
  }

  /** value with the six bits of each later byte; None for a byte that is not
      one. */
  function Continued(value: nat, rest: Bytes): Option<nat>
    decreases |rest|
  {
    if |rest| == 0 then Some(value)
    else if rest[0] < 0x80 || rest[0] >= 0xC0 then None
    else Continued(0x40 * value + (rest[0] - 0x80), rest[1..])
  }

  /** The code point b begins with, of two bytes or more, and how many. */
  function Decode(b: Bytes): (r: Option<(nat, nat)>)
    requires |b| > 0
    ensures r.Some? ==> 0 < r.value.1 <= |b|
  {
    var size := LeadLen(b[0]);
    if size < 2 || size > |b| then None
    else
      var value := Continued(LeadBits(b[0]), b[1..size]);
      if value.None? || EncodedLen(value.value) != size || !IsValid(value.value) then None
      else Some((value.value, size))
  }

  /** b splits into characters that may be printed. */
  predicate Printable(b: Bytes)
    decreases |b|
  {
    if |b| == 0 then true
    else if b[0] < 0x80 then !IsControl(b[0]) && Printable(b[1..])
    else
      var d := Decode(b);
      d.Some? && !IsControl(d.value.0) && Printable(b[d.value.1..])
  }

  /** Decode, a byte at a time. */
  method DecodeNext(b: Bytes) returns (value: nat, size: nat, ok: bool)
    requires |b| > 0
    ensures Decode(b) == if ok then Some((value, size)) else None
  {
    value, size, ok := 0, LeadLen(b[0]), false;
    if size < 2 || size > |b| {
      return;
    }
    value := LeadBits(b[0]);
    var i := 1;
    while i < size
      invariant 1 <= i <= size && Continued(value, b[i..size]) == Continued(LeadBits(b[0]), b[1..size])
    {
      if b[i] < 0x80 || b[i] >= 0xC0 {
        return;
      }
      assert b[i..size][1..] == b[i + 1..size];
      value, i := 0x40 * value + (b[i] - 0x80), i + 1;
    }
    ok := EncodedLen(value) == size && IsValid(value);
  }

  /** Decides Printable by a loop over the characters. */
  method AllMayBePrinted(b: Bytes) returns (ok: bool)
    ensures ok <==> Printable(b)
  {
    var i := 0;
    assert b[0..] == b;
    hide Decode, IsControl;
    while i < |b|
      invariant 0 <= i <= |b| && (Printable(b[i..]) <==> Printable(b))
    {
      var rest := b[i..];
      if b[i] < 0x80 {
        if IsControl(b[i]) {
          return false;
        }
        assert rest[1..] == b[i + 1..];
        i := i + 1;
      } else {
        var value, size, decoded := DecodeNext(rest);
        if !decoded || IsControl(value) {
          return false;
        }
        assert rest[size..] == b[i + size..];
        i := i + size;
      }
    }
    return true;
  }

  // ---------------------------------------------------------------------
  // What is printable.

  lemma ContinuedOne(value: nat, a: byte)
    requires 0x80 <= a < 0xC0
    ensures Continued(value, [a]) == Some(0x40 * value + (a - 0x80))
  {
    assert [a][1..] == [];
  }

  lemma ContinuedTwo(value: nat, a: byte, b: byte)
    requires 0x80 <= a < 0xC0 && 0x80 <= b < 0xC0
    ensures Continued(value, [a, b]) == Some(0x1000 * value + 0x40 * (a - 0x80) + (b - 0x80))
  {
    assert [a, b][1..] == [b];
    ContinuedOne(0x40 * value + (a - 0x80), b);
  }

  lemma ContinuedThree(value: nat, a: byte, b: byte, c: byte)
    requires 0x80 <= a < 0xC0 && 0x80 <= b < 0xC0 && 0x80 <= c < 0xC0
    ensures Continued(value, [a, b, c])
            == Some(0x4_0000 * value + 0x1000 * (a - 0x80) + 0x40 * (b - 0x80) + (c - 0x80))
  {
    assert [a, b, c][1..] == [b, c];
    ContinuedTwo(0x40 * value + (a - 0x80), b, c);
  }

  /** Bytes that continue a value are continuation bytes, one and all. */
  lemma {:induction false} ContinuedBytes(value: nat, rest: Bytes)
    requires Continued(value, rest).Some?
    ensures forall i :: 0 <= i < |rest| ==> 0x80 <= rest[i] < 0xC0
    decreases |rest|
  {
    if |rest| > 0 {
      ContinuedBytes(0x40 * value + (rest[0] - 0x80), rest[1..]);
      assert forall i :: 1 <= i < |rest| ==> rest[i] == rest[1..][i - 1];
    }
  }

  /** A value and its digits of six bits. */
  lemma TwoDigits(v: nat, a: nat, b: nat)
    requires b < 0x40
    ensures v == 0x40 * a + b <==> v / 0x40 == a && v % 0x40 == b
  {
  }

  lemma ThreeDigits(v: nat, a: nat, b: nat, c: nat)
    requires b < 0x40 && c < 0x40
    ensures v == 0x1000 * a + 0x40 * b + c <==> v / 0x1000 == a && v / 0x40 % 0x40 == b && v % 0x40 == c
  {
    TwoDigits(v, v / 0x40, v % 0x40);
    TwoDigits(v / 0x40, v / 0x1000, v / 0x40 % 0x40);
    TwoDigits(v, 0x40 * a + b, c);
    TwoDigits(v / 0x40, a, b);
    assert v / 0x40 / 0x40 == v / 0x1000;
  }

  lemma FourDigits(v: nat, a: nat, b: nat, c: nat, d: nat)
    requires b < 0x40 && c < 0x40 && d < 0x40
    ensures v == 0x4_0000 * a + 0x1000 * b + 0x40 * c + d <==>
            v / 0x4_0000 == a && v / 0x1000 % 0x40 == b && v / 0x40 % 0x40 == c && v % 0x40 == d
  {
    TwoDigits(v, v / 0x40, v % 0x40);
    TwoDigits(v, 0x1000 * a + 0x40 * b + c, d);
    ThreeDigits(v / 0x40, a, b, c);
    assert v / 0x40 / 0x1000 == v / 0x4_0000 && v / 0x40 / 0x40 == v / 0x1000;
  }

  /** The bits of a first byte before its length's. */
  lemma LeadIs(c: byte, size: nat, bits: nat)
    requires (size == 2 && c == 0xC0 + bits && bits < 0x20) || (size == 3 && c == 0xE0 + bits && bits < 0x10)
             || (size == 4 && c == 0xF0 + bits && bits < 0x08)
    ensures c >= 0x80 && LeadLen(c) == size && LeadBits(c) == bits
  {
  }

  /** The later bytes of an encoding give its value back. */
  lemma EncodedParts(v: nat)
    requires 0x80 <= v < CODE_POINTS
    ensures var e := Encode(v);
            && LeadLen(e[0]) == |e| && e[0] >= 0x80 && Continued(LeadBits(e[0]), e[1..]) == Some(v)
  {
    hide Continued, LeadLen, LeadBits;
    var e := Encode(v);
    if v < 0x800 {
      assert e[1..] == [e[1]];
      LeadIs(e[0], 2, v / 0x40);
      ContinuedOne(v / 0x40, e[1]);
      TwoDigits(v, v / 0x40, v % 0x40);
    } else if v < 0x1_0000 {
      assert e[1..] == [e[1], e[2]];
      LeadIs(e[0], 3, v / 0x1000);
      ContinuedTwo(v / 0x1000, e[1], e[2]);
      ThreeDigits(v, v / 0x1000, v / 0x40 % 0x40, v % 0x40);
    } else {
      assert e[1..] == [e[1], e[2], e[3]];
      LeadIs(e[0], 4, v / 0x4_0000);
      ContinuedThree(v / 0x4_0000, e[1], e[2], e[3]);
      FourDigits(v, v / 0x4_0000, v / 0x1000 % 0x40, v / 0x40 % 0x40, v % 0x40);
    }
  }

  /** What is written is read back, whatever follows it. */
  lemma DecodeInvertsEncode(v: nat, rest: Bytes)
    requires IsValid(v) && v >= 0x80
    ensures Decode(Encode(v) + rest) == Some((v, |Encode(v)|))
  {
    var e := Encode(v);
    EncodedParts(v);
    assert (e + rest)[0] == e[0] && (e + rest)[1..|e|] == e[1..];
    hide Encode, LeadLen, LeadBits, Continued;
  }

  /** What a first byte of some length says of its bits. */
  lemma LeadSays(c: byte)
    requires 2 <= LeadLen(c) <= 4
    ensures c == (if LeadLen(c) == 2 then 0xC0 else if LeadLen(c) == 3 then 0xE0 else 0xF0) + LeadBits(c)
  {
  }

  /** What two to four bytes with a value of that length hold is its encoding:
      there is one way to write each code point. */
  lemma EncodeOfParts(b: Bytes, v: nat)
    requires 2 <= |b| <= 4 && LeadLen(b[0]) == |b| && Continued(LeadBits(b[0]), b[1..]) == Some(v)
    requires EncodedLen(v) == |b| && v < CODE_POINTS
    ensures b == Encode(v)
  {
    ContinuedBytes(LeadBits(b[0]), b[1..]);
    assert forall i :: 1 <= i < |b| ==> b[i] == b[1..][i - 1];
    hide Continued, LeadLen, LeadBits;
    LeadSays(b[0]);
    var lead := LeadBits(b[0]);
    if |b| == 2 {
      assert b[1..] == [b[1]];
      ContinuedOne(lead, b[1]);
      TwoDigits(v, lead, b[1] - 0x80);
    } else if |b| == 3 {
      assert b[1..] == [b[1], b[2]];
      ContinuedTwo(lead, b[1], b[2]);
      ThreeDigits(v, lead, b[1] - 0x80, b[2] - 0x80);
    } else {
      assert b[1..] == [b[1], b[2], b[3]];
      ContinuedThree(lead, b[1], b[2], b[3]);
      FourDigits(v, lead, b[1] - 0x80, b[2] - 0x80, b[3] - 0x80);
    }
  }

  /** Only an encoding of a valid code point decodes: no overlong form, no
      sequence of five or six bytes. */
  lemma DecodedIsEncoded(b: Bytes)
    requires |b| > 0 && Decode(b).Some?
    ensures var (v, n) := Decode(b).value; IsValid(v) && v >= 0x80 && b[..n] == Encode(v)
  {
    var (v, n) := Decode(b).value;
    assert b[..n][0] == b[0] && b[..n][1..] == b[1..n];
    hide Continued, LeadBits, Encode;
    EncodeOfParts(b[..n], v);
  }

  /** Bytes pass exactly when they are the UTF-8 of printable code points. */
  lemma {:induction false} EncodedIsPrintable(points: seq<nat>)
    requires AllPrintable(points)
    ensures Printable(EncodeAll(points))
  {
    if |points| > 0 {
      var v, rest := points[0], EncodeAll(points[1..]);
      var b := Encode(v) + rest;
      EncodedIsPrintable(points[1..]);
      assert IsPrintable(v) && b[|Encode(v)|..] == rest && EncodeAll(points) == b;
      if v < 0x80 {
        assert b[0] == v && b[1..] == rest;
      } else {
        DecodeInvertsEncode(v, rest);
        EncodedParts(v);
        assert b[0] == Encode(v)[0];
      }
      hide Decode, Encode, IsControl, IsValid;
    }
  }

  lemma {:induction false} PrintableIsEncoded(b: Bytes) returns (points: seq<nat>)
    requires Printable(b)
    ensures AllPrintable(points) && b == EncodeAll(points)
    decreases |b|
  {
    points := [];
    if |b| > 0 {
      var v, n := FirstPoint(b);
      var more := PrintableIsEncoded(b[n..]);
      points := [v] + more;
      PrependPoint(b, v, n, more);
    }
  }

  /** What may be printed begins with the encoding of a printable point. */
  lemma FirstPoint(b: Bytes) returns (v: nat, n: nat)
    requires |b| > 0 && Printable(b)
    ensures 0 < n <= |b| && IsPrintable(v) && b[..n] == Encode(v) && Printable(b[n..])
  {
    if b[0] < 0x80 {
      v, n := b[0] as nat, 1;
      assert b[..1] == [b[0]] == Encode(v);
    } else {
      v, n := Decode(b).value.0, Decode(b).value.1;
      DecodedIsEncoded(b);
    }
  }

  lemma PrependPoint(b: Bytes, v: nat, n: nat, more: seq<nat>)
    requires IsPrintable(v) && AllPrintable(more)
    requires n <= |b| && b[..n] == Encode(v) && b[n..] == EncodeAll(more)
    ensures AllPrintable([v] + more) && EncodeAll([v] + more) == b
  {
    assert ([v] + more)[1..] == more;
    assert b == b[..n] + b[n..];
    hide IsPrintable, Encode;
  }
}
