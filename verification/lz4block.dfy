/** The lz4 value of a journal DATA object: the whole decode of a raw lz4
    block, written from the LZ4 Block Format Description, section
    "Compressed block format". The partial decode of lz4prefix.dfy is
    measured against it. */
module Lz4Block {
  import opened Common

  /** Reads continuation bytes of a length from src[at..] until one is not
      255; gives the length and the position after the bytes. */
  function FullLength(src: seq<byte>, at: nat, base: nat): (r: Option<(nat, nat)>)
    requires at <= |src|
    ensures r.Some? ==> at < r.value.1 <= |src|
    ensures r.Some? ==> base <= r.value.0 <= base + 255 * (r.value.1 - at) - 1
    decreases |src| - at
  {
    if at == |src| then None
    else if src[at] != 255 then Some((base + src[at], at + 1))
    else FullLength(src, at + 1, base + 255)
  }

  /** The match of n bytes at offset back from the end of text, appended
      byte by byte, so it may repeat bytes it has just written. */
  function CopyMatch(text: seq<byte>, offset: nat, n: nat): (r: seq<byte>)
    requires 1 <= offset <= |text|
    ensures |r| == |text| + n && text <= r
    decreases n
  {
    if n == 0 then text
    else
      var copied := CopyMatch(text, offset, n - 1);
      copied + [copied[|copied| - offset]]
  }

  /** Every byte a match writes is the one offset bytes before it, whether
      that byte was there or the match wrote it too. */
  lemma {:induction false} CopyMatchBytes(text: seq<byte>, offset: nat, n: nat, k: nat)
    requires 1 <= offset <= |text| && |text| <= k < |text| + n
    ensures CopyMatch(text, offset, n)[k] == CopyMatch(text, offset, n)[k - offset]
    decreases n
  {
    if k < |text| + n - 1 {
      CopyMatchBytes(text, offset, n - 1, k);
    }
  }

  /** The literal run a sequence at src[at] opens: its length, and where
      its bytes start. */
  function LiteralRun(src: seq<byte>, at: nat): (r: Option<(nat, nat)>)
    requires at < |src|
    ensures r.Some? ==> at < r.value.1 <= |src|
  {
    var nibble := src[at] / 16;
    if nibble == 15 then FullLength(src, at + 1, 15) else Some((nibble, at + 1))
  }

  /** The length of a match, from the low bits of its token and the length
      bytes at src[at], and the position after them. */
  function MatchLength(src: seq<byte>, nibble: nat, at: nat): (r: Option<(nat, nat)>)
    requires at <= |src|
    ensures r.Some? ==> at <= r.value.1 <= |src|
  {
    if nibble == 15 then FullLength(src, at, 19) else Some((nibble + 4, at))
  }

  function OffsetAt(src: seq<byte>, at: nat): nat
    requires at + 2 <= |src|
  {
    src[at] as int + 256 * src[at + 1] as int
  }

  /** What one sequence of a block leaves: a block that is none, the end of
      the block, or the place of the next sequence and the text so far. */
  datatype Step = Broken | Done(text: seq<byte>) | Next(after: nat, text: seq<byte>)

  /** Decodes the literals of the sequence at src[at] after text; Next says
      where its match starts. */
  function DecodeLiterals(src: seq<byte>, at: nat, text: seq<byte>): (s: Step)
    requires at < |src|
    ensures s.Next? ==> at < s.after < |src|
  {
    match LiteralRun(src, at)
    case None => Broken
    case Some((literals, start)) =>
      if literals > |src| - start then Broken
      else if start + literals == |src| then Done(text + src[start..])
      else Next(start + literals, text + src[start..start + literals])
  }

  /** Decodes the match whose offset is at src[at] and whose token's low
      bits are nibble; Next says where the next sequence starts. */
  function DecodeMatch(src: seq<byte>, nibble: nat, at: nat, text: seq<byte>): (s: Step)
    requires at <= |src|
    ensures !s.Done? && (s.Next? ==> at < s.after <= |src|)
  {
    if at + 2 > |src| then Broken else
    var offset := OffsetAt(src, at);
    if offset == 0 || offset > |text| then Broken else
    match MatchLength(src, nibble, at + 2)
    case None => Broken
    case Some((length, after)) => Next(after, CopyMatch(text, offset, length))
  }

  /** Decodes the sequence at src[at] after text. */
  function DecodeStep(src: seq<byte>, at: nat, text: seq<byte>): (s: Step)
    requires at < |src|
    ensures s.Next? ==> at < s.after <= |src|
  {
    var s := DecodeLiterals(src, at, text);
    if s.Next? then DecodeMatch(src, src[at] % 16, s.after, s.text) else s
  }

  /** The step leaves this text, and the next sequence, or match, there. */
  ghost predicate Gives(s: Step, after: nat, text: seq<byte>) {
    s == Next(after, text)
  }

  /** The whole decode of the sequences in src[at..], appended to text;
      None for a block that is not one. */
  function Decode(src: seq<byte>, at: nat, text: seq<byte>): Option<seq<byte>>
    requires at <= |src|
    decreases |src| - at
  {
    if at == |src| then Some(text) else
    match DecodeStep(src, at, text)
    case Broken => None
    case Done(text1) => Some(text1)
    case Next(after, text1) => Decode(src, after, text1)
  }

  // ---------------------------------------------------------------------
  // The writer's side: a block as a compressor lays it out.

  /** A sequence: literals, then a match of length bytes at offset. */
  datatype Sequence = Sequence(literals: seq<byte>, offset: nat, length: nat)

  /** text with what a sequence's match adds. */
  function MatchText(text: seq<byte>, s: Sequence): (r: seq<byte>)
    requires 1 <= s.offset <= |text|
    ensures |r| == |text| + s.length
  {
    CopyMatch(text, s.offset, s.length)
  }

  function LengthBytes(rest: nat): seq<byte> {
    if rest < 255 then [rest] else [255] + LengthBytes(rest - 255)
  }

  /** The bytes of a literal run's length after its token. */
  function RunExtra(n: nat): seq<byte> {
    if n < 15 then [] else LengthBytes(n - 15)
  }

  function EncodeRun(literals: seq<byte>, nibble: nat): seq<byte>
    requires nibble < 16
  {
    [RunToken(|literals|, nibble)] + (RunExtra(|literals|) + literals)
  }

  function OffsetBytes(offset: nat): (bytes: seq<byte>)
    requires offset < 65536
    ensures |bytes| == 2
  {
    [offset % 256, offset / 256]
  }

  function ExtraBytes(length: nat): seq<byte> {
    if length >= 19 then LengthBytes(length - 19) else []
  }

  function EncodeMatch(s: Sequence): seq<byte>
    requires 4 <= s.length && s.offset < 65536
  {
    OffsetBytes(s.offset) + ExtraBytes(s.length)
  }

  function EncodeSequence(s: Sequence): seq<byte>
    requires 4 <= s.length && s.offset < 65536
  {
    EncodeRun(s.literals, Min(s.length - 4, 15)) + EncodeMatch(s)
  }

  /** Sequences a compressor may write after text: every match lies within
      what is decoded so far. */
  predicate Writable(block: seq<Sequence>, text: seq<byte>)
    decreases |block|
  {
    block == [] ||
    (var text1 := text + block[0].literals;
     && 4 <= block[0].length
     && 1 <= block[0].offset <= |text1|
     && block[0].offset < 65536
     && Writable(block[1..], MatchText(text1, block[0])))
  }

  function Encode(block: seq<Sequence>, last: seq<byte>, text: seq<byte>): seq<byte>
    requires Writable(block, text)
    decreases |block|
  {
    if block == [] then EncodeRun(last, 0)
    else
      EncodeSequence(block[0]) +
      Encode(block[1..], last, MatchText(text + block[0].literals, block[0]))
  }

  function TextOf(block: seq<Sequence>, last: seq<byte>, text: seq<byte>): seq<byte>
    requires Writable(block, text)
    decreases |block|
  {
    if block == [] then text + last
    else TextOf(block[1..], last, MatchText(text + block[0].literals, block[0]))
  }

  /** src holds bytes at position at. */
  ghost predicate Holds(src: seq<byte>, at: nat, bytes: seq<byte>) {
    at + |bytes| <= |src| && src[at..at + |bytes|] == bytes
  }

  lemma HoldsParts(src: seq<byte>, at: nat, a: seq<byte>, b: seq<byte>)
    requires Holds(src, at, a + b)
    ensures Holds(src, at, a) && Holds(src, at + |a|, b)
  {
    var whole := src[at..at + |a + b|];
    assert src[at..at + |a|] == whole[..|a|] == a;
    assert src[at + |a|..at + |a| + |b|] == whole[|a|..] == b;
  }

  lemma {:induction false} LengthRoundTrip(src: seq<byte>, at: nat, rest: nat, base: nat)
    requires Holds(src, at, LengthBytes(rest))
    ensures FullLength(src, at, base) == Some((base + rest, at + |LengthBytes(rest)|))
    decreases rest
  {
    if rest >= 255 {
      HoldsParts(src, at, [255], LengthBytes(rest - 255));
      LengthRoundTrip(src, at + 1, rest - 255, base + 255);
      assert src[at..at + 1][0] == 255;
    } else {
      assert src[at..at + 1][0] == rest;
    }
  }

  function RunToken(literals: nat, nibble: nat): byte
    requires nibble < 16
  {
    Min(literals, 15) * 16 + nibble
  }

  lemma RunParts(literals: seq<byte>, nibble: nat)
    requires nibble < 16
    ensures EncodeRun(literals, nibble) == [RunToken(|literals|, nibble)] + (RunExtra(|literals|) + literals)
    ensures |EncodeRun(literals, nibble)| == 1 + |RunExtra(|literals|)| + |literals|
    ensures RunToken(|literals|, nibble) / 16 == Min(|literals|, 15) && RunToken(|literals|, nibble) % 16 == nibble
  {
    hide LengthBytes;
  }

  /** A byte that is held is there. */
  lemma HeldByte(src: seq<byte>, at: nat, b: byte)
    requires Holds(src, at, [b])
    ensures at < |src| && src[at] == b
  {
    assert src[at..at + 1][0] == b;
  }

  lemma HeldSlice(src: seq<byte>, at: nat, bytes: seq<byte>)
    requires Holds(src, at, bytes)
    ensures at + |bytes| <= |src| && src[at..at + |bytes|] == bytes
  {
  }

  /** The length of a literal run after a token. */
  lemma RunLengthRead(src: seq<byte>, at: nat, n: nat)
    requires at < |src| && src[at] / 16 == Min(n, 15) && Holds(src, at + 1, RunExtra(n))
    ensures LiteralRun(src, at) == Some((n, at + 1 + |RunExtra(n)|))
  {
    if n >= 15 {
      LengthRoundTrip(src, at + 1, n - 15, 15);
    }
    hide LengthBytes, FullLength;
  }

  lemma RunRoundTrip(src: seq<byte>, at: nat, literals: seq<byte>, nibble: nat)
    requires nibble < 16 && Holds(src, at, EncodeRun(literals, nibble))
    ensures var end := at + |EncodeRun(literals, nibble)|;
            && at < end - |literals| <= end <= |src| && src[at] % 16 == nibble
            && LiteralRun(src, at) == Some((|literals|, end - |literals|))
            && src[end - |literals|..end] == literals
  {
    hide *;
    var token, extra := RunToken(|literals|, nibble), RunExtra(|literals|);
    RunParts(literals, nibble);
    HoldsParts(src, at, [token], extra + literals);
    HoldsParts(src, at + 1, extra, literals);
    HeldByte(src, at, token);
    HeldSlice(src, at + 1 + |extra|, literals);
    RunLengthRead(src, at, |literals|);
  }

  lemma LiteralsRoundTrip(src: seq<byte>, at: nat, literals: seq<byte>, nibble: nat, text: seq<byte>)
    requires nibble < 16 && Holds(src, at, EncodeRun(literals, nibble))
    ensures var end := at + |EncodeRun(literals, nibble)|;
            && at < end <= |src| && src[at] % 16 == nibble
            && DecodeLiterals(src, at, text) == if end == |src| then Done(text + literals) else Next(end, text + literals)
  {
    hide *;
    RunRoundTrip(src, at, literals, nibble);
    LiteralsAre(src, at, |literals|, at + |EncodeRun(literals, nibble)| - |literals|, text);
  }

  /** The literals of a run whose length and place are known. */
  lemma LiteralsAre(src: seq<byte>, at: nat, n: nat, start: nat, text: seq<byte>)
    requires at < start && start + n <= |src| && LiteralRun(src, at) == Some((n, start))
    ensures DecodeLiterals(src, at, text)
            == if start + n == |src| then Done(text + src[start..start + n]) else Next(start + n, text + src[start..start + n])
  {
    hide LiteralRun;
  }

  lemma OffsetRoundTrip(src: seq<byte>, at: nat, offset: nat)
    requires offset < 65536 && Holds(src, at, OffsetBytes(offset))
    ensures OffsetAt(src, at) == offset
  {
    assert src[at] == src[at..at + 2][0] && src[at + 1] == src[at..at + 2][1];
  }

  lemma MatchLengthRoundTrip(src: seq<byte>, at: nat, length: nat)
    requires 4 <= length && Holds(src, at, ExtraBytes(length))
    ensures MatchLength(src, Min(length - 4, 15), at) == Some((length, at + |ExtraBytes(length)|))
  {
    if length >= 19 {
      LengthRoundTrip(src, at, length - 19, 19);
    }
  }

  lemma MatchParts(s: Sequence)
    requires 4 <= s.length && s.offset < 65536
    ensures EncodeMatch(s) == OffsetBytes(s.offset) + ExtraBytes(s.length)
    ensures |EncodeMatch(s)| == 2 + |ExtraBytes(s.length)|
  {
    hide ExtraBytes;
  }

  /** The match whose offset and length are known. */
  lemma MatchIs(src: seq<byte>, nibble: nat, at: nat, text: seq<byte>, s: Sequence, after: nat)
    requires at + 2 <= |src| && OffsetAt(src, at) == s.offset && 1 <= s.offset <= |text|
    requires MatchLength(src, nibble, at + 2) == Some((s.length, after))
    ensures Gives(DecodeMatch(src, nibble, at, text), after, MatchText(text, s))
  {
    hide CopyMatch, MatchLength, OffsetAt;
  }

  lemma MatchRoundTrip(src: seq<byte>, nibble: nat, at: nat, s: Sequence, text: seq<byte>)
    requires 4 <= s.length && 1 <= s.offset <= |text| && s.offset < 65536
    requires nibble == Min(s.length - 4, 15) && Holds(src, at, EncodeMatch(s))
    ensures at + |EncodeMatch(s)| <= |src|
    ensures Gives(DecodeMatch(src, nibble, at, text), at + |EncodeMatch(s)|, MatchText(text, s))
  {
    hide *;
    MatchParts(s);
    HeldSlice(src, at, EncodeMatch(s));
    HoldsParts(src, at, OffsetBytes(s.offset), ExtraBytes(s.length));
    OffsetRoundTrip(src, at, s.offset);
    MatchLengthRoundTrip(src, at + 2, s.length);
    MatchIs(src, nibble, at, text, s, at + |EncodeMatch(s)|);
  }

  lemma SequenceParts(s: Sequence)
    requires 4 <= s.length && s.offset < 65536
    ensures 0 <= Min(s.length - 4, 15) < 16
    ensures EncodeSequence(s) == EncodeRun(s.literals, Min(s.length - 4, 15)) + EncodeMatch(s)
    ensures |EncodeSequence(s)| == |EncodeRun(s.literals, Min(s.length - 4, 15))| + |EncodeMatch(s)|
    ensures |EncodeMatch(s)| >= 2
  {
    hide EncodeRun, ExtraBytes;
  }

  /** A sequence of which the run is read, and the match, which ends at end. */
  lemma StepOfParts(src: seq<byte>, at: nat, nibble: nat, text: seq<byte>, mid: nat, text1: seq<byte>, end: nat,
                    text2: seq<byte>)
    requires at < mid < |src| && src[at] % 16 == nibble && Gives(DecodeLiterals(src, at, text), mid, text1)
    requires Gives(DecodeMatch(src, nibble, mid, text1), end, text2)
    ensures Gives(DecodeStep(src, at, text), end, text2)
  {
    hide DecodeLiterals, DecodeMatch;
  }

  /** A run that ends at mid before the end of the bytes, read back. */
  lemma RunThenMore(src: seq<byte>, at: nat, nibble: nat, literals: seq<byte>, text: seq<byte>, mid: nat)
    requires nibble < 16 && Holds(src, at, EncodeRun(literals, nibble))
    requires mid == at + |EncodeRun(literals, nibble)| < |src|
    ensures at < mid && src[at] % 16 == nibble && Gives(DecodeLiterals(src, at, text), mid, text + literals)
  {
    hide EncodeRun, Holds, DecodeLiterals;
    LiteralsRoundTrip(src, at, literals, nibble, text);
  }

  /** A match that ends at end, read back. */
  lemma MatchThenEnd(src: seq<byte>, at: nat, nibble: nat, s: Sequence, text: seq<byte>, end: nat)
    requires 4 <= s.length && 1 <= s.offset <= |text| && s.offset < 65536
    requires nibble == Min(s.length - 4, 15) && Holds(src, at, EncodeMatch(s)) && end == at + |EncodeMatch(s)|
    ensures at < end <= |src| && Gives(DecodeMatch(src, nibble, at, text), end, MatchText(text, s))
  {
    hide *;
    MatchParts(s);
    MatchRoundTrip(src, nibble, at, s, text);
  }

  /** A run, and the match after it, read back. */
  lemma HalvesRoundTrip(src: seq<byte>, at: nat, nibble: nat, s: Sequence, text: seq<byte>, text1: seq<byte>, mid: nat,
                        end: nat)
    requires 4 <= s.length && 1 <= s.offset <= |text1| && s.offset < 65536 && text1 == text + s.literals
    requires nibble < 16 && nibble == Min(s.length - 4, 15)
    requires Holds(src, at, EncodeRun(s.literals, nibble)) && Holds(src, mid, EncodeMatch(s))
    requires mid == at + |EncodeRun(s.literals, nibble)| && end == mid + |EncodeMatch(s)|
    ensures at < |src| && Gives(DecodeStep(src, at, text), end, MatchText(text1, s))
  {
    hide *;
    MatchThenEnd(src, mid, nibble, s, text1, end);
    RunThenMore(src, at, nibble, s.literals, text, mid);
    StepOfParts(src, at, nibble, text, mid, text1, end, MatchText(text1, s));
  }

  /** The two halves of a sequence that is held. */
  lemma SequenceHeld(src: seq<byte>, at: nat, s: Sequence)
    requires 4 <= s.length && s.offset < 65536 && Holds(src, at, EncodeSequence(s))
    ensures var nibble := Min(s.length - 4, 15);
            && 0 <= nibble < 16
            && Holds(src, at, EncodeRun(s.literals, nibble))
            && Holds(src, at + |EncodeRun(s.literals, nibble)|, EncodeMatch(s))
            && |EncodeSequence(s)| == |EncodeRun(s.literals, nibble)| + |EncodeMatch(s)|
  {
    hide *;
    SequenceParts(s);
    HoldsParts(src, at, EncodeRun(s.literals, Min(s.length - 4, 15)), EncodeMatch(s));
  }

  /** One sequence read back. */
  lemma SequenceRoundTrip(src: seq<byte>, at: nat, s: Sequence, text: seq<byte>)
    requires 4 <= s.length && 1 <= s.offset <= |text| + |s.literals| && s.offset < 65536
    requires Holds(src, at, EncodeSequence(s))
    ensures at < |src|
    ensures Gives(DecodeStep(src, at, text), at + |EncodeSequence(s)|, MatchText(text + s.literals, s))
  {
    hide *;
    var nibble := Min(s.length - 4, 15);
    SequenceHeld(src, at, s);
    HalvesRoundTrip(src, at, nibble, s, text, text + s.literals, at + |EncodeRun(s.literals, nibble)|,
                    at + |EncodeSequence(s)|);
  }

  lemma StepParts(src: seq<byte>, at: nat, text: seq<byte>)
    requires at < |src|
    ensures var s := DecodeLiterals(src, at, text);
            DecodeStep(src, at, text) == if s.Next? then DecodeMatch(src, src[at] % 16, s.after, s.text) else s
  {
    hide DecodeLiterals, DecodeMatch;
  }

  /** Whatever a compressor writes, the whole decode reads back. */
  lemma {:induction false} DecodeInvertsEncode(src: seq<byte>, at: nat, block: seq<Sequence>, last: seq<byte>, text: seq<byte>)
    requires Writable(block, text)
    requires Holds(src, at, Encode(block, last, text)) && |src| == at + |Encode(block, last, text)|
    ensures Decode(src, at, text) == Some(TextOf(block, last, text))
    decreases |block|
  {
    hide EncodeRun, EncodeSequence, DecodeStep, MatchText, Holds;
    if block == [] {
      LiteralsRoundTrip(src, at, last, 0, text);
      StepParts(src, at, text);
    } else {
      var s := block[0];
      var text2 := MatchText(text + s.literals, s);
      HoldsParts(src, at, EncodeSequence(s), Encode(block[1..], last, text2));
      SequenceRoundTrip(src, at, s, text);
      DecodeInvertsEncode(src, at + |EncodeSequence(s)|, block[1..], last, text2);
    }
  }

  // ---------------------------------------------------------------------
  // The size bound.

  lemma StepBound(src: seq<byte>, at: nat, text: seq<byte>)
    requires at < |src|
    ensures match DecodeStep(src, at, text)
            case Broken => true
            case Done(t) => text <= t && |t| <= |text| + (|src| - at)
            case Next(after, t) => text <= t && |t| <= |text| + 255 * (after - at)
  {
  }

  /** No block decodes to more than 255 bytes of text per stored byte. */
  lemma {:induction false} DecodeBound(src: seq<byte>, at: nat, text: seq<byte>)
    requires at <= |src|
    ensures var t := Decode(src, at, text);
            t.Some? ==> text <= t.value && |t.value| <= |text| + 255 * (|src| - at)
    decreases |src| - at
  {
    if at < |src| {
      StepBound(src, at, text);
      var s := DecodeStep(src, at, text);
      if s.Next? {
        DecodeBound(src, s.after, s.text);
      }
    }
  }
}
