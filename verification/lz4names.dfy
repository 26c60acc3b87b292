/** The names the search gives for lz4 values, by what a compressor wrote and
    by what is wrong with a block. */
module Lz4Names {
  import opened Common
  import opened Lz4Block
  import opened Lz4Prefix

  predicate Encodable(block: seq<Sequence>) {
    forall i :: 0 <= i < |block| ==> 4 <= block[i].length && block[i].offset < 65536
  }

  /** The sequences of a block before its last literals. */
  function Lead(block: seq<Sequence>): seq<byte>
    requires Encodable(block)
  {
    if block == [] then [] else EncodeSequence(block[0]) + Lead(block[1..])
  }

  lemma {:induction false} WritableIsEncodable(block: seq<Sequence>, text: seq<byte>)
    requires Writable(block, text)
    ensures Encodable(block)
    decreases |block|
  {
    if block != [] {
      WritableIsEncodable(block[1..], MatchText(text + block[0].literals, block[0]));
    }
  }

  /** A block is its sequences and then its last literals. */
  lemma {:induction false} BlockParts(block: seq<Sequence>, last: seq<byte>, text: seq<byte>)
    requires Writable(block, text) && Encodable(block)
    ensures Encode(block, last, text) == Lead(block) + EncodeRun(last, 0)
    ensures TextOf(block, last, text) == TextOf(block, [], text) + last && text <= TextOf(block, [], text)
    decreases |block|
  {
    hide EncodeRun, EncodeSequence, MatchText;
    if block == [] {
      assert text + [] == text;
    } else {
      var text1 := text + block[0].literals;
      BlockParts(block[1..], last, MatchText(text1, block[0]));
      MatchTextExtends(text1, block[0]);
      assert Encode(block, last, text) == EncodeSequence(block[0]) + (Lead(block[1..]) + EncodeRun(last, 0));
    }
  }

  lemma MatchTextExtends(text: seq<byte>, s: Sequence)
    requires 1 <= s.offset <= |text|
    ensures text <= MatchText(text, s) && |MatchText(text, s)| == |text| + s.length
  {
  }

  /** A block's sequences stand at src[at..end] after text, and their text is
      all. */
  ghost predicate Stands(src: seq<byte>, at: nat, block: seq<Sequence>, text: seq<byte>, end: nat, all: seq<byte>) {
    && Writable(block, text) && Encodable(block) && Holds(src, at, Lead(block))
    && end == at + |Lead(block)| && all == TextOf(block, [], text)
  }

  /** The partial decode from one place goes on from another. */
  ghost predicate RunsTo(src: seq<byte>, at: nat, text: seq<byte>, end: nat, all: seq<byte>) {
    at <= |src| && end <= |src| && |text| <= 65 && |all| <= 65 && Run(src, at, text, 65) == Run(src, end, all, 65)
  }

  lemma RunsOn(src: seq<byte>, at: nat, text: seq<byte>, mid: nat, text2: seq<byte>, end: nat, all: seq<byte>)
    requires RunsTo(src, at, text, mid, text2) && RunsTo(src, mid, text2, end, all)
    ensures RunsTo(src, at, text, end, all)
  {
  }

  lemma Stays(src: seq<byte>, at: nat, text: seq<byte>)
    requires at <= |src| && |text| <= 65
    ensures RunsTo(src, at, text, at, text)
  {
  }

  /** A whole sequence whose text leaves room. */
  lemma RunGoesOn(src: seq<byte>, at: nat, text: seq<byte>, after: nat, text2: seq<byte>)
    requires at < |src| && Gives(DecodeStep(src, at, text), after, text2) && |text| <= |text2| < 65
    ensures RunsTo(src, at, text, after, text2)
  {
    StepOfWhole(src, at, text, 65);
    assert text2[..|text2|] == text2;
    hide DecodeStep, SequencePart;
  }

  lemma NoSequence(src: seq<byte>, at: nat, text: seq<byte>, end: nat, all: seq<byte>)
    requires Stands(src, at, [], text, end, all)
    ensures end == at <= |src| && all == text
  {
    assert text + [] == text;
  }

  /** What a block's first sequence leaves. */
  lemma FirstSequence(src: seq<byte>, at: nat, block: seq<Sequence>, text: seq<byte>, end: nat, all: seq<byte>)
    returns (after: nat, text2: seq<byte>)
    requires block != [] && Stands(src, at, block, text, end, all)
    ensures at < |src| && Gives(DecodeStep(src, at, text), after, text2) && |text| <= |text2| <= |all|
    ensures Stands(src, after, block[1..], text2, end, all)
  {
    hide *;
    HoldsOf(src, at, block, text, end, all);
    FirstParts(block, text);
    var s := block[0];
    after, text2 := at + |EncodeSequence(s)|, MatchText(text + s.literals, s);
    HoldsParts(src, at, EncodeSequence(s), LeadOf(block[1..]));
    SequenceRoundTrip(src, at, s, text);
    StandsFrom(src, after, block[1..], text2, end, all);
  }

  /** Lead and TextOf, by names that stand for whole answers. */
  function LeadOf(block: seq<Sequence>): seq<byte> {
    if Encodable(block) then Lead(block) else []
  }

  function AllOf(block: seq<Sequence>, text: seq<byte>): seq<byte> {
    if Writable(block, text) then TextOf(block, [], text) else []
  }

  predicate Fits(block: seq<Sequence>, text: seq<byte>) {
    Writable(block, text) && Encodable(block)
  }

  lemma FirstParts(block: seq<Sequence>, text: seq<byte>)
    requires block != [] && Fits(block, text)
    ensures var s, rest := block[0], block[1..];
            && 4 <= s.length && 1 <= s.offset <= |text| + |s.literals| && s.offset < 65536
            && var text2 := MatchText(text + s.literals, s);
               Fits(rest, text2) && LeadOf(block) == EncodeSequence(s) + LeadOf(rest)
               && AllOf(block, text) == AllOf(rest, text2) && |text| <= |text2| <= |AllOf(rest, text2)|
  {
    hide EncodeSequence, MatchText;
    var s, text1 := block[0], text + block[0].literals;
    MatchTextExtends(text1, s);
    BlockParts(block[1..], [], MatchText(text1, s));
  }

  lemma HoldsOf(src: seq<byte>, at: nat, block: seq<Sequence>, text: seq<byte>, end: nat, all: seq<byte>)
    requires Stands(src, at, block, text, end, all)
    ensures Holds(src, at, LeadOf(block)) && end == at + |LeadOf(block)| && all == AllOf(block, text) && Fits(block, text)
  {
    hide Holds;
  }

  lemma StandsFrom(src: seq<byte>, at: nat, block: seq<Sequence>, text: seq<byte>, end: nat, all: seq<byte>)
    requires Holds(src, at, LeadOf(block)) && end == at + |LeadOf(block)| && all == AllOf(block, text) && Fits(block, text)
    ensures Stands(src, at, block, text, end, all)
  {
    hide Holds;
  }

  /** The partial decode passes the sequences of a block whose text leaves
      room. */
  lemma {:induction false} RunPasses(src: seq<byte>, at: nat, block: seq<Sequence>, text: seq<byte>, end: nat,
                                     all: seq<byte>)
    requires Stands(src, at, block, text, end, all) && |all| < 65
    ensures RunsTo(src, at, text, end, all)
    decreases |block|
  {
    hide *;
    if block == [] {
      NoSequence(src, at, text, end, all);
      Stays(src, at, text);
    } else {
      var after, text2 := FirstSequence(src, at, block, text, end, all);
      RunGoesOn(src, at, text, after, text2);
      RunPasses(src, after, block[1..], text2, end, all);
      RunsOn(src, at, text, after, text2, end, all);
    }
  }

  /** The sequences of a short text are short. */
  lemma {:induction false} LeadIsShort(block: seq<Sequence>, text: seq<byte>)
    requires Writable(block, text) && Encodable(block) && |TextOf(block, [], text)| < 65
    ensures |Lead(block)| <= 2 * (|TextOf(block, [], text)| - |text|)
    decreases |block|
  {
    BlockParts(block, [], text);
    hide MatchText, EncodeSequence;
    if block == [] {
      assert text + [] == text;
    } else {
      var s, text2 := block[0], MatchText(text + block[0].literals, block[0]);
      MatchTextExtends(text + s.literals, s);
      BlockParts(block[1..], [], text2);
      SequenceIsShort(s);
      LeadIsShort(block[1..], text2);
    }
  }

  lemma SequenceIsShort(s: Sequence)
    requires 4 <= s.length && s.offset < 65536 && |s.literals| + s.length < 65
    ensures |EncodeSequence(s)| <= |s.literals| + 5
  {
  }

  // ---------------------------------------------------------------------
  // Blocks that decode.

  /** The first 65 bytes of a text, or all of it. */
  function FirstBytes(t: seq<byte>): seq<byte> {
    t[..Min(65, |t|)]
  }

  lemma WrittenIsNamed(size: seq<byte>, block: seq<Sequence>, last: seq<byte>)
    requires |size| == 8 && Writable(block, [])
    ensures DecodeName(size + Encode(block, last, []), false) == Name(FirstBytes(TextOf(block, last, [])))
  {
    var src := Encode(block, last, []);
    assert (size + src)[8..] == src && src[0..0 + |src|] == src;
    WritableIsEncodable(block, []);
    BlockParts(block, last, []);
    RunParts(last, 0);
    DecodeInvertsEncode(src, 0, block, last, []);
    PrefixOfWhole(src, 0, [], 65);
    hide Encode, EncodeRun, Lead, TextOf, Run, Decode;
  }

  /** The name of a value written by any sequences and last literals, after a
      size field of eight bytes, is the first 65 bytes of its text: always up
      to 129 KiB of stored bytes, and past that unless more of them are asked
      for. */
  lemma WrittenGivesName(size: seq<byte>, block: seq<Sequence>, last: seq<byte>)
    requires |size| == 8 && Writable(block, [])
    ensures var whole, name := size + Encode(block, last, []), Name(FirstBytes(TextOf(block, last, [])));
            NameOf(whole) == name || (|whole| > 132096 && NameOf(whole) == NeedsMoreStored)
  {
    WrittenIsNamed(size, block, last);
    NameIsOfWhole(size + Encode(block, last, []));
    hide Encode, TextOf, DecodeName, FirstBytes, NameOf;
  }

  /** A value's bytes as they are: nine literals after the size. */
  lemma MessageIsNamed(size: seq<byte>)
    requires |size| == 8
    ensures NameOf(size + [0x90, 77, 69, 83, 83, 65, 71, 69, 61, 120]) == Name([77, 69, 83, 83, 65, 71, 69, 61, 120])
  {
    var message: seq<byte> := [77, 69, 83, 83, 65, 71, 69, 61, 120];
    assert EncodeRun(message, 0) == [0x90, 77, 69, 83, 83, 65, 71, 69, 61, 120];
    WrittenGivesName(size, [], message);
    assert [] + message == message && message[..9] == message;
  }

  // ---------------------------------------------------------------------
  // Blocks that do not.

  /** What is known of a block whose text, with literals after it, is short. */
  lemma ShortBlock(block: seq<Sequence>, literals: seq<byte>)
    requires Writable(block, []) && Encodable(block) && |TextOf(block, literals, [])| < 65
    ensures Fits(block, []) && LeadOf(block) == Lead(block) && |LeadOf(block)| <= 2 * |AllOf(block, [])|
    ensures |AllOf(block, [])| + |literals| == |TextOf(block, literals, [])|
  {
    BlockParts(block, literals, []);
    LeadIsShort(block, []);
    hide Lead, TextOf, Writable, Encodable;
  }

  /** The decode of a value fails as it does further on. */
  lemma RunsToFailure(src: seq<byte>, at: nat, text: seq<byte>)
    requires RunsTo(src, 0, [], at, text)
    ensures src != [] && at <= |src| && |text| <= 65 && Fails(src, at, text) ==> Fails(src, 0, [])
    ensures src != [] && at <= |src| && |text| <= 65 && FailsWithin(src, at, text) ==> FailsWithin(src, 0, [])
  {
  }

  ghost predicate Fails(src: seq<byte>, at: nat, text: seq<byte>)
    requires at <= |src| && |text| <= 65
  {
    Run(src, at, text, 65).error != None
  }

  /** It fails before the end of its bytes. */
  ghost predicate FailsWithin(src: seq<byte>, at: nat, text: seq<byte>)
    requires at <= |src| && |text| <= 65
  {
    Fails(src, at, text) && !Run(src, at, text, 65).atEnd
  }

  /** What stands where, after a block's sequences. */
  lemma TailHeld(lead: seq<byte>, run: seq<byte>, rest: seq<byte>)
    requires |rest| >= 2
    ensures var src, end := lead + (run + rest), |lead| + |run|;
            && Holds(src, 0, lead) && Holds(src, |lead|, run)
            && end + 2 <= |src| && OffsetAt(src, end) == rest[0] as int + 256 * rest[1] as int
  {
    var src, end := lead + (run + rest), |lead| + |run|;
    assert src[0..0 + |lead|] == lead && src[|lead|..end] == run;
    assert src[end] == rest[0] && src[end + 1] == rest[1];
  }

  /** The decode meets, while there is room, a match whose offset is 0 or goes
      back further than there is text. */
  lemma BadMatchFails(src: seq<byte>, block: seq<Sequence>, literals: seq<byte>, nibble: nat, rest: seq<byte>)
    requires Writable(block, []) && Encodable(block) && nibble < 16 && |TextOf(block, literals, [])| < 65 && |rest| >= 2
    requires src == Lead(block) + (EncodeRun(literals, nibble) + rest)
    requires var offset := rest[0] as int + 256 * rest[1] as int; offset == 0 || offset > |TextOf(block, literals, [])|
    ensures src != [] && FailsWithin(src, 0, [])
  {
    hide *;
    var lead, run := LeadOf(block), EncodeRun(literals, nibble);
    ShortBlock(block, literals);
    TailHeld(lead, run, rest);
    StandsFrom(src, 0, block, [], |lead|, AllOf(block, []));
    RunPasses(src, 0, block, [], |lead|, AllOf(block, []));
    RunThenBadOffset(src, |lead|, AllOf(block, []), literals, nibble);
    RunsToFailure(src, |lead|, AllOf(block, []));
  }

  lemma RunThenBadOffset(src: seq<byte>, at: nat, text: seq<byte>, literals: seq<byte>, nibble: nat)
    requires nibble < 16 && Holds(src, at, EncodeRun(literals, nibble)) && |text| + |literals| < 65
    requires var end := at + |EncodeRun(literals, nibble)|;
             end + 2 <= |src| && (OffsetAt(src, end) == 0 || OffsetAt(src, end) > |text| + |literals|)
    ensures FailsWithin(src, at, text)
  {
    hide LiteralPart, MatchPart, DecodeLiterals, Run, EncodeRun, OffsetAt, Holds;
    var end := at + |EncodeRun(literals, nibble)|;
    LiteralsRoundTrip(src, at, literals, nibble, text);
    LiteralsGoOn(src, at, text, end, text + literals);
    RunPast(src, at, text, 65);
    BadOffsetStops(src, nibble, end, text + literals);
  }

  lemma LiteralsGoOn(src: seq<byte>, at: nat, text: seq<byte>, end: nat, text1: seq<byte>)
    requires at < |src| && |text| <= |text1| < 65 && DecodeLiterals(src, at, text) == Next(end, text1)
    ensures LiteralPart(src, at, text, 65) == Go(end, text1)
  {
    LiteralsOfWhole(src, at, text, 65);
    assert text1[..|text1|] == text1;
    hide LiteralPart, DecodeLiterals;
  }

  lemma BadOffsetStops(src: seq<byte>, nibble: nat, at: nat, text: seq<byte>)
    requires at + 2 <= |src| && |text| < 65 && (OffsetAt(src, at) == 0 || OffsetAt(src, at) > |text|)
    ensures var p := MatchPart(src, nibble, at, text, 65); p.Stop? && p.o.error != None && !p.o.atEnd
  {
    hide OffsetAt;
  }

  /** Such a value does not decode, however long it is. */
  lemma BadMatchHasNoName(size: seq<byte>, block: seq<Sequence>, literals: seq<byte>, nibble: nat, rest: seq<byte>)
    requires |size| == 8 && Writable(block, []) && nibble < 16 && |TextOf(block, literals, [])| < 65 && |rest| >= 2
    requires var offset := rest[0] as int + 256 * rest[1] as int; offset == 0 || offset > |TextOf(block, literals, [])|
    ensures Encodable(block)
    ensures NameOf(size + (Lead(block) + (EncodeRun(literals, nibble) + rest))) == DoesNotDecode
  {
    WritableIsEncodable(block, []);
    hide *;
    ShortBlock(block, literals);
    RunIsShort(literals, nibble);
    var lead, run := LeadOf(block), EncodeRun(literals, nibble);
    var m := Min(|rest|, 132096 - 8 - |lead| - |run|);
    BadMatchFails(lead + (run + rest[..m]), block, literals, nibble, rest[..m]);
    ReadPart(size, lead, run, rest, m);
    FailedWithinHasNoName(size + (lead + (run + rest)), lead + (run + rest[..m]));
  }

  /** As much of a value as is read, when it is cut in rest. */
  lemma ReadPart(size: seq<byte>, lead: seq<byte>, run: seq<byte>, rest: seq<byte>, m: nat)
    requires |size| == 8 && |lead| + |run| <= 132096 - 8 && m == Min(|rest|, 132096 - 8 - |lead| - |run|)
    ensures var whole := size + (lead + (run + rest));
            |whole| >= 8 && whole[..Min(|whole|, 132096)][8..] == lead + (run + rest[..m])
  {
    var whole := size + (lead + (run + rest));
    assert whole[..Min(|whole|, 132096)] == size + (lead + (run + rest[..m]));
  }

  lemma FailedWithinHasNoName(whole: seq<byte>, src: seq<byte>)
    requires |whole| >= 8 && whole[..Min(|whole|, 132096)][8..] == src && src != [] && FailsWithin(src, 0, [])
    ensures NameOf(whole) == DoesNotDecode
  {
    hide Run;
  }

  lemma RunIsShort(literals: seq<byte>, nibble: nat)
    requires |literals| < 65 && nibble < 16
    ensures |EncodeRun(literals, nibble)| <= |literals| + 2
  {
  }

  /** A sequence that the end cuts off, within its literals or its offset. */
  lemma CutSequenceFails(src: seq<byte>, at: nat, text: seq<byte>, literals: seq<byte>, nibble: nat, low: byte, m: nat)
    requires |text| + |literals| < 65 && nibble < 16 && 0 < m == |src| - at
    requires var all := EncodeRun(literals, nibble) + [low]; m <= |all| && m != |all| - 1 && src[at..] == all[..m]
    ensures Fails(src, at, text)
  {
    var run, extra := EncodeRun(literals, nibble), RunExtra(|literals|);
    var token := RunToken(|literals|, nibble);
    RunParts(literals, nibble);
    RunPast(src, at, text, 65);
    assert src[at] == src[at..][0] == run[0] == token;
    if m < 1 + |extra| {
      CutLength(src, at, |literals|);
    } else {
      assert src[at + 1..at + 1 + |extra|] == (run + [low])[1..1 + |extra|] == extra;
      hide RunExtra, EncodeRun, Run;
      RunLengthRead(src, at, |literals|);
    }
    hide Run, LiteralRun, EncodeRun, RunExtra;
  }

  lemma CutLength(src: seq<byte>, at: nat, n: nat)
    requires at + 1 == |src| && n < 65 && RunExtra(n) != [] && src[at] / 16 == Min(n, 15)
    ensures LiteralRun(src, at) == None
  {
  }

  /** A value whose block is cut off before its text has 65 bytes, within the
      literals of a sequence or the offset after them, does not decode. */
  lemma CutBlockHasNoName(size: seq<byte>, block: seq<Sequence>, literals: seq<byte>, nibble: nat, low: byte, m: nat)
    requires |size| == 8 && Writable(block, []) && nibble < 16 && |TextOf(block, literals, [])| < 65
    requires var all := EncodeRun(literals, nibble) + [low]; 0 < m <= |all| && m != |all| - 1
    ensures Encodable(block)
    ensures NameOf(size + (Lead(block) + (EncodeRun(literals, nibble) + [low])[..m])) == DoesNotDecode
  {
    WritableIsEncodable(block, []);
    hide *;
    ShortBlock(block, literals);
    RunIsShort(literals, nibble);
    var lead, tail := LeadOf(block), (EncodeRun(literals, nibble) + [low])[..m];
    var src := lead + tail;
    LeadHeld(lead, tail);
    StandsFrom(src, 0, block, [], |lead|, AllOf(block, []));
    RunPasses(src, 0, block, [], |lead|, AllOf(block, []));
    CutSequenceFails(src, |lead|, AllOf(block, []), literals, nibble, low, m);
    RunsToFailure(src, |lead|, AllOf(block, []));
    FailedHasNoName(size, src);
  }

  lemma LeadHeld(lead: seq<byte>, tail: seq<byte>)
    ensures Holds(lead + tail, 0, lead) && (lead + tail)[|lead|..] == tail
  {
    assert (lead + tail)[0..0 + |lead|] == lead;
  }

  lemma FailedHasNoName(size: seq<byte>, src: seq<byte>)
    requires |size| == 8 && |size + src| <= 132096 && src != [] && Fails(src, 0, [])
    ensures NameOf(size + src) == DoesNotDecode
  {
    var whole := size + src;
    assert whole[..|whole|] == whole && whole[8..] == src;
    hide Run;
  }

  /** Nor does a value with no block. */
  lemma NoBlockHasNoName(stored: seq<byte>)
    ensures |stored| <= 8 ==> NameOf(stored) == DoesNotDecode
    ensures |stored| == 9 && stored[8] == 0 ==> NameOf(stored) == Name([])
  {
    if |stored| == 9 && stored[8] == 0 {
      WrittenGivesName(stored[..8], [], []);
      assert EncodeRun([], 0) == [0] && stored == stored[..8] + [0];
    }
  }
}
