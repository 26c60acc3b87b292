/** The sizes journal values declare, and the most text their stored bytes can
    hold: the checks made before a buffer is, and the buffer itself. */
module ValueSizes {
  import opened Common
  import Lz4Block

  const MAX_UINT64 := 0xFFFF_FFFF_FFFF_FFFF
  /** The most a value decodes to. */
  const MAX_VALUE := 128 * 1024 * 1024

  // ---------------------------------------------------------------------
  // zstd frames as they are walked.

  const ZSTD_MAX_BLOCK_TEXT := 128 * 1024
  const ZSTD_LEAST_BLOCK_WITH_TEXT := 4
  const ZSTD_BLOCK_HEADER_BYTES := 3
  const ZSTD_CHECKSUM_BYTES := 4

  /** A frame header: of a frame to pass over, by its size, or of one that may
      declare its content's size and ask for a checksum. */
  datatype Header = Skippable(size: nat) | Frame(contentSize: Option<nat>, hasCheckSum: bool)

  /** What parses a header at the start of some bytes: it and its length. */
  type Parser = seq<byte> -> Option<(Header, nat)>

  /** The header, when it parses within the bytes. */
  function ParseHeader(parser: Parser, s: seq<byte>): (r: Option<(Header, nat)>)
    ensures r.Some? ==> 0 < r.value.1 <= |s|
  {
    var h := parser(s);
    if h.Some? && 0 < h.value.1 <= |s| then h else None
  }

  /** A block header, little endian: bit 0 the last block's, bits 1-2 the
      type, the rest the size. */
  function BlockHeader(b: seq<byte>): nat
    requires |b| >= ZSTD_BLOCK_HEADER_BYTES
  {
    LittleEndian(b[..ZSTD_BLOCK_HEADER_BYTES])
  }

  predicate IsLast(header: nat) {
    header % 2 == 1
  }

  function BlockType(header: nat): nat {
    header / 2 % 4
  }

  /** The bytes a block holds after its header: those its size says, one for
      an RLE block. */
  function BlockBytes(header: nat): nat {
    if BlockType(header) == 1 then 1 else header / 8
  }

  /** The bytes behind the last block of a frame; None if they run out before
      it, or a header has block type 3. */
  function AfterBlocks(b: seq<byte>): (r: Option<seq<byte>>)
    ensures r.Some? ==> |r.value| < |b|
  {
    if |b| < ZSTD_BLOCK_HEADER_BYTES then None
    else
      var header, rest := BlockHeader(b), b[ZSTD_BLOCK_HEADER_BYTES..];
      if BlockType(header) == 3 || BlockBytes(header) > |rest| then None
      else if IsLast(header) then Some(rest[BlockBytes(header)..])
      else AfterBlocks(rest[BlockBytes(header)..])
  }

  /** The same, as the walk over a frame's blocks from its first. */
  function PastBlocks(b: seq<byte>): (r: Option<seq<byte>>)
    ensures r.Some? ==> |r.value| < |b|
  {
    AfterBlocks(b)
  }

  /** What follows a frame, its blocks and its checksum. */
  function AfterFrame(b: seq<byte>, hasCheckSum: bool): (r: Option<seq<byte>>)
    ensures r.Some? ==> |r.value| < |b|
  {
    var rest := PastBlocks(b);
    if rest.None? then None
    else if !hasCheckSum then rest
    else if |rest.value| < ZSTD_CHECKSUM_BYTES then None
    else Some(rest.value[ZSTD_CHECKSUM_BYTES..])
  }

  /** The content sizes of the frames the walk reaches, one after another. */
  function Declared(parser: Parser, stored: seq<byte>): seq<nat>
    decreases |stored|
  {
    if |stored| == 0 then []
    else
      var h := ParseHeader(parser, stored);
      if h.None? then []
      else
        var rest := stored[h.value.1..];
        match h.value.0
        case Skippable(size) => if size > |rest| then [] else Declared(parser, rest[size..])
        case Frame(contentSize, hasCheckSum) =>
          var own := if contentSize.Some? then [contentSize.value] else [];
          var after := AfterFrame(rest, hasCheckSum);
          if after.None? then own else own + Declared(parser, after.value)
  }

  function Sum(sizes: seq<nat>): nat {
    if |sizes| == 0 then 0 else sizes[0] + Sum(sizes[1..])
  }

  lemma {:induction false} SumOfTwo(a: seq<nat>, b: seq<nat>)
    ensures Sum(a + b) == Sum(a) + Sum(b)
  {
    if |a| == 0 {
      assert a + b == b;
    } else {
      SumOfTwo(a[1..], b);
      assert (a + b)[1..] == a[1..] + b;
    }
  }

  lemma NoSum()
    ensures Sum([]) == 0
    ensures forall n: nat :: Sum([n]) == n
  {
  }

  /** AfterBlocks by a loop that reads only headers. */
  method SkipZstdBlocks(blocks: seq<byte>) returns (rest: Option<seq<byte>>)
    ensures rest == AfterBlocks(blocks)
  {
    var b := blocks;
    while true
      invariant AfterBlocks(b) == AfterBlocks(blocks)
      decreases |b|
    {
      if |b| < ZSTD_BLOCK_HEADER_BYTES {
        return None;
      }
      var header := b[0] as int + 256 * b[1] as int + 65536 * b[2] as int;
      HeaderBytes(b);
      b := b[ZSTD_BLOCK_HEADER_BYTES..];
      var size := header / 8;
      if header / 2 % 4 == 1 {
        size := 1;
      } else if header / 2 % 4 == 3 {
        return None;
      }
      if size > |b| {
        return None;
      }
      b := b[size..];
      if header % 2 == 1 {
        return Some(b);
      }
    }
  }

  lemma HeaderBytes(b: seq<byte>)
    requires |b| >= ZSTD_BLOCK_HEADER_BYTES
    ensures BlockHeader(b) == b[0] as int + 256 * b[1] as int + 65536 * b[2] as int
  {
    var h := b[..3];
    assert h[1..] == [b[1], b[2]] && h[1..][1..] == [b[2]] && h[1..][1..][1..] == [];
    assert LittleEndian(h[1..][1..]) == b[2] as int + 256 * LittleEndian(h[1..][1..][1..]) == b[2] as int;
    assert LittleEndian(h[1..]) == b[1] as int + 256 * LittleEndian(h[1..][1..]);
  }

  /** What is declared so far and by the frames still to walk, stopped at the
      largest uint64. */
  function Capped(parser: Parser, declared: nat, stored: seq<byte>): nat {
    Min(declared + Sum(Declared(parser, stored)), MAX_UINT64)
  }

  lemma NothingLeft(parser: Parser, declared: nat, stored: seq<byte>)
    requires |stored| == 0 && declared <= MAX_UINT64
    ensures Capped(parser, declared, stored) == declared
  {
  }

  /** Adds up Declared by a loop over the frames, without passing the largest
      uint64. */
  method ZstdDeclaredSize(parser: Parser, value: seq<byte>) returns (declared: nat)
    ensures declared == Min(Sum(Declared(parser, value)), 0xFFFF_FFFF_FFFF_FFFF)
  {
    declared := 0;
    var stored := value;
    assert Capped(parser, 0, value) == Min(Sum(Declared(parser, value)), MAX_UINT64);
    hide Capped;
    while |stored| > 0
      invariant declared <= MAX_UINT64 && Capped(parser, declared, stored) == Capped(parser, 0, value)
      decreases |stored|
    {
      var done;
      declared, stored, done := PassFrame(parser, stored, declared);
      if done {
        return;
      }
    }
    NothingLeft(parser, declared, stored);
  }

  /** One frame: its size added, and what follows it; done where the walk
      ends. */
  method PassFrame(parser: Parser, stored: seq<byte>, declared: nat) returns (declared': nat, rest: seq<byte>, done: bool)
    requires |stored| > 0 && declared <= MAX_UINT64
    ensures declared' <= MAX_UINT64 && |rest| < |stored|
    ensures Capped(parser, declared, stored) == if done then declared' else Capped(parser, declared', rest)
  {
    hide AfterBlocks, Sum;
    NoSum();
    declared', rest, done := declared, [], true;
    var h := ParseHeader(parser, stored);
    if h.None? {
      return;
    }
    var after := stored[h.value.1..];
    if h.value.0.Skippable? {
      if h.value.0.size > |after| {
        return;
      }
      return declared, after[h.value.0.size..], false;
    }
    var own: seq<nat> := [];
    if h.value.0.contentSize.Some? {
      own := [h.value.0.contentSize.value];
      declared' := declared + Min(h.value.0.contentSize.value, MAX_UINT64 - declared);
    }
    var blocks := SkipZstdBlocks(after);
    if blocks.None? {
      return;
    }
    var next := blocks.value;
    if h.value.0.hasCheckSum {
      if |next| < ZSTD_CHECKSUM_BYTES {
        return;
      }
      next := next[ZSTD_CHECKSUM_BYTES..];
    }
    SumOfTwo(own, Declared(parser, next));
    rest, done := next, false;
  }

  // ---------------------------------------------------------------------
  // What an encoder writes.

  /** A block: its bytes as they are, one byte repeated, or data that decodes
      to a text. */
  datatype Block = Raw(bytes: seq<byte>) | Rle(b: byte, size: nat) | Compressed(data: seq<byte>, content: seq<byte>) {
    function Text(): seq<byte> {
      match this
      case Raw(bytes) => bytes
      case Rle(b, size) => seq(size, _ => b)
      case Compressed(_, content) => content
    }

    function Stored(): seq<byte> {
      match this
      case Raw(bytes) => bytes
      case Rle(b, _) => [b]
      case Compressed(data, _) => data
    }

    function Size(): nat {
      match this
      case Raw(bytes) => |bytes|
      case Rle(_, size) => size
      case Compressed(data, _) => |data|
    }

    function Type(): nat {
      match this
      case Raw(_) => 0
      case Rle(_, _) => 1
      case Compressed(_, _) => 2
    }
  }

  /** Section 3.1.1.2 of RFC 8878: a size field of 21 bits, a text of at most
      128 KiB, and compressed data of a literals and a sequences header at
      least. */
  predicate IsBlock(b: Block) {
    && b.Size() < 0x20_0000 && |b.Text()| <= 131072
    && (b.Compressed? ==> |b.data| >= 2)
  }

  function EncodeHeader(b: Block, last: bool): (h: seq<byte>)
    requires IsBlock(b)
    ensures |h| == ZSTD_BLOCK_HEADER_BYTES
  {
    var n := 8 * b.Size() + 2 * b.Type() + (if last then 1 else 0);
    [n % 256, n / 256 % 256, n / 65536]
  }

  ghost predicate AreBlocks(blocks: seq<Block>) {
    forall i :: 0 <= i < |blocks| ==> IsBlock(blocks[i])
  }

  /** The blocks of a frame, the last one marked. */
  ghost function EncodeBlocks(blocks: seq<Block>): seq<byte>
    requires AreBlocks(blocks)
  {
    if |blocks| == 0 then []
    else EncodeHeader(blocks[0], |blocks| == 1) + blocks[0].Stored() + EncodeBlocks(blocks[1..])
  }

  function BlocksText(blocks: seq<Block>): seq<byte> {
    if |blocks| == 0 then [] else blocks[0].Text() + BlocksText(blocks[1..])
  }

  /** A frame to pass over, or one of blocks, with the checksum after it when
      it has one. */
  datatype FrameSpec =
    | Passed(header: seq<byte>, payload: seq<byte>)
    | Content(header: seq<byte>, declares: bool, blocks: seq<Block>, checkSum: Option<seq<byte>>)

  function FrameText(f: FrameSpec): seq<byte> {
    if f.Passed? then [] else BlocksText(f.blocks)
  }

  /** The frame's header parses to what the frame is, whatever follows it; a
      declared size is that of its text. */
  ghost predicate IsFrame(parser: Parser, f: FrameSpec) {
    match f
    case Passed(header, payload) =>
      |header| > 0 && forall rest: seq<byte> :: parser(header + rest) == Some((Skippable(|payload|), |header|))
    case Content(header, declares, blocks, checkSum) =>
      && |header| > 0 && |blocks| > 0 && AreBlocks(blocks) && (checkSum.Some? ==> |checkSum.value| == 4)
      && forall rest: seq<byte> ::
           parser(header + rest)
           == Some((Frame(if declares then Some(|BlocksText(blocks)|) else None, checkSum.Some?), |header|))
  }

  /** All the blocks of a frame. */
  ghost function Written(blocks: seq<Block>): seq<byte>
    requires AreBlocks(blocks)
  {
    EncodeBlocks(blocks)
  }

  ghost function EncodeFrame(parser: Parser, f: FrameSpec): seq<byte>
    requires IsFrame(parser, f)
  {
    match f
    case Passed(header, payload) => header + payload
    case Content(header, _, blocks, checkSum) =>
      header + (Written(blocks) + (if checkSum.Some? then checkSum.value else []))
  }

  ghost predicate AreFrames(parser: Parser, frames: seq<FrameSpec>) {
    forall i :: 0 <= i < |frames| ==> IsFrame(parser, frames[i])
  }

  ghost function EncodeValue(parser: Parser, frames: seq<FrameSpec>): seq<byte>
    requires AreFrames(parser, frames)
  {
    if |frames| == 0 then []
    else
      assert IsFrame(parser, frames[0]);
      EncodeFrame(parser, frames[0]) + EncodeValue(parser, frames[1..])
  }

  function ValueText(frames: seq<FrameSpec>): seq<byte> {
    if |frames| == 0 then [] else FrameText(frames[0]) + ValueText(frames[1..])
  }

  /** The header of a block is read back. */
  lemma HeaderRead(b: Block, last: bool, rest: seq<byte>)
    requires IsBlock(b)
    ensures var header := BlockHeader(EncodeHeader(b, last) + rest);
            && header / 8 == b.Size() && BlockType(header) == b.Type() < 3 && (IsLast(header) <==> last)
            && BlockBytes(header) == |b.Stored()|
  {
    var e := EncodeHeader(b, last);
    var n := 8 * b.Size() + 2 * b.Type() + (if last then 1 else 0);
    HeaderBytes(e + rest);
    assert (e + rest)[0] == e[0] && (e + rest)[1] == e[1] && (e + rest)[2] == e[2];
    ThreeBytes(n);
    HeaderFields(b.Size(), b.Type(), last);
    hide BlockHeader, Block.Size, Block.Type, Block.Text;
  }

  lemma ThreeBytes(n: nat)
    ensures n % 256 + 256 * (n / 256 % 256) + 65536 * (n / 65536) == n
  {
  }

  lemma HeaderFields(size: nat, kind: nat, last: bool)
    requires kind < 4
    ensures var n := 8 * size + 2 * kind + (if last then 1 else 0);
            n / 8 == size && n / 2 % 4 == kind && (n % 2 == 1 <==> last)
  {
  }

  /** The walk over the blocks of a frame ends after its last block. */
  lemma {:induction false} BlocksPassed(blocks: seq<Block>, after: seq<byte>)
    requires |blocks| > 0 && AreBlocks(blocks)
    ensures AfterBlocks(EncodeBlocks(blocks) + after) == Some(after)
    decreases |blocks|
  {
    hide *;
    var b, last := blocks[0], |blocks| == 1;
    BlocksUnfold(blocks);
    var e, stored, more := EncodeHeader(b, last), b.Stored(), EncodeBlocks(blocks[1..]);
    assert EncodeBlocks(blocks) + after == e + (stored + (more + after));
    HeaderRead(b, last, stored + (more + after));
    BlockPassed(e, stored, more + after, last);
    if last {
      NoBlocks(blocks[1..]);
      assert more + after == after;
    } else {
      BlocksPassed(blocks[1..], after);
    }
  }

  lemma BlocksUnfold(blocks: seq<Block>)
    requires |blocks| > 0 && AreBlocks(blocks)
    ensures IsBlock(blocks[0]) && AreBlocks(blocks[1..])
    ensures EncodeBlocks(blocks)
            == EncodeHeader(blocks[0], |blocks| == 1) + blocks[0].Stored() + EncodeBlocks(blocks[1..])
  {
    hide EncodeHeader;
  }

  lemma NoBlocks(blocks: seq<Block>)
    requires |blocks| == 0 && AreBlocks(blocks)
    ensures EncodeBlocks(blocks) == []
  {
  }

  /** One block of the walk. */
  lemma BlockPassed(e: seq<byte>, stored: seq<byte>, after: seq<byte>, last: bool)
    requires |e| == ZSTD_BLOCK_HEADER_BYTES
    requires var header := BlockHeader(e + (stored + after));
             BlockType(header) < 3 && (IsLast(header) <==> last) && BlockBytes(header) == |stored|
    ensures AfterBlocks(e + (stored + after)) == if last then Some(after) else AfterBlocks(after)
  {
    assert (e + (stored + after))[3..] == stored + after && (stored + after)[|stored|..] == after;
    hide BlockHeader, BlockType, BlockBytes, IsLast;
  }

  /** The walk over one frame comes to what follows it, with its size. */
  lemma FramePassed(parser: Parser, f: FrameSpec, after: seq<byte>)
    requires IsFrame(parser, f)
    ensures Declared(parser, EncodeFrame(parser, f) + after)
            == (if f.Content? && f.declares then [|FrameText(f)|] else []) + Declared(parser, after)
  {
    match f
    case Passed(header, payload) => PassedPassed(parser, header, payload, after);
    case Content(header, declares, blocks, checkSum) =>
      ContentPassed(parser, f, after);
  }

  lemma PassedPassed(parser: Parser, header: seq<byte>, payload: seq<byte>, after: seq<byte>)
    requires IsFrame(parser, Passed(header, payload))
    ensures Declared(parser, header + payload + after) == Declared(parser, after)
  {
    var all := header + payload + after;
    assert all == header + (payload + after) && all[|header|..] == payload + after;
    assert (payload + after)[|payload|..] == after;
    hide AfterFrame;
  }

  /** The header of a frame of content, with anything after it. */
  lemma ContentParsed(parser: Parser, f: FrameSpec, rest: seq<byte>)
    requires f.Content? && IsFrame(parser, f)
    ensures |f.header| > 0 && (f.header + rest)[|f.header|..] == rest
    ensures ParseHeader(parser, f.header + rest)
            == Some((Frame(if f.declares then Some(|FrameText(f)|) else None, f.checkSum.Some?), |f.header|))
  {
    hide BlocksText, AreBlocks;
  }

  /** One step of the walk over frames. */
  lemma DeclaredStep(parser: Parser, stored: seq<byte>, contentSize: Option<nat>, hasCheckSum: bool, n: nat,
                     rest: seq<byte>, after: seq<byte>)
    requires 0 < n <= |stored| && stored[n..] == rest
    requires ParseHeader(parser, stored) == Some((Frame(contentSize, hasCheckSum), n))
    requires AfterFrame(rest, hasCheckSum) == Some(after)
    ensures Declared(parser, stored)
            == (if contentSize.Some? then [contentSize.value] else []) + Declared(parser, after)
  {
    hide ParseHeader, AfterFrame;
  }

  lemma ContentPassed(parser: Parser, f: FrameSpec, after: seq<byte>)
    requires f.Content? && IsFrame(parser, f)
    ensures Declared(parser, EncodeFrame(parser, f) + after)
            == (if f.declares then [|FrameText(f)|] else []) + Declared(parser, after)
  {
    hide Written, AfterFrame, BlocksText, AreBlocks, ParseHeader, FrameText;
    var sum := if f.checkSum.Some? then f.checkSum.value else [];
    var rest := Written(f.blocks) + sum + after;
    assert EncodeFrame(parser, f) + after == f.header + rest;
    ContentParsed(parser, f, rest);
    BodyPassed(f.blocks, sum, after);
    DeclaredStep(parser, f.header + rest, if f.declares then Some(|FrameText(f)|) else None, f.checkSum.Some?, |f.header|,
                 rest, after);
  }

  /** What follows a frame whose blocks end before its checksum. */
  lemma AfterCheckSum(b: seq<byte>, sum: seq<byte>, after: seq<byte>)
    requires PastBlocks(b) == Some(sum + after) && (sum == [] || |sum| == ZSTD_CHECKSUM_BYTES)
    ensures AfterFrame(b, sum != []) == Some(after)
  {
    assert (sum + after)[|sum|..] == after;
    hide PastBlocks;
  }

  lemma WrittenPassed(blocks: seq<Block>, after: seq<byte>)
    requires |blocks| > 0 && AreBlocks(blocks)
    ensures PastBlocks(Written(blocks) + after) == Some(after)
  {
    BlocksPassed(blocks, after);
  }

  lemma BodyPassed(blocks: seq<Block>, sum: seq<byte>, after: seq<byte>)
    requires |blocks| > 0 && AreBlocks(blocks) && (sum == [] || |sum| == ZSTD_CHECKSUM_BYTES)
    ensures AfterFrame(Written(blocks) + sum + after, sum != []) == Some(after)
  {
    hide *;
    WrittenPassed(blocks, sum + after);
    assert Written(blocks) + sum + after == Written(blocks) + (sum + after);
    AfterCheckSum(Written(blocks) + sum + after, sum, after);
  }

  /** The sizes declared by a whole value's frames come to no more than its
      text. */
  lemma {:induction false} DeclaredOfValue(parser: Parser, frames: seq<FrameSpec>)
    requires AreFrames(parser, frames)
    ensures Sum(Declared(parser, EncodeValue(parser, frames))) <= |ValueText(frames)|
    ensures (forall i :: 0 <= i < |frames| && frames[i].Content? ==> frames[i].declares) ==>
              Sum(Declared(parser, EncodeValue(parser, frames))) == |ValueText(frames)|
    decreases |frames|
  {
    if |frames| > 0 {
      var rest := EncodeValue(parser, frames[1..]);
      assert IsFrame(parser, frames[0]);
      FramePassed(parser, frames[0], rest);
      DeclaredOfValue(parser, frames[1..]);
      var own := if frames[0].Content? && frames[0].declares then [|FrameText(frames[0])|] else [];
      hide Declared, IsFrame, EncodeFrame, BlocksText;
      NoSum();
      SumOfTwo(own, Declared(parser, rest));
    }
  }

  // ---------------------------------------------------------------------
  // The most text.

  /** The bound TextWithinBound proves, for n bytes in storage. */
  function ZstdMostText(n: nat): nat {
    (n / ZSTD_LEAST_BLOCK_WITH_TEXT + 1) * ZSTD_MAX_BLOCK_TEXT
  }

  /** The text of some blocks, four stored bytes for each 128 KiB. */
  lemma {:induction false} BlocksTextBound(blocks: seq<Block>)
    requires AreBlocks(blocks)
    ensures |BlocksText(blocks)| * ZSTD_LEAST_BLOCK_WITH_TEXT <= ZSTD_MAX_BLOCK_TEXT * |EncodeBlocks(blocks)|
  {
    if |blocks| > 0 {
      BlocksTextBound(blocks[1..]);
      assert IsBlock(blocks[0]);
      var t := |blocks[0].Text()|;
      assert t > 0 ==> |blocks[0].Stored()| >= 1;
      hide BlocksText, EncodeBlocks;
    }
  }

  lemma FrameTextBound(parser: Parser, f: FrameSpec)
    requires IsFrame(parser, f)
    ensures |FrameText(f)| * ZSTD_LEAST_BLOCK_WITH_TEXT <= ZSTD_MAX_BLOCK_TEXT * |EncodeFrame(parser, f)|
  {
    hide BlocksText, EncodeBlocks, AreBlocks;
    if f.Content? {
      BlocksTextBound(f.blocks);
    }
  }

  lemma {:induction false} ValueTextBound(parser: Parser, frames: seq<FrameSpec>)
    requires AreFrames(parser, frames)
    ensures |ValueText(frames)| * ZSTD_LEAST_BLOCK_WITH_TEXT <= ZSTD_MAX_BLOCK_TEXT * |EncodeValue(parser, frames)|
  {
    hide *;
    if |frames| > 0 {
      ValueParts(parser, frames);
      FrameTextBound(parser, frames[0]);
      ValueTextBound(parser, frames[1..]);
      Scaled(|FrameText(frames[0])|, |ValueText(frames[1..])|);
      Scaled(|EncodeFrame(parser, frames[0])|, |EncodeValue(parser, frames[1..])|);
    } else {
      NoValue(parser, frames);
    }
  }

  lemma NoValue(parser: Parser, frames: seq<FrameSpec>)
    requires AreFrames(parser, frames) && |frames| == 0
    ensures |ValueText(frames)| == 0 == |EncodeValue(parser, frames)|
  {
  }

  lemma Scaled(a: nat, b: nat)
    ensures (a + b) * ZSTD_LEAST_BLOCK_WITH_TEXT == a * ZSTD_LEAST_BLOCK_WITH_TEXT + b * ZSTD_LEAST_BLOCK_WITH_TEXT
    ensures ZSTD_MAX_BLOCK_TEXT * (a + b) == ZSTD_MAX_BLOCK_TEXT * a + ZSTD_MAX_BLOCK_TEXT * b
  {
  }

  lemma ValueParts(parser: Parser, frames: seq<FrameSpec>)
    requires AreFrames(parser, frames) && |frames| > 0
    ensures IsFrame(parser, frames[0]) && AreFrames(parser, frames[1..])
    ensures |EncodeValue(parser, frames)| == |EncodeFrame(parser, frames[0])| + |EncodeValue(parser, frames[1..])|
    ensures |ValueText(frames)| == |FrameText(frames[0])| + |ValueText(frames[1..])|
  {
    hide EncodeFrame, FrameText, IsFrame;
  }

  /** Any run of zstd frames holds no more text than the bound says. */
  lemma TextWithinBound(parser: Parser, frames: seq<FrameSpec>)
    requires AreFrames(parser, frames)
    ensures |ValueText(frames)| <= ZstdMostText(|EncodeValue(parser, frames)|)
  {
    ValueTextBound(parser, frames);
    MostTextIs(|ValueText(frames)|, |EncodeValue(parser, frames)|);
  }

  lemma MostTextIs(text: nat, n: nat)
    requires text * ZSTD_LEAST_BLOCK_WITH_TEXT <= ZSTD_MAX_BLOCK_TEXT * n
    ensures text <= ZstdMostText(n)
  {
  }

  // ---------------------------------------------------------------------
  // The check before a buffer is made.

  const LZ4_SIZE_PREFIX := 8
  const LZ4_MAX_RATIO := 255

  /** The number in the bytes before an lz4 block; 0 without a block. */
  function Lz4DeclaredSize(stored: seq<byte>): nat {
    if |stored| <= LZ4_SIZE_PREFIX then 0 else LittleEndian(stored[..LZ4_SIZE_PREFIX])
  }

  /** What DecodeBound allows the block of a value of n bytes. */
  function Lz4MostText(n: nat): nat {
    LZ4_MAX_RATIO * Max(n - LZ4_SIZE_PREFIX, 0)
  }

  datatype Refusal = PastMaximum | PastMostText | PastEntryBudget

  /** Whether a declared size may be made room for: None, or why not. */
  method CheckDeclaredSize(declared: nat, mostText: nat, room: nat) returns (refusal: Option<Refusal>)
    ensures refusal == if declared > 134217728 then Some(PastMaximum)
                       else if declared > mostText then Some(PastMostText)
                       else if declared > room then Some(PastEntryBudget) else None
  {
    if declared > MAX_VALUE {
      return Some(PastMaximum);
    } else if declared > mostText {
      return Some(PastMostText);
    } else if declared > room {
      return Some(PastEntryBudget);
    }
    return None;
  }

  /** A zstd value is refused for the size it declares exactly when that is
      past 128 MiB, past what its stored bytes can hold, or past the room, and
      only the last is no damage. One that honestly decodes within the room is
      never refused for it, and one that honestly decodes never as more than
      its bytes can hold. */
  method CheckZstdValue(parser: Parser, ghost frames: seq<FrameSpec>, stored: seq<byte>, room: nat)
    returns (declared: nat, refusal: Option<Refusal>)
    ensures (AreFrames(parser, frames) && stored == EncodeValue(parser, frames) && |ValueText(frames)| <= Min(room, 134217728))
            ==> refusal.None? && declared <= |ValueText(frames)|
    ensures AreFrames(parser, frames) && stored == EncodeValue(parser, frames) && |ValueText(frames)| <= 134217728 ==>
              refusal == if declared > room then Some(PastEntryBudget) else None
    ensures refusal == if declared > 134217728 then Some(PastMaximum)
                       else if declared > (|stored| / 4 + 1) * 131072 then Some(PastMostText)
                       else if declared > room then Some(PastEntryBudget) else None
    ensures declared == Min(Sum(Declared(parser, stored)), 0xFFFF_FFFF_FFFF_FFFF)
  {
    declared := ZstdDeclaredSize(parser, stored);
    refusal := CheckDeclaredSize(declared, ZstdMostText(|stored|), room);
    if AreFrames(parser, frames) && stored == EncodeValue(parser, frames) {
      DeclaredOfValue(parser, frames);
      TextWithinBound(parser, frames);
    }
  }

  /** An lz4 value is refused for the size in its first eight bytes exactly
      when that is past 128 MiB, past 255 bytes for each byte of its block, or
      past the room, and only the last is no damage. One whose block decodes to
      its size is never refused as more than its bytes can hold. */
  method CheckLz4Value(stored: seq<byte>, room: nat) returns (declared: nat, refusal: Option<Refusal>)
    ensures declared == if |stored| <= 8 then 0 else LittleEndian(stored[..8])
    ensures refusal == if declared > 134217728 then Some(PastMaximum)
                       else if declared > 255 * Max(|stored| - 8, 0) then Some(PastMostText)
                       else if declared > room then Some(PastEntryBudget) else None
    ensures |stored| > 8 ==>
              var text := Lz4Block.Decode(stored[8..], 0, []);
              text.Some? && |text.value| == declared && declared <= 134217728 ==>
              refusal == if declared > room then Some(PastEntryBudget) else None
  {
    declared := Lz4DeclaredSize(stored);
    refusal := CheckDeclaredSize(declared, Lz4MostText(|stored|), room);
    if |stored| > LZ4_SIZE_PREFIX {
      Lz4Block.DecodeBound(stored[LZ4_SIZE_PREFIX..], 0, []);
    }
  }

  // ---------------------------------------------------------------------
  // A value whose size is not known before.

  const FIRST_VALUE_BUFFER := 4096

  datatype Value = Whole(value: seq<byte>) | TooLarge | NotRead

  /** What a read came to: there may be more, the text is over, or it failed. */
  datatype ReadEnd = More | AtEof | Failed

  /** What one read into some room gives: bytes of the text that comes, if it
      gives any, and the end, whole or broken, with the last of them or after
      it. It gives nothing without an end only while idle reads are left. */
  method ReadSome(text: seq<byte>, broken: bool, at: nat, room: nat, idle: nat)
    returns (n: nat, end: ReadEnd, idle': nat)
    requires at <= |text| && room > 0
    ensures n <= room && at + n <= |text| && idle' <= idle
    ensures n == 0 && end == More ==> idle' < idle
    ensures end != More ==> at + n == |text| && end == if broken then Failed else AtEof
  {
    var over := if broken then Failed else AtEof;
    if idle > 0 {
      var nothing: bool :| true;
      if nothing {
        return 0, More, idle - 1;
      }
    }
    var most := Min(room, |text| - at);
    if most == 0 {
      return 0, over, idle;
    }
    var k: nat :| 0 < k <= most;
    var ends: bool :| ends ==> at + k == |text|;
    return k, if ends then over else More, idle;
  }

  /** What a value is whose reads give text and then end, whole or broken. */
  function ValueOf(text: seq<byte>, broken: bool, limit: nat): Value {
    if |text| > limit then TooLarge else if broken then NotRead else Whole(text)
  }

  /** Collects a text in a buffer that grows twofold, from reads that give any
      part that fits, or nothing, or fail at last. A text comes whole if it has
      at most limit bytes and its reads do not fail; capacity, the room made
      for it, is within limit, and within twice the text or the size it began
      with. */
  method ReadValue(text: seq<byte>, broken: bool, idle: nat, limit: nat) returns (value: Value, capacity: nat)
    ensures value == ValueOf(text, broken, limit)
    ensures capacity <= limit && capacity <= Max(Min(4096, limit), 2 * |text|)
  {
    var buf: seq<byte> := [];
    var left := idle;
    capacity := Min(FIRST_VALUE_BUFFER, limit);
    while true
      invariant |buf| <= |text| && buf == text[..|buf|] && |buf| <= capacity <= limit
      invariant capacity <= Max(Min(FIRST_VALUE_BUFFER, limit), 2 * |text|)
      invariant limit > 0 ==> capacity > 0
      decreases |text| - |buf|, left
    {
      var n, end;
      if |buf| == capacity {
        n, end, left := ReadSome(text, broken, |buf|, 1, left);
        if n == 0 {
          if end == AtEof {
            return Whole(buf), capacity;
          }
          if end == Failed {
            return NotRead, capacity;
          }
          continue;
        }
        if |buf| == limit {
          return TooLarge, capacity;
        }
        capacity := Min(2 * capacity, limit);
        buf := buf + [text[|buf|]];
        if end == AtEof {
          return Whole(buf), capacity;
        }
        if end == Failed {
          return NotRead, capacity;
        }
      }
      if |buf| == capacity {
        continue;
      }
      n, end, left := ReadSome(text, broken, |buf|, capacity - |buf|, left);
      buf := buf + text[|buf|..|buf| + n];
      if end == AtEof {
        return Whole(buf), capacity;
      }
      if end == Failed {
        return NotRead, capacity;
      }
    }
  }
}
