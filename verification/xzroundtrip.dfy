/** What an xz writer makes of blocks of text, and that the reader takes it
    back. */
module XzRoundTrip {
  import opened Common
  import opened XzFormat

  /** e stands in src at pos. */
  ghost predicate At(src: seq<byte>, pos: nat, e: seq<byte>) {
    pos + |e| <= |src| && src[pos..pos + |e|] == e
  }

  lemma AtParts(src: seq<byte>, pos: nat, a: seq<byte>, b: seq<byte>)
    requires At(src, pos, a + b)
    ensures At(src, pos, a) && At(src, pos + |a|, b)
  {
    assert src[pos..pos + |a|] == src[pos..pos + |a + b|][..|a|] == a;
    assert src[pos + |a|..pos + |a| + |b|] == src[pos..pos + |a + b|][|a|..] == b;
  }

  // ---------------------------------------------------------------------
  // Integers.

  function EncodeVarint(v: nat): (e: seq<byte>)
    ensures |e| >= 1
  {
    if v < 0x80 then [v] else [v % 0x80 + 0x80] + EncodeVarint(v / 0x80)
  }

  /** What bytes i to 9 of an integer can hold. */
  function VarintBound(i: nat): (bound: nat)
    requires i < MAX_VARINT_LEN
    ensures bound > 0
    decreases MAX_VARINT_LEN - i
  {
    if i == MAX_VARINT_LEN - 1 then 2 else 0x80 * VarintBound(i + 1)
  }

  lemma VarintHolds64Bits()
    ensures VarintBound(0) == 0x1_0000_0000_0000_0000
  {
    assert VarintBound(5) == 0x80 * 0x80 * 0x80 * 0x80 * 2;
    assert VarintBound(2) == 0x80 * 0x80 * 0x80 * VarintBound(5);
  }

  lemma {:induction false} VarintAt(src: seq<byte>, pos: nat, v: nat, i: nat)
    requires i < MAX_VARINT_LEN && v < VarintBound(i) && At(src, pos, EncodeVarint(v))
    ensures Varint(src, pos, i) == Ok(v, pos + |EncodeVarint(v)|)
    decreases MAX_VARINT_LEN - i
  {
    if v >= 0x80 {
      AtParts(src, pos, [v % 0x80 + 0x80], EncodeVarint(v / 0x80));
      VarintAt(src, pos + 1, v / 0x80, i + 1);
      assert src[pos] == src[pos..pos + 1][0];
    } else {
      assert src[pos] == src[pos..pos + 1][0];
    }
  }

  /** Every value below 2^64 is read back from its encoding. */
  lemma VarintRoundTrip(src: seq<byte>, pos: nat, v: nat)
    requires v < 0x1_0000_0000_0000_0000 && At(src, pos, EncodeVarint(v))
    ensures Varint(src, pos, 0) == Ok(v, pos + |EncodeVarint(v)|)
  {
    VarintHolds64Bits();
    VarintAt(src, pos, v, 0);
  }

  /** What is read as an integer is below 2^64, in ten bytes at most. */
  lemma {:induction false} VarintFits(src: seq<byte>, pos: nat, i: nat)
    requires i < MAX_VARINT_LEN && Varint(src, pos, i).Ok?
    ensures Varint(src, pos, i).value < VarintBound(i)
    ensures Varint(src, pos, i).next <= pos + MAX_VARINT_LEN - i
    decreases MAX_VARINT_LEN - i
  {
    if src[pos] >= 0x80 {
      VarintFits(src, pos + 1, i + 1);
      assert VarintBound(i) == 0x80 * VarintBound(i + 1);
    } else if i < MAX_VARINT_LEN - 1 {
      assert VarintBound(i) == 0x80 * VarintBound(i + 1) && VarintBound(i + 1) > 0;
    }
  }

  function Fixed(v: nat, n: nat): (e: seq<byte>)
    ensures |e| == n
  {
    if n == 0 then [] else [v % 256] + Fixed(v / 256, n - 1)
  }

  function Pow256(n: nat): nat {
    if n == 0 then 1 else 256 * Pow256(n - 1)
  }

  lemma {:induction false} FixedRoundTrip(v: nat, n: nat)
    requires v < Pow256(n)
    ensures LittleEndian(Fixed(v, n)) == v
  {
    if n > 0 {
      FixedRoundTrip(v / 256, n - 1);
      assert Fixed(v, n)[1..] == Fixed(v / 256, n - 1);
    }
  }

  lemma Fixed32(v: nat)
    requires v < 0x1_0000_0000
    ensures LittleEndian(Fixed(v, 4)) == v
  {
    assert Pow256(4) == 0x1_0000_0000;
    FixedRoundTrip(v, 4);
  }

  function Zeros(n: nat): (z: seq<byte>)
    ensures |z| == n && AllZero(z)
  {
    seq(n, _ => 0)
  }

  // ---------------------------------------------------------------------
  // Blocks.

  /** A block as a writer gives it: which sizes its header holds, its
      dictionary code, the zeros after its filter, its data and its text. */
  datatype BlockSpec = BlockSpec(withCompressed: bool, withText: bool, dictionaryCode: byte, headerZeros: nat,
                                 data: seq<byte>, text: seq<byte>)
  {
    function Flags(): byte {
      (if withCompressed then 64 else 0) + (if withText then 128 else 0)
    }

    function CompressedField(): seq<byte> {
      if withCompressed then EncodeVarint(|data|) else []
    }

    function TextField(): seq<byte> {
      if withText then EncodeVarint(|text|) else []
    }

    /** The header between its flags and its CRC32. */
    function Body(): seq<byte> {
      CompressedField() + (TextField() + FilterPart(dictionaryCode, headerZeros))
    }

    function HeaderLen(): nat {
      2 + |Body()| + 4
    }

    function Fields(): Fields {
      XzFormat.Fields(if withCompressed then Some(|data|) else None, if withText then Some(|text|) else None,
                      dictionaryCode)
    }
  }

  function FilterPart(code: byte, zeros: nat): (f: seq<byte>)
    ensures |f| == 3 + zeros
  {
    [0x21, 1, code] + Zeros(zeros)
  }

  /** The header's length is one its size byte can say. */
  predicate Sized(b: BlockSpec) {
    b.HeaderLen() % 4 == 0 && b.HeaderLen() <= 1024 && |b.data| < 0x8000_0000_0000_0000 && |b.text| < 0x8000_0000_0000_0000
  }

  function HeaderStart(b: BlockSpec): (h: seq<byte>)
    requires Sized(b)
    ensures |h| == b.HeaderLen() - 4 && h[0] == b.HeaderLen() / 4 - 1 && h[1] == b.Flags() && h[2..] == b.Body()
  {
    [b.HeaderLen() / 4 - 1, b.Flags()] + b.Body()
  }

  function Header(codec: Codec, b: BlockSpec): (h: seq<byte>)
    requires Sized(b)
    ensures |h| == b.HeaderLen()
  {
    HeaderStart(b) + Fixed(codec.crc(HeaderStart(b)), 4)
  }

  function EncodeBlock(codec: Codec, checkID: byte, b: BlockSpec): seq<byte>
    requires Sized(b)
  {
    Header(codec, b) + (b.data + (Zeros(PadLen(|b.data|)) + Check(codec, checkID, b.text)))
  }

  function RecordOf(codec: Codec, checkID: byte, b: BlockSpec): Record {
    Record(b.HeaderLen() + |b.data| + |Check(codec, checkID, b.text)|, |b.text|)
  }

  /** The data decodes to the text, whatever follows it, with any dictionary
      that is the declared one or as long as the text. */
  ghost predicate Honest(codec: Codec, limits: Limits, b: BlockSpec) {
    && Sized(b) && limits.cap == 0
    && var declared := DictCap(b.dictionaryCode);
    && declared.Some? && declared.value <= limits.dictionary
    && forall rest: seq<byte>, c: nat :: c >= Min(declared.value, |b.text|) ==>
         codec.lzma(b.data + rest, c) == Decoded(|b.data|, b.text, true)
  }

  /** The header read back: its fields are the block's. */
  lemma BodyParsed(b: BlockSpec)
    requires Sized(b)
    ensures var comp := OptionalSize(b.Body(), 0, b.withCompressed);
            && comp.Ok? && comp.value == b.Fields().compressedSize
            && var text := OptionalSize(b.Body(), comp.next, b.withText);
            && text.Ok? && text.value == b.Fields().uncompressedSize
            && Filter(b.Body(), text.next) == Ok(b.dictionaryCode, |b.Body()|)
  {
    BodyParts(b);
    hide OptionalSize, Filter, At, Zeros, EncodeVarint, BlockSpec.Body, AllZero;
    var body, c := b.Body(), |b.CompressedField()|;
    SizeParsed(body, 0, b.withCompressed, |b.data|);
    SizeParsed(body, c, b.withText, |b.text|);
    FilterParsed(body, c + |b.TextField()|, b.dictionaryCode, b.headerZeros);
  }

  lemma BodyParts(b: BlockSpec)
    ensures var body, c, t := b.Body(), |b.CompressedField()|, |b.TextField()|;
            && |body| == c + t + 3 + b.headerZeros
            && At(body, 0, b.CompressedField()) && At(body, c, b.TextField())
            && At(body, c + t, FilterPart(b.dictionaryCode, b.headerZeros))
  {
    var body, filter := b.Body(), FilterPart(b.dictionaryCode, b.headerZeros);
    assert At(body, 0, b.CompressedField() + (b.TextField() + filter));
    hide At, FilterPart, EncodeVarint;
    AtParts(body, 0, b.CompressedField(), b.TextField() + filter);
    AtParts(body, |b.CompressedField()|, b.TextField(), filter);
  }

  lemma SizeParsed(body: seq<byte>, pos: nat, present: bool, size: nat)
    requires pos <= |body| && size < SIZE_LIMIT && (present ==> At(body, pos, EncodeVarint(size)))
    ensures OptionalSize(body, pos, present)
            == if present then Ok(Some(size), pos + |EncodeVarint(size)|) else Ok(None, pos)
  {
    if present {
      VarintRoundTrip(body, pos, size);
    }
    hide Varint, EncodeVarint, At;
  }

  lemma FilterParsed(body: seq<byte>, pos: nat, code: byte, zeros: nat)
    requires At(body, pos, FilterPart(code, zeros)) && |body| == pos + 3 + zeros
    ensures Filter(body, pos) == Ok(code, |body|)
  {
    var filter := FilterPart(code, zeros);
    assert body[pos..] == filter;
    assert body[pos] == body[pos..][0] && body[pos + 1] == body[pos..][1] && body[pos + 2] == body[pos..][2];
    assert body[pos + 3..] == body[pos..][3..] == Zeros(zeros);
  }

  /** A block's header is read back. */
  lemma HeaderParsed(codec: Codec, b: BlockSpec)
    requires Sized(b)
    ensures BlockHeader(codec, Header(codec, b)) == Ok(b.Fields(), b.HeaderLen())
  {
    var h, crcAt := Header(codec, b), b.HeaderLen() - 4;
    assert h[..crcAt] == HeaderStart(b) && h[crcAt..] == Fixed(codec.crc(HeaderStart(b)), 4);
    Fixed32(codec.crc(HeaderStart(b)));
    assert h[1] == HeaderStart(b)[1] && h[2..crcAt] == HeaderStart(b)[2..] == b.Body();
    var flags: int := b.Flags();
    assert flags % 4 == 0 && flags / 4 % 16 == 0;
    assert (flags / 64 % 2 == 1 <==> b.withCompressed) && (flags / 128 == 1 <==> b.withText);
    BodyParsed(b);
    hide OptionalSize, Filter, Header, HeaderStart, BlockSpec.Body, LittleEndian, Fixed, BlockSpec.Flags;
  }

  /** The dictionary a block gets is its declared one, or holds its text. */
  lemma DictionaryIsEnough(declared: nat, textSize: Option<nat>)
    ensures DictionaryForBlock(declared, textSize) >= (if textSize.Some? then Min(declared, textSize.value) else declared)
    ensures declared >= 4096 ==> 4096 <= DictionaryForBlock(declared, textSize) <= declared
  {
  }

  lemma BlockOpens(codec: Codec, limits: Limits, src: seq<byte>, pos: nat, b: BlockSpec)
    requires Honest(codec, limits, b) && At(src, pos, Header(codec, b))
    ensures pos < |src| && src[pos] != 0
    ensures var o := OpenBlock(codec, limits, src, pos);
            && o.Ok? && o.next == pos + b.HeaderLen() && o.value.headerLen == b.HeaderLen() && o.value.fields == b.Fields()
            && o.value.dictionary >= Min(DictCap(b.dictionaryCode).value, |b.text|)
  {
    HeaderParsed(codec, b);
    var h := Header(codec, b);
    assert h[0] == b.HeaderLen() / 4 - 1;
    assert src[pos] == src[pos..pos + |h|][0];
    DictionaryIsEnough(DictCap(b.dictionaryCode).value, b.Fields().uncompressedSize);
    hide BlockHeader, Header, DictCap, DictionaryForBlock, BlockSpec.Body;
  }

  /** What follows an honest block's data closes it. */
  lemma BlockCloses(codec: Codec, src: seq<byte>, pos: nat, checkID: byte, b: BlockSpec, block: Opened)
    requires At(src, pos, Zeros(PadLen(|b.data|)) + Check(codec, checkID, b.text))
    requires block.headerLen == b.HeaderLen() && block.fields == b.Fields()
    ensures FinishBlock(codec, src, pos, checkID, block, |b.data|, b.text)
            == Ok(RecordOf(codec, checkID, b), pos + PadLen(|b.data|) + |Check(codec, checkID, b.text)|)
  {
    AtParts(src, pos, Zeros(PadLen(|b.data|)), Check(codec, checkID, b.text));
  }

  /** The outcome is text, and then the rest. */
  ghost predicate Yields(all: Outcome, text: seq<byte>, rest: Outcome) {
    all.text == text + rest.text && all.ending == rest.ending
  }

  function Noted(stream: Stream, records: seq<Record>): Stream {
    stream.(records := stream.records + records)
  }

  lemma NotedBoth(stream: Stream, a: seq<Record>, b: seq<Record>)
    ensures Noted(stream, []) == stream
    ensures Noted(Noted(stream, a), b) == Noted(stream, a + b)
  {
    assert stream.records + [] == stream.records;
    assert stream.records + a + b == stream.records + (a + b);
  }

  lemma NotedFirst(checkID: byte, records: seq<Record>)
    ensures Noted(Stream(checkID, []), records) == Stream(checkID, records)
  {
    assert [] + records == records;
  }

  lemma YieldsNothing(all: Outcome)
    ensures Yields(all, [], all)
  {
    assert [] + all.text == all.text;
  }

  lemma YieldsBoth(all: Outcome, a: seq<byte>, mid: Outcome, b: seq<byte>, rest: Outcome)
    requires Yields(all, a, mid) && Yields(mid, b, rest)
    ensures Yields(all, a + b, rest)
  {
  }

  /** One honest block: its text, and then what follows it. */
  lemma BlockRead(codec: Codec, limits: Limits, src: seq<byte>, pos: nat, stream: Stream, b: BlockSpec)
    requires 0 < pos && Honest(codec, limits, b) && At(src, pos, EncodeBlock(codec, stream.checkID, b))
    ensures var next := pos + |EncodeBlock(codec, stream.checkID, b)|;
            var stream' := Noted(stream, [RecordOf(codec, stream.checkID, b)]);
            var all, rest := Rest(codec, limits, src, pos, Some(stream)), Rest(codec, limits, src, next, Some(stream'));
            Yields(all, b.text, rest)
  {
    BlockParts(codec, src, pos, stream.checkID, b);
    hide *;
    var at := pos + b.HeaderLen();
    var end := pos + |EncodeBlock(codec, stream.checkID, b)|;
    var o := OpenBlock(codec, limits, src, pos);
    BlockOpens(codec, limits, src, pos, b);
    NextIsBlock(codec, limits, src, pos, stream);
    DataDecodes(codec, limits, src, at, b, o.value.dictionary);
    BlockCloses(codec, src, at + |b.data|, stream.checkID, b, o.value);
    BlockOutcome(codec, limits, src, pos, stream, o.value, at, b, end);
  }

  lemma BlockParts(codec: Codec, src: seq<byte>, pos: nat, checkID: byte, b: BlockSpec)
    requires Sized(b) && At(src, pos, EncodeBlock(codec, checkID, b))
    ensures var after := Zeros(PadLen(|b.data|)) + Check(codec, checkID, b.text);
            var at := pos + b.HeaderLen();
            && At(src, pos, Header(codec, b)) && At(src, at, b.data) && At(src, at + |b.data|, after)
            && pos + |EncodeBlock(codec, checkID, b)| == at + |b.data| + PadLen(|b.data|) + |Check(codec, checkID, b.text)|
    ensures pos < pos + b.HeaderLen() <= |src|
  {
    var header, after := Header(codec, b), Zeros(PadLen(|b.data|)) + Check(codec, checkID, b.text);
    hide Header, Zeros, Check, At;
    AtParts(src, pos, header, b.data + after);
    AtParts(src, pos + |header|, b.data, after);
    AtFits(src, pos, header);
  }

  lemma AtFits(src: seq<byte>, pos: nat, e: seq<byte>)
    requires At(src, pos, e)
    ensures pos + |e| <= |src|
  {
  }

  lemma NextIsBlock(codec: Codec, limits: Limits, src: seq<byte>, pos: nat, stream: Stream)
    requires 0 < pos < |src| && src[pos] != 0 && OpenBlock(codec, limits, src, pos).Ok?
    ensures var o := OpenBlock(codec, limits, src, pos);
            Ahead(codec, limits, src, pos, Some(stream)) == AtBlock(o.value, o.next, stream)
  {
    hide OpenBlock;
  }

  /** A block that opens, decodes and closes. */
  lemma BlockOutcome(codec: Codec, limits: Limits, src: seq<byte>, pos: nat, stream: Stream, o: Opened, at: nat, b: BlockSpec,
                     end: nat)
    requires 0 < pos < at <= |src| && Ahead(codec, limits, src, pos, Some(stream)) == AtBlock(o, at, stream)
    requires Decode(codec, src, at, o.dictionary) == Decoded(|b.data|, b.text, true)
    requires FinishBlock(codec, src, at + |b.data|, stream.checkID, o, |b.data|, b.text)
             == Ok(RecordOf(codec, stream.checkID, b), end)
    ensures end <= |src|
    ensures var stream' := Noted(stream, [RecordOf(codec, stream.checkID, b)]);
            Yields(Rest(codec, limits, src, pos, Some(stream)), b.text, Rest(codec, limits, src, end, Some(stream')))
  {
    hide NextBlock, FinishBlock, Decode, RecordOf;
  }

  lemma DataDecodes(codec: Codec, limits: Limits, src: seq<byte>, pos: nat, b: BlockSpec, dictionary: nat)
    requires Honest(codec, limits, b) && At(src, pos, b.data)
    requires dictionary >= Min(DictCap(b.dictionaryCode).value, |b.text|)
    ensures Decode(codec, src, pos, dictionary) == Decoded(|b.data|, b.text, true)
  {
    assert src[pos..] == b.data + src[pos + |b.data|..];
    hide DictCap, BlockSpec.HeaderLen;
  }

  // ---------------------------------------------------------------------
  // Lists of blocks.

  ghost predicate AllHonest(codec: Codec, limits: Limits, blocks: seq<BlockSpec>) {
    forall i :: 0 <= i < |blocks| ==> Honest(codec, limits, blocks[i])
  }

  ghost function EncodeBlocks(codec: Codec, limits: Limits, checkID: byte, blocks: seq<BlockSpec>): seq<byte>
    requires AllHonest(codec, limits, blocks)
  {
    if |blocks| == 0 then []
    else
      assert Honest(codec, limits, blocks[0]);
      EncodeBlock(codec, checkID, blocks[0]) + EncodeBlocks(codec, limits, checkID, blocks[1..])
  }

  function RecordsOf(codec: Codec, checkID: byte, blocks: seq<BlockSpec>): (r: seq<Record>)
    ensures |r| == |blocks|
  {
    if |blocks| == 0 then [] else [RecordOf(codec, checkID, blocks[0])] + RecordsOf(codec, checkID, blocks[1..])
  }

  function TextsOf(blocks: seq<BlockSpec>): seq<byte> {
    if |blocks| == 0 then [] else blocks[0].text + TextsOf(blocks[1..])
  }

  /** Honest blocks, one after another: their texts, and then what follows,
      with their records noted. */
  lemma {:induction false} BlocksRead(codec: Codec, limits: Limits, src: seq<byte>, pos: nat, stream: Stream, blocks: seq<BlockSpec>)
    requires 0 < pos && AllHonest(codec, limits, blocks)
    requires At(src, pos, EncodeBlocks(codec, limits, stream.checkID, blocks))
    ensures Noted(stream, RecordsOf(codec, stream.checkID, blocks)).checkID == stream.checkID
    ensures var next := pos + |EncodeBlocks(codec, limits, stream.checkID, blocks)|;
            var stream' := Noted(stream, RecordsOf(codec, stream.checkID, blocks));
            var all, rest := Rest(codec, limits, src, pos, Some(stream)), Rest(codec, limits, src, next, Some(stream'));
            next <= |src| && Yields(all, TextsOf(blocks), rest)
    decreases |blocks|
  {
    hide *;
    if |blocks| == 0 {
      NoBlocksRead(codec, limits, src, pos, stream, blocks);
    } else {
      var id, b, rest, record := stream.checkID, blocks[0], blocks[1..], RecordOf(codec, stream.checkID, blocks[0]);
      BlocksUnfold(codec, limits, id, blocks);
      var first, others := EncodeBlock(codec, id, b), EncodeBlocks(codec, limits, id, rest);
      AtParts(src, pos, first, others);
      BlockRead(codec, limits, src, pos, stream, b);
      NotedSameCheck(stream, [record]);
      NotedSameCheck(stream, RecordsOf(codec, id, blocks));
      BlocksRead(codec, limits, src, pos + |first|, Noted(stream, [record]), rest);
      NotedBoth(stream, [record], RecordsOf(codec, id, rest));
      YieldsBoth(Rest(codec, limits, src, pos, Some(stream)), b.text,
                 Rest(codec, limits, src, pos + |first|, Some(Noted(stream, [record]))), TextsOf(rest),
                 Rest(codec, limits, src, pos + |first| + |others|,
                           Some(Noted(Noted(stream, [record]), RecordsOf(codec, id, rest)))));
    }
  }

  lemma NoBlocksRead(codec: Codec, limits: Limits, src: seq<byte>, pos: nat, stream: Stream, blocks: seq<BlockSpec>)
    requires 0 < pos && |blocks| == 0 && AllHonest(codec, limits, blocks)
    requires At(src, pos, EncodeBlocks(codec, limits, stream.checkID, blocks))
    ensures |EncodeBlocks(codec, limits, stream.checkID, blocks)| == 0 && pos <= |src|
    ensures Noted(stream, RecordsOf(codec, stream.checkID, blocks)) == stream
    ensures Yields(Rest(codec, limits, src, pos, Some(stream)), TextsOf(blocks),
                   Rest(codec, limits, src, pos, Some(stream)))
  {
    hide Remaining;
    NotedBoth(stream, [], []);
    YieldsNothing(Rest(codec, limits, src, pos, Some(stream)));
  }

  lemma NotedSameCheck(stream: Stream, records: seq<Record>)
    ensures Noted(stream, records).checkID == stream.checkID
  {
  }

  lemma BlocksUnfold(codec: Codec, limits: Limits, checkID: byte, blocks: seq<BlockSpec>)
    requires AllHonest(codec, limits, blocks) && |blocks| > 0
    ensures AllHonest(codec, limits, blocks[1..]) && Honest(codec, limits, blocks[0]) && Sized(blocks[0])
    ensures EncodeBlocks(codec, limits, checkID, blocks)
            == EncodeBlock(codec, checkID, blocks[0]) + EncodeBlocks(codec, limits, checkID, blocks[1..])
    ensures RecordsOf(codec, checkID, blocks) == [RecordOf(codec, checkID, blocks[0])] + RecordsOf(codec, checkID, blocks[1..])
    ensures TextsOf(blocks) == blocks[0].text + TextsOf(blocks[1..])
  {
    hide EncodeBlock, RecordOf;
  }

  // ---------------------------------------------------------------------
  // The index and the footer.

  predicate Fits64(records: seq<Record>) {
    forall i :: 0 <= i < |records| ==>
      records[i].unpadded < 0x1_0000_0000_0000_0000 && records[i].textSize < 0x1_0000_0000_0000_0000
  }

  function EncodeRecord(record: Record): seq<byte> {
    EncodeVarint(record.unpadded) + EncodeVarint(record.textSize)
  }

  function EncodeRecords(records: seq<Record>): seq<byte> {
    if |records| == 0 then [] else EncodeRecords(records[..|records| - 1]) + EncodeRecord(records[|records| - 1])
  }

  lemma {:induction false} RecordsRead(src: seq<byte>, pos: nat, records: seq<Record>)
    requires pos <= |src| && Fits64(records) && At(src, pos, EncodeRecords(records))
    ensures var r := Records(src, pos, |records|);
            r.Ok? && r.value == records && r.next == pos + |EncodeRecords(records)|
  {
    if |records| > 0 {
      var n := |records| - 1;
      assert records == records[..n] + [records[n]];
      AtParts(src, pos, EncodeRecords(records[..n]), EncodeRecord(records[n]));
      hide At, EncodeRecord, Varint;
      RecordsRead(src, pos, records[..n]);
      RecordRead(src, pos, n, pos + |EncodeRecords(records[..n])|, records[n]);
    }
  }

  lemma RecordRead(src: seq<byte>, start: nat, n: nat, pos: nat, record: Record)
    requires start <= |src| && Records(src, start, n).Ok? && Records(src, start, n).next == pos <= |src|
    requires record.unpadded < 0x1_0000_0000_0000_0000 && record.textSize < 0x1_0000_0000_0000_0000
    requires At(src, pos, EncodeRecord(record))
    ensures var r, before := Records(src, start, n + 1), Records(src, start, n);
            r.Ok? && r.value == before.value + [record] && r.next == pos + |EncodeRecord(record)|
  {
    hide *;
    var a, b := EncodeVarint(record.unpadded), EncodeVarint(record.textSize);
    RecordParts(record);
    AtParts(src, pos, a, b);
    VarintRoundTrip(src, pos, record.unpadded);
    VarintRoundTrip(src, pos + |a|, record.textSize);
    RecordAfter(src, start, n);
  }

  lemma RecordParts(record: Record)
    ensures EncodeRecord(record) == EncodeVarint(record.unpadded) + EncodeVarint(record.textSize)
  {
  }

  /** How one more record is read. */
  lemma RecordAfter(src: seq<byte>, start: nat, n: nat)
    requires start <= |src| && Records(src, start, n).Ok?
    requires Varint(src, Records(src, start, n).next, 0).Ok?
    requires Varint(src, Varint(src, Records(src, start, n).next, 0).next, 0).Ok?
    ensures var before := Records(src, start, n);
            var u := Varint(src, before.next, 0);
            var t := Varint(src, u.next, 0);
            Records(src, start, n + 1) == Ok(before.value + [Record(u.value, t.value)], t.next)
  {
    hide Varint;
  }

  /** An index's list: how many records, and the records. */
  function Listed(count: nat, records: seq<Record>): seq<byte> {
    EncodeVarint(count) + EncodeRecords(records)
  }

  /** What follows the list: padding, and the CRC32 of all of it. */
  function ListEnd(codec: Codec, list: seq<byte>): seq<byte> {
    var pad := Zeros(PadLen(|list| + 1));
    pad + Fixed(codec.crc([0] + (list + pad)), 4)
  }

  function IndexSize(list: seq<byte>): (n: nat)
    ensures n % 4 == 0 && n >= 8
  {
    1 + |list| + PadLen(|list| + 1) + 4
  }

  function FooterFields(indexSize: nat, checkID: byte): (f: seq<byte>)
    requires indexSize >= 8
    ensures |f| == 6 && f[4] == 0 && f[5] == checkID
  {
    Fixed(indexSize / 4 - 1, 4) + [0, checkID]
  }

  function EncodeFooter(codec: Codec, indexSize: nat, checkID: byte): (f: seq<byte>)
    requires indexSize >= 8
    ensures |f| == STREAM_FOOTER_LEN
  {
    Fixed(codec.crc(FooterFields(indexSize, checkID)), 4) + FooterFields(indexSize, checkID) + [0x59, 0x5A]
  }

  lemma FooterRead(codec: Codec, src: seq<byte>, pos: nat, indexSize: nat, checkID: byte)
    requires 8 <= indexSize <= 4 * 0x1_0000_0000 && indexSize % 4 == 0
    requires At(src, pos, EncodeFooter(codec, indexSize, checkID))
    ensures Footer(codec, src, pos, indexSize, checkID) == Ok((), pos + STREAM_FOOTER_LEN)
  {
    var f, fields := EncodeFooter(codec, indexSize, checkID), FooterFields(indexSize, checkID);
    assert f[..4] == Fixed(codec.crc(fields), 4) && f[4..10] == fields && f[10..] == FOOTER_MAGIC;
    assert f[4..8] == fields[..4] == Fixed(indexSize / 4 - 1, 4);
    assert f[8] == fields[4] && f[9] == fields[5];
    Fixed32(codec.crc(fields));
    Fixed32(indexSize / 4 - 1);
    hide LittleEndian, Fixed, EncodeFooter, FooterFields;
  }

  /** The end of a list, and the footer after it. */
  lemma ListEndRead(codec: Codec, src: seq<byte>, pos: nat, list: seq<byte>, checkID: byte)
    requires 0 < pos && IndexSize(list) <= 4 * 0x1_0000_0000
    requires At(src, pos, list) && At(src, pos + |list|, ListEnd(codec, list) + EncodeFooter(codec, IndexSize(list), checkID))
    ensures IndexEnd(codec, src, pos, pos + |list|, checkID)
            == Ok((), pos + |list| + |ListEnd(codec, list)| + STREAM_FOOTER_LEN)
  {
    hide *;
    var at, pad := pos + |list|, Zeros(PadLen(|list| + 1));
    ListEndParts(codec, list);
    var crc := Fixed(codec.crc([0] + (list + pad)), 4);
    AtParts(src, at, ListEnd(codec, list), EncodeFooter(codec, IndexSize(list), checkID));
    AtParts(src, at, pad, crc);
    FooterRead(codec, src, at + |pad| + 4, IndexSize(list), checkID);
    ListEndIs(codec, src, pos, list, checkID);
  }

  lemma ListEndParts(codec: Codec, list: seq<byte>)
    ensures var pad := Zeros(PadLen(|list| + 1));
            && ListEnd(codec, list) == pad + Fixed(codec.crc([0] + (list + pad)), 4)
            && |ListEnd(codec, list)| == |pad| + 4 && IndexSize(list) == 1 + |list| + |pad| + 4
            && IndexSize(list) % 4 == 0 && IndexSize(list) >= 8
  {
    hide Fixed;
  }

  /** Padding and a CRC32 where they belong, and a footer that agrees. */
  lemma ListEndIs(codec: Codec, src: seq<byte>, pos: nat, list: seq<byte>, checkID: byte)
    requires 0 < pos
    requires var pad := Zeros(PadLen(|list| + 1));
             && At(src, pos, list) && At(src, pos + |list|, pad)
             && At(src, pos + |list| + |pad|, Fixed(codec.crc([0] + (list + pad)), 4))
             && Footer(codec, src, pos + |list| + |pad| + 4, IndexSize(list), checkID)
                == Ok((), pos + |list| + |pad| + 4 + STREAM_FOOTER_LEN)
    ensures IndexEnd(codec, src, pos, pos + |list|, checkID)
            == Ok((), pos + |list| + |Zeros(PadLen(|list| + 1))| + 4 + STREAM_FOOTER_LEN)
  {
    hide Fixed, LittleEndian, Footer;
    var at, pad := pos + |list|, Zeros(PadLen(|list| + 1));
    var crc := codec.crc([0] + (list + pad));
    Fixed32(crc);
    assert src[pos..at + |pad|] == src[pos..at] + src[at..at + |pad|] == list + pad;
  }

  /** The index of a stream's own blocks, and its footer, end the stream. */
  lemma StreamEnds(codec: Codec, src: seq<byte>, pos: nat, stream: Stream)
    requires 0 < pos <= |src| && Fits64(stream.records) && |stream.records| < 0x1_0000_0000_0000_0000
    requires var list := Listed(|stream.records|, stream.records);
             && IndexSize(list) <= 4 * 0x1_0000_0000
             && At(src, pos, list + (ListEnd(codec, list) + EncodeFooter(codec, IndexSize(list), stream.checkID)))
    ensures var list := Listed(|stream.records|, stream.records);
            EndStream(codec, src, pos, stream) == Ok((), pos + |list| + |ListEnd(codec, list)| + STREAM_FOOTER_LEN)
  {
    hide *;
    var list := Listed(|stream.records|, stream.records);
    AtParts(src, pos, list, ListEnd(codec, list) + EncodeFooter(codec, IndexSize(list), stream.checkID));
    ListEndRead(codec, src, pos, list, stream.checkID);
    ListRead(src, pos, |stream.records|, stream.records);
    ListEndsStream(codec, src, pos, stream, pos + |list|);
  }

  /** The list of a stream's own records, and what ends it. */
  lemma ListEndsStream(codec: Codec, src: seq<byte>, pos: nat, stream: Stream, at: nat)
    requires 0 < pos <= |src| && pos <= at <= |src|
    requires var n := Varint(src, pos, 0);
             && n.Ok? && n.value == |stream.records|
             && var r := Records(src, n.next, |stream.records|);
             r.Ok? && r.value == stream.records && r.next == at
    ensures EndStream(codec, src, pos, stream) == IndexEnd(codec, src, pos, at, stream.checkID)
  {
    hide Varint, Records, IndexEnd;
  }

  lemma ListRead(src: seq<byte>, pos: nat, count: nat, records: seq<Record>)
    requires pos <= |src| && Fits64(records) && count < 0x1_0000_0000_0000_0000 && At(src, pos, Listed(count, records))
    ensures var n := Varint(src, pos, 0);
            && n.Ok? && n.value == count
            && var r := Records(src, n.next, |records|);
            r.Ok? && r.value == records && r.next == pos + |Listed(count, records)|
  {
    hide *;
    var a, b := EncodeVarint(count), EncodeRecords(records);
    ListedParts(count, records);
    AtParts(src, pos, a, b);
    VarintRoundTrip(src, pos, count);
    AtFits(src, pos, a);
    RecordsRead(src, pos + |a|, records);
  }

  lemma ListedParts(count: nat, records: seq<Record>)
    ensures Listed(count, records) == EncodeVarint(count) + EncodeRecords(records)
  {
  }

  /** A list whose count is not the number of the stream's blocks, or whose
      records are not theirs, is refused, whatever follows it. */
  lemma WrongListRefused(codec: Codec, src: seq<byte>, pos: nat, stream: Stream, count: nat, records: seq<Record>)
    requires 0 < pos <= |src| && Fits64(records) && count < 0x1_0000_0000_0000_0000
    requires At(src, pos, Listed(count, records))
    requires count != |stream.records| || (|records| == count && records != stream.records)
    ensures EndStream(codec, src, pos, stream) == Bad(Malformed)
  {
    ListRead(src, pos, count, records);
    hide IndexEnd, Listed, Varint, Records;
  }

  // ---------------------------------------------------------------------
  // Files.

  /** A stream of a file, and the padding after it, in fours. */
  datatype StreamSpec = StreamSpec(checkID: byte, blocks: seq<BlockSpec>, padding: nat)

  /** The checks a writer may use: none, CRC32, CRC64, SHA-256. */
  predicate HasCheck(id: byte) {
    id == 0 || id == 1 || id == 4 || id == 10
  }

  ghost predicate Good(codec: Codec, limits: Limits, s: StreamSpec) {
    var records := RecordsOf(codec, s.checkID, s.blocks);
    && HasCheck(s.checkID) && AllHonest(codec, limits, s.blocks)
    && Fits64(records) && |records| < 0x1_0000_0000_0000_0000
    && IndexSize(Listed(|records|, records)) <= 4 * 0x1_0000_0000
  }

  function StreamHead(codec: Codec, checkID: byte): (h: seq<byte>)
    ensures |h| == STREAM_HEADER_LEN
  {
    [0xFD, 0x37, 0x7A, 0x58, 0x5A, 0x00] + [0, checkID] + Fixed(codec.crc([0, checkID]), 4)
  }

  /** What ends a stream: the index's indicator, its list, and the footer. */
  function StreamTail(codec: Codec, stream: Stream): seq<byte> {
    var list := Listed(|stream.records|, stream.records);
    [0] + (list + (ListEnd(codec, list) + EncodeFooter(codec, IndexSize(list), stream.checkID)))
  }

  ghost function StreamOf(codec: Codec, s: StreamSpec): Stream {
    Stream(s.checkID, RecordsOf(codec, s.checkID, s.blocks))
  }

  ghost function EncodeStream(codec: Codec, limits: Limits, s: StreamSpec): seq<byte>
    requires Good(codec, limits, s)
  {
    StreamHead(codec, s.checkID)
    + (EncodeBlocks(codec, limits, s.checkID, s.blocks) + (StreamTail(codec, StreamOf(codec, s)) + Zeros(4 * s.padding)))
  }

  lemma HeadRead(codec: Codec, limits: Limits, src: seq<byte>, pos: nat, checkID: byte)
    requires HasCheck(checkID) && At(src, pos, StreamHead(codec, checkID))
    ensures StreamHeader(codec, src, pos) == Ok(checkID, pos + STREAM_HEADER_LEN)
    ensures pos < pos + STREAM_HEADER_LEN <= |src|
    ensures Rest(codec, limits, src, pos, None)
            == Rest(codec, limits, src, pos + STREAM_HEADER_LEN, Some(Stream(checkID, [])))
  {
    var h := StreamHead(codec, checkID);
    assert h[..6] == HEADER_MAGIC && h[6..8] == [0, checkID] && h[8..] == Fixed(codec.crc([0, checkID]), 4);
    Fixed32(codec.crc([0, checkID]));
    assert h[6] == [0, checkID][0] && h[7] == [0, checkID][1];
    assert StreamHeader(codec, src, pos) == Ok(checkID, pos + STREAM_HEADER_LEN);
    assert src[pos..pos + 4][0] == src[pos..pos + |h|][0] == h[0] == HEADER_MAGIC[0];
    assert NextStream(codec, src, pos) == Begun(checkID, pos + STREAM_HEADER_LEN);
    hide StreamHeader, NextStream, OpenBlock, FinishBlock, Decode, EndStream, LittleEndian, Fixed, StreamHead;
    SameNextSameRest(codec, limits, src, pos, None, pos + STREAM_HEADER_LEN, Some(Stream(checkID, [])));
  }

  /** The text left depends only on the next block. */
  lemma SameNextSameRest(codec: Codec, limits: Limits, src: seq<byte>, a: nat, s: Option<Stream>, b: nat, t: Option<Stream>)
    requires a <= |src| && b <= |src| && (s.Some? ==> 0 < a) && (t.Some? ==> 0 < b)
    requires Ahead(codec, limits, src, a, s) == Ahead(codec, limits, src, b, t)
    ensures Rest(codec, limits, src, a, s) == Rest(codec, limits, src, b, t)
  {
    hide NextBlock, FinishBlock, Decode;
  }

  lemma TailRead(codec: Codec, limits: Limits, src: seq<byte>, pos: nat, stream: Stream)
    requires 0 < pos && Fits64(stream.records) && |stream.records| < 0x1_0000_0000_0000_0000
    requires IndexSize(Listed(|stream.records|, stream.records)) <= 4 * 0x1_0000_0000
    requires At(src, pos, StreamTail(codec, stream))
    ensures pos + |StreamTail(codec, stream)| <= |src|
    ensures Rest(codec, limits, src, pos, Some(stream))
            == Rest(codec, limits, src, pos + |StreamTail(codec, stream)|, None)
  {
    hide *;
    var list := Listed(|stream.records|, stream.records);
    var rest := list + (ListEnd(codec, list) + EncodeFooter(codec, IndexSize(list), stream.checkID));
    var next := pos + |StreamTail(codec, stream)|;
    TailParts(codec, stream);
    AtParts(src, pos, [0], rest);
    AtFits(src, pos, StreamTail(codec, stream));
    AtFits(src, pos, [0]);
    StreamEnds(codec, src, pos + 1, stream);
    IndicatorEnds(codec, limits, src, pos, stream, next);
    SameNextSameRest(codec, limits, src, pos, Some(stream), next, None);
  }

  lemma TailParts(codec: Codec, stream: Stream)
    ensures var list := Listed(|stream.records|, stream.records);
            && StreamTail(codec, stream)
               == [0] + (list + (ListEnd(codec, list) + EncodeFooter(codec, IndexSize(list), stream.checkID)))
            && |StreamTail(codec, stream)| == 1 + |list| + |ListEnd(codec, list)| + STREAM_FOOTER_LEN
  {
    hide Listed, ListEnd;
  }

  /** A zero byte and an index that ends well lead on to what follows. */
  lemma IndicatorEnds(codec: Codec, limits: Limits, src: seq<byte>, pos: nat, stream: Stream, next: nat)
    requires 0 < pos < |src| && At(src, pos, [0]) && EndStream(codec, src, pos + 1, stream) == Ok((), next)
    ensures Ahead(codec, limits, src, pos, Some(stream)) == Ahead(codec, limits, src, next, None)
  {
    assert src[pos] == src[pos..pos + 1][0] == 0;
    hide EndStream, OpenBlock, NextStream;
  }

  lemma {:induction false} PaddingRead(codec: Codec, limits: Limits, src: seq<byte>, pos: nat, padding: nat)
    requires At(src, pos, Zeros(4 * padding))
    ensures pos + 4 * padding <= |src|
    ensures Rest(codec, limits, src, pos, None) == Rest(codec, limits, src, pos + 4 * padding, None)
    decreases padding
  {
    if padding > 0 {
      hide *;
      FourZeros(codec, limits, src, pos, padding);
      PaddingRead(codec, limits, src, pos + 4, padding - 1);
    } else {
      hide Remaining;
    }
  }

  lemma FourZeros(codec: Codec, limits: Limits, src: seq<byte>, pos: nat, padding: nat)
    requires padding > 0 && At(src, pos, Zeros(4 * padding))
    ensures pos + 4 <= |src| && At(src, pos + 4, Zeros(4 * (padding - 1)))
    ensures Rest(codec, limits, src, pos, None) == Rest(codec, limits, src, pos + 4, None)
  {
    assert Zeros(4 * padding) == Zeros(4) + Zeros(4 * (padding - 1));
    AtParts(src, pos, Zeros(4), Zeros(4 * (padding - 1)));
    assert AllZero(src[pos..pos + 4]) && NextStream(codec, src, pos) == NextStream(codec, src, pos + 4);
    hide NextStream, Remaining, At, Zeros;
    SameNextSameRest(codec, limits, src, pos, None, pos + 4, None);
  }

  /** A stream after its header: its texts, and then what follows its
      padding. */
  lemma StreamBodyRead(codec: Codec, limits: Limits, src: seq<byte>, pos: nat, s: StreamSpec)
    requires 0 < pos && Good(codec, limits, s)
    requires At(src, pos, EncodeBlocks(codec, limits, s.checkID, s.blocks) + (StreamTail(codec, StreamOf(codec, s)) + Zeros(4 * s.padding)))
    ensures var next := pos + |EncodeBlocks(codec, limits, s.checkID, s.blocks)| + |StreamTail(codec, StreamOf(codec, s))| + 4 * s.padding;
            && next <= |src|
            && Yields(Rest(codec, limits, src, pos, Some(Stream(s.checkID, []))), TextsOf(s.blocks),
                      Rest(codec, limits, src, next, None))
  {
    hide *;
    GoodParts(codec, limits, s);
    var blocks, tail := EncodeBlocks(codec, limits, s.checkID, s.blocks), StreamTail(codec, StreamOf(codec, s));
    var stream, done := Stream(s.checkID, []), StreamOf(codec, s);
    NotedFirst(s.checkID, done.records);
    AtParts(src, pos, blocks, tail + Zeros(4 * s.padding));
    AtParts(src, pos + |blocks|, tail, Zeros(4 * s.padding));
    BlocksRead(codec, limits, src, pos, stream, s.blocks);
    TailRead(codec, limits, src, pos + |blocks|, done);
    PaddingRead(codec, limits, src, pos + |blocks| + |tail|, s.padding);
  }

  lemma GoodParts(codec: Codec, limits: Limits, s: StreamSpec)
    requires Good(codec, limits, s)
    ensures HasCheck(s.checkID) && AllHonest(codec, limits, s.blocks)
    ensures var stream := StreamOf(codec, s);
            && stream == Stream(s.checkID, RecordsOf(codec, s.checkID, s.blocks))
            && Fits64(stream.records) && |stream.records| < 0x1_0000_0000_0000_0000
            && IndexSize(Listed(|stream.records|, stream.records)) <= 4 * 0x1_0000_0000
  {
  }

  ghost predicate AllGood(codec: Codec, limits: Limits, file: seq<StreamSpec>) {
    forall i :: 0 <= i < |file| ==> Good(codec, limits, file[i])
  }

  ghost function EncodeFile(codec: Codec, limits: Limits, file: seq<StreamSpec>): seq<byte>
    requires AllGood(codec, limits, file)
  {
    if |file| == 0 then []
    else
      assert Good(codec, limits, file[0]);
      EncodeStream(codec, limits, file[0]) + EncodeFile(codec, limits, file[1..])
  }

  function FileText(file: seq<StreamSpec>): seq<byte> {
    if |file| == 0 then [] else TextsOf(file[0].blocks) + FileText(file[1..])
  }

  /** One stream of a file, from its header on. */
  lemma StreamRead(codec: Codec, limits: Limits, src: seq<byte>, pos: nat, s: StreamSpec)
    requires Good(codec, limits, s) && At(src, pos, EncodeStream(codec, limits, s))
    ensures var next := pos + |EncodeStream(codec, limits, s)|;
            next <= |src| && Yields(Rest(codec, limits, src, pos, None), TextsOf(s.blocks), Rest(codec, limits, src, next, None))
    ensures StreamHeader(codec, src, pos) == Ok(s.checkID, pos + STREAM_HEADER_LEN) && pos + STREAM_HEADER_LEN <= |src|
    ensures Rest(codec, limits, src, pos, None)
            == Rest(codec, limits, src, pos + STREAM_HEADER_LEN, Some(Stream(s.checkID, [])))
  {
    hide *;
    GoodParts(codec, limits, s);
    StreamParts(codec, limits, s);
    var body := EncodeBlocks(codec, limits, s.checkID, s.blocks) + (StreamTail(codec, StreamOf(codec, s)) + Zeros(4 * s.padding));
    AtParts(src, pos, StreamHead(codec, s.checkID), body);
    HeadRead(codec, limits, src, pos, s.checkID);
    StreamBodyRead(codec, limits, src, pos + STREAM_HEADER_LEN, s);
  }

  lemma StreamParts(codec: Codec, limits: Limits, s: StreamSpec)
    requires Good(codec, limits, s)
    ensures EncodeStream(codec, limits, s)
            == StreamHead(codec, s.checkID)
               + (EncodeBlocks(codec, limits, s.checkID, s.blocks) + (StreamTail(codec, StreamOf(codec, s)) + Zeros(4 * s.padding)))
  {
    hide StreamHead, EncodeBlocks, StreamTail, Zeros, Good;
  }

  /** The streams of a file from a position on: their texts, and then what
      follows them. */
  lemma {:induction false} StreamsRead(codec: Codec, limits: Limits, src: seq<byte>, pos: nat, file: seq<StreamSpec>)
    requires AllGood(codec, limits, file) && pos <= |src| && At(src, pos, EncodeFile(codec, limits, file))
    ensures var next := pos + |EncodeFile(codec, limits, file)|;
            && next <= |src|
            && Yields(Rest(codec, limits, src, pos, None), FileText(file), Rest(codec, limits, src, next, None))
    decreases |file|
  {
    hide *;
    if |file| == 0 {
      NoStreamsRead(codec, limits, src, pos, file);
    } else {
      FileUnfold(codec, limits, file);
      var first, rest := EncodeStream(codec, limits, file[0]), EncodeFile(codec, limits, file[1..]);
      var next := pos + |first| + |rest|;
      AtParts(src, pos, first, rest);
      StreamRead(codec, limits, src, pos, file[0]);
      StreamsRead(codec, limits, src, pos + |first|, file[1..]);
      YieldsBoth(Rest(codec, limits, src, pos, None), TextsOf(file[0].blocks),
                 Rest(codec, limits, src, pos + |first|, None), FileText(file[1..]),
                 Rest(codec, limits, src, next, None));
    }
  }

  lemma NoStreamsRead(codec: Codec, limits: Limits, src: seq<byte>, pos: nat, file: seq<StreamSpec>)
    requires |file| == 0 && AllGood(codec, limits, file) && pos <= |src|
    ensures |EncodeFile(codec, limits, file)| == 0
    ensures Yields(Rest(codec, limits, src, pos, None), FileText(file), Rest(codec, limits, src, pos, None))
  {
    hide Remaining, Good;
  }

  lemma EndRead(codec: Codec, limits: Limits, src: seq<byte>)
    ensures Rest(codec, limits, src, |src|, None) == Outcome([], Eof)
  {
  }

  lemma FileUnfold(codec: Codec, limits: Limits, file: seq<StreamSpec>)
    requires AllGood(codec, limits, file) && |file| > 0
    ensures AllGood(codec, limits, file[1..]) && Good(codec, limits, file[0])
    ensures EncodeFile(codec, limits, file) == EncodeStream(codec, limits, file[0]) + EncodeFile(codec, limits, file[1..])
    ensures FileText(file) == TextsOf(file[0].blocks) + FileText(file[1..])
  {
    hide EncodeStream, TextsOf, Good;
  }

  /** Any file a writer makes, of one stream or more, each with any known
      check, blocks with or without their sizes, and padding, is read back as
      the texts of its blocks and then its end. */
  lemma FileRoundTrip(codec: Codec, limits: Limits, file: seq<StreamSpec>)
    requires |file| > 0 && AllGood(codec, limits, file)
    ensures var read := TextOf(codec, limits, EncodeFile(codec, limits, file));
            read.text == FileText(file) && read.ending == Eof
  {
    hide *;
    var src := EncodeFile(codec, limits, file);
    FileUnfold(codec, limits, file);
    AtAll(src);
    EndRead(codec, limits, src);
    StreamsRead(codec, limits, src, 0, file);
    AtParts(src, 0, EncodeStream(codec, limits, file[0]), EncodeFile(codec, limits, file[1..]));
    StreamRead(codec, limits, src, 0, file[0]);
    FirstStream(codec, limits, src, file[0].checkID, FileText(file), Eof);
  }

  lemma AtAll(src: seq<byte>)
    ensures At(src, 0, src)
  {
  }

  lemma FirstStream(codec: Codec, limits: Limits, src: seq<byte>, checkID: byte, text: seq<byte>, ending: Ending)
    requires StreamHeader(codec, src, 0) == Ok(checkID, STREAM_HEADER_LEN) && STREAM_HEADER_LEN <= |src|
    requires Rest(codec, limits, src, 0, None)
             == Rest(codec, limits, src, STREAM_HEADER_LEN, Some(Stream(checkID, [])))
    requires Yields(Rest(codec, limits, src, 0, None), text, Outcome([], ending))
    ensures TextOf(codec, limits, src).text == text && TextOf(codec, limits, src).ending == ending
  {
    hide Remaining, StreamHeader;
    assert text + [] == text;
  }

  /** A stream up to its index's list. */
  ghost function EncodeUpTo(codec: Codec, limits: Limits, checkID: byte, blocks: seq<BlockSpec>, count: nat,
                            records: seq<Record>): seq<byte>
    requires AllHonest(codec, limits, blocks)
  {
    StreamHead(codec, checkID) + (EncodeBlocks(codec, limits, checkID, blocks) + ([0] + Listed(count, records)))
  }

  /** A stream, wherever it stands, whose index lists another count than its
      blocks, or other records: its blocks' texts, and then a refusal. */
  lemma WrongStreamRefused(codec: Codec, limits: Limits, src: seq<byte>, pos: nat, checkID: byte, blocks: seq<BlockSpec>,
                           count: nat, records: seq<Record>)
    requires HasCheck(checkID) && AllHonest(codec, limits, blocks) && pos <= |src|
    requires Fits64(records) && count < 0x1_0000_0000_0000_0000
    requires At(src, pos, EncodeUpTo(codec, limits, checkID, blocks, count, records))
    requires count != |blocks| || (|records| == count && records != RecordsOf(codec, checkID, blocks))
    ensures Yields(Rest(codec, limits, src, pos, None), TextsOf(blocks), Outcome([], Refused(Malformed)))
    ensures StreamHeader(codec, src, pos) == Ok(checkID, pos + STREAM_HEADER_LEN) && pos + STREAM_HEADER_LEN <= |src|
    ensures Rest(codec, limits, src, pos, None)
            == Rest(codec, limits, src, pos + STREAM_HEADER_LEN, Some(Stream(checkID, [])))
  {
    hide *;
    var encoded, list := EncodeBlocks(codec, limits, checkID, blocks), [0] + Listed(count, records);
    var begin, done := pos + STREAM_HEADER_LEN, Stream(checkID, RecordsOf(codec, checkID, blocks));
    var at := begin + |encoded|;
    UpToParts(codec, limits, checkID, blocks, count, records);
    AtParts(src, pos, StreamHead(codec, checkID), encoded + list);
    AtParts(src, begin, encoded, list);
    AtParts(src, at, [0], Listed(count, records));
    HeadRead(codec, limits, src, pos, checkID);
    BlocksRead(codec, limits, src, begin, Stream(checkID, []), blocks);
    NotedFirst(checkID, done.records);
    AtFits(src, at, [0]);
    WrongListRefused(codec, src, at + 1, done, count, records);
    IndicatorStops(codec, limits, src, at, done);
  }

  lemma UpToParts(codec: Codec, limits: Limits, checkID: byte, blocks: seq<BlockSpec>, count: nat, records: seq<Record>)
    requires AllHonest(codec, limits, blocks)
    ensures EncodeUpTo(codec, limits, checkID, blocks, count, records)
            == StreamHead(codec, checkID) + (EncodeBlocks(codec, limits, checkID, blocks) + ([0] + Listed(count, records)))
  {
    hide StreamHead, EncodeBlocks, Listed;
  }

  lemma IndicatorStops(codec: Codec, limits: Limits, src: seq<byte>, pos: nat, stream: Stream)
    requires 0 < pos < |src| && At(src, pos, [0]) && EndStream(codec, src, pos + 1, stream) == Bad(Malformed)
    ensures Rest(codec, limits, src, pos, Some(stream)) == Outcome([], Refused(Malformed))
  {
    assert src[pos] == src[pos..pos + 1][0] == 0;
    hide EndStream, OpenBlock, FinishBlock, Decode, NextStream;
  }

  /** A file whose first streams are good, none or any number of them, and
      whose next one's index lists another count than its blocks, or other
      records: refused once the texts of all its blocks up to there were
      given, whatever stands after the list. */
  lemma WrongIndexRefused(codec: Codec, limits: Limits, src: seq<byte>, file: seq<StreamSpec>, checkID: byte,
                          blocks: seq<BlockSpec>, count: nat, records: seq<Record>)
    requires AllGood(codec, limits, file) && HasCheck(checkID) && AllHonest(codec, limits, blocks)
    requires Fits64(records) && count < 0x1_0000_0000_0000_0000
    requires At(src, 0, EncodeFile(codec, limits, file) + EncodeUpTo(codec, limits, checkID, blocks, count, records))
    requires count != |blocks| || (|records| == count && records != RecordsOf(codec, checkID, blocks))
    ensures TextOf(codec, limits, src).text == FileText(file) + TextsOf(blocks)
    ensures TextOf(codec, limits, src).ending == Refused(Malformed)
  {
    hide *;
    var good, bad := EncodeFile(codec, limits, file), EncodeUpTo(codec, limits, checkID, blocks, count, records);
    AtParts(src, 0, good, bad);
    StreamsRead(codec, limits, src, 0, file);
    WrongStreamRefused(codec, limits, src, |good|, checkID, blocks, count, records);
    YieldsBoth(Rest(codec, limits, src, 0, None), FileText(file), Rest(codec, limits, src, |good|, None),
               TextsOf(blocks), Outcome([], Refused(Malformed)));
    if |file| == 0 {
      NoStreamsRead(codec, limits, src, 0, file);
      FirstStream(codec, limits, src, checkID, FileText(file) + TextsOf(blocks), Refused(Malformed));
    } else {
      FileUnfold(codec, limits, file);
      AtParts(src, 0, EncodeStream(codec, limits, file[0]), EncodeFile(codec, limits, file[1..]));
      StreamRead(codec, limits, src, 0, file[0]);
      FirstStream(codec, limits, src, file[0].checkID, FileText(file) + TextsOf(blocks), Refused(Malformed));
    }
  }
}
