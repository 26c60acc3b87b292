/** What the reader refuses: each part of a file that is checked passes only
    as the writer of that file would have written it, and what is before a
    part that is not as it should be is given. */
module XzRefusals {
  import opened Common
  import opened XzFormat
  import opened XzRoundTrip

  // ---------------------------------------------------------------------
  // The parts, each exactly.

  lemma {:induction false} FixedOfBytes(b: seq<byte>)
    ensures Fixed(LittleEndian(b), |b|) == b
  {
    if |b| > 0 {
      var rest := LittleEndian(b[1..]);
      FixedOfBytes(b[1..]);
      LowByte(b[0], rest);
      assert [b[0]] + b[1..] == b;
    }
  }

  lemma LowByte(b: byte, rest: nat)
    ensures (b + 256 * rest) % 256 == b && (b + 256 * rest) / 256 == rest
  {
  }

  lemma Fixed4(b: seq<byte>, v: nat)
    requires |b| == 4 && v < 0x1_0000_0000
    ensures LittleEndian(b) == v <==> b == Fixed(v, 4)
  {
    FixedOfBytes(b);
    Fixed32(v);
    hide LittleEndian, Fixed;
  }

  /** Twelve bytes are a stream's header exactly when they are what a writer
      writes for one of the four checks. */
  lemma HeadIsExact(codec: Codec, src: seq<byte>, pos: nat)
    requires pos + 12 <= |src|
    ensures var h, r := src[pos..pos + 12], StreamHeader(codec, src, pos);
            if HasCheck(h[7]) && h == StreamHead(codec, h[7]) then r == Ok(h[7], pos + 12) else r == Bad(Malformed)
  {
    var h := src[pos..pos + 12];
    assert h[6..8] == [h[6], h[7]];
    var crc := codec.crc([h[6], h[7]]);
    Fixed4(h[8..], crc);
    var head := StreamHead(codec, h[7]);
    assert head[..6] == [0xFD, 0x37, 0x7A, 0x58, 0x5A, 0x00] && head[6..8] == [0, h[7]];
    assert head[8..] == Fixed(codec.crc([0, h[7]]), 4);
    assert h == h[..6] + h[6..8] + h[8..] && head == head[..6] + head[6..8] + head[8..];
    assert [h[6], h[7]][0] == h[6] && [0, h[7]][0] == 0;
    hide LittleEndian, Fixed, StreamHead;
  }

  /** Twelve bytes are a stream's footer exactly when they are what a writer
      writes for its index and its check. */
  lemma FooterIsExact(codec: Codec, src: seq<byte>, pos: nat, indexSize: nat, checkID: byte)
    requires pos + 12 <= |src| && 8 <= indexSize <= 4 * 0x1_0000_0000 && indexSize % 4 == 0
    ensures Footer(codec, src, pos, indexSize, checkID)
            == if src[pos..pos + 12] == EncodeFooter(codec, indexSize, checkID) then Ok((), pos + 12) else Bad(Malformed)
  {
    var f, e, fields := src[pos..pos + 12], EncodeFooter(codec, indexSize, checkID), FooterFields(indexSize, checkID);
    assert f[4..10] == [f[4], f[5], f[6], f[7], f[8], f[9]];
    Fixed4(f[..4], codec.crc([f[4], f[5], f[6], f[7], f[8], f[9]]));
    Fixed4(f[4..8], indexSize / 4 - 1);
    FooterBytes(codec, indexSize, checkID);
    assert f == f[..4] + f[4..10] + f[10..] && e == e[..4] + e[4..10] + e[10..];
    assert f[4..10] == f[4..8] + [f[8], f[9]];
    assert fields == Fixed(indexSize / 4 - 1, 4) + [0, checkID];
    assert (f[4..8] + [f[8], f[9]])[4..] == [f[8], f[9]] && (Fixed(indexSize / 4 - 1, 4) + [0, checkID])[4..] == [0, checkID];
    assert [f[8], f[9]][0] == f[8] && [f[8], f[9]][1] == f[9] && [0, checkID][0] == 0 && [0, checkID][1] == checkID;
    assert fields[..4] == Fixed(indexSize / 4 - 1, 4);
    hide LittleEndian, Fixed, EncodeFooter, FooterFields;
  }

  lemma FooterBytes(codec: Codec, indexSize: nat, checkID: byte)
    requires indexSize >= 8
    ensures var e, fields := EncodeFooter(codec, indexSize, checkID), FooterFields(indexSize, checkID);
            && |e| == 12 && e[..4] == Fixed(codec.crc(fields), 4) && e[4..10] == fields && e[10..] == [0x59, 0x5A]
  {
    hide Fixed, FooterFields;
  }

  /** What follows a block's data passes exactly when the sizes the header
      holds are those of the data and the text, and padding and check are what
      a writer writes. */
  lemma FinishIsExact(codec: Codec, src: seq<byte>, pos: nat, checkID: byte, block: Opened, used: nat, text: seq<byte>)
    requires pos <= |src|
    ensures var after := Zeros(PadLen(used)) + (if checkID == 0 then [] else codec.check(checkID, text));
            var comp, size := block.fields.compressedSize, block.fields.uncompressedSize;
            var r := FinishBlock(codec, src, pos, checkID, block, used, text);
            && (r.Ok? <==> (comp.Some? ==> comp.value == used) && (size.Some? ==> size.value == |text|) && At(src, pos, after))
            && (pos + |after| <= |src| && (comp.Some? ==> comp.value <= used) && (size.Some? ==> size.value <= |text|) ==>
                  r.Ok? || r == Bad(Malformed))
  {
    var pad, want := PadLen(used), if checkID == 0 then [] else codec.check(checkID, text);
    if pos + pad + |want| <= |src| {
      assert src[pos..pos + pad + |want|] == src[pos..pos + pad] + src[pos + pad..pos + pad + |want|];
      assert AllZero(src[pos..pos + pad]) <==> src[pos..pos + pad] == Zeros(pad);
      Halves(src[pos..pos + pad], src[pos + pad..pos + pad + |want|], Zeros(pad), want);
    }
  }

  lemma Halves(a: seq<byte>, b: seq<byte>, c: seq<byte>, d: seq<byte>)
    requires |a| == |c|
    ensures a + b == c + d <==> a == c && b == d
  {
    if a + b == c + d {
      assert a == (a + b)[..|a|] && c == (c + d)[..|a|] && b == (a + b)[|a|..] && d == (c + d)[|a|..];
    }
  }

  /** What follows the list of an index passes exactly when padding, CRC32 and
      footer are what a writer writes for that list. */
  lemma ListEndIsExact(codec: Codec, src: seq<byte>, pos: nat, list: seq<byte>, checkID: byte)
    requires 0 < pos && At(src, pos, list) && IndexSize(list) <= 4 * 0x1_0000_0000
    requires pos + |list| + |ListEnd(codec, list)| + 12 <= |src|
    ensures var end, at := ListEnd(codec, list) + EncodeFooter(codec, IndexSize(list), checkID), pos + |list|;
            IndexEnd(codec, src, pos, at, checkID) == if At(src, at, end) then Ok((), at + |end|) else Bad(Malformed)
  {
    hide Footer, LittleEndian, Fixed, EncodeFooter, ListEnd, IndexSize;
    var at, pad := pos + |list|, Zeros(PadLen(|list| + 1));
    ListEndParts(codec, list);
    var padded, crc, footer := at + |pad|, codec.crc([0] + (list + pad)), EncodeFooter(codec, IndexSize(list), checkID);
    FooterIsExact(codec, src, padded + 4, IndexSize(list), checkID);
    Fixed4(src[padded..padded + 4], crc);
    assert src[pos..padded] == src[pos..at] + src[at..padded];
    assert AllZero(src[at..padded]) <==> src[at..padded] == pad;
    assert src[at..padded + 16] == src[at..padded] + src[padded..padded + 4] + src[padded + 4..padded + 16];
    Halves(src[at..padded], src[padded..padded + 4], pad, Fixed(crc, 4));
    Halves(src[at..padded] + src[padded..padded + 4], src[padded + 4..padded + 16], ListEnd(codec, list), footer);
  }

  /** What a dictionary code stands for: 4 KiB and 6 KiB, twice that every
      second code, 4 GiB less one byte for the last, nothing past it. */
  lemma DictionarySizes(code: byte)
    ensures DictCap(0) == Some(4096) && DictCap(1) == Some(6144) && DictCap(40) == Some(4294967295)
    ensures code < 38 ==> DictCap(code).Some? && DictCap(code + 2) == Some(2 * DictCap(code).value)
    ensures code > 40 ==> DictCap(code) == None
  {
    Pow2Is(0);
    if code < 38 {
      NextSize(code);
    }
    hide Pow2;
  }

  lemma NextSize(code: byte)
    requires code < 38
    ensures DictCap(code).Some? && DictCap(code + 2) == Some(2 * DictCap(code).value)
  {
    hide Pow2;
    var p := Pow2(code / 2 + 11);
    Pow2Is(code / 2 + 11);
    assert (code + 2) / 2 + 11 == code / 2 + 12 && (code + 2) % 2 == code % 2;
    Doubled(2 + code % 2, p);
  }

  lemma Doubled(a: nat, p: nat)
    ensures a * (2 * p) == 2 * (a * p)
  {
  }

  lemma Pow2Is(n: nat)
    ensures Pow2(11) == 2048 && Pow2(n + 1) == 2 * Pow2(n)
  {
    assert Pow2(6) == 64;
  }

  // ---------------------------------------------------------------------
  // Files that are good up to a place.

  /** A file's good streams, and the next stream's header and good blocks. */
  ghost function UpTo(codec: Codec, limits: Limits, file: seq<StreamSpec>, checkID: byte, blocks: seq<BlockSpec>): seq<byte>
    requires AllGood(codec, limits, file) && AllHonest(codec, limits, blocks)
  {
    EncodeFile(codec, limits, file) + (StreamHead(codec, checkID) + EncodeBlocks(codec, limits, checkID, blocks))
  }

  lemma UpToIs(codec: Codec, limits: Limits, file: seq<StreamSpec>, checkID: byte, blocks: seq<BlockSpec>)
    requires AllGood(codec, limits, file) && AllHonest(codec, limits, blocks)
    ensures UpTo(codec, limits, file, checkID, blocks)
            == EncodeFile(codec, limits, file) + (StreamHead(codec, checkID) + EncodeBlocks(codec, limits, checkID, blocks))
    ensures |UpTo(codec, limits, file, checkID, blocks)|
            == |EncodeFile(codec, limits, file)| + STREAM_HEADER_LEN + |EncodeBlocks(codec, limits, checkID, blocks)|
    ensures |UpTo(codec, limits, file, checkID, blocks)| > 0
  {
    hide StreamHead, EncodeBlocks, EncodeFile;
  }

  /** It stands in src, and what is after it at its end. */
  lemma UpToStands(codec: Codec, limits: Limits, src: seq<byte>, file: seq<StreamSpec>, checkID: byte,
                   blocks: seq<BlockSpec>, rest: seq<byte>)
    requires AllGood(codec, limits, file) && AllHonest(codec, limits, blocks)
    requires At(src, 0, UpTo(codec, limits, file, checkID, blocks) + rest)
    ensures var before := UpTo(codec, limits, file, checkID, blocks);
            && At(src, 0, before) && At(src, |before|, rest) && 0 < |before| && |before| + |rest| <= |src|
  {
    hide *;
    UpToIs(codec, limits, file, checkID, blocks);
    AtParts(src, 0, UpTo(codec, limits, file, checkID, blocks), rest);
    AtFits(src, |UpTo(codec, limits, file, checkID, blocks)|, rest);
  }

  /** What was read of the stream there. */
  ghost function Reached(codec: Codec, checkID: byte, blocks: seq<BlockSpec>): Stream {
    Stream(checkID, RecordsOf(codec, checkID, blocks))
  }

  lemma ReachedIs(codec: Codec, checkID: byte, blocks: seq<BlockSpec>)
    ensures Noted(Stream(checkID, []), RecordsOf(codec, checkID, blocks)) == Reached(codec, checkID, blocks)
    ensures Reached(codec, checkID, blocks).checkID == checkID
  {
    NotedFirst(checkID, RecordsOf(codec, checkID, blocks));
  }

  lemma BlocksReach(codec: Codec, limits: Limits, src: seq<byte>, pos: nat, checkID: byte, blocks: seq<BlockSpec>, end: nat)
    requires 0 < pos && AllHonest(codec, limits, blocks) && At(src, pos, EncodeBlocks(codec, limits, checkID, blocks))
    requires end == pos + |EncodeBlocks(codec, limits, checkID, blocks)|
    ensures end <= |src| && pos <= |src|
    ensures Yields(Rest(codec, limits, src, pos, Some(Stream(checkID, []))), TextsOf(blocks),
                   Rest(codec, limits, src, end, Some(Reached(codec, checkID, blocks))))
  {
    hide *;
    var stream := Stream(checkID, []);
    ReachedIs(codec, checkID, blocks);
    BlocksRead(codec, limits, src, pos, stream, blocks);
  }

  /** The reading of such a file comes to that place, and ends as it goes on
      from there. */
  lemma UpToRead(codec: Codec, limits: Limits, src: seq<byte>, file: seq<StreamSpec>, checkID: byte, blocks: seq<BlockSpec>,
                 text: seq<byte>, ending: Ending)
    requires AllGood(codec, limits, file) && AllHonest(codec, limits, blocks) && HasCheck(checkID)
    requires At(src, 0, UpTo(codec, limits, file, checkID, blocks))
    requires 0 < |UpTo(codec, limits, file, checkID, blocks)| <= |src|
    requires Yields(Rest(codec, limits, src, |UpTo(codec, limits, file, checkID, blocks)|, Some(Reached(codec, checkID, blocks))),
                    text, Outcome([], ending))
    ensures TextOf(codec, limits, src) == Outcome(FileText(file) + (TextsOf(blocks) + text), ending)
  {
    hide *;
    var good, head, more := EncodeFile(codec, limits, file), StreamHead(codec, checkID), EncodeBlocks(codec, limits, checkID, blocks);
    UpToIs(codec, limits, file, checkID, blocks);
    AtParts(src, 0, good, head + more);
    AtParts(src, |good|, head, more);
    HeadRead(codec, limits, src, |good|, checkID);
    var end := |UpTo(codec, limits, file, checkID, blocks)|;
    BlocksReach(codec, limits, src, |good| + STREAM_HEADER_LEN, checkID, blocks, end);
    YieldsBoth(Rest(codec, limits, src, |good|, None), TextsOf(blocks),
               Rest(codec, limits, src, end, Some(Reached(codec, checkID, blocks))), text, Outcome([], ending));
    if |file| == 0 {
      NoFile(codec, limits, file);
    }
    GoodThen(codec, limits, src, file, checkID, TextsOf(blocks) + text, ending);
  }

  /** The good streams of a file, and what the reading after them gives. */
  lemma GoodThen(codec: Codec, limits: Limits, src: seq<byte>, file: seq<StreamSpec>, checkID: byte, text: seq<byte>,
                 ending: Ending)
    requires AllGood(codec, limits, file) && At(src, 0, EncodeFile(codec, limits, file))
    requires |EncodeFile(codec, limits, file)| <= |src|
    requires Yields(Rest(codec, limits, src, |EncodeFile(codec, limits, file)|, None), text, Outcome([], ending))
    requires |file| == 0 ==>
               && StreamHeader(codec, src, 0) == Ok(checkID, STREAM_HEADER_LEN) && STREAM_HEADER_LEN <= |src|
               && Rest(codec, limits, src, 0, None) == Rest(codec, limits, src, STREAM_HEADER_LEN, Some(Stream(checkID, [])))
    ensures TextOf(codec, limits, src) == Outcome(FileText(file) + text, ending)
  {
    hide *;
    var good := EncodeFile(codec, limits, file);
    StreamsRead(codec, limits, src, 0, file);
    YieldsBoth(Rest(codec, limits, src, 0, None), FileText(file), Rest(codec, limits, src, |good|, None), text,
               Outcome([], ending));
    if |file| == 0 {
      NoStreamsRead(codec, limits, src, 0, file);
      FirstStream(codec, limits, src, checkID, FileText(file) + text, ending);
    } else {
      FileUnfold(codec, limits, file);
      AtParts(src, 0, EncodeStream(codec, limits, file[0]), EncodeFile(codec, limits, file[1..]));
      StreamRead(codec, limits, src, 0, file[0]);
      FirstStream(codec, limits, src, file[0].checkID, FileText(file) + text, ending);
    }
  }

  lemma StopsAtOnce(codec: Codec, limits: Limits, src: seq<byte>, pos: nat, stream: Option<Stream>, why: Refusal)
    requires pos <= |src| && (stream.Some? ==> 0 < pos) && NextBlock(codec, limits, src, pos, stream) == Stops(why)
    ensures Yields(Rest(codec, limits, src, pos, stream), [], Outcome([], Refused(why)))
  {
    hide NextBlock, FinishBlock, Decode;
  }

  // ---------------------------------------------------------------------
  // Refusals.

  /** After good streams, none or any number, twelve bytes that are no
      stream's header: another magic, a flag, a check that is not one of the
      four, or another CRC32. The file is refused there. */
  lemma BadHeadRefused(codec: Codec, limits: Limits, src: seq<byte>, file: seq<StreamSpec>, head: seq<byte>)
    requires AllGood(codec, limits, file) && |head| == 12
    requires forall id: byte :: HasCheck(id) ==> head != StreamHead(codec, id)
    requires |file| > 0 ==> !AllZero(head[..4])
    requires At(src, 0, EncodeFile(codec, limits, file) + head)
    ensures TextOf(codec, limits, src) == Outcome(FileText(file), Refused(Malformed))
  {
    hide *;
    var good := EncodeFile(codec, limits, file);
    AtParts(src, 0, good, head);
    AtFits(src, |good|, head);
    BadHeadStops(codec, limits, src, |good|, head);
    if |file| == 0 {
      NoFile(codec, limits, file);
      NoTextYet(codec, limits, src, file);
    } else {
      StopsAtOnce(codec, limits, src, |good|, None, Malformed);
      GoodThen(codec, limits, src, file, 0, [], Refused(Malformed));
      assert FileText(file) + [] == FileText(file);
    }
  }

  lemma NoFile(codec: Codec, limits: Limits, file: seq<StreamSpec>)
    requires |file| == 0 && AllGood(codec, limits, file)
    ensures |EncodeFile(codec, limits, file)| == 0
  {
  }

  lemma NoTextYet(codec: Codec, limits: Limits, src: seq<byte>, file: seq<StreamSpec>)
    requires |file| == 0 && StreamHeader(codec, src, 0) == Bad(Malformed)
    ensures TextOf(codec, limits, src) == Outcome(FileText(file), Refused(Malformed))
  {
  }

  lemma BadHeadStops(codec: Codec, limits: Limits, src: seq<byte>, pos: nat, head: seq<byte>)
    requires |head| == 12 && At(src, pos, head) && forall id: byte :: HasCheck(id) ==> head != StreamHead(codec, id)
    ensures pos <= |src| && StreamHeader(codec, src, pos) == Bad(Malformed)
    ensures !AllZero(head[..4]) ==> NextBlock(codec, limits, src, pos, None) == Stops(Malformed)
  {
    HeadIsExact(codec, src, pos);
    assert src[pos..pos + 4] == src[pos..pos + 12][..4];
    hide StreamHeader, StreamHead, OpenBlock, EndStream;
  }

  /** After good blocks, a block whose padding or check is not that of its
      text: its text is given too, and then the file is refused. */
  lemma BadBlockRefused(codec: Codec, limits: Limits, src: seq<byte>, file: seq<StreamSpec>, checkID: byte,
                        blocks: seq<BlockSpec>, b: BlockSpec, after: seq<byte>)
    requires AllGood(codec, limits, file) && AllHonest(codec, limits, blocks) && HasCheck(checkID) && Honest(codec, limits, b)
    requires var right := Zeros(PadLen(|b.data|)) + (if checkID == 0 then [] else codec.check(checkID, b.text));
             |after| == |right| && after != right
    requires At(src, 0, UpTo(codec, limits, file, checkID, blocks) + (Header(codec, b) + (b.data + after)))
    ensures TextOf(codec, limits, src) == Outcome(FileText(file) + (TextsOf(blocks) + b.text), Refused(Malformed))
  {
    hide *;
    HonestIsSized(codec, limits, b);
    var before := UpTo(codec, limits, file, checkID, blocks);
    var pos, at, done := |before|, |before| + b.HeaderLen(), Reached(codec, checkID, blocks);
    UpToStands(codec, limits, src, file, checkID, blocks, Header(codec, b) + (b.data + after));
    AtParts(src, pos, Header(codec, b), b.data + after);
    AtParts(src, at, b.data, after);
    BlockOpens(codec, limits, src, pos, b);
    NextIsBlock(codec, limits, src, pos, done);
    var o := OpenBlock(codec, limits, src, pos).value;
    DataDecodes(codec, limits, src, at, b, o.dictionary);
    ReachedIs(codec, checkID, blocks);
    WrongAfter(codec, src, at + |b.data|, checkID, b, o, after);
    BlockFails(codec, limits, src, pos, done, o, at, b);
    UpToRead(codec, limits, src, file, checkID, blocks, b.text, Refused(Malformed));
  }

  lemma HonestIsSized(codec: Codec, limits: Limits, b: BlockSpec)
    requires Honest(codec, limits, b)
    ensures Sized(b)
  {
  }

  lemma WrongAfter(codec: Codec, src: seq<byte>, pos: nat, checkID: byte, b: BlockSpec, o: Opened, after: seq<byte>)
    requires At(src, pos, after) && o.fields == b.Fields()
    requires var right := Zeros(PadLen(|b.data|)) + (if checkID == 0 then [] else codec.check(checkID, b.text));
             |after| == |right| && after != right
    ensures pos <= |src| && FinishBlock(codec, src, pos, checkID, o, |b.data|, b.text) == Bad(Malformed)
  {
    FinishIsExact(codec, src, pos, checkID, o, |b.data|, b.text);
    hide FinishBlock, Zeros;
  }

  lemma BlockFails(codec: Codec, limits: Limits, src: seq<byte>, pos: nat, stream: Stream, o: Opened, at: nat, b: BlockSpec)
    requires 0 < pos < at <= |src| && Ahead(codec, limits, src, pos, Some(stream)) == AtBlock(o, at, stream)
    requires Decode(codec, src, at, o.dictionary) == Decoded(|b.data|, b.text, true) && at + |b.data| <= |src|
    requires FinishBlock(codec, src, at + |b.data|, stream.checkID, o, |b.data|, b.text) == Bad(Malformed)
    ensures Yields(Rest(codec, limits, src, pos, Some(stream)), b.text, Outcome([], Refused(Malformed)))
  {
    hide NextBlock, FinishBlock, Decode, BlockSpec.HeaderLen;
    assert b.text + [] == b.text;
  }

  /** After good blocks, a block header with another CRC32 than its own. */
  lemma BadBlockHeaderRefused(codec: Codec, limits: Limits, src: seq<byte>, file: seq<StreamSpec>, checkID: byte,
                              blocks: seq<BlockSpec>, start: seq<byte>, crc: seq<byte>)
    requires AllGood(codec, limits, file) && AllHonest(codec, limits, blocks) && HasCheck(checkID)
    requires |start| >= 4 && |crc| == 4 && start[0] != 0 && |start| + 4 == (start[0] as int + 1) * 4
    requires crc != Fixed(codec.crc(start), 4)
    requires At(src, 0, UpTo(codec, limits, file, checkID, blocks) + (start + crc))
    ensures TextOf(codec, limits, src) == Outcome(FileText(file) + TextsOf(blocks), Refused(Malformed))
  {
    hide *;
    var before := UpTo(codec, limits, file, checkID, blocks);
    var pos, done := |before|, Reached(codec, checkID, blocks);
    UpToStands(codec, limits, src, file, checkID, blocks, start + crc);
    HeaderFails(codec, limits, src, pos, done, start, crc);
    StopsAtOnce(codec, limits, src, pos, Some(done), Malformed);
    UpToRead(codec, limits, src, file, checkID, blocks, [], Refused(Malformed));
    assert TextsOf(blocks) + [] == TextsOf(blocks);
  }

  lemma HeaderFails(codec: Codec, limits: Limits, src: seq<byte>, pos: nat, stream: Stream, start: seq<byte>, crc: seq<byte>)
    requires 0 < pos && At(src, pos, start + crc)
    requires |start| >= 4 && |crc| == 4 && start[0] != 0 && |start| + 4 == (start[0] as int + 1) * 4
    requires crc != Fixed(codec.crc(start), 4)
    ensures pos <= |src| && NextBlock(codec, limits, src, pos, Some(stream)) == Stops(Malformed)
  {
    var h := start + crc;
    assert src[pos] == src[pos..pos + |h|][0] == start[0];
    assert h[..|h| - 4] == start && h[|h| - 4..] == crc;
    Fixed4(crc, codec.crc(start));
    assert BlockHeader(codec, h) == Bad(Malformed);
    hide BlockHeader, EndStream, NextStream;
  }

  /** After good blocks, a header that asks for more dictionary than the
      limit, or for one no code stands for. */
  lemma BigDictionaryRefused(codec: Codec, limits: Limits, src: seq<byte>, file: seq<StreamSpec>, checkID: byte,
                             blocks: seq<BlockSpec>, b: BlockSpec)
    requires AllGood(codec, limits, file) && AllHonest(codec, limits, blocks) && HasCheck(checkID) && Sized(b)
    requires DictCap(b.dictionaryCode).Some? ==> DictCap(b.dictionaryCode).value > limits.dictionary
    requires At(src, 0, UpTo(codec, limits, file, checkID, blocks) + Header(codec, b))
    ensures TextOf(codec, limits, src)
            == Outcome(FileText(file) + TextsOf(blocks),
                       Refused(if b.dictionaryCode <= 40 then DictionaryTooLarge else Malformed))
  {
    hide *;
    var before := UpTo(codec, limits, file, checkID, blocks);
    var pos, done := |before|, Reached(codec, checkID, blocks);
    var why := if b.dictionaryCode <= 40 then DictionaryTooLarge else Malformed;
    UpToStands(codec, limits, src, file, checkID, blocks, Header(codec, b));
    DictionaryFails(codec, limits, src, pos, done, b);
    StopsAtOnce(codec, limits, src, pos, Some(done), why);
    UpToRead(codec, limits, src, file, checkID, blocks, [], Refused(why));
    assert TextsOf(blocks) + [] == TextsOf(blocks);
  }

  lemma DictionaryFails(codec: Codec, limits: Limits, src: seq<byte>, pos: nat, stream: Stream, b: BlockSpec)
    requires 0 < pos && Sized(b) && At(src, pos, Header(codec, b))
    requires DictCap(b.dictionaryCode).Some? ==> DictCap(b.dictionaryCode).value > limits.dictionary
    ensures pos <= |src|
    ensures NextBlock(codec, limits, src, pos, Some(stream))
            == Stops(if b.dictionaryCode <= 40 then DictionaryTooLarge else Malformed)
  {
    HeaderParsed(codec, b);
    var h := Header(codec, b);
    assert h[0] == b.HeaderLen() / 4 - 1;
    assert src[pos] == src[pos..pos + |h|][0];
    hide BlockHeader, Header, BlockSpec.Body, EndStream, NextStream, Pow2;
  }

  /** After the good blocks of a stream and the list of its index, an end that
      is not the one of that list: other padding, another CRC32, or a footer
      that differs in any byte. */
  lemma BadTailRefused(codec: Codec, limits: Limits, src: seq<byte>, file: seq<StreamSpec>, s: StreamSpec, end: seq<byte>)
    requires AllGood(codec, limits, file) && Good(codec, limits, s)
    requires var list := Listed(|s.blocks|, RecordsOf(codec, s.checkID, s.blocks));
             && var right := ListEnd(codec, list) + EncodeFooter(codec, IndexSize(list), s.checkID);
             && |end| == |right| && end != right
             && At(src, 0, UpTo(codec, limits, file, s.checkID, s.blocks) + ([0] + (list + end)))
    ensures TextOf(codec, limits, src) == Outcome(FileText(file) + TextsOf(s.blocks), Refused(Malformed))
  {
    hide *;
    GoodParts(codec, limits, s);
    var records := RecordsOf(codec, s.checkID, s.blocks);
    var before, list, done := UpTo(codec, limits, file, s.checkID, s.blocks), Listed(|s.blocks|, records), Reached(codec, s.checkID, s.blocks);
    var pos := |before|;
    ReachedStream(codec, s);
    UpToStands(codec, limits, src, file, s.checkID, s.blocks, [0] + (list + end));
    AtParts(src, pos, [0], list + end);
    AtParts(src, pos + 1, list, end);
    ListRead(src, pos + 1, |records|, records);
    ListEndsStream(codec, src, pos + 1, done, pos + 1 + |list|);
    WrongEnd(codec, src, pos + 1, list, s.checkID, end);
    IndicatorStops(codec, limits, src, pos, done);
    YieldsNothing(Rest(codec, limits, src, pos, Some(done)));
    UpToRead(codec, limits, src, file, s.checkID, s.blocks, [], Refused(Malformed));
    assert TextsOf(s.blocks) + [] == TextsOf(s.blocks);
  }

  lemma ReachedStream(codec: Codec, s: StreamSpec)
    ensures Reached(codec, s.checkID, s.blocks) == StreamOf(codec, s)
    ensures StreamOf(codec, s) == Stream(s.checkID, RecordsOf(codec, s.checkID, s.blocks))
    ensures |RecordsOf(codec, s.checkID, s.blocks)| == |s.blocks|
  {
  }

  lemma WrongEnd(codec: Codec, src: seq<byte>, pos: nat, list: seq<byte>, checkID: byte, end: seq<byte>)
    requires 0 < pos && At(src, pos, list) && At(src, pos + |list|, end) && IndexSize(list) <= 4 * 0x1_0000_0000
    requires var right := ListEnd(codec, list) + EncodeFooter(codec, IndexSize(list), checkID);
             |end| == |right| && end != right
    ensures pos + |list| <= |src| && IndexEnd(codec, src, pos, pos + |list|, checkID) == Bad(Malformed)
  {
    hide ListEnd, EncodeFooter, IndexSize, IndexEnd;
    ListEndIsExact(codec, src, pos, list, checkID);
  }
}
