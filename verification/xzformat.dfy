/** The xz container format as the reader takes it: what stands at a position
    of a file, and what the text from there on is. LZMA2, the CRC32 and the
    block checks are parameters. */
module XzFormat {
  import opened Common

  type u32 = x: int | 0 <= x < 0x1_0000_0000

  /** What an LZMA2 decoder makes of some bytes with a dictionary: the bytes
      it uses, the text it gives, and whether it ends well. */
  datatype Decoded = Decoded(used: nat, text: seq<byte>, ok: bool)

  datatype Codec = Codec(crc: seq<byte> -> u32, check: (byte, seq<byte>) -> seq<byte>,
                         lzma: (seq<byte>, nat) -> Decoded)

  /** The most a block's dictionary may be, and, above 0, the most of it that
      is reserved. */
  datatype Limits = Limits(dictionary: nat, cap: nat)

  datatype Refusal = Truncated | Malformed | DictionaryTooLarge

  /** A value read, and the position after it. */
  datatype Parsed<+T> = Ok(value: T, next: nat) | Bad(why: Refusal)

  predicate AllZero(p: seq<byte>) {
    forall i :: 0 <= i < |p| ==> p[i] == 0
  }

  /** The padding after n bytes. */
  function PadLen(n: nat): (p: nat)
    ensures p < 4 && (n + p) % 4 == 0
  {
    (4 - n % 4) % 4
  }

  // ---------------------------------------------------------------------
  // Variable-length integers.

  const MAX_VARINT_LEN := 10

  /** The integer at src[pos..], its first byte being byte i of it: seven bits
      a byte, the lowest first, the tenth byte at most 1. */
  function Varint(src: seq<byte>, pos: nat, i: nat): (r: Parsed<nat>)
    requires i < MAX_VARINT_LEN
    ensures r.Ok? ==> pos < r.next <= |src|
    decreases MAX_VARINT_LEN - i
  {
    if pos >= |src| then Bad(Truncated)
    else if src[pos] < 0x80 then
      if i == MAX_VARINT_LEN - 1 && src[pos] > 1 then Bad(Malformed) else Ok(src[pos], pos + 1)
    else if i == MAX_VARINT_LEN - 1 then Bad(Malformed)
    else
      var rest := Varint(src, pos + 1, i + 1);
      if rest.Bad? then rest else Ok(src[pos] - 0x80 + 0x80 * rest.value, rest.next)
  }

  // ---------------------------------------------------------------------
  // Streams.

  const HEADER_MAGIC: seq<byte> := [0xFD, 0x37, 0x7A, 0x58, 0x5A, 0x00]
  const FOOTER_MAGIC: seq<byte> := [0x59, 0x5A]
  const STREAM_HEADER_LEN := 12
  const STREAM_FOOTER_LEN := 12

  predicate KnownCheck(id: byte) {
    id == 0x00 || id == 0x01 || id == 0x04 || id == 0x0A
  }

  /** A block's unpadded size and the size of its text, as the index lists
      them. */
  datatype Record = Record(unpadded: nat, textSize: nat)

  /** How far a stream was read: its check, and its blocks up to here. The running
      digest of their records is taken as the records themselves, which an
      injective digest determines. */
  datatype Stream = Stream(checkID: byte, records: seq<Record>)

  /** The check id of the stream whose header is at pos. */
  function StreamHeader(codec: Codec, src: seq<byte>, pos: nat): (r: Parsed<byte>)
    ensures r.Ok? ==> r.next == pos + STREAM_HEADER_LEN <= |src|
  {
    if pos + STREAM_HEADER_LEN > |src| then Bad(Truncated)
    else
      var h := src[pos..pos + STREAM_HEADER_LEN];
      if h[..6] != HEADER_MAGIC || codec.crc(h[6..8]) != LittleEndian(h[8..]) || h[6] != 0 || !KnownCheck(h[7])
      then Bad(Malformed)
      else Ok(h[7], pos + STREAM_HEADER_LEN)
  }

  datatype Begin = NoMore | Begun(checkID: byte, next: nat) | Fails(why: Refusal)

  /** The next stream: after padding of zeros in fours, or none at the end. */
  function NextStream(codec: Codec, src: seq<byte>, pos: nat): (r: Begin)
    requires pos <= |src|
    ensures r.Begun? ==> pos < r.next <= |src|
    decreases |src| - pos
  {
    if pos == |src| then NoMore
    else if pos + 4 > |src| then Fails(Truncated)
    else if AllZero(src[pos..pos + 4]) then NextStream(codec, src, pos + 4)
    else
      var h := StreamHeader(codec, src, pos);
      if h.Bad? then Fails(h.why) else Begun(h.value, h.next)
  }

  // ---------------------------------------------------------------------
  // Blocks.

  const LZMA2_FILTER_ID := 0x21
  const LZMA2_PROPS_SIZE := 1
  const MIN_DICT_CAP := 4096
  const SIZE_LIMIT := 0x8000_0000_0000_0000

  datatype Fields = Fields(compressedSize: Option<nat>, uncompressedSize: Option<nat>, dictionaryCode: byte)

  /** One of the two optional sizes in a header's body. */
  function OptionalSize(body: seq<byte>, pos: nat, present: bool): (r: Parsed<Option<nat>>)
    requires pos <= |body|
    ensures r.Ok? ==> pos <= r.next <= |body|
  {
    if !present then Ok(None, pos)
    else
      var v := Varint(body, pos, 0);
      if v.Bad? then Bad(v.why) else if v.value >= 0x8000_0000_0000_0000 then Bad(Malformed) else Ok(Some(v.value), v.next)
  }

  /** The one filter, LZMA2, with its dictionary code, and zeros after it. */
  function Filter(body: seq<byte>, pos: nat): (r: Parsed<byte>)
    requires pos <= |body|
  {
    var id := Varint(body, pos, 0);
    if id.Bad? then Bad(id.why)
    else if id.value != LZMA2_FILTER_ID then Bad(Malformed)
    else if id.next + 2 > |body| then Bad(Truncated)
    else if body[id.next] != LZMA2_PROPS_SIZE || !AllZero(body[id.next + 2..]) then Bad(Malformed)
    else Ok(body[id.next + 1], |body|)
  }

  /** What a block header of these bytes says, once its CRC32 agrees. In its
      flags the low six bits must be 0, for one filter and nothing reserved;
      64 and 128 tell which sizes are there. */
  function BlockHeader(codec: Codec, header: seq<byte>): (r: Parsed<Fields>)
    requires |header| >= 8
  {
    var crcAt := |header| - 4;
    if codec.crc(header[..crcAt]) != LittleEndian(header[crcAt..]) then Bad(Malformed)
    else
      var flags := header[1];
      if flags % 4 != 0 || flags / 4 % 16 != 0 then Bad(Malformed)
      else
        var body := header[2..crcAt];
        var comp := OptionalSize(body, 0, flags / 64 % 2 == 1);
        if comp.Bad? then Bad(comp.why)
        else
          var text := OptionalSize(body, comp.next, flags / 128 == 1);
          if text.Bad? then Bad(text.why)
          else
            var filter := Filter(body, text.next);
            if filter.Bad? then Bad(filter.why)
            else Ok(Fields(comp.value, text.value, filter.value), |header|)
  }

  function Pow2(n: nat): nat {
    if n == 0 then 1 else 2 * Pow2(n - 1)
  }

  /** The dictionary size an LZMA2 code stands for (section 5.3.1 of the xz
      format). */
  function DictCap(code: byte): Option<nat> {
    if code > 40 then None
    else if code == 40 then Some(0xFFFF_FFFF)
    else Some((2 + code % 2) * Pow2(code / 2 + 11))
  }

  /** As much of the declared dictionary as a text of the declared size can
      reach, but no less than MIN_DICT_CAP. */
  function DictionaryForBlock(declared: nat, textSize: Option<nat>): nat {
    if textSize.None? || textSize.value >= declared then declared else Max(textSize.value, MIN_DICT_CAP)
  }

  /** A block whose header is read: its header's length and fields, and the
      dictionary its decoder gets. */
  datatype Opened = Opened(headerLen: nat, fields: Fields, dictionary: nat)

  /** The block whose header is at pos, which is not an index's indicator. */
  function OpenBlock(codec: Codec, limits: Limits, src: seq<byte>, pos: nat): (r: Parsed<Opened>)
    requires pos < |src| && src[pos] != 0
    ensures r.Ok? ==> pos < r.next <= |src|
  {
    var size: int := src[pos];
    var headerLen := (size + 1) * 4;
    if pos + headerLen > |src| then Bad(Truncated)
    else
      var header := BlockHeader(codec, src[pos..pos + headerLen]);
      if header.Bad? then Bad(header.why)
      else
        var declared := DictCap(header.value.dictionaryCode);
        if declared.None? then Bad(Malformed)
        else if declared.value > limits.dictionary then Bad(DictionaryTooLarge)
        else
          var dictionary := DictionaryForBlock(declared.value, header.value.uncompressedSize);
          Ok(Opened(headerLen, header.value, if limits.cap > 0 then Min(dictionary, limits.cap) else dictionary),
             pos + headerLen)
  }

  /** What the decoder makes of the bytes from pos on. */
  function Decode(codec: Codec, src: seq<byte>, pos: nat, dictionary: nat): (d: Decoded)
    requires pos <= |src|
    ensures pos + d.used <= |src|
  {
    var d := codec.lzma(src[pos..], dictionary);
    if pos + d.used <= |src| then d else Decoded(|src| - pos, d.text, false)
  }

  predicate ExceededBy(size: Option<nat>, n: nat) {
    size.Some? && n > size.value
  }

  predicate NotReachedBy(size: Option<nat>, n: nat) {
    size.Some? && n < size.value
  }

  function Check(codec: Codec, checkID: byte, text: seq<byte>): seq<byte> {
    if checkID == 0 then [] else codec.check(checkID, text)
  }

  /** What follows a block's data at pos: its declared sizes held to it, the
      padding, and the check; its record for the index. */
  function FinishBlock(codec: Codec, src: seq<byte>, pos: nat, checkID: byte, block: Opened, used: nat,
                       text: seq<byte>): (r: Parsed<Record>)
    requires pos <= |src|
    ensures r.Ok? ==> pos <= r.next <= |src|
  {
    var pad, want := PadLen(used), Check(codec, checkID, text);
    if ExceededBy(block.fields.uncompressedSize, |text|) || ExceededBy(block.fields.compressedSize, used) then Bad(Malformed)
    else if NotReachedBy(block.fields.uncompressedSize, |text|) || NotReachedBy(block.fields.compressedSize, used)
    then Bad(Truncated)
    else if pos + pad > |src| then Bad(Truncated)
    else if !AllZero(src[pos..pos + pad]) then Bad(Malformed)
    else if pos + pad + |want| > |src| then Bad(Truncated)
    else if src[pos + pad..pos + pad + |want|] != want then Bad(Malformed)
    else Ok(Record(block.headerLen + used + |want|, |text|), pos + pad + |want|)
  }

  // ---------------------------------------------------------------------
  // The index and the footer.

  /** count records of an index. */
  function Records(src: seq<byte>, pos: nat, count: nat): (r: Parsed<seq<Record>>)
    requires pos <= |src|
    ensures r.Ok? ==> pos <= r.next <= |src| && |r.value| == count
    decreases count
  {
    if count == 0 then Ok([], pos)
    else
      var rest := Records(src, pos, count - 1);
      if rest.Bad? then rest
      else
        var unpadded := Varint(src, rest.next, 0);
        if unpadded.Bad? then Bad(unpadded.why)
        else
          var textSize := Varint(src, unpadded.next, 0);
          if textSize.Bad? then Bad(textSize.why)
          else Ok(rest.value + [Record(unpadded.value, textSize.value)], textSize.next)
  }

  /** The footer at pos: the index size it records and the stream's flags. */
  function Footer(codec: Codec, src: seq<byte>, pos: nat, indexSize: nat, checkID: byte): (r: Parsed<()>)
    ensures r.Ok? ==> r.next == pos + STREAM_FOOTER_LEN <= |src|
  {
    if pos + STREAM_FOOTER_LEN > |src| then Bad(Truncated)
    else
      var f := src[pos..pos + STREAM_FOOTER_LEN];
      if f[10..] != FOOTER_MAGIC || codec.crc(f[4..10]) != LittleEndian(f[..4])
         || (LittleEndian(f[4..8]) + 1) * 4 != indexSize || f[8] != 0 || f[9] != checkID
      then Bad(Malformed)
      else Ok((), pos + STREAM_FOOTER_LEN)
  }

  /** What ends a list of records: padding, the index's CRC32 and the footer.
      pos is after the indicator, at after the records. */
  function IndexEnd(codec: Codec, src: seq<byte>, pos: nat, at: nat, checkID: byte): (r: Parsed<()>)
    requires 0 < pos <= at <= |src|
    ensures r.Ok? ==> pos < r.next <= |src|
  {
    var padded := at + PadLen(at - pos + 1);
    if padded > |src| then Bad(Truncated)
    else if !AllZero(src[at..padded]) then Bad(Malformed)
    else if padded + 4 > |src| then Bad(Truncated)
    else if LittleEndian(src[padded..padded + 4]) != codec.crc([0] + src[pos..padded]) then Bad(Malformed)
    else Footer(codec, src, padded + 4, padded - pos + 1 + 4, checkID)
  }

  /** The end of a stream: the index, whose indicator is before pos, with the
      records of the stream's blocks, and the footer. */
  function EndStream(codec: Codec, src: seq<byte>, pos: nat, stream: Stream): (r: Parsed<()>)
    requires 0 < pos <= |src|
    ensures r.Ok? ==> pos < r.next <= |src|
  {
    var count := Varint(src, pos, 0);
    if count.Bad? then Bad(count.why)
    else if count.value != |stream.records| then Bad(Malformed)
    else
      var records := Records(src, count.next, count.value);
      if records.Bad? then Bad(records.why)
      else if records.value != stream.records then Bad(Malformed)
      else IndexEnd(codec, src, pos, records.next, stream.checkID)
  }

  // ---------------------------------------------------------------------
  // The text from a position on.

  datatype Next = AtEof | AtBlock(block: Opened, pos: nat, stream: Stream) | Stops(why: Refusal)

  /** The next block: past the ends and starts of streams on the way. */
  function NextBlock(codec: Codec, limits: Limits, src: seq<byte>, pos: nat, stream: Option<Stream>): (r: Next)
    requires pos <= |src| && (stream.Some? ==> 0 < pos)
    ensures r.AtBlock? ==> pos < r.pos <= |src|
    decreases |src| - pos
  {
    match stream
    case None =>
      (match NextStream(codec, src, pos)
       case NoMore => AtEof
       case Fails(why) => Stops(why)
       case Begun(checkID, next) => NextBlock(codec, limits, src, next, Some(Stream(checkID, []))))
    case Some(s) =>
      if pos == |src| then Stops(Truncated)
      else if src[pos] == 0 then
        var end := EndStream(codec, src, pos + 1, s);
        if end.Bad? then Stops(end.why) else NextBlock(codec, limits, src, end.next, None)
      else
        var block := OpenBlock(codec, limits, src, pos);
        if block.Bad? then Stops(block.why) else AtBlock(block.value, block.next, s)
  }

  datatype Ending = Eof | Refused(why: Refusal)

  /** The text there is to read, and how it ends. */
  datatype Outcome = Outcome(text: seq<byte>, ending: Ending)

  function Remaining(codec: Codec, limits: Limits, src: seq<byte>, pos: nat, stream: Option<Stream>): Outcome
    requires pos <= |src| && (stream.Some? ==> 0 < pos)
    decreases |src| - pos
  {
    match NextBlock(codec, limits, src, pos, stream)
    case AtEof => Outcome([], Eof)
    case Stops(why) => Outcome([], Refused(why))
    case AtBlock(block, at, s) =>
      var d := Decode(codec, src, at, block.dictionary);
      if !d.ok then Outcome(d.text, Refused(Malformed))
      else
        var end := FinishBlock(codec, src, at + d.used, s.checkID, block, d.used, d.text);
        if end.Bad? then Outcome(d.text, Refused(end.why))
        else
          var rest := Remaining(codec, limits, src, end.next, Some(s.(records := s.records + [end.value])));
          Outcome(d.text + rest.text, rest.ending)
  }

  /** The next block, and the text, from a position on: the functions above,
      by names that stand for whole answers. */
  function Ahead(codec: Codec, limits: Limits, src: seq<byte>, pos: nat, stream: Option<Stream>): (r: Next)
    requires pos <= |src| && (stream.Some? ==> 0 < pos)
    ensures r.AtBlock? ==> pos < r.pos <= |src|
  {
    NextBlock(codec, limits, src, pos, stream)
  }

  function Rest(codec: Codec, limits: Limits, src: seq<byte>, pos: nat, stream: Option<Stream>): Outcome
    requires pos <= |src| && (stream.Some? ==> 0 < pos)
  {
    Remaining(codec, limits, src, pos, stream)
  }

  /** The text of a file; its first stream may not follow padding. */
  function TextOf(codec: Codec, limits: Limits, src: seq<byte>): Outcome {
    var first := StreamHeader(codec, src, 0);
    if first.Bad? then Outcome([], Refused(first.why))
    else Rest(codec, limits, src, first.next, Some(Stream(first.value, [])))
  }
}
