/** The xz reader: what its reads give, one after another, is the text of the
    file and then its end, as the format's functions say. */
module XzReading {
  import opened Common
  import opened XzFormat

  /** A block being decoded: its header, what its decoder will give, and how
      much of both it has given. */
  datatype Block = Block(header: Opened, decoded: Decoded, start: nat, given: nat)

  datatype Status = Given | AtEnd | Failed(why: Refusal)

  /** The variable-length integer at src[at..], and the position after what
      was read. */
  method ReadVarintAt(src: seq<byte>, at: nat) returns (value: nat, next: nat, why: Option<Refusal>)
    requires at <= |src|
    ensures at <= next <= |src|
    ensures Varint(src, at, 0) == if why.Some? then Bad(why.value) else Ok(value, next)
  {
    ghost var whole := Varint(src, at, 0);
    value, next, why := ReadVarintBytes(src, at, whole);
  }

  /** Its bytes, one at a time, until one without a further bit. */
  method ReadVarintBytes(src: seq<byte>, at: nat, ghost whole: Parsed<nat>) returns (value: nat, next: nat, why: Option<Refusal>)
    requires at <= |src| && whole == WithRest(src, at, 0, 0, 1)
    ensures at <= next <= |src|
    ensures whole == if why.Some? then Bad(why.value) else Ok(value, next)
  {
    value, next := 0, at;
    var i, scale := 0, 1;
    hide WithRest, Plus;
    while i < MAX_VARINT_LEN
      invariant 0 <= i <= MAX_VARINT_LEN && at <= next <= |src| && scale >= 1
      invariant i < MAX_VARINT_LEN ==> whole == WithRest(src, next, i, value, scale)
      invariant i == MAX_VARINT_LEN ==> whole == Bad(Malformed)
    {
      ScaledByte(src, next, i, value, scale);
      if next == |src| {
        return 0, next, Some(Truncated);
      }
      var b: int := src[next];
      next := next + 1;
      if b < 0x80 {
        if i == MAX_VARINT_LEN - 1 && b > 1 {
          return 0, next, Some(Malformed);
        }
        return Plus(value, b, scale), next, None;
      }
      value, scale, i := Plus(value, b - 0x80, scale), scale * 0x80, i + 1;
    }
    return 0, next, Some(Malformed);
  }

  /** A size field of a block header's body, when its flag is set. */
  method ReadSize(body: seq<byte>, at: nat, present: bool) returns (size: Option<nat>, next: nat, why: Option<Refusal>)
    requires at <= |body|
    ensures at <= next <= |body|
    ensures OptionalSize(body, at, present) == if why.Some? then Bad(why.value) else Ok(size, next)
  {
    size, next, why := None, at, None;
    if present {
      var value;
      hide Varint;
      value, next, why := ReadVarintAt(body, at);
      if why.None? {
        if value >= SIZE_LIMIT {
          return None, next, Some(Malformed);
        }
        size := Some(value);
      }
    }
  }

  /** The filter after the sizes, and zeros up to the body's end. */
  method ReadFilter(body: seq<byte>, at: nat) returns (code: byte, why: Option<Refusal>)
    requires at <= |body|
    ensures Filter(body, at) == if why.Some? then Bad(why.value) else Ok(code, |body|)
  {
    hide Varint;
    var id, next;
    code := 0;
    id, next, why := ReadVarintAt(body, at);
    if why.Some? {
      return;
    }
    if id != LZMA2_FILTER_ID {
      return 0, Some(Malformed);
    }
    if next + 2 > |body| {
      return 0, Some(Truncated);
    }
    if body[next] != LZMA2_PROPS_SIZE {
      return 0, Some(Malformed);
    }
    code := body[next + 1];
    if !AllZero(body[next + 2..]) {
      return 0, Some(Malformed);
    }
  }

  /** The fields of a block header, field by field once its CRC32 agrees. */
  method ParseBlockHeader(codec: Codec, header: seq<byte>) returns (fields: Fields, why: Option<Refusal>)
    requires |header| >= 8
    ensures BlockHeader(codec, header) == if why.Some? then Bad(why.value) else Ok(fields, |header|)
  {
    hide OptionalSize, Filter;
    fields := Fields(None, None, 0);
    var crcAt := |header| - 4;
    if codec.crc(header[..crcAt]) != LittleEndian(header[crcAt..]) {
      return fields, Some(Malformed);
    }
    var flags := header[1];
    if flags % 4 != 0 || flags / 4 % 16 != 0 {
      return fields, Some(Malformed);
    }
    var body := header[2..crcAt];
    var comp, text, at, code;
    comp, at, why := ReadSize(body, 0, flags / 64 % 2 == 1);
    if why.Some? {
      return;
    }
    text, at, why := ReadSize(body, at, flags / 128 == 1);
    if why.Some? {
      return;
    }
    code, why := ReadFilter(body, at);
    fields := Fields(comp, text, code);
  }

  /** The block's data or text goes past the size its header declares. */
  predicate Oversized(header: Opened, d: Decoded) {
    ExceededBy(header.fields.uncompressedSize, |d.text|) || ExceededBy(header.fields.compressedSize, d.used)
  }

  /** The header stands somewhere in src, and its block begins at start. */
  ghost predicate HeaderStands(codec: Codec, limits: Limits, src: seq<byte>, header: Opened, start: nat) {
    exists p: nat :: p < |src| && src[p] != 0 && OpenBlock(codec, limits, src, p) == Ok(header, start)
  }

  /** A block of the file goes past what its header declares. */
  ghost predicate HasOversized(codec: Codec, limits: Limits, src: seq<byte>) {
    exists header, start: nat ::
      HeaderStands(codec, limits, src, header, start) && start <= |src|
      && Oversized(header, Decode(codec, src, start, header.dictionary))
  }

  class XzReader {
    const codec: Codec
    const limits: Limits
    const src: seq<byte>
    var pos: nat
    var inStream: bool
    var checkID: byte
    var blocks: nat
    /** The records the running digest covers. */
    var records: seq<Record>
    var block: Option<Block>
    /** How the reads ended, once they did. */
    var err: Option<Ending>

    /** A reader at the head of src, before its first stream. */
    constructor (codec: Codec, limits: Limits, src: seq<byte>)
      ensures Valid() && this.codec == codec && this.limits == limits && this.src == src
      ensures pos == 0 && !inStream && block.None? && err.None?
    {
      this.codec, this.limits, this.src := codec, limits, src;
      pos, inStream, checkID, blocks, records, block, err := 0, false, 0, 0, [], None, None;
    }

    function CurrentStream(): Option<Stream>
      reads this`inStream, this`checkID, this`records
    {
      if inStream then Some(Stream(checkID, records)) else None
    }

    ghost predicate Valid()
      reads this
    {
      && pos <= |src| && blocks == |records| && (inStream ==> 0 < pos)
      && (block.Some? ==> inStream && BlockAt(block.value, pos))
    }

    /** The block's data begins at start; its decoder has read up to at. */
    ghost predicate BlockAt(b: Block, at: nat) {
      && 0 < b.start <= at <= b.start + b.decoded.used <= |src|
      && b.decoded == Decode(codec, src, b.start, b.header.dictionary) && b.given <= |b.decoded.text|
      && HeaderStands(codec, limits, src, b.header, b.start)
    }

    /** What is still to be read. */
    ghost function Left(): Outcome
      requires Valid()
      reads this
    {
      if err.Some? then Outcome([], err.value)
      else if block.None? then Rest(codec, limits, src, pos, CurrentStream())
      else BlockLeft(codec, limits, src, block.value, Stream(checkID, records))
    }

    /** The next n bytes, when there are as many. */
    method ReadFull(n: nat) returns (bytes: seq<byte>, ok: bool)
      requires pos <= |src|
      modifies this`pos
      ensures old(pos) <= pos <= |src| && (ok <==> old(pos) + n <= |src|)
      ensures ok ==> pos == old(pos) + n && bytes == src[old(pos)..pos]
    {
      bytes, ok := src[pos..Min(pos + n, |src|)], pos + n <= |src|;
      pos := pos + |bytes|;
    }

    /** One variable-length integer. */
    method ReadVarint() returns (value: nat, why: Option<Refusal>)
      requires pos <= |src|
      modifies this`pos
      ensures pos <= |src| && old(pos) <= pos
      ensures Varint(src, old(pos), 0) == if why.Some? then Bad(why.value) else Ok(value, pos)
    {
      value, pos, why := ReadVarintAt(src, pos);
    }

    /** A stream's header at the position read to. */
    method StartStream() returns (why: Option<Refusal>)
      requires pos <= |src|
      modifies this`pos, this`inStream, this`checkID, this`blocks, this`records
      ensures pos <= |src| && old(pos) <= pos
      ensures var h := StreamHeader(codec, src, old(pos));
              if why.Some? then h == Bad(why.value) else h == Ok(checkID, pos) && inStream && records == [] && blocks == 0
      ensures why.Some? ==> inStream == old(inStream) && records == old(records) && blocks == old(blocks)
    {
      if pos + STREAM_HEADER_LEN > |src| {
        return Some(Truncated);
      }
      var h := src[pos..pos + STREAM_HEADER_LEN];
      pos := pos + STREAM_HEADER_LEN;
      if h[..6] != HEADER_MAGIC || codec.crc(h[6..8]) != LittleEndian(h[8..]) || h[6] != 0 || !KnownCheck(h[7]) {
        return Some(Malformed);
      }
      inStream, checkID, blocks, records := true, h[7], 0, [];
      return None;
    }

    /** Passes over zeros in fours to a header; more tells whether there was
        one. */
    method StartNextStream() returns (more: bool, why: Option<Refusal>)
      requires pos <= |src|
      modifies this`pos, this`inStream, this`checkID, this`blocks, this`records
      ensures pos <= |src| && old(pos) <= pos
      ensures var n := NextStream(codec, src, old(pos));
              if !more then n == NoMore && why.None?
              else if why.Some? then n == Fails(why.value)
              else n == Begun(checkID, pos) && inStream && records == [] && blocks == 0
      ensures !more || why.Some? ==> inStream == old(inStream) && blocks == old(blocks) && records == old(records)
    {
      hide StreamHeader;
      while true
        invariant old(pos) <= pos <= |src| && NextStream(codec, src, pos) == NextStream(codec, src, old(pos))
        invariant inStream == old(inStream) && blocks == old(blocks) && records == old(records)
        decreases |src| - pos
      {
        if pos == |src| {
          return false, None;
        }
        if pos + 4 > |src| {
          return true, Some(Truncated);
        }
        if !AllZero(src[pos..pos + 4]) {
          break;
        }
        pos := pos + 4;
      }
      more := true;
      why := StartStream();
    }

    /** The header of the block at the position read to, and its decoder. */
    method OpenNext() returns (why: Option<Refusal>)
      requires Valid() && inStream && block.None? && pos < |src| && src[pos] != 0
      modifies this`pos, this`block
      ensures old(pos) <= pos <= |src|
      ensures var o := OpenBlock(codec, limits, src, old(pos));
              if why.Some? then o == Bad(why.value) && block == old(block)
              else
                && o.Ok? && Valid() && block.Some? && block.value.header == o.value && pos == o.next
                && block.value.start == pos && block.value.given == 0
    {
      hide BlockHeader, DictCap;
      var size: int := src[pos];
      var headerLen := (size + 1) * 4;
      var header, ok := ReadFull(headerLen);
      if !ok {
        return Some(Truncated);
      }
      var fields;
      fields, why := ParseBlockHeader(codec, header);
      if why.Some? {
        return;
      }
      var declared := DictCap(fields.dictionaryCode);
      if declared.None? {
        return Some(Malformed);
      }
      if declared.value > limits.dictionary {
        return Some(DictionaryTooLarge);
      }
      var dictionary := DictionaryForBlock(declared.value, fields.uncompressedSize);
      if limits.cap > 0 {
        dictionary := Min(dictionary, limits.cap);
      }
      block := Some(Block(Opened(headerLen, fields, dictionary), Decode(codec, src, pos, dictionary), pos, 0));
    }

    /** What follows the block's data: its padding and its check. */
    method FinishBlock() returns (why: Option<Refusal>)
      requires Valid() && block.Some? && block.value.decoded.ok && pos == block.value.start + block.value.decoded.used
      modifies this`pos, this`block, this`records, this`blocks
      ensures Valid() && block.None? && old(pos) <= pos
      ensures var b := old(block.value);
              var f := XzFormat.FinishBlock(codec, src, old(pos), checkID, b.header, b.decoded.used, b.decoded.text);
              if why.Some? then f == Bad(why.value)
              else f.Ok? && f.next == pos && records == old(records) + [f.value] && blocks == old(blocks) + 1
    {
      var b := block.value;
      block := None;
      var fields, used, textSize := b.header.fields, b.decoded.used, |b.decoded.text|;
      if ExceededBy(fields.uncompressedSize, textSize) || ExceededBy(fields.compressedSize, used) {
        return Some(Malformed);
      }
      if NotReachedBy(fields.uncompressedSize, textSize) || NotReachedBy(fields.compressedSize, used) {
        return Some(Truncated);
      }
      hide ExceededBy, NotReachedBy, Check, HeaderStands;
      var padding, ok := ReadFull(PadLen(used));
      if !ok {
        return Some(Truncated);
      }
      if !AllZero(padding) {
        return Some(Malformed);
      }
      var want := Check(codec, checkID, b.decoded.text);
      var stored;
      stored, ok := ReadFull(|want|);
      if !ok {
        return Some(Truncated);
      }
      if stored != want {
        return Some(Malformed);
      }
      records, blocks := records + [Record(b.header.headerLen + used + |want|, textSize)], blocks + 1;
      why := None;
    }

    /** One record of an index, after i of them. */
    method ReadRecord(ghost start: nat, ghost i: nat) returns (record: Record, why: Option<Refusal>)
      requires pos <= |src| && start <= |src|
      requires Records(src, start, i).Ok? && Records(src, start, i).next == pos
      modifies this`pos
      ensures pos <= |src| && old(pos) <= pos
      ensures var r := Records(src, start, i + 1);
              if why.Some? then r == Bad(why.value)
              else r.Ok? && r.value == Records(src, start, i).value + [record] && r.next == pos
    {
      hide Varint;
      var unpadded, textSize;
      record := Record(0, 0);
      unpadded, why := ReadVarint();
      if why.None? {
        textSize, why := ReadVarint();
        if why.None? {
          record := Record(unpadded, textSize);
        }
      }
    }

    /** The records of an index, as many as the stream held blocks, read one
        by one into a digest of their own. */
    method ReadRecords(count: nat) returns (listed: seq<Record>, why: Option<Refusal>)
      requires pos <= |src|
      modifies this`pos
      ensures pos <= |src| && old(pos) <= pos
      ensures var r := Records(src, old(pos), count);
              if why.Some? then r == Bad(why.value) else r.Ok? && r.value == listed && r.next == pos
    {
      listed := [];
      ghost var start := pos;
      var i := 0;
      assert Records(src, start, 0) == Ok([], pos);
      hide *;
      while i < count
        invariant 0 <= i <= count && start <= pos <= |src|
        invariant Records(src, start, i).Ok? && Records(src, start, i).value == listed && Records(src, start, i).next == pos
      {
        var record;
        record, why := ReadRecord(start, i);
        if why.Some? {
          RecordsFail(src, start, i + 1, count);
          return;
        }
        listed, i := listed + [record], i + 1;
      }
      why := None;
    }

    /** What ends an index that began at at, its records read: padding, the
        CRC32 of all of it, and the footer. */
    method EndIndex(at: nat) returns (why: Option<Refusal>)
      requires 0 < at <= pos <= |src|
      modifies this`pos
      ensures old(pos) <= pos <= |src|
      ensures IndexEnd(codec, src, at, old(pos), checkID) == if why.Some? then Bad(why.value) else Ok((), pos)
    {
      hide Footer;
      var padding, ok := ReadFull(PadLen(pos - at + 1));
      if !ok {
        return Some(Truncated);
      }
      if !AllZero(padding) {
        return Some(Malformed);
      }
      var indexLen, want := pos - at + 1, codec.crc([0] + src[at..pos]);
      var stored;
      stored, ok := ReadFull(4);
      if !ok {
        return Some(Truncated);
      }
      if LittleEndian(stored) != want {
        return Some(Malformed);
      }
      why := ReadFooter(indexLen + 4);
    }

    /** A stream's footer: the size of its index, and its flags. */
    method ReadFooter(indexSize: nat) returns (why: Option<Refusal>)
      requires pos <= |src|
      modifies this`pos
      ensures old(pos) <= pos <= |src|
      ensures Footer(codec, src, old(pos), indexSize, checkID) == if why.Some? then Bad(why.value) else Ok((), pos)
    {
      var f, ok := ReadFull(STREAM_FOOTER_LEN);
      if !ok {
        return Some(Truncated);
      }
      if f[10..] != FOOTER_MAGIC {
        return Some(Malformed);
      }
      if codec.crc(f[4..10]) != LittleEndian(f[..4]) {
        return Some(Malformed);
      }
      if (LittleEndian(f[4..8]) + 1) * 4 != indexSize {
        return Some(Malformed);
      }
      if f[8] != 0 || f[9] != checkID {
        return Some(Malformed);
      }
      return None;
    }

    /** The index and the footer of the stream, its indicator read. */
    method EndStream() returns (why: Option<Refusal>)
      requires Valid() && inStream && block.None? && 0 < pos
      modifies this`pos, this`inStream
      ensures pos <= |src| && old(pos) <= pos
      ensures var e := XzFormat.EndStream(codec, src, old(pos), Stream(checkID, records));
              if why.Some? then e == Bad(why.value) && inStream else e.Ok? && e.next == pos && !inStream
    {
      ghost var start := pos;
      var at := pos;
      hide Varint, Records, IndexEnd;
      var count;
      count, why := ReadVarint();
      if why.Some? {
        return;
      }
      if count != blocks {
        return Some(Malformed);
      }
      var listed;
      listed, why := ReadRecords(count);
      if why.Some? {
        return;
      }
      if listed != records {
        return Some(Malformed);
      }
      why := EndIndex(at);
      if why.None? {
        inStream := false;
      }
    }

    /** Between two passes of the search: was is still what it finds. */
    ghost predicate Seeking(was: Next)
      reads this
    {
      Valid() && block.None? && was == Ahead(codec, limits, src, pos, CurrentStream())
    }

    /** What the search ended with. */
    ghost predicate Sought(was: Next, more: bool, why: Option<Refusal>)
      reads this
    {
      && Valid()
      && if !more then was == AtEof && block.None?
         else if why.Some? then was == Stops(why.value) && block.None?
         else
           && was.AtBlock? && block.Some? && pos == was.pos && Stream(checkID, records) == was.stream
           && block.value.header == was.block && block.value.start == pos && block.value.given == 0
    }

    /** One pass: a stream's start, when none is being read, and then a block
        or the stream's end. */
    method SeekOnce(ghost was: Next) returns (done: bool, more: bool, why: Option<Refusal>)
      requires Seeking(was)
      modifies this`pos, this`inStream, this`checkID, this`blocks, this`records, this`block
      ensures if done then Sought(was, more, why) else Seeking(was)
      ensures old(pos) <= pos <= |src| && (!done ==> old(pos) < pos) && (done && more && why.None? ==> old(pos) < pos)
    {
      hide NextStream, XzFormat.EndStream, OpenBlock;
      if !inStream {
        more, why := StartNextStream();
        if !more || why.Some? {
          done := true;
          return;
        }
      }
      assert was == XzFormat.NextBlock(codec, limits, src, pos, Some(Stream(checkID, records)));
      if pos == |src| {
        return true, true, Some(Truncated);
      }
      if src[pos] != 0 {
        why := OpenNext();
        return true, true, why;
      }
      pos := pos + 1;
      why := EndStream();
      return why.Some?, true, why;
    }

    /** Up to the next block: the ends and starts of streams on the way. */
    method NextBlock() returns (more: bool, why: Option<Refusal>)
      requires Valid() && block.None?
      modifies this`pos, this`inStream, this`checkID, this`blocks, this`records, this`block
      ensures old(pos) <= pos <= |src| && (more && why.None? ==> old(pos) < pos)
      ensures Sought(Ahead(codec, limits, src, old(pos), old(CurrentStream())), more, why)
    {
      ghost var was := Ahead(codec, limits, src, pos, CurrentStream());
      assert pos <= |src| && Seeking(was);
      hide *;
      while true
        invariant Seeking(was) && old(pos) <= pos <= |src|
        decreases |src| - pos
      {
        var done;
        done, more, why := SeekOnce(was);
        if done {
          return;
        }
      }
    }

    /** Some of the open block's text, as its decoder gives it: any part that
        fits, a byte of it at least while there is one, its end with the last
        part or after it. */
    method ReadBlock(k: nat) returns (chunk: seq<byte>, ended: bool, why: Option<Refusal>)
      requires Valid() && block.Some? && err.None? && k > 0
      modifies this`pos, this`block
      ensures Valid() && block.Some? && err.None? && old(pos) <= pos
      ensures chunk != [] || ended || why.Some?
      ensures |chunk| <= k && chunk <= old(Left()).text
      ensures Left().text == old(Left()).text[|chunk|..] && Left().ending == old(Left()).ending
      ensures why.Some? ==> Left().ending == Refused(why.value)
      ensures why.Some? ==> |chunk| == |old(Left()).text| || HasOversized(codec, limits, src)
      ensures why.None? && ended ==>
                && block.value.decoded.ok && block.value.given == |block.value.decoded.text|
                && pos == block.value.start + block.value.decoded.used
    {
      var b := block.value;
      var end := b.start + b.decoded.used;
      var left := |b.decoded.text| - b.given;
      assert Min(k, left) <= k && Min(k, left) <= left && (left > 0 ==> Min(k, left) > 0);
      var n: nat :| n <= k && n <= left && (left > 0 ==> n > 0);
      var at: nat :| pos <= at <= end && (left == 0 ==> at == end);
      chunk := b.decoded.text[b.given..b.given + n];
      ended := n == |b.decoded.text| - b.given && at == end && b.decoded.ok;
      var after := b.(given := b.given + n);
      pos, block := at, Some(after);
      BlockGives(codec, limits, src, b, after, Stream(checkID, records));
      if ExceededBy(b.header.fields.uncompressedSize, after.given)
         || ExceededBy(b.header.fields.compressedSize, at - b.start)
         || (n == |b.decoded.text| - b.given && !b.decoded.ok)
      {
        BlockRefused(codec, limits, src, after, Stream(checkID, records), at - b.start);
        return chunk, ended, Some(Malformed);
      }
      why := None;
    }

    /** The next block opened; the text left is the same. */
    method OpenLeft() returns (more: bool, why: Option<Refusal>)
      requires Valid() && block.None? && err.None?
      modifies this`pos, this`inStream, this`checkID, this`blocks, this`records, this`block
      ensures Valid() && old(pos) <= pos
      ensures if !more then |old(Left()).text| == 0 && old(Left()).ending == Eof
              else if why.Some? then |old(Left()).text| == 0 && old(Left()).ending == Refused(why.value)
              else block.Some? && old(pos) < pos && Left().text == old(Left()).text && Left().ending == old(Left()).ending
    {
      ghost var was := Ahead(codec, limits, src, pos, CurrentStream());
      RestIsAhead(codec, limits, src, pos, CurrentStream());
      hide Rest, Ahead, BlockLeft, Decode;
      more, why := NextBlock();
    }

    /** The open block closed; the text left is the same. */
    method CloseLeft() returns (why: Option<Refusal>)
      requires Valid() && block.Some? && err.None? && block.value.decoded.ok
      requires block.value.given == |block.value.decoded.text|
      requires pos == block.value.start + block.value.decoded.used
      modifies this`pos, this`block, this`records, this`blocks
      ensures Valid() && block.None? && old(pos) <= pos
      ensures if why.Some? then |old(Left()).text| == 0 && old(Left()).ending == Refused(why.value)
              else SameOutcome(Left(), old(Left()))
    {
      hide HeaderStands, Rest, XzFormat.FinishBlock, BlockLeft, Decode, SameOutcome;
      ghost var stream, b, at := Stream(checkID, records), block.value, pos;
      BlockCloses(codec, limits, src, b, stream);
      why := FinishBlock();
      if why.None? {
        ghost var end := XzFormat.FinishBlock(codec, src, at, checkID, b.header, b.decoded.used, b.decoded.text);
        assert Left() == Rest(codec, limits, src, end.next, Some(stream.(records := stream.records + [end.value])));
      }
    }

    /** What a read gives of the text was, and what it leaves. */
    ghost predicate Gave(was: Outcome, chunk: seq<byte>, status: Status)
      requires Valid()
      reads this
    {
      && chunk <= was.text
      && (status == Given ==> Left().text == was.text[|chunk|..] && Left().ending == was.ending)
      && (status == AtEnd ==> |was.text| == 0 && was.ending == Eof && err == Some(Eof))
      && (status.Failed? ==> was.ending == Refused(status.why) && err == Some(was.ending))
      && (status.Failed? ==> chunk == was.text || HasOversized(codec, limits, src))
    }

    /** One pass of a read: it gives some text, or ends, or crosses from one
        block to the next with nothing given. */
    method ReadOnce(k: nat) returns (chunk: seq<byte>, status: Status, done: bool)
      requires Valid() && err.None? && k > 0
      modifies this
      ensures Valid() && |chunk| <= k && Gave(old(Left()), chunk, status)
      ensures done && status == Given ==> chunk != []
      ensures !done ==>
                && err.None? && chunk == [] && status == Given && block.None?
                && (old(pos) < pos || (old(block).Some? && old(pos) <= pos))
    {
      hide Left, BlockAt;
      var why;
      if block.None? {
        var more;
        more, why := OpenLeft();
        if !more {
          err := Some(Eof);
          return [], AtEnd, true;
        }
        if why.Some? {
          err := Some(Refused(why.value));
          return [], Failed(why.value), true;
        }
      }
      var ended;
      chunk, ended, why := ReadBlock(k);
      if why.None? && ended {
        why := CloseLeft();
        if why.None? && chunk == [] {
          return [], Given, false;
        }
      }
      if why.Some? {
        err := Some(Refused(why.value));
        return chunk, Failed(why.value), true;
      }
      return chunk, Given, true;
    }

    /** Text of at most k bytes; its end, once all of it was given, or the
        reason the file is refused, from then on. */
    method Read(k: nat) returns (chunk: seq<byte>, status: Status)
      requires Valid()
      modifies this
      ensures Valid() && |chunk| <= k && chunk <= old(Left()).text
      ensures status == Given ==>
                Left().text == old(Left()).text[|chunk|..] && Left().ending == old(Left()).ending
      ensures status == AtEnd ==> |old(Left()).text| == 0 && old(Left()).ending == Eof == Left().ending
      ensures status.Failed? ==> old(Left()).ending == Refused(status.why) == Left().ending
      ensures status != Given ==> |Left().text| == 0
      ensures status.Failed? ==> chunk == old(Left()).text || HasOversized(codec, limits, src)
      ensures status == Given && k > 0 ==> chunk != []
    {
      if err.Some? {
        return [], if err.value.Eof? then AtEnd else Failed(err.value.why);
      }
      if k == 0 {
        return [], Given;
      }
      chunk, status := ReadSome(k);
    }

    method ReadSome(k: nat) returns (chunk: seq<byte>, status: Status)
      requires Valid() && err.None? && k > 0
      modifies this
      ensures Valid() && |chunk| <= k && Gave(old(Left()), chunk, status)
      ensures status == Given ==> chunk != []
    {
      ghost var was := Left();
      assert pos <= |src|;
      hide Left;
      while true
        invariant Valid() && pos <= |src| && err.None? && Left().text == was.text && Left().ending == was.ending
        decreases |src| - pos, if block.Some? then 1 else 0
      {
        var done;
        chunk, status, done := ReadOnce(k);
        if done {
          return;
        }
      }
    }
  }

  /** NewXzReader: a file that does not begin with a stream is refused here,
      not by a read. */
  method OpenXz(codec: Codec, limits: Limits, src: seq<byte>) returns (x: XzReader, why: Option<Refusal>)
    ensures fresh(x) && x.Valid() && x.src == src && x.codec == codec && x.limits == limits
    ensures if why.Some? then TextOf(codec, limits, src) == Outcome([], Refused(why.value))
            else x.Left() == TextOf(codec, limits, src)
  {
    x := new XzReader(codec, limits, src);
    hide Remaining, StreamHeader;
    why := x.StartStream();
  }

  /** Reads of any sizes, one after another: what they give is the file's
      text from its start, all of it when they meet its end, and the first
      end or refusal is the file's. More reads of a byte or more than the text
      has bytes meet it. */
  method ReadMany(codec: Codec, limits: Limits, src: seq<byte>, sizes: seq<nat>)
    returns (text: seq<byte>, ending: Option<Ending>)
    ensures text <= TextOf(codec, limits, src).text
    ensures ending.Some? ==> ending.value == TextOf(codec, limits, src).ending
    ensures ending.Some? ==> text == TextOf(codec, limits, src).text || (ending.value.Refused? && HasOversized(codec, limits, src))
    ensures |sizes| > |TextOf(codec, limits, src).text| && (forall i :: 0 <= i < |sizes| ==> sizes[i] > 0) ==> ending.Some?
  {
    ghost var all := TextOf(codec, limits, src);
    var x, why := OpenXz(codec, limits, src);
    if why.Some? {
      return [], Some(Refused(why.value));
    }
    text, ending := [], None;
    assert x.Left().text == all.text[|text|..];
    hide *;
    for i := 0 to |sizes|
      invariant x.Valid() && text <= all.text && x.Left().text == all.text[|text|..] && x.Left().ending == all.ending
      invariant (forall j :: 0 <= j < |sizes| ==> sizes[j] > 0) ==> |text| >= i
    {
      var chunk, status := x.Read(sizes[i]);
      RestOfText(all.text, text, chunk);
      text := text + chunk;
      if status == AtEnd {
        return text, Some(Eof);
      }
      if status.Failed? {
        return text, Some(Refused(status.why));
      }
    }
  }

  lemma RestOfText(all: seq<byte>, text: seq<byte>, chunk: seq<byte>)
    requires text <= all && chunk <= all[|text|..]
    ensures text + chunk <= all && all[|text|..][|chunk|..] == all[|text + chunk|..]
    ensures chunk == all[|text|..] ==> text + chunk == all
  {
  }

  /** A block whose decoder has given nothing yet. */
  ghost function Fresh(codec: Codec, src: seq<byte>, block: Opened, at: nat): Block
    requires at <= |src|
  {
    Block(block, Decode(codec, src, at, block.dictionary), at, 0)
  }

  ghost predicate SameOutcome(a: Outcome, b: Outcome) {
    a.text == b.text && a.ending == b.ending
  }

  /** What there is to read is decided by the next block. */
  lemma RestIsAhead(codec: Codec, limits: Limits, src: seq<byte>, pos: nat, stream: Option<Stream>)
    requires pos <= |src| && (stream.Some? ==> 0 < pos)
    ensures var all := Rest(codec, limits, src, pos, stream);
            match Ahead(codec, limits, src, pos, stream)
            case AtEof => |all.text| == 0 && all.ending == Eof
            case Stops(why) => |all.text| == 0 && all.ending == Refused(why)
            case AtBlock(block, at, s) =>
              0 < at <= |src| && SameOutcome(all, BlockLeft(codec, limits, src, Fresh(codec, src, block, at), s))
  {
    var next := Ahead(codec, limits, src, pos, stream);
    match next
    case AtBlock(block, at, s) =>
      RestAtBlock(codec, limits, src, pos, stream, block, at, s);
      hide *;
    case _ =>
      hide XzFormat.NextBlock;
  }

  lemma RestAtBlock(codec: Codec, limits: Limits, src: seq<byte>, pos: nat, stream: Option<Stream>, block: Opened, at: nat,
                    s: Stream)
    requires pos <= |src| && (stream.Some? ==> 0 < pos) && Ahead(codec, limits, src, pos, stream) == AtBlock(block, at, s)
    ensures 0 < at <= |src|
    ensures SameOutcome(Rest(codec, limits, src, pos, stream),
                        BlockLeft(codec, limits, src, Fresh(codec, src, block, at), s))
  {
    hide XzFormat.NextBlock, XzFormat.FinishBlock, Decode;
    var d := Decode(codec, src, at, block.dictionary);
    assert d.text[0..] == d.text;
  }

  /** An open block's text with some of it given. */
  lemma BlockGives(codec: Codec, limits: Limits, src: seq<byte>, b: Block, after: Block, stream: Stream)
    requires 0 < b.start && b.start + b.decoded.used <= |src| && b.given <= after.given <= |b.decoded.text|
    requires after == b.(given := after.given)
    ensures var was, left := BlockLeft(codec, limits, src, b, stream), BlockLeft(codec, limits, src, after, stream);
            && b.decoded.text[b.given..after.given] <= was.text
            && left.text == was.text[after.given - b.given..] && left.ending == was.ending
  {
    hide Remaining, XzFormat.FinishBlock;
  }

  lemma BlockCloses(codec: Codec, limits: Limits, src: seq<byte>, b: Block, stream: Stream)
    requires 0 < b.start && b.start + b.decoded.used <= |src| && b.given == |b.decoded.text| && b.decoded.ok
    ensures var left := BlockLeft(codec, limits, src, b, stream);
            var end := XzFormat.FinishBlock(codec, src, b.start + b.decoded.used, stream.checkID, b.header, b.decoded.used,
                                            b.decoded.text);
            if end.Bad? then |left.text| == 0 && left.ending == Refused(end.why)
            else
              SameOutcome(Rest(codec, limits, src, end.next, Some(stream.(records := stream.records + [end.value]))), left)
  {
    hide Remaining, XzFormat.FinishBlock;
  }

  /** A block past a size it declares, or whose data is damaged, is refused. */
  lemma BlockRefused(codec: Codec, limits: Limits, src: seq<byte>, b: Block, stream: Stream, used: nat)
    requires 0 < b.start && b.start + b.decoded.used <= |src| && b.given <= |b.decoded.text| && used <= b.decoded.used
    requires ExceededBy(b.header.fields.uncompressedSize, b.given) || ExceededBy(b.header.fields.compressedSize, used)
             || !b.decoded.ok
    ensures BlockLeft(codec, limits, src, b, stream).ending == Refused(Malformed)
  {
    hide Remaining;
  }

  lemma {:induction false} RecordsFail(src: seq<byte>, pos: nat, m: nat, n: nat)
    requires pos <= |src| && m <= n && Records(src, pos, m).Bad?
    ensures Records(src, pos, n) == Records(src, pos, m)
    decreases n - m
  {
    if m < n {
      RecordsFail(src, pos, m, n - 1);
    }
  }

  /** An integer from its byte i on, with what the bytes before it gave. */
  function WithRest(src: seq<byte>, pos: nat, i: nat, value: nat, scale: nat): Parsed<nat>
    requires i < MAX_VARINT_LEN
  {
    var rest := Varint(src, pos, i);
    if rest.Bad? then rest else Ok(value + scale * rest.value, rest.next)
  }

  /** value with seven more bits, at their scale. */
  function Plus(value: nat, bits: nat, scale: nat): nat {
    value + bits * scale
  }

  /** What byte i of an integer adds to what the bytes before it gave. */
  lemma ScaledByte(src: seq<byte>, pos: nat, i: nat, value: nat, scale: nat)
    requires i < MAX_VARINT_LEN && pos <= |src|
    ensures var all := WithRest(src, pos, i, value, scale);
            if pos == |src| then all == Bad(Truncated)
            else
              var b: int := src[pos];
              if b < 0x80 then
                all == if i == MAX_VARINT_LEN - 1 && b > 1 then Bad(Malformed) else Ok(Plus(value, b, scale), pos + 1)
              else if i == MAX_VARINT_LEN - 1 then all == Bad(Malformed)
              else all == WithRest(src, pos + 1, i + 1, Plus(value, b - 0x80, scale), scale * 0x80)
  {
    if pos < |src| && src[pos] >= 0x80 && i < MAX_VARINT_LEN - 1 && Varint(src, pos + 1, i + 1).Ok? {
      var b: int, rest := src[pos] - 0x80, Varint(src, pos + 1, i + 1).value;
      assert value + scale * (b + 0x80 * rest) == value + b * scale + scale * 0x80 * rest;
    }
  }

  /** What is left of an open block and after it. */
  ghost function BlockLeft(codec: Codec, limits: Limits, src: seq<byte>, b: Block, stream: Stream): Outcome
    requires 0 < b.start && b.start + b.decoded.used <= |src| && b.given <= |b.decoded.text|
  {
    var text := b.decoded.text[b.given..];
    if !b.decoded.ok then Outcome(text, Refused(Malformed))
    else
      var end := FinishBlock(codec, src, b.start + b.decoded.used, stream.checkID, b.header, b.decoded.used, b.decoded.text);
      if end.Bad? then Outcome(text, Refused(end.why))
      else
        var rest := Rest(codec, limits, src, end.next, Some(stream.(records := stream.records + [end.value])));
        Outcome(text + rest.text, rest.ending)
  }
}
