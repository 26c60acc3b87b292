/** Objects of a journal file, and the cursor that hands out the items of one
    through a chunk it refills. */
module JournalItems {
  import opened Common

  const OBJECT_HEADER_SIZE := 16

  /** A journal file: the bytes reads find, the length of its header, and the
      bound that objects must not cross. */
  class File {
    const src: seq<byte>
    const headerSize: nat
    const end: nat
    /** The ranges asked for so far, each from a position to another. */
    ghost var asked: seq<(nat, nat)>

    constructor (src: seq<byte>, headerSize: nat, end: nat)
      ensures this.src == src && this.headerSize == headerSize && this.end == end && asked == []
    {
      this.src, this.headerSize, this.end, asked := src, headerSize, end, [];
    }

    // -------------------------------------------------------------------
    // Reading objects.

    /** The bytes at off come into chunk from its start, as many as there are
        up to n; fewer than need is a short read. */
    method ReadAtLeast(chunk: array<byte>, off: nat, n: nat, need: nat) returns (got: nat, short: bool)
      requires need <= n <= chunk.Length
      modifies chunk, this`asked
      ensures asked == old(asked) + [(off, off + n)]
      ensures got == Max(Min(n, |src| - off), 0) && (short <==> got < need)
      ensures off <= |src| ==> chunk[..got] == src[off..off + got]
      ensures chunk[got..] == old(chunk[got..])
    {
      asked := asked + [(off, off + n)];
      got := Max(Min(n, |src| - off), 0);
      for i := 0 to got
        invariant forall k :: 0 <= k < i ==> chunk[k] == src[off + k]
        invariant forall k :: i <= k < chunk.Length ==> chunk[k] == old(chunk[k])
        invariant asked == old(asked) + [(off, off + n)]
      {
        chunk[i] := src[off + i];
      }
      short := got < need;
    }
  }

  /** A part of a part. */
  lemma Part(a: seq<byte>, b: seq<byte>, off: nat, lo: nat, hi: nat)
    requires off + |a| <= |b| && a == b[off..off + |a|] && lo <= hi <= |a|
    ensures a[lo..hi] == b[off + lo..off + hi]
  {
    forall k | 0 <= k < hi - lo
      ensures a[lo..hi][k] == b[off + lo..off + hi][k]
    {
      assert a[lo + k] == b[off..off + |a|][lo + k];
    }
  }

  lemma Parts(all: seq<byte>, lo: nat, hi: nat, n: nat)
    requires lo + n <= hi <= |all|
    ensures all[lo..hi][..n] == all[lo..lo + n] && all[lo..hi][n..] == all[lo + n..hi]
  {
  }

  /** Every read since was of bytes from lo to before hi. */
  ghost predicate ReadsWithin(was: seq<(nat, nat)>, asked: seq<(nat, nat)>, lo: nat, hi: nat) {
    && was <= asked
    && forall i :: |was| <= i < |asked| ==> lo <= asked[i].0 <= asked[i].1 <= hi
  }

  lemma OneReadMore(was: seq<(nat, nat)>, asked: seq<(nat, nat)>, more: seq<(nat, nat)>, lo: nat, hi: nat)
    requires ReadsWithin(was, asked, lo, hi) && ReadsWithin(asked, more, lo, hi)
    ensures ReadsWithin(was, more, lo, hi)
  {
    assert more[..|was|] == asked[..|was|];
    assert forall i :: |was| <= i < |asked| ==> more[i] == asked[i];
  }

  datatype Damage = NotAligned | InHeader | BeyondEnd | FileEnds | SizeZero | BelowHeader | WrongType | BelowMinimum

  /** One object as read: its flags, its size, and how much of it is in the
      buffer. */
  datatype Object = Object(offset: nat, flags: byte, size: nat, head: nat)

  function SizeAt(src: seq<byte>, offset: nat): nat
    requires offset + 16 <= |src|
  {
    LittleEndian(src[offset + 8..offset + 16])
  }

  /** An object of type want, no smaller than minSize, stands at offset:
      aligned to eight, between the header and f.end, and the file goes on
      past its own header. */
  ghost predicate IsObject(f: File, offset: nat, want: byte, minSize: nat) {
    && offset % 8 == 0 && f.headerSize <= offset && offset + 16 <= f.end && offset + 16 <= |f.src|
    && f.src[offset] == want
    && SizeAt(f.src, offset) >= Max(16, minSize) && offset + SizeAt(f.src, offset) <= f.end
  }

  /** Reads the object at offset into buf, as much of it as fits. It gives the
      object exactly when there is one there and the file holds all of it
      that fits. */
  method ReadObject(f: File, offset: nat, want: byte, minSize: nat, buf: array<byte>)
    returns (object': Option<Object>, damage: Option<Damage>)
    requires buf.Length >= 16
    modifies buf, f`asked
    ensures ReadsWithin(old(f.asked), f.asked, offset, f.end)
    ensures object'.Some? <==> damage.None?
    ensures object'.Some? <==>
              IsObject(f, offset, want, minSize) && offset + Min(SizeAt(f.src, offset), Min(buf.Length, f.end - offset)) <= |f.src|
    ensures object'.Some? ==>
              var o := object'.value;
              && o.offset == offset && o.size == SizeAt(f.src, offset) && o.flags == f.src[offset + 1]
              && o.head <= Min(o.size, buf.Length) && offset + o.head <= |f.src|
              && buf[..o.head] == f.src[offset..offset + o.head]
              && (minSize <= buf.Length ==> o.head >= minSize)
    ensures damage == Some(FileEnds) ==> |f.src| < f.end
  {
    object' := None;
    if offset % 8 != 0 {
      return None, Some(NotAligned);
    }
    if offset < f.headerSize {
      return None, Some(InHeader);
    }
    if offset >= f.end || f.end - offset < OBJECT_HEADER_SIZE {
      return None, Some(BeyondEnd);
    }
    var readable := Min(buf.Length, f.end - offset);
    var n, short := f.ReadAtLeast(buf, offset, readable, OBJECT_HEADER_SIZE);
    if short {
      return None, Some(FileEnds);
    }
    HeaderInBuffer(f.src, offset, buf[..n]);
    assert buf[0] == buf[..n][0] && buf[1] == buf[..n][1] && buf[8..16] == buf[..n][8..16];
    hide LittleEndian, SizeAt;
    var size := LittleEndian(buf[8..16]);
    if size == 0 {
      return None, Some(SizeZero);
    }
    if size < OBJECT_HEADER_SIZE {
      return None, Some(BelowHeader);
    }
    if buf[0] != want {
      return None, Some(WrongType);
    }
    if size < minSize {
      return None, Some(BelowMinimum);
    }
    if size > f.end - offset {
      return None, Some(BeyondEnd);
    }
    if n < Min(size, readable) {
      return None, Some(FileEnds);
    }
    var head := Min(n, size);
    Part(buf[..n], f.src, offset, 0, head);
    assert buf[..head] == buf[..n][0..head] && f.src[offset + 0..offset + head] == f.src[offset..offset + head];
    return Some(Object(offset, buf[1], size, head)), None;
  }

  /** A header's fields, from the bytes read of it. */
  lemma HeaderInBuffer(src: seq<byte>, offset: nat, b: seq<byte>)
    requires |b| >= OBJECT_HEADER_SIZE && offset + |b| <= |src| && b == src[offset..offset + |b|]
    ensures b[0] == src[offset] && b[1] == src[offset + 1]
    ensures LittleEndian(b[8..16]) == SizeAt(src, offset)
  {
    Part(b, src, offset, 8, 16);
  }

  // ---------------------------------------------------------------------
  // Items.

  predicate IsWidth(width: nat) {
    width == 4 || width == 8 || width == 16
  }

  /** Item k of those that start at base: the offset its first 4 or 8 bytes
      hold. */
  function ItemAt(src: seq<byte>, base: nat, width: nat, k: nat): nat
    requires IsWidth(width) && base + k * width + width <= |src|
  {
    LittleEndian(src[base + k * width..base + k * width + Min(width, 8)])
  }

  /** How many whole items fit in n bytes. */
  function Whole(n: nat, width: nat): nat
    requires width > 0
  {
    n / width
  }

  /** A cursor over the items of one object. The first come from the read that
      brought the object, later ones from refills of the same chunk. */
  class ItemCursor {
    const f: File
    const width: nat
    const chunk: array<byte>
    /** Where the next refill reads from, and how many items are to come. */
    var next: nat
    var left: nat
    /** chunk[lo..hi] are the items still to give that are in memory. */
    var lo: nat
    var hi: nat
    /** Where the items begin, how many there are, and how many were given. */
    ghost const base: nat
    ghost const count: nat
    ghost var given: nat

    /** The place of item k. */
    ghost function Place(k: nat): nat {
      base + k * width
    }

    ghost predicate Valid()
      reads this, chunk
    {
      && IsWidth(width) && chunk.Length >= width
      && given + left == count && lo <= hi <= chunk.Length
      && (exists held: nat :: Holding(held))
    }

    /** held items are in the chunk, the ones after those given. */
    ghost predicate Holding(held: nat)
      reads this, chunk
    {
      && held <= left && lo <= hi <= chunk.Length && hi - lo == held * width && next == Place(given + held)
      && (held > 0 ==> next <= |f.src| && chunk[lo..hi] == f.src[next - (hi - lo)..next])
    }

    /** Starts on the object just read into chunk. */
    constructor (f: File, o: Object, itemsOffset: nat, width: nat, chunk: array<byte>)
      requires (width == 4 || width == 8 || width == 16) && chunk.Length >= width && itemsOffset <= o.head <= o.size && o.head <= chunk.Length
      requires o.offset + o.head <= |f.src| && chunk[..o.head] == f.src[o.offset..o.offset + o.head]
      ensures Valid() && this.f == f && this.width == width && this.chunk == chunk
      ensures base == o.offset + itemsOffset && count == Whole(o.size - itemsOffset, width) && given == 0
      ensures base <= Place(count) <= o.offset + o.size
    {
      hide Whole;
      HeadFits(o.size - itemsOffset, width, Whole(o.size - itemsOffset, width));
      var count' := Whole(o.size - itemsOffset, width);
      var inHead := Min(count', Whole(o.head - itemsOffset, width));
      HeadFits(o.head - itemsOffset, width, inHead);
      this.f, this.width, this.chunk := f, width, chunk;
      base, count, given := o.offset + itemsOffset, count', 0;
      next, left := o.offset + itemsOffset + inHead * width, count';
      lo, hi := itemsOffset, itemsOffset + inHead * width;
      new;
      Part(chunk[..o.head], f.src, o.offset, lo, hi);
      assert chunk[..o.head][lo..hi] == chunk[lo..hi];
      assert Holding(inHead);
    }

    /** Reads the next piece of whole items into the chunk: one read, of bytes
        from the first item not given to no later than the last item's end. */
    method Refill() returns (short: bool)
      requires Valid() && left > 0 && hi - lo < width
      modifies this`next, this`lo, this`hi, chunk, f`asked
      ensures |f.asked| == |old(f.asked)| + 1 && ReadsWithin(old(f.asked), f.asked, Place(given), Place(count))
      ensures short ==> |f.src| < Place(count)
      ensures !short ==> Valid() && hi - lo >= width
    {
      EmptyBuffer();
      var pieceItems := Min(left, Whole(chunk.Length, width));
      PieceFits(chunk.Length, width, left, pieceItems);
      Within(width, given, pieceItems, count);
      var n := pieceItems * width;
      assert Place(given) == next && next + n == Place(given + pieceItems) <= Place(count);
      var got;
      got, short := f.ReadAtLeast(chunk, next, n, n);
      if short {
        return;
      }
      lo, hi, next := 0, n, next + n;
      assert Holding(pieceItems);
    }

    /** Less than an item held is none. */
    lemma EmptyBuffer()
      requires Valid() && hi - lo < width
      ensures hi == lo && next == Place(given)
    {
      var held: nat :| Holding(held);
      AtLeastOne(held, width);
    }

    /** The next item, the one after those given. It fails only when the file
        ends before the object's last item. */
    method NextItem() returns (item: nat, short: bool)
      requires Valid() && left > 0
      modifies this`next, this`lo, this`hi, this`left, this`given, chunk, f`asked
      ensures ReadsWithin(old(f.asked), f.asked, base, Place(count))
      ensures short ==> |f.src| < Place(count)
      ensures !short ==>
                && Valid() && given == old(given) + 1
                && Place(old(given)) + width <= |f.src| && item == ItemAt(f.src, base, width, old(given))
    {
      item, short := 0, false;
      if hi - lo < width {
        short := Refill();
        if short {
          return;
        }
      }
      item := GiveItem();
    }

    /** Hands out the first item held. */
    method GiveItem() returns (item: nat)
      requires Valid() && left > 0 && hi - lo >= width
      modifies this`lo, this`left, this`given
      ensures Valid() && given == old(given) + 1
      ensures Place(old(given)) + width <= |f.src| && item == ItemAt(f.src, base, width, old(given))
    {
      ghost var held: nat :| Holding(held);
      assert held > 0 by {
        assert held == 0 ==> held * width == 0;
      }
      ghost var at, n := next - (hi - lo), Min(width, 8);
      OneHeld(given, held);
      Parts(chunk[..], lo, hi, n);
      Parts(chunk[..], lo, hi, width);
      Parts(f.src, at, next, n);
      Parts(f.src, at, next, width);
      assert chunk[..][lo..hi] == chunk[lo..hi];
      item := LittleEndian(chunk[lo..lo + Min(width, 8)]);
      lo, left, given := lo + width, left - 1, given + 1;
      hide LittleEndian;
      assert chunk[lo..hi] == chunk[..][lo..hi] == f.src[at + width..next];
      assert Holding(held - 1);
    }

    lemma OneHeld(k: nat, held: nat)
      requires held > 0
      ensures Place(k + held) - held * width == Place(k)
      ensures (held - 1) * width == held * width - width && held * width >= width
    {
      assert (k + held) * width == k * width + held * width;
    }
  }

  lemma HeadFits(room: nat, width: nat, items: nat)
    requires width > 0 && items <= Whole(room, width)
    ensures items * width <= room
  {
    assert items * width <= room / width * width;
  }

  lemma AtLeastOne(held: nat, width: nat)
    ensures held > 0 ==> held * width >= width
  {
    if held > 0 {
      var more: nat := held - 1;
      assert more * width >= 0 && held * width == more * width + width;
    }
  }

  lemma PieceFits(length: nat, width: nat, left: nat, items: nat)
    requires 0 < width <= length && left > 0 && items == Min(left, Whole(length, width))
    ensures 0 < items <= left && width <= items * width <= length
  {
    assert length / width >= 1;
    HeadFits(length, width, items);
  }

  lemma Within(width: nat, given: nat, items: nat, count: nat)
    requires given + items <= count
    ensures given * width + items * width == (given + items) * width <= count * width
  {
  }

  /** items are the first items at base, in their order. */
  ghost predicate AreItems(items: seq<nat>, src: seq<byte>, base: nat, width: nat) {
    && IsWidth(width)
    && forall k :: 0 <= k < |items| ==>
         base + k * width + width <= |src| && items[k] == ItemAt(src, base, width, k)
  }

  lemma OneItemMore(items: seq<nat>, item: nat, src: seq<byte>, base: nat, width: nat)
    requires AreItems(items, src, base, width)
    requires base + |items| * width + width <= |src| && item == ItemAt(src, base, width, |items|)
    ensures AreItems(items + [item], src, base, width)
  {
    hide ItemAt;
  }

  /** All items of an object, in file order: each is what is written at its
      place, whatever the chunk's size and the part of the object its first
      read brought. Only a file that ends inside the object stops before the
      last one, and every read stays inside the object's items. */
  method ReadItems(c: ItemCursor) returns (items: seq<nat>, short: bool)
    requires c.Valid() && c.given == 0
    modifies c, c.chunk, c.f`asked
    ensures ReadsWithin(old(c.f.asked), c.f.asked, c.base, c.Place(c.count))
    ensures short ==> |c.f.src| < c.Place(c.count)
    ensures !short ==> |items| == c.count
    ensures AreItems(items, c.f.src, c.base, c.width)
  {
    items := [];
    hide LittleEndian, ItemAt, ItemCursor.Holding;
    while c.left > 0
      invariant c.Valid() && c.given == |items| && AreItems(items, c.f.src, c.base, c.width)
      invariant ReadsWithin(old(c.f.asked), c.f.asked, c.base, c.Place(c.count))
      decreases c.left
    {
      ghost var before := c.f.asked;
      var item, ended := TakeItem(c, items);
      OneReadMore(old(c.f.asked), before, c.f.asked, c.base, c.Place(c.count));
      if ended {
        return items, true;
      }
      items := items + [item];
    }
    short := false;
  }

  method TakeItem(c: ItemCursor, ghost items: seq<nat>) returns (item: nat, short: bool)
    requires c.Valid() && c.left > 0 && c.given == |items| && AreItems(items, c.f.src, c.base, c.width)
    modifies c, c.chunk, c.f`asked
    ensures ReadsWithin(old(c.f.asked), c.f.asked, c.base, c.Place(c.count))
    ensures short ==> |c.f.src| < c.Place(c.count)
    ensures !short ==>
              c.Valid() && c.given == |items| + 1 && AreItems(items + [item], c.f.src, c.base, c.width)
    ensures !short ==> c.left < old(c.left)
  {
    hide LittleEndian, ItemAt, ItemCursor.Holding, AreItems;
    item, short := c.NextItem();
    if !short {
      OneItemMore(items, item, c.f.src, c.base, c.width);
    }
  }
}
