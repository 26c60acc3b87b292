/** The cache of decoded DATA objects: a map and a doubly linked list that
    together are one list, most recently used first. */
module DataCaching {
  import opened Common

  const CACHE_ENTRY_OVERHEAD := 96

  /** What is remembered of a DATA object: its payload, that its value is not
      read, or why it is damaged. */
  datatype DataAnswer = Payload(payload: seq<byte>) | Unread | Damage(damage: string) {
    function Cost(): (c: int)
      ensures c >= CACHE_ENTRY_OVERHEAD
    {
      (if Payload? then |payload| else if Damage? then |damage| else 0) + CACHE_ENTRY_OVERHEAD
    }
  }

  // ---------------------------------------------------------------------
  // The cache as a list of what it holds, most recently used first.

  datatype Item = Item(offset: int, answer: DataAnswer)

  function Total(items: seq<Item>): (t: int)
    ensures t >= 0
  {
    if |items| == 0 then 0 else Total(items[..|items| - 1]) + items[|items| - 1].answer.Cost()
  }

  function Find(items: seq<Item>, offset: int): (k: nat)
    ensures k <= |items| && (k < |items| ==> items[k].offset == offset)
    ensures forall i :: 0 <= i < k ==> items[i].offset != offset
  {
    if |items| == 0 || items[0].offset == offset then 0 else 1 + Find(items[1..], offset)
  }

  predicate Holds(items: seq<Item>, offset: int) {
    Find(items, offset) < |items|
  }

  /** items with item k first. */
  function ToFront(items: seq<Item>, k: nat): seq<Item>
    requires k < |items|
  {
    [items[k]] + (items[..k] + items[k + 1..])
  }

  /** What stays when room is left for more: the least recently used items
      go first. */
  function Kept(items: seq<Item>, room: int): seq<Item> {
    if |items| > 0 && Total(items) > room then Kept(items[..|items| - 1], room) else items
  }

  /** The same, as one list of a list. */
  function Fitting(items: seq<Item>, room: int): seq<Item> {
    Kept(items, room)
  }

  function AfterGet(items: seq<Item>, offset: int): seq<Item> {
    var k := Find(items, offset);
    if k < |items| then ToFront(items, k) else items
  }

  function AfterPut(items: seq<Item>, limit: int, offset: int, answer: DataAnswer): seq<Item> {
    if Holds(items, offset) || answer.Cost() > limit then items
    else [Item(offset, answer)] + Fitting(items, limit - answer.Cost())
  }

  // ---------------------------------------------------------------------
  // The nodes.

  class CacheNode {
    const offset: int
    const answer: DataAnswer
    var prev: CacheNode?
    var next: CacheNode?

    constructor (offset: int, answer: DataAnswer)
      ensures this.offset == offset && this.answer == answer && prev == null && next == null
    {
      this.offset, this.answer, prev, next := offset, answer, null, null;
    }
  }

  function Items(nodes: seq<CacheNode>): (r: seq<Item>)
    ensures |r| == |nodes|
    ensures forall i :: 0 <= i < |nodes| ==> r[i] == Item(nodes[i].offset, nodes[i].answer)
  {
    seq(|nodes|, i requires 0 <= i < |nodes| => Item(nodes[i].offset, nodes[i].answer))
  }

  /** The bytes the nodes count for. */
  function Bytes(nodes: seq<CacheNode>): (t: int)
    ensures t >= 0
  {
    Total(Items(nodes))
  }

  ghost predicate Distinct(nodes: seq<CacheNode>) {
    forall i, j :: 0 <= i < j < |nodes| ==> nodes[i] != nodes[j]
  }

  /** nodes are linked in order, from head to tail. */
  ghost predicate Linked(nodes: seq<CacheNode>, head: CacheNode?, tail: CacheNode?)
    reads nodes
  {
    && Distinct(nodes)
    && (if |nodes| == 0 then head == null && tail == null
        else && head == nodes[0] && tail == nodes[|nodes| - 1]
             && nodes[0].prev == null && nodes[|nodes| - 1].next == null)
    && (forall i, j :: 0 <= i < j < |nodes| && j <= i + 1 ==> nodes[i].next == nodes[j] && nodes[j].prev == nodes[i])
  }

  /** nodes without node k. */
  function Without(nodes: seq<CacheNode>, k: nat): seq<CacheNode>
    requires k < |nodes|
  {
    nodes[..k] + nodes[k + 1..]
  }

  class DataCache {
    const limit: int
    var byOffset: map<int, CacheNode>
    /** The most recently used node, and the least. */
    var head: CacheNode?
    var tail: CacheNode?
    var held: int
    var maxHeld: int
    var hits: int
    var misses: int
    ghost var nodes: seq<CacheNode>

    /** The map names exactly the nodes of the list. */
    ghost predicate Mapped()
      reads this`byOffset, this`nodes
    {
      MappedTo(nodes, byOffset)
    }

    ghost predicate Valid()
      reads this, nodes
    {
      && Linked(nodes, head, tail) && Mapped()
      && held == Bytes(nodes) && held <= Max(limit, 0) && held <= maxHeld <= Max(limit, 0)
    }

    constructor (limit: int)
      ensures Valid() && this.limit == limit && nodes == []
    {
      this.limit := limit;
      byOffset, head, tail, held, maxHeld, hits, misses, nodes := map[], null, null, 0, 0, 0, 0, [];
    }

    /** Takes node k out of the list. */
    method Unlink(node: CacheNode, ghost k: nat)
      requires Linked(nodes, head, tail) && k < |nodes| && nodes[k] == node
      modifies this`head, this`tail, this`nodes, nodes
      ensures nodes == Without(old(nodes), k) && Linked(nodes, head, tail)
      ensures node.prev == null && node.next == null && node !in nodes
      ensures forall n :: n in nodes ==> n in old(nodes)
    {
      ghost var was := nodes;
      assert if k > 0 then node.prev == was[k - 1] && was[k - 1].next == node else node.prev == null && head == node;
      assert if k + 1 < |was| then node.next == was[k + 1] && was[k + 1].prev == node
             else node.next == null && tail == node;
      if node.prev != null {
        node.prev.next := node.next;
      } else {
        head := node.next;
      }
      if node.next != null {
        node.next.prev := node.prev;
      } else {
        tail := node.prev;
      }
      node.prev, node.next := null, null;
      nodes := Without(nodes, k);
    }

    /** Puts a node that is in no list first. */
    method PushFront(node: CacheNode)
      requires Linked(nodes, head, tail) && node !in nodes && node.prev == null
      modifies this`head, this`tail, this`nodes, node, if head == null then {} else {head}
      ensures nodes == [node] + old(nodes) && Linked(nodes, head, tail)
    {
      node.next := head;
      if head != null {
        head.prev := node;
      }
      head := node;
      if tail == null {
        tail := node;
      }
      nodes := [node] + nodes;
    }

    lemma HeadIsNode()
      requires Linked(nodes, head, tail)
      ensures head != null ==> head in nodes
    {
    }

    /** Drops the least recently used node. */
    method Evict(node: CacheNode)
      requires Linked(nodes, head, tail) && Mapped() && held == Bytes(nodes) && |nodes| > 0 && node == tail
      modifies this`byOffset, this`head, this`tail, this`held, this`nodes, nodes
      ensures nodes == old(nodes)[..|old(nodes)| - 1] && Linked(nodes, head, tail) && Mapped()
      ensures held == Bytes(nodes) && held < old(held)
    {
      ghost var was := nodes;
      assert node == was[|was| - 1] && Distinct(was) && MappedTo(was, byOffset);
      hide *;
      EvictLast(was, byOffset);
      byOffset, held := byOffset - {node.offset}, held - node.answer.Cost();
      Unlink(node, |was| - 1);
      IsMapped();
    }

    lemma IsMapped()
      requires MappedTo(nodes, byOffset)
      ensures Mapped()
    {
    }

    /** The answer held for offset, if any, marked the most recently used. */
    method Get(offset: int) returns (answer: Option<DataAnswer>)
      requires Valid()
      modifies this, nodes
      ensures Valid() && Items(nodes) == AfterGet(Items(old(nodes)), offset)
      ensures answer == Answer(Items(old(nodes)), offset)
      ensures (hits, misses) == old(if answer.Some? then (hits + 1, misses) else (hits, misses + 1))
      ensures forall n :: n in nodes <==> n in old(nodes)
    {
      hide Linked, MappedTo, Items, Bytes, ToFront, Without, Holds, Distinct, AfterGet, Answer;
      ghost var k := FindNode(nodes, byOffset, offset);
      if offset !in byOffset {
        misses := misses + 1;
        return None;
      }
      hits := hits + 1;
      var node := byOffset[offset];
      ghost var moved := NodeToFront(nodes, byOffset, k);
      Unlink(node, k);
      HeadIsNode();
      PushFront(node);
      answer := Some(node.answer);
    }

    /** The nodes are linked, mapped and counted, within the limit or not. */
    ghost predicate Whole()
      reads this, nodes
    {
      Linked(nodes, head, tail) && Mapped() && held == Bytes(nodes)
    }

    /** Evicts from the tail until cost more bytes fit. */
    method MakeRoom(cost: int)
      requires Whole() && 0 <= cost <= limit
      modifies this`byOffset, this`head, this`tail, this`held, this`nodes, nodes
      ensures Whole() && held + cost <= limit && held <= old(held) && nodes <= old(nodes)
      ensures Items(nodes) == Fitting(Items(old(nodes)), limit - cost)
    {
      ghost var was := nodes;
      while held + cost > limit
        invariant Whole() && held <= old(held) && nodes <= was
        invariant Fitting(Items(nodes), limit - cost) == Fitting(Items(was), limit - cost)
        decreases held
      {
        EvictNext(cost, was);
      }
    }

    /** One turn of the eviction: the cache holds something, since it holds
        more than there is room for. */
    method EvictNext(cost: int, ghost was: seq<CacheNode>)
      requires Whole() && 0 <= cost <= limit < held + cost && nodes <= was
      requires Fitting(Items(nodes), limit - cost) == Fitting(Items(was), limit - cost)
      modifies this`byOffset, this`head, this`tail, this`held, this`nodes, nodes
      ensures Whole() && held < old(held) && nodes <= was && nodes <= old(nodes)
      ensures Fitting(Items(nodes), limit - cost) == Fitting(Items(was), limit - cost)
    {
      assert |nodes| > 0 && tail != null;
      hide *;
      EvictTail(cost, was);
    }

    method EvictTail(cost: int, ghost was: seq<CacheNode>)
      requires Whole() && |nodes| > 0 && tail != null && limit < held + cost && nodes <= was
      requires Fitting(Items(nodes), limit - cost) == Fitting(Items(was), limit - cost)
      modifies this`byOffset, this`head, this`tail, this`held, this`nodes, nodes
      ensures Whole() && held < old(held) && nodes <= was && nodes <= old(nodes)
      ensures Fitting(Items(nodes), limit - cost) == Fitting(Items(was), limit - cost)
    {
      assert tail == nodes[|nodes| - 1];
      hide Linked, Items, Fitting, MappedTo, Bytes;
      KeptDrops(nodes, limit - cost);
      Evict(tail);
    }

    /** Holds answer for offset, the most recently used, unless offset is held
        or the answer alone is past the limit. */
    method Put(offset: int, answer: DataAnswer)
      requires Valid()
      modifies this, nodes
      ensures Valid() && Items(nodes) == AfterPut(Items(old(nodes)), limit, offset, answer)
      ensures (hits, misses) == old((hits, misses)) && maxHeld == Max(old(maxHeld), held)
      ensures forall n :: n in nodes ==> n in old(nodes) || fresh(n)
    {
      hide Linked, MappedTo, Items, Bytes, Without, Holds, Distinct, Fitting, DataAnswer.Cost;
      var cost := answer.Cost();
      ghost var at := FindNode(nodes, byOffset, offset);
      if offset in byOffset || cost > limit {
        return;
      }
      MakeRoom(cost);
      StillAbsent(old(nodes), old(byOffset), nodes, byOffset, offset);
      Insert(offset, answer);
      held := held + cost;
      maxHeld := Max(maxHeld, held);
    }

    /** Makes a node for offset and puts it first. */
    method Insert(offset: int, answer: DataAnswer)
      requires Linked(nodes, head, tail) && Mapped() && offset !in byOffset
      modifies this`byOffset, this`head, this`tail, this`nodes, nodes
      ensures Linked(nodes, head, tail) && Mapped()
      ensures Items(nodes) == [Item(offset, answer)] + Items(old(nodes))
      ensures Bytes(nodes) == Bytes(old(nodes)) + answer.Cost()
      ensures forall n :: n in nodes ==> n in old(nodes) || fresh(n)
    {
      ghost var was := nodes;
      assert MappedTo(was, byOffset);
      hide *;
      var node := new CacheNode(offset, answer);
      NodeAdded(was, byOffset, node);
      byOffset := byOffset[offset := node];
      HeadIsNode();
      PushFront(node);
      IsMapped();
    }
  }

  lemma KeptDrops(nodes: seq<CacheNode>, room: int)
    requires |nodes| > 0 && Bytes(nodes) > room
    ensures Fitting(Items(nodes), room) == Fitting(Items(nodes[..|nodes| - 1]), room)
  {
    ItemsOfPrefix(nodes, |nodes| - 1);
  }

  lemma StillAbsent(nodes: seq<CacheNode>, byOffset: map<int, CacheNode>, rest: seq<CacheNode>,
                    byOffset': map<int, CacheNode>, offset: int)
    requires MappedTo(nodes, byOffset) && MappedTo(rest, byOffset') && rest <= nodes && offset !in byOffset
    ensures offset !in byOffset'
  {
  }

  lemma NodeAdded(nodes: seq<CacheNode>, byOffset: map<int, CacheNode>, node: CacheNode)
    requires MappedTo(nodes, byOffset) && node.offset !in byOffset
    ensures MappedTo([node] + nodes, byOffset[node.offset := node])
    ensures Items([node] + nodes) == [Item(node.offset, node.answer)] + Items(nodes)
    ensures Bytes([node] + nodes) == Bytes(nodes) + node.answer.Cost()
    ensures node !in nodes
  {
    assert Items([node] + nodes) == [Item(node.offset, node.answer)] + Items(nodes);
    TotalConcat([Item(node.offset, node.answer)], Items(nodes));
  }

  /** What a get of offset answers. */
  function Answer(items: seq<Item>, offset: int): Option<DataAnswer> {
    var k := Find(items, offset);
    if k < |items| then Some(items[k].answer) else None
  }

  /** The map finds the node the list holds for offset. */
  lemma FindNode(nodes: seq<CacheNode>, byOffset: map<int, CacheNode>, offset: int) returns (k: nat)
    requires MappedTo(nodes, byOffset)
    ensures offset in byOffset <==> Holds(Items(nodes), offset)
    ensures var items := Items(nodes);
            if offset in byOffset then
              && k < |nodes| && nodes[k] == byOffset[offset]
              && AfterGet(items, offset) == ToFront(items, k)
              && Answer(items, offset) == Some(byOffset[offset].answer)
            else AfterGet(items, offset) == items && Answer(items, offset) == None
  {
    k := Find(Items(nodes), offset);
    if offset in byOffset {
      var i :| 0 <= i < |nodes| && nodes[i] == byOffset[offset];
      assert Items(nodes)[i].offset == offset;
    }
  }

  /** Moving a node to the front moves its item, and keeps the map. */
  lemma NodeToFront(nodes: seq<CacheNode>, byOffset: map<int, CacheNode>, k: nat) returns (moved: seq<CacheNode>)
    requires MappedTo(nodes, byOffset) && k < |nodes|
    ensures && moved == [nodes[k]] + Without(nodes, k)
            && MappedTo(moved, byOffset) && Items(moved) == ToFront(Items(nodes), k)
            && Bytes(moved) == Bytes(nodes)
            && (forall n :: n in moved <==> n in nodes)
  {
    moved := [nodes[k]] + Without(nodes, k);
    ToFrontHasAll(nodes, k);
    ToFrontItems(nodes, k);
    TotalToFront(Items(nodes), k);
    hide Without, ToFront, Items, Total;
  }

  lemma ToFrontHasAll(nodes: seq<CacheNode>, k: nat)
    requires k < |nodes|
    ensures forall n :: n in [nodes[k]] + Without(nodes, k) <==> n in nodes
  {
    var moved := [nodes[k]] + Without(nodes, k);
    forall i | 0 <= i < |nodes|
      ensures nodes[i] in moved
    {
      assert moved[if i == k then 0 else if i < k then i + 1 else i] == nodes[i];
    }
  }

  lemma ToFrontItems(nodes: seq<CacheNode>, k: nat)
    requires k < |nodes|
    ensures Items([nodes[k]] + Without(nodes, k)) == ToFront(Items(nodes), k)
  {
  }

  lemma {:induction false} TotalConcat(a: seq<Item>, b: seq<Item>)
    ensures Total(a + b) == Total(a) + Total(b)
    decreases |b|
  {
    if |b| == 0 {
      assert a + b == a;
    } else {
      TotalConcat(a, b[..|b| - 1]);
      assert (a + b)[..|a + b| - 1] == a + b[..|b| - 1];
    }
  }

  lemma TotalToFront(items: seq<Item>, k: nat)
    requires k < |items|
    ensures Total(ToFront(items, k)) == Total(items)
  {
    hide Total;
    assert items == items[..k] + ([items[k]] + items[k + 1..]);
    TotalConcat(items[..k], [items[k]] + items[k + 1..]);
    TotalConcat([items[k]], items[k + 1..]);
    TotalConcat([items[k]], items[..k] + items[k + 1..]);
    TotalConcat(items[..k], items[k + 1..]);
  }

  lemma EvictLast(nodes: seq<CacheNode>, byOffset: map<int, CacheNode>)
    requires MappedTo(nodes, byOffset) && Distinct(nodes) && |nodes| > 0
    ensures var n := |nodes| - 1;
            && Without(nodes, n) == nodes[..n]
            && MappedTo(nodes[..n], byOffset - {nodes[n].offset})
            && Bytes(nodes) == Bytes(nodes[..n]) + nodes[n].answer.Cost()
            && nodes[n].answer.Cost() > 0
  {
    ItemsOfPrefix(nodes, |nodes| - 1);
    MappedRemove(nodes, byOffset, |nodes| - 1);
    assert Without(nodes, |nodes| - 1) == nodes[..|nodes| - 1];
  }

  lemma ItemsOfPrefix(nodes: seq<CacheNode>, n: nat)
    requires n <= |nodes|
    ensures Items(nodes[..n]) == Items(nodes)[..n]
  {
  }

  ghost predicate MappedTo(nodes: seq<CacheNode>, byOffset: map<int, CacheNode>) {
    && (forall i :: 0 <= i < |nodes| ==> nodes[i].offset in byOffset && byOffset[nodes[i].offset] == nodes[i])
    && (forall offset :: offset in byOffset ==> byOffset[offset] in nodes && byOffset[offset].offset == offset)
  }

  lemma MappedRemove(nodes: seq<CacheNode>, byOffset: map<int, CacheNode>, k: nat)
    requires MappedTo(nodes, byOffset) && Distinct(nodes) && k < |nodes|
    ensures MappedTo(Without(nodes, k), byOffset - {nodes[k].offset})
  {
    var rest := Without(nodes, k);
    forall offset | offset in byOffset && offset != nodes[k].offset
      ensures byOffset[offset] in rest
    {
      var i :| 0 <= i < |nodes| && nodes[i] == byOffset[offset];
      assert i != k && rest[if i < k then i else i - 1] == nodes[i];
    }
  }

  // ---------------------------------------------------------------------
  // Runs of gets and puts.

  /** What is kept is the longest part of the most recently used items that
      fits: nothing is evicted that had room. */
  lemma {:induction false} KeptIsLongest(items: seq<Item>, room: int)
    requires room >= 0
    ensures var kept := Kept(items, room);
            && |kept| <= |items| && kept == items[..|kept|] && Total(kept) <= room
            && forall n :: |kept| < n <= |items| ==> Total(items[..n]) > room
  {
    if |items| > 0 && Total(items) > room {
      var shorter := items[..|items| - 1];
      KeptIsLongest(shorter, room);
      forall n | |Kept(items, room)| < n <= |items|
        ensures Total(items[..n]) > room
      {
        if n < |items| {
          assert items[..n] == shorter[..n];
        } else {
          assert items[..n] == items;
        }
      }
    } else {
      assert items[..|items|] == items;
    }
  }

  datatype Op = Get(offset: int) | Put(offset: int, answer: DataAnswer)

  function After(items: seq<Item>, limit: int, op: Op): seq<Item> {
    match op
    case Get(offset) => AfterGet(items, offset)
    case Put(offset, answer) => AfterPut(items, limit, offset, answer)
  }

  /** What the cache holds after a run of gets and puts. */
  function AfterRun(ops: seq<Op>, limit: int): seq<Item> {
    if |ops| == 0 then [] else After(AfterRun(ops[..|ops| - 1], limit), limit, ops[|ops| - 1])
  }

  /** The operation uses its offset: a get that hits, or a put that takes. */
  predicate Uses(items: seq<Item>, limit: int, op: Op) {
    match op
    case Get(offset) => Holds(items, offset)
    case Put(offset, answer) => !Holds(items, offset) && answer.Cost() <= limit
  }

  /** The last operation of the run that used offset, or -1. */
  function LastUse(ops: seq<Op>, limit: int, offset: int): int {
    if |ops| == 0 then -1
    else
      var before := ops[..|ops| - 1];
      if ops[|ops| - 1].offset == offset && Uses(AfterRun(before, limit), limit, ops[|ops| - 1]) then |before|
      else LastUse(before, limit, offset)
  }

  ghost predicate OffsetsDiffer(items: seq<Item>) {
    forall i, j :: 0 <= i < j < |items| ==> items[i].offset != items[j].offset
  }

  /** The items are in the order of their last uses, the latest first. */
  ghost predicate ByLastUse(items: seq<Item>, ops: seq<Op>, limit: int) {
    && (forall i, j :: 0 <= i < j < |items| ==>
          LastUse(ops, limit, items[i].offset) > LastUse(ops, limit, items[j].offset))
    && (forall i :: 0 <= i < |items| ==> LastUse(ops, limit, items[i].offset) < |ops|)
  }

  /** The answer of the last put of the run that took for offset. */
  function LastPut(ops: seq<Op>, limit: int, offset: int): Option<DataAnswer> {
    if |ops| == 0 then None
    else
      var before, op := ops[..|ops| - 1], ops[|ops| - 1];
      if op.Put? && op.offset == offset && Uses(AfterRun(before, limit), limit, op) then Some(op.answer)
      else LastPut(before, limit, offset)
  }

  /** Every item held is what was put for its offset last. */
  ghost predicate AreLastPut(items: seq<Item>, ops: seq<Op>, limit: int) {
    forall i :: 0 <= i < |items| ==> LastPut(ops, limit, items[i].offset) == Some(items[i].answer)
  }

  /** An operation that uses its offset leaves it first, and the rest of what
      it leaves in the order it was in. */
  lemma AfterUse(items: seq<Item>, limit: int, op: Op)
    requires Uses(items, limit, op)
    ensures var next := After(items, limit, op);
            && |next| > 0 && next[0].offset == op.offset
            && (op.Put? ==> next[0].answer == op.answer && next[1..] <= items)
            && (op.Get? ==> var k := Find(items, op.offset);
                  && k < |items| && next[0] == items[k] && next[1..] == items[..k] + items[k + 1..])
  {
    if op.Put? {
      KeptIsLongest(items, limit - op.answer.Cost());
    }
  }

  lemma UnusedLeaves(items: seq<Item>, limit: int, op: Op)
    requires !Uses(items, limit, op)
    ensures After(items, limit, op) == items
  {
  }

  /** After any run, no offset is held twice, every answer held is that of
      the last put that took for its offset, and the items are in the order of their last use. So
      what a put evicts, the end of the list, was used least recently. */
  lemma {:induction false} RunIsRecency(ops: seq<Op>, limit: int)
    ensures var items := AfterRun(ops, limit);
            OffsetsDiffer(items) && AreLastPut(items, ops, limit) && ByLastUse(items, ops, limit)
  {
    if |ops| > 0 {
      var before, op := ops[..|ops| - 1], ops[|ops| - 1];
      RunIsRecency(before, limit);
      var items := AfterRun(before, limit);
      if Uses(items, limit, op) {
        AfterUse(items, limit, op);
        UseIsRecency(items, After(items, limit, op), ops, limit);
      } else {
        UnusedLeaves(items, limit, op);
        UnusedIsRecency(items, ops, limit);
      }
    }
  }

  lemma UnusedIsRecency(items: seq<Item>, ops: seq<Op>, limit: int)
    requires |ops| > 0 && items == AfterRun(ops[..|ops| - 1], limit) && !Uses(items, limit, ops[|ops| - 1])
    requires ByLastUse(items, ops[..|ops| - 1], limit) && AreLastPut(items, ops[..|ops| - 1], limit)
    ensures ByLastUse(items, ops, limit) && AreLastPut(items, ops, limit)
  {
    hide AfterRun, Uses;
    forall offset
      ensures LastUse(ops, limit, offset) == LastUse(ops[..|ops| - 1], limit, offset)
      ensures LastPut(ops, limit, offset) == LastPut(ops[..|ops| - 1], limit, offset)
    {
    }
    hide LastUse, LastPut;
  }

  /** rank falls along the items. */
  ghost predicate Ranked(items: seq<Item>, rank: int -> int) {
    forall i, j :: 0 <= i < j < |items| ==> rank(items[i].offset) > rank(items[j].offset)
  }

  /** The items but the one at k, or the first of them, are ranked too. */
  lemma RestRanked(items: seq<Item>, rest: seq<Item>, k: nat, rank: int -> int)
    requires Ranked(items, rank)
    requires rest <= items || (k < |items| && rest == items[..k] + items[k + 1..])
    ensures Ranked(rest, rank) && forall i :: 0 <= i < |rest| ==> rest[i] in items
    ensures k < |items| && rest == items[..k] + items[k + 1..] ==>
              forall i :: 0 <= i < |rest| ==> rest[i].offset != items[k].offset
  {
    if k < |items| && rest == items[..k] + items[k + 1..] {
      assert forall i :: 0 <= i < |rest| ==> rest[i] == items[if i < k then i else i + 1];
    }
  }

  /** An item in front of the ranked rest, ranked above them all. */
  lemma FrontRanked(first: Item, rest: seq<Item>, rank: int -> int, top: int, rank': int -> int)
    requires Ranked(rest, rank) && (forall i :: 0 <= i < |rest| ==> rank(rest[i].offset) < top)
    requires forall i :: 0 <= i < |rest| ==> rest[i].offset != first.offset
    requires forall o :: rank'(o) == if o == first.offset then top else rank(o)
    ensures Ranked([first] + rest, rank')
    ensures forall i :: 0 <= i < |[first] + rest| ==> rank'(([first] + rest)[i].offset) <= top
  {
  }

  lemma UseIsRecency(items: seq<Item>, next: seq<Item>, ops: seq<Op>, limit: int)
    requires |ops| > 0 && items == AfterRun(ops[..|ops| - 1], limit) && Uses(items, limit, ops[|ops| - 1])
    requires AreLastPut(items, ops[..|ops| - 1], limit) && ByLastUse(items, ops[..|ops| - 1], limit)
    requires var op := ops[|ops| - 1];
             && |next| > 0 && next[0].offset == op.offset
             && (op.Put? ==> next[0].answer == op.answer && next[1..] <= items)
             && (op.Get? ==> var k := Find(items, op.offset);
                   && k < |items| && next[0] == items[k] && next[1..] == items[..k] + items[k + 1..])
    ensures OffsetsDiffer(next) && AreLastPut(next, ops, limit) && ByLastUse(next, ops, limit)
  {
    var op, before := ops[|ops| - 1], ops[..|ops| - 1];
    var rank, rank' := (o: int) => LastUse(before, limit, o), (o: int) => LastUse(ops, limit, o);
    var rest, k := next[1..], Find(items, op.offset);
    assert next == [next[0]] + rest && (op.Put? ==> k == |items|);
    assert forall o :: rank'(o) == if o == op.offset then |before| else rank(o);
    assert Ranked(items, rank) && forall i :: 0 <= i < |items| ==> rank(items[i].offset) < |before|;
    hide AfterRun, Uses, LastUse, LastPut, ByLastUse, Ranked, OffsetsDiffer, AreLastPut;
    RestRanked(items, rest, k, rank);
    assert forall i :: 0 <= i < |rest| ==> rest[i].offset != op.offset;
    NextWasPut(items, next, ops, limit);
    hide Find;
    FrontRanked(next[0], rest, rank, |before|, rank');
    RankedIsRecency(next, ops, limit);
  }

  /** What a use leaves is still what was put last, the item in front by
      this put or by one before a get. */
  lemma NextWasPut(items: seq<Item>, next: seq<Item>, ops: seq<Op>, limit: int)
    requires |ops| > 0 && items == AfterRun(ops[..|ops| - 1], limit) && Uses(items, limit, ops[|ops| - 1])
    requires AreLastPut(items, ops[..|ops| - 1], limit) && |next| > 0
    requires var op := ops[|ops| - 1];
             && next[0].offset == op.offset && (if op.Put? then next[0].answer == op.answer else next[0] in items)
             && forall i :: 0 <= i < |next[1..]| ==> next[1..][i] in items && next[1..][i].offset != op.offset
    ensures AreLastPut(next, ops, limit)
  {
    hide AfterRun, Uses;
    forall i | 0 <= i < |next|
      ensures LastPut(ops, limit, next[i].offset) == Some(next[i].answer)
    {
      assert i > 0 ==> next[i] == next[1..][i - 1];
    }
  }

  lemma RankedIsRecency(items: seq<Item>, ops: seq<Op>, limit: int)
    requires Ranked(items, (o: int) => LastUse(ops, limit, o))
    requires forall i :: 0 <= i < |items| ==> LastUse(ops, limit, items[i].offset) < |ops|
    ensures OffsetsDiffer(items) && ByLastUse(items, ops, limit)
  {
    hide LastUse;
  }

  /** A get after any run answers what was put last for its offset, or
      nothing. */
  lemma HitIsLastPut(ops: seq<Op>, limit: int, offset: int)
    ensures var answer := Answer(AfterRun(ops, limit), offset);
            answer.Some? ==> answer == LastPut(ops, limit, offset)
  {
    RunIsRecency(ops, limit);
    hide AfterRun, LastPut, ByLastUse, OffsetsDiffer;
  }

  // ---------------------------------------------------------------------
  // What is held, and how long.

  /** The bytes an answer counts for. */
  function BytesFor(answer: DataAnswer): int {
    match answer
    case Payload(payload) => |payload| + 96
    case Unread => 96
    case Damage(damage) => |damage| + 96
  }

  /** The bytes of the items used since offset's was, that one's included. */
  function BytesUpTo(items: seq<Item>, offset: int): int {
    if |items| == 0 then 0
    else if items[0].offset == offset then BytesFor(items[0].answer)
    else BytesFor(items[0].answer) + BytesUpTo(items[1..], offset)
  }

  /** The put takes, and leaves no room for offset's item. */
  predicate Crowds(items: seq<Item>, limit: int, op: Op, offset: int) {
    && op.Put? && !Holds(items, op.offset) && BytesFor(op.answer) <= limit
    && BytesUpTo(items, offset) + BytesFor(op.answer) > limit
  }

  lemma {:induction false} TotalConsists(items: seq<Item>, offset: int, k: nat)
    requires k == Find(items, offset) < |items|
    ensures Total(items[..k + 1]) == BytesUpTo(items, offset)
    decreases |items|
  {
    assert Total([items[0]]) == items[0].answer.Cost() == BytesFor(items[0].answer) by {
      assert [items[0]][..0] == [];
    }
    if items[0].offset == offset {
      assert items[..1] == [items[0]];
    } else {
      TotalConsists(items[1..], offset, k - 1);
      assert items[..k + 1] == [items[0]] + items[1..][..k];
      TotalConcat([items[0]], items[1..][..k]);
    }
  }

  lemma {:induction false} TotalGrows(items: seq<Item>, m: nat, n: nat)
    requires m <= n <= |items|
    ensures Total(items[..m]) <= Total(items[..n])
    decreases n
  {
    if m < n {
      TotalGrows(items, m, n - 1);
      assert items[..n][..n - 1] == items[..n - 1];
    }
  }

  lemma {:induction false} FindIs(items: seq<Item>, offset: int, k: nat)
    requires k <= |items| && (k < |items| ==> items[k].offset == offset)
    requires forall i :: 0 <= i < k ==> items[i].offset != offset
    ensures Find(items, offset) == k
  {
    if k > 0 {
      FindIs(items[1..], offset, k - 1);
    }
  }

  /** The item of an offset stays through one operation, with its answer,
      exactly when the operation does not crowd it out. */
  lemma StaysUnlessCrowded(items: seq<Item>, limit: int, op: Op, offset: int)
    requires OffsetsDiffer(items) && Holds(items, offset)
    ensures if Crowds(items, limit, op, offset) then Answer(After(items, limit, op), offset) == None
            else Answer(After(items, limit, op), offset) == Answer(items, offset)
  {
    var k, next := Find(items, offset), After(items, limit, op);
    if !Uses(items, limit, op) {
      UnusedLeaves(items, limit, op);
    } else if op.Get? {
      var j := Find(items, op.offset);
      FindIs(next, offset, if k == j then 0 else if k < j then k + 1 else k);
    } else {
      TotalConsists(items, offset, k);
      PutKeepsUpTo(items, limit, op, offset, k);
    }
    hide BytesUpTo, Total, Find, AfterPut;
  }

  lemma PutKeepsUpTo(items: seq<Item>, limit: int, op: Op, offset: int, k: nat)
    requires op.Put? && Uses(items, limit, op) && k == Find(items, offset) < |items| && OffsetsDiffer(items)
    ensures var next := After(items, limit, op);
            if Total(items[..k + 1]) + op.answer.Cost() > limit then Answer(next, offset) == None
            else Answer(next, offset) == Some(items[k].answer)
  {
    var room := limit - op.answer.Cost();
    var kept, next := Fitting(items, room), After(items, limit, op);
    KeptIsLongest(items, room);
    assert op.offset != offset && next == [Item(op.offset, op.answer)] + kept;
    hide Total, Fitting, After, AfterPut;
    if |kept| > k {
      assert kept[..k + 1] == items[..k + 1];
      TotalGrows(kept, k + 1, |kept|);
      assert kept[..|kept|] == kept;
    }
    FoundBehind(Item(op.offset, op.answer), kept, items, offset, k);
  }

  /** An item behind one of another offset, or not in the part kept. */
  lemma FoundBehind(first: Item, kept: seq<Item>, items: seq<Item>, offset: int, k: nat)
    requires first.offset != offset && kept <= items && k == Find(items, offset) < |items|
    ensures Answer([first] + kept, offset) == if k < |kept| then Some(items[k].answer) else None
  {
    var next := [first] + kept;
    assert forall i :: 0 <= i < |kept| ==> kept[i] == items[i];
    assert forall i :: 0 < i < |next| ==> next[i] == kept[i - 1];
    FindIs(next, offset, if k < |kept| then k + 1 else |next|);
    hide Find;
  }

  /** A put that takes is hit by the gets after it until a later put crowds it
      out, and by none from then on until it is put again. */
  lemma {:induction false} HitUntilCrowded(ops: seq<Op>, limit: int, i: nat, n: nat)
    requires i < n <= |ops| && ops[i].Put? && !Holds(AfterRun(ops[..i], limit), ops[i].offset)
    requires BytesFor(ops[i].answer) <= limit
    requires forall m :: i < m < n ==> !Crowds(AfterRun(ops[..m], limit), limit, ops[m], ops[i].offset)
    ensures Answer(AfterRun(ops[..n], limit), ops[i].offset) == Some(ops[i].answer)
    ensures n < |ops| && Crowds(AfterRun(ops[..n], limit), limit, ops[n], ops[i].offset) ==>
              Answer(AfterRun(ops[..n + 1], limit), ops[i].offset) == None
    decreases n
  {
    hide *;
    var offset := ops[i].offset;
    RunStep(ops, limit, n - 1);
    if n - 1 == i {
      PutIsHit(AfterRun(ops[..i], limit), limit, ops[i]);
    } else {
      HitUntilCrowded(ops, limit, i, n - 1);
      RunIsRecency(ops[..n - 1], limit);
      AnswerHolds(AfterRun(ops[..n - 1], limit), offset);
      StaysUnlessCrowded(AfterRun(ops[..n - 1], limit), limit, ops[n - 1], offset);
    }
    AnswerHolds(AfterRun(ops[..n], limit), offset);
    if n < |ops| {
      RunStep(ops, limit, n);
      RunIsRecency(ops[..n], limit);
      if Crowds(AfterRun(ops[..n], limit), limit, ops[n], offset) {
        StaysUnlessCrowded(AfterRun(ops[..n], limit), limit, ops[n], offset);
      }
    }
  }

  lemma AnswerHolds(items: seq<Item>, offset: int)
    ensures Answer(items, offset).Some? <==> Holds(items, offset)
  {
  }

  lemma PutIsHit(items: seq<Item>, limit: int, op: Op)
    requires op.Put? && !Holds(items, op.offset) && BytesFor(op.answer) <= limit
    ensures Answer(After(items, limit, op), op.offset) == Some(op.answer)
  {
    hide Fitting;
    assert op.answer.Cost() == BytesFor(op.answer);
    FindIs(After(items, limit, op), op.offset, 0);
  }

  lemma RunStep(ops: seq<Op>, limit: int, n: nat)
    requires n < |ops|
    ensures AfterRun(ops[..n + 1], limit) == After(AfterRun(ops[..n], limit), limit, ops[n])
  {
    assert ops[..n + 1][..n] == ops[..n];
    hide After;
  }
}
