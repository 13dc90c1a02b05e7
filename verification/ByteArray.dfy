/** A byte array stored as a linked list of equal chunks, with a cursor. */
module ByteArrays {
  import opened ByteTapes
  import Bits
  import opened ByteCodec

  datatype Result<T> = Ok(value: T) | OutOfRange

  class Node {
    const data: array<Byte>
    var next: Node?

    constructor (size: nat)
      ensures next == null && fresh(data) && data[..] == Zeros(size)
    {
      data := new Byte[size](_ => 0);
      next := null;
    }
  }

  /** What follows node `i` of a list. */
  ghost function After(spine: seq<Node>, i: nat): (next: Node?)
    ensures next == null <==> i + 1 >= |spine|
  {
    if i + 1 < |spine| then spine[i + 1] else null
  }

  /** The node that holds byte `p`, or null past the last one. */
  ghost function NodeAt(spine: seq<Node>, p: nat, base: nat): Node?
    requires base > 0
  {
    if ChunkOf(p, base) < |spine| then spine[ChunkOf(p, base)] else null
  }

  ghost predicate Linked(spine: seq<Node>)
    reads spine
  {
    forall i :: 0 <= i < |spine| ==> spine[i].next == After(spine, i)
  }

  /** The list's buffers, all of the same size; no node or buffer occurs twice. */
  ghost predicate Buffers(spine: seq<Node>, arrays: seq<array<Byte>>, base: nat) {
    && |spine| == |arrays|
    && (forall i :: 0 <= i < |spine| ==> spine[i].data == arrays[i] && arrays[i].Length == base)
    && (forall i, j :: 0 <= i < j < |spine| ==> spine[i] != spine[j] && arrays[i] != arrays[j])
  }

  ghost predicate Owned(spine: seq<Node>, arrays: seq<array<Byte>>, repr: set<object>) {
    (forall node :: node in spine ==> node in repr) && (forall buffer :: buffer in arrays ==> buffer in repr)
  }

  ghost predicate Holds(arrays: seq<array<Byte>>, chunks: seq<seq<Byte>>)
    reads arrays
  {
    |arrays| == |chunks| && forall i :: 0 <= i < |arrays| ==> arrays[i][..] == chunks[i]
  }

  lemma BuffersAppend(spine: seq<Node>, arrays: seq<array<Byte>>, base: nat, node: Node)
    requires Buffers(spine, arrays, base) && node !in spine && node.data !in arrays && node.data.Length == base
    ensures Buffers(spine + [node], arrays + [node.data], base)
  {}

  lemma OwnedAppend(spine: seq<Node>, arrays: seq<array<Byte>>, repr: set<object>, node: Node)
    requires Owned(spine, arrays, repr)
    ensures Owned(spine + [node], arrays + [node.data], repr + {node, node.data})
  {}

  lemma HoldsAppend(arrays: seq<array<Byte>>, chunks: seq<seq<Byte>>, data: array<Byte>)
    requires Holds(arrays, chunks)
    ensures Holds(arrays + [data], chunks + [data[..]])
  {}

  method Unlink(node: Node)
    modifies node`next
    ensures Linked([node])
  {
    node.next := null;
  }

  method Link(ghost spine: seq<Node>, tail: Node, node: Node, ghost arrays: seq<array<Byte>>, ghost base: nat)
    requires Buffers(spine, arrays, base) && Linked(spine) && |spine| > 0 && tail == spine[|spine| - 1]
    requires node !in spine && node.next == null
    modifies tail`next
    ensures Linked(spine + [node])
  {
    tail.next := node;
  }

  /** memcpy into buffer `idx`. */
  method CopyTo(data: array<Byte>, offset: nat, piece: seq<Byte>, ghost arrays: seq<array<Byte>>,
                ghost chunks: seq<seq<Byte>>, ghost idx: nat)
    requires Holds(arrays, chunks) && idx < |arrays| && data == arrays[idx] && offset + |piece| <= data.Length
    requires forall i :: 0 <= i < |arrays| && i != idx ==> arrays[i] != data
    modifies data
    ensures offset + |piece| <= |chunks[idx]|
    ensures Holds(arrays, chunks[idx := Overwrite(chunks[idx], offset, piece)])
  {
    forall k | 0 <= k < |piece| {
      data[offset + k] := piece[k];
    }
    assert data[..] == Overwrite(chunks[idx], offset, piece);
  }

  /** A piece of a buffer handed out for scattered input or output. */
  datatype Iovec = Iovec(data: array<Byte>, offset: nat, len: nat)

  ghost predicate InBounds(iovs: seq<Iovec>) {
    forall i :: 0 <= i < |iovs| ==> iovs[i].offset + iovs[i].len <= iovs[i].data.Length
  }

  ghost function Buffered(iovs: seq<Iovec>): set<object> {
    set i | 0 <= i < |iovs| :: iovs[i].data
  }

  /** The bytes a list of pieces covers. */
  ghost function Gathered(iovs: seq<Iovec>): seq<Byte>
    requires InBounds(iovs)
    reads Buffered(iovs)
  {
    if iovs == [] then []
    else
      var last := iovs[|iovs| - 1];
      Gathered(iovs[..|iovs| - 1]) + last.data[last.offset..last.offset + last.len]
  }

  lemma GatheredMore(iovs: seq<Iovec>, iov: Iovec)
    requires InBounds(iovs) && iov.offset + iov.len <= iov.data.Length
    ensures InBounds(iovs + [iov])
    ensures Gathered(iovs + [iov]) == Gathered(iovs) + iov.data[iov.offset..iov.offset + iov.len]
  {
    assert (iovs + [iov])[..|iovs|] == iovs;
  }

  class ByteArray {
    const baseSize: nat
    var position: nat
    var capacity: nat
    var size: nat
    var order: Order
    var root: Node
    var cur: Node?
    /** The list from the root, the buffers in it, and their contents. */
    ghost var spine: seq<Node>
    ghost var arrays: seq<array<Byte>>
    ghost var chunks: seq<seq<Byte>>
    /** Everything the array may change besides itself. */
    ghost var repr: set<object>

    /** The nodes form a list of chunks of `baseSize` bytes. */
    ghost predicate Shape()
      reads this, spine
    {
      && baseSize > 0
      && |spine| > 0 && root == spine[0]
      && capacity == Span(|spine|, baseSize)
      && Buffers(spine, arrays, baseSize)
      && Linked(spine)
      && Owned(spine, arrays, repr) && this !in repr
    }

    ghost predicate Loaded()
      reads this, arrays
    {
      Holds(arrays, chunks)
    }

    ghost predicate Valid()
      reads this, spine, arrays
    {
      Shape() && Loaded() && position <= size <= capacity && cur == NodeAt(spine, position, baseSize)
    }

    /** The flat form. */
    ghost function View(): Tape
      reads this
    {
      Tape(Flat(chunks), position, size)
    }

    lemma FlatSize()
      requires Shape() && Loaded()
      ensures |Flat(chunks)| == capacity && Uniform(chunks, baseSize)
    {
      assert forall i :: 0 <= i < |chunks| ==> chunks[i] == arrays[i][..];
      FlatLength(chunks, baseSize);
    }

    lemma InView()
      requires Valid()
      ensures InRange(View()) && baseSize > 0
    {
      FlatSize();
    }

    constructor (baseSize: nat)
      requires baseSize > 0
      ensures Valid() && this.baseSize == baseSize && order == Big && View() == Tape(Zeros(baseSize), 0, 0)
      ensures fresh(repr)
    {
      var node := new Node(baseSize);
      this.baseSize := baseSize;
      position, capacity, size := 0, baseSize, 0;
      order := Big;
      root, cur := node, node;
      spine, arrays, chunks := [node], [node.data], [Zeros(baseSize)];
      repr := {node, node.data};
      new;
      assert Flat(chunks) == Flat(chunks[..0]) + Zeros(baseSize) == Zeros(baseSize);
      Bits.DivModUnique(0, baseSize, 0, 0);
    }

    method SetIsLittleEndian(little: bool)
      requires Valid()
      modifies this`order
      ensures Valid() && View() == old(View()) && order == if little then Little else Big
    {
      order := if little then Little else Big;
    }

    /** The last node of the list. */
    method FindTail() returns (tail: Node)
      requires Shape()
      ensures tail == spine[|spine| - 1]
    {
      tail := root;
      ghost var k := 0;
      while tail.next != null
        invariant 0 <= k < |spine| && tail == spine[k]
        decreases |spine| - k
      {
        tail := tail.next;
        k := k + 1;
      }
    }

    /** Links one empty chunk behind the last. */
    method Append(tail: Node) returns (node: Node)
      requires Shape() && Loaded() && tail == spine[|spine| - 1]
      modifies this`capacity, this`spine, this`arrays, this`chunks, this`repr, tail`next
      ensures Shape() && Loaded() && fresh(node) && fresh(node.data)
      ensures capacity == old(capacity) + baseSize
      ensures spine == old(spine) + [node] && arrays == old(arrays) + [node.data]
      ensures chunks == old(chunks) + [Zeros(baseSize)] && repr == old(repr) + {node, node.data}
    {
      hide Buffers, Holds, Owned, Linked, Span, Zeros, Flat;
      node := new Node(baseSize);
      OneMore(|spine|, baseSize);
      BuffersAppend(spine, arrays, baseSize, node);
      OwnedAppend(spine, arrays, repr, node);
      HoldsAppend(arrays, chunks, node.data);
      Link(spine, tail, node, arrays, baseSize);
      capacity := capacity + baseSize;
      spine, arrays, chunks := spine + [node], arrays + [node.data], chunks + [Zeros(baseSize)];
      repr := repr + {node, node.data};
    }

    lemma TailOwned()
      requires Shape()
      ensures spine[|spine| - 1] in repr
    {}

    /** Appends `count` empty chunks and returns the first of them, if any. */
    method Extend(count: nat) returns (first: Node?)
      requires Shape() && Loaded()
      modifies this`capacity, this`spine, this`arrays, this`chunks, this`repr, repr
      ensures Shape() && Loaded() && fresh(repr - old(repr))
      ensures capacity == old(capacity) + Span(count, baseSize) && old(spine) <= spine
      ensures Flat(chunks) == Flat(old(chunks)) + Zeros(Span(count, baseSize))
      ensures count > 0 ==> |spine| > |old(spine)| && first == spine[|old(spine)|]
      ensures count == 0 ==> spine == old(spine)
    {
      hide Buffers, Holds, Owned, Linked, Span, Zeros, Flat;
      var tail := FindTail();
      first := null;
      NoMore(Flat(chunks), baseSize);
      var i := 0;
      while i < count
        invariant i <= count && Shape() && Loaded() && fresh(repr - old(repr))
        invariant tail == spine[|spine| - 1]
        invariant capacity == old(capacity) + Span(i, baseSize) && |spine| == |old(spine)| + i && old(spine) <= spine
        invariant Flat(chunks) == Flat(old(chunks)) + Zeros(Span(i, baseSize))
        invariant first == if i > 0 then spine[|old(spine)|] else null
      {
        FlatAppend(chunks, baseSize, Flat(old(chunks)), i);
        OneMore(i, baseSize);
        TailOwned();
        var node := Append(tail);
        if first == null {
          first := node;
        }
        tail := node;
        i := i + 1;
      }
    }

    /** Makes room for `n` bytes from the cursor on. */
    method AddCapacity(n: nat)
      requires Valid()
      modifies this`capacity, this`spine, this`arrays, this`chunks, this`repr, this`cur, repr
      ensures Valid() && fresh(repr - old(repr)) && position + n <= capacity
      ensures Flat(chunks) == if n == 0 then Flat(old(chunks)) else Grown(Flat(old(chunks)), position + n, baseSize)
    {
      hide Buffers, Holds, Owned, Linked, Span, Zeros, Flat, Missing;
      if n == 0 {
        return;
      }
      FlatSize();
      NoMore(Flat(chunks), baseSize);
      MissingNone(capacity, position + n, baseSize);
      var left := capacity - position;
      if left >= n {
        return;
      }
      var count := Missing(capacity, position + n, baseSize);
      CursorBelow(position, baseSize, |spine|);
      var first := Extend(count);
      if left == 0 {
        cur := first;
      }
    }

    /** What a write inside node `idx` amounts to. */
    lemma PokeFlat(idx: nat, offset: nat, piece: seq<Byte>)
      requires Shape() && Loaded() && idx < |spine| && offset + |piece| <= baseSize
      ensures |chunks| == |arrays| == |spine| && |chunks[idx]| == baseSize
      ensures Span(idx, baseSize) + offset + |piece| <= |Flat(chunks)|
      ensures Flat(chunks[idx := Overwrite(chunks[idx], offset, piece)])
           == Overwrite(Flat(chunks), Span(idx, baseSize) + offset, piece)
      ensures arrays[idx] == spine[idx].data && arrays[idx].Length == baseSize
      ensures forall i :: 0 <= i < |arrays| && i != idx ==> arrays[i] != arrays[idx]
    {
      FlatSize();
      FlatOverwrite(chunks, idx, baseSize, offset, piece);
    }

    /** memcpy into one node. */
    method Poke(ghost idx: nat, node: Node, offset: nat, piece: seq<Byte>)
      requires Shape() && Loaded() && idx < |spine| && node == spine[idx] && offset + |piece| <= baseSize
      modifies this`chunks, node.data
      ensures Shape() && Loaded()
      ensures Span(idx, baseSize) + offset + |piece| <= |Flat(old(chunks))|
      ensures Flat(chunks) == Overwrite(Flat(old(chunks)), Span(idx, baseSize) + offset, piece)
    {
      hide Flat, Overwrite, Span, Linked, Holds, Buffers, Owned;
      PokeFlat(idx, offset, piece);
      CopyTo(node.data, offset, piece, arrays, chunks, idx);
      chunks := chunks[idx := Overwrite(chunks[idx], offset, piece)];
    }

    /** Where the cursor is when bytes are left before the end of the list, and where it
        goes from there within the node or to its end. */
    lemma FoundAt(node: Node?, at: nat, n: nat) returns (idx: nat)
      requires Shape() && node == NodeAt(spine, at, baseSize) && at < capacity
      requires Offset(at, baseSize) + n <= baseSize
      ensures Offset(at, baseSize) < baseSize
      ensures idx < |spine| && node == spine[idx] && at == Span(idx, baseSize) + Offset(at, baseSize)
      ensures node.data.Length == baseSize
      ensures NodeAt(spine, at + n, baseSize) == if Offset(at, baseSize) + n == baseSize then node.next else node
      ensures Offset(at, baseSize) + n == baseSize ==> Offset(at + n, baseSize) == 0
    {
      hide Span, ChunkOf, Offset;
      idx := ChunkOf(at, baseSize);
      Locate(at, baseSize, |spine|, n);
    }

    /** memcpy of one piece under the cursor, and the move past it. */
    method WriteSome(piece: seq<Byte>, offset: nat)
      requires Shape() && Loaded() && cur == NodeAt(spine, position, baseSize) && position < capacity
      requires offset == Offset(position, baseSize) && offset + |piece| <= baseSize && cur != null
      modifies this`chunks, this`cur, this`position, cur.data
      ensures Shape() && Loaded() && cur == NodeAt(spine, position, baseSize) && position == old(position) + |piece|
      ensures old(position) + |piece| <= |Flat(old(chunks))|
      ensures Flat(chunks) == Overwrite(Flat(old(chunks)), old(position), piece)
      ensures offset + |piece| == baseSize ==> Offset(position, baseSize) == 0
    {
      hide Buffers, Holds, Owned, Linked, Span, Flat, Overwrite, NodeAt, Offset, After;
      ghost var idx := FoundAt(cur, position, |piece|);
      Poke(idx, cur, offset, piece);
      if cur.data.Length == offset + |piece| {
        cur := cur.next;
      }
      position := position + |piece|;
    }

    lemma InArrays(idx: nat)
      requires Shape() && idx < |spine|
      ensures spine[idx].data in repr
    {
      assert arrays[idx] in arrays;
    }

    method Write(buf: seq<Byte>)
      requires Valid()
      modifies this, repr
      ensures Valid() && fresh(repr - old(repr)) && InRange(old(View())) && order == old(order)
      ensures View() == Written(old(View()), buf, baseSize)
    {
      hide Buffers, Holds, Owned, Linked, Span, Flat, Overwrite, NodeAt, Offset, After, Grown;
      FlatSize();
      if buf == [] {
        return;
      }
      AddCapacity(|buf|);
      FlatSize();
      ghost var start, bytes := position, Flat(chunks);
      NothingWritten(bytes, start);
      var nodeOffset := Offset(position, baseSize);
      OffsetBelow(position, baseSize);
      var nodeAvail := baseSize - nodeOffset;
      var bufOffset: nat, left: nat := 0, |buf|;
      while left > 0
        invariant bufOffset + left == |buf| && position == start + bufOffset && position + left <= capacity
        invariant Shape() && Loaded() && fresh(repr - old(repr)) && cur == NodeAt(spine, position, baseSize)
        invariant size == old(size) && order == old(order)
        invariant left > 0 ==> nodeOffset == Offset(position, baseSize) < baseSize && nodeAvail == baseSize - nodeOffset
        invariant |bytes| == capacity && Flat(chunks) == Overwrite(bytes, start, buf[..bufOffset])
      {
        var n := if nodeAvail >= left then left else nodeAvail;
        OverwriteMore(bytes, start, buf[..bufOffset], buf[bufOffset..bufOffset + n]);
        assert buf[..bufOffset] + buf[bufOffset..bufOffset + n] == buf[..bufOffset + n];
        ghost var idx := FoundAt(cur, position, 0);
        InArrays(idx);
        WriteSome(buf[bufOffset..bufOffset + n], nodeOffset);
        bufOffset := bufOffset + n;
        left := left - n;
        if left > 0 {
          nodeAvail, nodeOffset := baseSize, 0;
        }
      }
      assert buf[..bufOffset] == buf;
      if position > size {
        size := position;
      }
    }

    /** The bytes in one node, as part of the whole. */
    lemma PeekFlat(idx: nat, offset: nat, n: nat)
      requires Shape() && Loaded() && idx < |spine| && offset + n <= baseSize
      ensures Span(idx, baseSize) + offset + n <= |Flat(chunks)| && offset + n <= spine[idx].data.Length
      ensures spine[idx].data[offset..offset + n]
           == Flat(chunks)[Span(idx, baseSize) + offset..Span(idx, baseSize) + offset + n]
    {
      hide Span, Flat, Linked, Owned;
      FlatSize();
      FlatRead(chunks, idx, baseSize, offset, n);
      assert spine[idx].data[..] == chunks[idx];
    }

    /** One turn of the reading loops: the next `n` bytes in the node of `at`, behind those
        from `start` on. */
    lemma PeekMore(node: Node?, start: nat, at: nat, n: nat)
      requires Shape() && Loaded() && node == NodeAt(spine, at, baseSize) && start <= at < capacity
      requires Offset(at, baseSize) + n <= baseSize
      ensures node != null && node.data.Length == baseSize && at + n <= |Flat(chunks)|
      ensures var offset := Offset(at, baseSize);
        && Flat(chunks)[start..at] + node.data[offset..offset + n] == Flat(chunks)[start..at + n]
        && NodeAt(spine, at + n, baseSize) == (if offset + n == baseSize then node.next else node)
        && (offset + n == baseSize ==> Offset(at + n, baseSize) == 0)
    {
      hide Buffers, Holds, Owned, Linked, Span, Flat, NodeAt, Offset;
      var idx := FoundAt(node, at, n);
      PeekFlat(idx, Offset(at, baseSize), n);
    }

    /** Reads `n` bytes at the cursor; zero bytes may only be read where there is a node. */
    method Read(n: nat) returns (result: Result<seq<Byte>>)
      requires Valid() && (n == 0 ==> cur != null)
      modifies this`position, this`cur
      ensures Valid() && InRange(old(View()))
      ensures result.OutOfRange? <==> n > |Rest(old(View()))|
      ensures result.OutOfRange? ==> View() == old(View())
      ensures result.Ok? ==> result.value == Rest(old(View()))[..n]
      ensures result.Ok? ==> View() == old(View()).(position := old(position) + n)
    {
      hide Buffers, Holds, Owned, Linked, Span, Flat, NodeAt, Offset, After;
      FlatSize();
      if n > size - position {
        return OutOfRange;
      }
      var nodeOffset := Offset(position, baseSize);
      OffsetBelow(position, baseSize);
      var nodeAvail := baseSize - nodeOffset;
      var buf, left: nat := [], n;
      while left > 0
        invariant |buf| + left == n && position == old(position) + |buf| && position + left <= size
        invariant cur == NodeAt(spine, position, baseSize)
        invariant left > 0 ==> nodeOffset == Offset(position, baseSize) < baseSize
        invariant left > 0 ==> nodeAvail == baseSize - nodeOffset
        invariant buf == Flat(chunks)[old(position)..position]
      {
        var k := if nodeAvail >= left then left else nodeAvail;
        PeekMore(cur, old(position), position, k);
        buf := buf + cur.data[nodeOffset..nodeOffset + k];
        if cur.data.Length == nodeOffset + k {
          cur := cur.next;
        }
        position := position + k;
        left := left - k;
        if left > 0 {
          nodeAvail, nodeOffset := baseSize, 0;
        }
      }
      assert Rest(old(View()))[..n] == Flat(chunks)[old(position)..old(position) + n];
      return Ok(buf);
    }

    /** The node of a position that has one. */
    method NodeOf(at: nat) returns (node: Node)
      requires Shape() && at < capacity
      ensures node == NodeAt(spine, at, baseSize)
    {
      var count := ChunkOf(at, baseSize);
      CursorBelow(at, baseSize, |spine|);
      node := root;
      ghost var k := 0;
      while count > 0
        invariant k + count == ChunkOf(at, baseSize) && node == spine[k]
      {
        node := node.next;
        count, k := count - 1, k + 1;
      }
    }

    /** More than one chunk away from node `k`. */
    lemma NextNode(k: nat, left: nat)
      requires Shape() && k < |spine| && baseSize < left && Span(k, baseSize) + left <= capacity
      ensures k + 1 < |spine| && spine[k].next == spine[k + 1]
      ensures Span(k + 1, baseSize) == Span(k, baseSize) + baseSize
    {
      OneMore(k, baseSize);
    }

    /** At most one chunk away from node `k`. */
    lemma Settled(k: nat, left: nat)
      requires Shape() && k < |spine| && left <= baseSize
      ensures NodeAt(spine, Span(k, baseSize) + left, baseSize) == if left == baseSize then spine[k].next else spine[k]
    {
      if left == baseSize {
        Bits.DivModUnique(Span(k, baseSize) + left, baseSize, k + 1, 0);
      } else {
        Bits.DivModUnique(Span(k, baseSize) + left, baseSize, k, left);
      }
    }

    method SetPosition(v: nat) returns (ok: bool)
      requires Valid()
      modifies this`position, this`size, this`cur
      ensures Valid() && InRange(old(View()))
      ensures ok <==> v <= |old(View()).bytes|
      ensures View() == if ok then Tape(old(View()).bytes, v, if v > old(size) then v else old(size)) else old(View())
    {
      hide Buffers, Holds, Owned, Linked, Span, Flat, NodeAt, Offset, After;
      FlatSize();
      if v > capacity {
        return false;
      }
      position := v;
      if position > size {
        size := position;
      }
      cur := root;
      var left: nat := v;
      ghost var k: nat := 0;
      NoMore(Flat(chunks), baseSize);
      while left > baseSize
        invariant k < |spine| && cur == spine[k] && v == Span(k, baseSize) + left
        invariant position == v && size == if v > old(size) then v else old(size)
      {
        NextNode(k, left);
        left := left - baseSize;
        cur := cur.next;
        k := k + 1;
      }
      Settled(k, left);
      if left == baseSize {
        cur := cur.next;
      }
      return true;
    }

    /** Reads `n` bytes at `at` without the cursor.  What is left behind `at` is a `size_t`,
        so beyond the data it is nearly 2^64, and the read goes through as long as the list
        has the bytes. */
    method ReadAt(n: nat, at: nat) returns (result: Result<seq<Byte>>)
      requires Valid() && size < Bits.U64 && at < Bits.U64
      requires n <= (size - at) % Bits.U64 ==> at < capacity && at + n <= capacity
      ensures InRange(View())
      ensures at <= size ==> (result.OutOfRange? <==> n > size - at)
      ensures at > size ==> (result.OutOfRange? <==> n > Bits.U64 - (at - size))
      ensures result.Ok? ==> at + n <= |View().bytes| && result.value == View().bytes[at..at + n]
    {
      hide Buffers, Holds, Owned, Linked, Span, Flat, NodeAt, Offset, After;
      FlatSize();
      if n > (size - at) % Bits.U64 {
        return OutOfRange;
      }
      var nodeOffset := Offset(at, baseSize);
      OffsetBelow(at, baseSize);
      var node: Node? := NodeOf(at);
      var nodeAvail := baseSize - nodeOffset;
      var buf, left: nat := [], n;
      while left > 0
        invariant |buf| + left == n
        invariant node == NodeAt(spine, at + |buf|, baseSize)
        invariant left > 0 ==> nodeOffset == Offset(at + |buf|, baseSize) < baseSize
        invariant left > 0 ==> nodeAvail == baseSize - nodeOffset
        invariant buf == Flat(chunks)[at..at + |buf|]
      {
        var k := if nodeAvail >= left then left else nodeAvail;
        PeekMore(node, at, at + |buf|, k);
        buf := buf + node.data[nodeOffset..nodeOffset + k];
        if node.data.Length == nodeOffset + k {
          node := node.next;
        }
        left := left - k;
        if left > 0 {
          nodeAvail, nodeOffset := baseSize, 0;
        }
      }
      return Ok(buf);
    }

    /** Walks over the chunks behind the first, which the source frees. */
    method Release()
      requires Shape()
      modifies this`cur
    {
      var tmp := root.next;
      ghost var k := 1;
      while tmp != null
        invariant 1 <= k <= |spine| && tmp == After(spine, k - 1)
        decreases |spine| - k
      {
        cur := tmp;
        tmp := tmp.next;
        k := k + 1;
      }
    }

    lemma RootOwned()
      requires Shape()
      ensures root in repr
    {}

    lemma FirstChunk()
      requires Shape() && Loaded()
      ensures |chunks| > 0 && |arrays| > 0
      ensures Buffers(spine[..1], arrays[..1], baseSize) && Holds(arrays[..1], chunks[..1])
      ensures Owned(spine[..1], arrays[..1], repr)
      ensures |Flat(chunks)| >= baseSize && Flat(chunks[..1]) == Flat(chunks)[..baseSize]
      ensures Span(1, baseSize) == baseSize && NodeAt(spine[..1], 0, baseSize) == spine[0]
    {
      FlatSize();
      FlatSplit(chunks, 0, baseSize);
      assert chunks[..1][..0] == [];
      Bits.DivModUnique(0, baseSize, 0, 0);
    }

    /** Empties the array down to its first chunk, whose bytes stay. */
    method Clear()
      requires Valid()
      modifies this, repr
      ensures Valid() && |old(View()).bytes| >= baseSize && order == old(order)
      ensures View() == Tape(old(View()).bytes[..baseSize], 0, 0)
      ensures repr == old(repr)
    {
      hide Holds, Owned, Span, Flat, NodeAt, Buffers, Linked;
      FirstChunk();
      RootOwned();
      Release();
      position, size := 0, 0;
      capacity := baseSize;
      cur := root;
      Unlink(root);
      spine, arrays, chunks := spine[..1], arrays[..1], chunks[..1];
      assert spine == [root];
    }

    /** The pieces that hold the next `len` bytes, or all that are left. */
    method GetReadBuffers(len: nat) returns (iovs: seq<Iovec>, total: nat)
      requires Valid()
      ensures InRange(View()) && InBounds(iovs)
      ensures total == (if len > |Rest(View())| then |Rest(View())| else len)
      ensures Gathered(iovs) == Rest(View())[..total]
    {
      hide Buffers, Holds, Owned, Linked, Span, Flat, NodeAt, Offset, After, Gathered;
      FlatSize();
      GatheredNone();
      total := if len > size - position then size - position else len;
      iovs := [];
      if total == 0 {
        assert Rest(View())[..0] == [];
        return;
      }
      var nodeOffset := Offset(position, baseSize);
      OffsetBelow(position, baseSize);
      var node := cur;
      var nodeAvail := baseSize - nodeOffset;
      var left: nat := total;
      ghost var at: nat := position;
      while left > 0
        invariant at + left == position + total && position <= at
        invariant left > 0 ==> node == NodeAt(spine, at, baseSize)
        invariant left > 0 ==> nodeOffset == Offset(at, baseSize) < baseSize
        invariant left > 0 ==> nodeAvail == baseSize - nodeOffset
        invariant InBounds(iovs) && Gathered(iovs) == Flat(chunks)[position..at]
      {
        var k := if nodeAvail >= left then left else nodeAvail;
        PeekMore(node, position, at, k);
        GatheredMore(iovs, Iovec(node.data, nodeOffset, k));
        iovs := iovs + [Iovec(node.data, nodeOffset, k)];
        at := at + k;
        left := left - k;
        if left > 0 {
          node := node.next;
          nodeAvail, nodeOffset := baseSize, 0;
        }
      }
      assert Rest(View())[..total] == Flat(chunks)[position..position + total];
    }

    lemma GatheredNone()
      ensures Gathered([]) == []
    {}
  }
}
