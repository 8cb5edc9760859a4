// util::ByteArray: a growable buffer kept as a chain of equal nodes
// (util/serializer.h:61-175, util/serializer.cpp:72-101 and 351-763).
//
// `Contents()` is what the chain means: one flat byte string as long as the
// capacity. Every operation is specified on that string alone.
module ByteArrays {
  import opened Arith
  import opened Bytes
  import opened Float32

  class Node {
    const data: array<byte>
    const size: nat
    var next: Node?

    // The bytes of a new node are whatever the allocator left there.
    constructor (size: nat)
      ensures this.size == data.Length == size && next == null
      ensures fresh(data)
    {
      data := new byte[size];
      this.size := size;
      next := null;
    }
  }

  // A stretch of memory handed to scatter/gather input and output.
  datatype IoVec = IoVec(base: array<byte>, offset: nat, len: nat)

  function Total(segments: seq<IoVec>, k: nat): nat
    requires k <= |segments|
  {
    if k == 0 then 0 else Total(segments, k - 1) + segments[k - 1].len
  }

  lemma {:induction false} TotalGrows(segments: seq<IoVec>, j: nat, k: nat)
    requires j <= k <= |segments|
    ensures Total(segments, j) <= Total(segments, k)
  {
    if j < k {
      TotalGrows(segments, j, k - 1);
    }
  }

  // Sizes are 64-bit words.
  const SIZE_WORD: nat := 0x1_0000_0000_0000_0000

  // The capacity that a write of n bytes at pos leaves behind.
  function Grown(nodeSize: nat, total: nat, pos: nat, n: nat): (capacity: nat)
    requires nodeSize > 0
  {
    if pos + n <= total then total else Times(CeilDiv(pos + n, nodeSize), nodeSize)
  }

  // It is the least multiple of the node size that keeps the old capacity and fits the write.
  lemma GrownIsLeast(nodeSize: nat, nodes: nat, pos: nat, n: nat, other: nat)
    requires nodeSize > 0
    ensures var g := Grown(nodeSize, Times(nodes, nodeSize), pos, n);
            && Mod(g, nodeSize) == 0
            && Times(nodes, nodeSize) <= g && pos + n <= g
            && (nodes <= other && pos + n <= Times(other, nodeSize) ==> g <= Times(other, nodeSize))
  {
    var c := if pos + n <= Times(nodes, nodeSize) then nodes else CeilDiv(pos + n, nodeSize);
    CeilDivCovers(pos + n, nodeSize);
    DivModUnique(Times(c, nodeSize), nodeSize, c, 0);
    TimesMonotone(nodes, other, nodeSize);
    if pos + n <= Times(other, nodeSize) {
      CeilDivLeast(pos + n, nodeSize, other);
    }
    TimesMonotone(c, other, nodeSize);
    TimesMonotone(c, nodes, nodeSize);
  }

  lemma GrownByCeil(nodeSize: nat, nodes: nat, pos: nat, n: nat)
    requires nodeSize > 0 && Times(nodes, nodeSize) < pos + n
    ensures Times(nodes + CeilDiv(pos + n - Times(nodes, nodeSize), nodeSize), nodeSize)
         == Grown(nodeSize, Times(nodes, nodeSize), pos, n)
  {
    var missing := pos + n - Times(nodes, nodeSize);
    var c := CeilDiv(missing, nodeSize);
    CeilDivCovers(missing, nodeSize);
    TimesSum(nodes, c, nodeSize);
    CeilDivLeast(pos + n, nodeSize, nodes + c);
  }

  lemma GrownExactly(nodeSize: nat, nodes: nat, pos: nat, n: nat, count: nat)
    requires nodeSize > 0 && Times(nodes, nodeSize) < pos + n
    ensures var missing := pos + n - Times(nodes, nodeSize);
            && (count == CeilDiv(missing, nodeSize) <==>
                  Times(nodes + count, nodeSize) == Grown(nodeSize, Times(nodes, nodeSize), pos, n))
            && pos + n <= Grown(nodeSize, Times(nodes, nodeSize), pos, n)
            && Times(nodes, nodeSize) <= Times(nodes + count, nodeSize)
  {
    var c := CeilDiv(pos + n - Times(nodes, nodeSize), nodeSize);
    GrownByCeil(nodeSize, nodes, pos, n);
    GrownIsLeast(nodeSize, nodes, pos, n, 0);
    TimesMonotone(nodes, nodes + count, nodeSize);
    TimesMonotone(nodes + count, nodes + c, nodeSize);
    TimesMonotone(nodes + c, nodes + count, nodeSize);
  }

  // Growing by a stretch and then by the next one is growing by both at once.
  lemma GrownTwice(nodeSize: nat, total: nat, pos: nat, m: nat, n: nat)
    requires nodeSize > 0
    ensures Grown(nodeSize, Grown(nodeSize, total, pos, m), pos + m, n) == Grown(nodeSize, total, pos, m + n)
    ensures pos + m <= Grown(nodeSize, total, pos, m)
  {
    CeilDivCovers(pos + m, nodeSize);
    CeilDivCovers(pos + m + n, nodeSize);
    var c := CeilDiv(pos + m, nodeSize);
    if total < pos + m && pos + m + n <= Times(c, nodeSize) {
      CeilDivLeast(pos + m + n, nodeSize, c);
    }
  }

  // How many nodes `addTotalSize` adds for a write of n bytes at pos.
  function Added(nodeSize: nat, total: nat, pos: nat, n: nat): nat
    requires nodeSize > 0
  {
    if pos + n <= total then 0 else CeilOfFloatQuotient(pos + n - total, nodeSize)
  }

  // The capacity it leaves behind.
  function Capacity(nodeSize: nat, total: nat, pos: nat, n: nat): nat
    requires nodeSize > 0
  {
    total + Times(Added(nodeSize, total, pos, n), nodeSize)
  }

  // Whether its float ceiling (see Float32) is the exact one for that write ...
  predicate GrowsRight(nodeSize: nat, total: nat, pos: nat, n: nat)
    requires nodeSize > 0
  {
    pos + n <= total || CeilOfFloatQuotient(pos + n - total, nodeSize) == CeilDiv(pos + n - total, nodeSize)
  }

  // ... and whether it is at least not too small.
  predicate GrowsEnough(nodeSize: nat, total: nat, pos: nat, n: nat)
    requires nodeSize > 0
  {
    pos + n <= Capacity(nodeSize, total, pos, n)
  }

  lemma CapacityExactly(nodeSize: nat, nodes: nat, pos: nat, n: nat)
    requires nodeSize > 0
    ensures var total := Times(nodes, nodeSize);
            && Capacity(nodeSize, total, pos, n) == Times(nodes + Added(nodeSize, total, pos, n), nodeSize)
            && (GrowsRight(nodeSize, total, pos, n) <==>
                  Capacity(nodeSize, total, pos, n) == Grown(nodeSize, total, pos, n))
            && (GrowsRight(nodeSize, total, pos, n) ==> GrowsEnough(nodeSize, total, pos, n))
  {
    var total := Times(nodes, nodeSize);
    var count := Added(nodeSize, total, pos, n);
    TimesSum(nodes, count, nodeSize);
    if pos + n > total {
      GrownExactly(nodeSize, nodes, pos, n, count);
    }
  }

  // Writes one after the other.
  function CapacityAll(nodeSize: nat, total: nat, pos: nat, sizes: seq<nat>): nat
    requires nodeSize > 0
    decreases |sizes|
  {
    if sizes == [] then total
    else CapacityAll(nodeSize, Capacity(nodeSize, total, pos, sizes[0]), pos + sizes[0], sizes[1..])
  }

  predicate AllGrowEnough(nodeSize: nat, total: nat, pos: nat, sizes: seq<nat>)
    requires nodeSize > 0
    decreases |sizes|
  {
    sizes == [] || (
      && GrowsEnough(nodeSize, total, pos, sizes[0])
      && AllGrowEnough(nodeSize, Capacity(nodeSize, total, pos, sizes[0]), pos + sizes[0], sizes[1..]))
  }

  function Sum(sizes: seq<nat>): nat {
    if sizes == [] then 0 else sizes[0] + Sum(sizes[1..])
  }

  lemma SmallGrowsExactly(nodeSize: nat, nodes: nat, pos: nat, n: nat)
    requires nodeSize > 0 && pos <= Times(nodes, nodeSize) && n <= SIGNIFICAND_MAX
    ensures var total := Times(nodes, nodeSize);
            && GrowsEnough(nodeSize, total, pos, n)
            && Capacity(nodeSize, total, pos, n) == Times(nodes + Added(nodeSize, total, pos, n), nodeSize)
            && Capacity(nodeSize, total, pos, n) == Grown(nodeSize, total, pos, n)
  {
    if pos + n > Times(nodes, nodeSize) {
      CeilOfFloatQuotientExact(pos + n - Times(nodes, nodeSize), nodeSize);
    }
    CapacityExactly(nodeSize, nodes, pos, n);
  }

  // No write of 2^24 bytes or less can go wrong.
  lemma {:induction false} SmallGrowRight(nodeSize: nat, nodes: nat, pos: nat, sizes: seq<nat>)
    requires nodeSize > 0 && pos <= Times(nodes, nodeSize)
    requires forall i :: 0 <= i < |sizes| ==> sizes[i] <= SIGNIFICAND_MAX
    ensures AllGrowEnough(nodeSize, Times(nodes, nodeSize), pos, sizes)
    ensures CapacityAll(nodeSize, Times(nodes, nodeSize), pos, sizes)
         == Grown(nodeSize, Times(nodes, nodeSize), pos, Sum(sizes))
    decreases |sizes|
  {
    if sizes != [] {
      var n, total := sizes[0], Times(nodes, nodeSize);
      SmallGrowsExactly(nodeSize, nodes, pos, n);
      GrownTwice(nodeSize, total, pos, n, Sum(sizes[1..]));
      SmallGrowRight(nodeSize, nodes + Added(nodeSize, total, pos, n), pos + n, sizes[1..]);
    }
  }

  lemma SmallGrowsRight(nodeSize: nat, nodes: nat, pos: nat, n: nat)
    requires nodeSize > 0 && pos <= Times(nodes, nodeSize) && n <= SIGNIFICAND_MAX
    ensures GrowsEnough(nodeSize, Times(nodes, nodeSize), pos, n)
  {
    SmallGrowsExactly(nodeSize, nodes, pos, n);
  }

  lemma BothGrowEnough(nodeSize: nat, total: nat, pos: nat, m: nat, n: nat)
    requires nodeSize > 0
    ensures AllGrowEnough(nodeSize, total, pos, [m, n]) ==>
              GrowsEnough(nodeSize, Capacity(nodeSize, total, pos, m), pos + m, n)
    ensures CapacityAll(nodeSize, total, pos, [m, n])
         == Capacity(nodeSize, Capacity(nodeSize, total, pos, m), pos + m, n)
  {
    var c := Capacity(nodeSize, total, pos, m);
    assert [m, n][1..] == [n];
    assert AllGrowEnough(nodeSize, c, pos + m, [n]) ==> GrowsEnough(nodeSize, c, pos + m, n);
    assert CapacityAll(nodeSize, c, pos + m, [n]) == Capacity(nodeSize, c, pos + m, n);
  }

  lemma {:induction false} AllGrowEnoughSplit(nodeSize: nat, total: nat, pos: nat, a: seq<nat>, b: seq<nat>)
    requires nodeSize > 0 && AllGrowEnough(nodeSize, total, pos, a + b)
    ensures AllGrowEnough(nodeSize, total, pos, a)
    ensures AllGrowEnough(nodeSize, CapacityAll(nodeSize, total, pos, a), pos + Sum(a), b)
    decreases |a|
  {
    if a == [] {
      assert a + b == b;
    } else {
      assert (a + b)[1..] == a[1..] + b;
      AllGrowEnoughSplit(nodeSize, Capacity(nodeSize, total, pos, a[0]), pos + a[0], a[1..], b);
    }
  }

  ghost function NodeAt(nodes: seq<Node>, k: nat): Node? {
    if k < |nodes| then nodes[k] else null
  }

  // The node number of a position: past the last node only at the very end.
  lemma NodeOfPosition(nodeSize: nat, nodes: nat, position: nat)
    requires nodeSize > 0 && position <= Times(nodes, nodeSize)
    ensures position == Times(nodes, nodeSize) ==> Div(position, nodeSize) == nodes && Mod(position, nodeSize) == 0
    ensures position < Times(nodes, nodeSize) ==> Div(position, nodeSize) < nodes
  {
    DivMod(position, nodeSize);
    if position == Times(nodes, nodeSize) {
      DivModUnique(position, nodeSize, nodes, 0);
    } else {
      TimesMonotone(nodes, Div(position, nodeSize), nodeSize);
    }
  }

  // An offset into node k, or its end, as a position.
  lemma NodeOfOffset(nodeSize: nat, nodes: nat, k: nat, offset: nat)
    requires nodeSize > 0 && k < nodes && offset <= nodeSize
    ensures Times(k, nodeSize) + offset <= Times(nodes, nodeSize)
    ensures Div(Times(k, nodeSize) + offset, nodeSize) == if offset < nodeSize then k else k + 1
    ensures Mod(Times(k, nodeSize) + offset, nodeSize) == if offset < nodeSize then offset else 0
  {
    TimesMonotone(k, nodes, nodeSize);
    if offset < nodeSize {
      DivModUnique(Times(k, nodeSize) + offset, nodeSize, k, offset);
    } else {
      DivModUnique(Times(k, nodeSize) + offset, nodeSize, k + 1, 0);
    }
  }

  // Bytes beyond the end of node k mean that node k + 1 exists.
  lemma NodeAfter(nodeSize: nat, nodes: nat, k: nat, offset: nat)
    requires Times(k, nodeSize) + offset <= Times(nodes, nodeSize) && offset > nodeSize
    ensures k + 1 < nodes
    ensures Times(k + 1, nodeSize) == Times(k, nodeSize) + nodeSize
  {
    TimesMonotone(nodes, k + 1, nodeSize);
  }

  function Max(a: nat, b: nat): nat {
    if a < b then b else a
  }

  // memcpy of a whole byte string into a node.
  method CopyIn(dst: array<byte>, offset: nat, src: seq<byte>)
    requires offset + |src| <= dst.Length
    modifies dst
    ensures dst[..] == Splice(old(dst[..]), offset, src)
  {
    forall i | 0 <= i < |src| {
      dst[offset + i] := src[i];
    }
  }

  // `read` either delivers its bytes or throws out of range.
  datatype ReadResult = Delivered(data: seq<byte>) | OutOfRange

  class ByteArray {
    const nodeSize: nat
    const root: Node
    var cur: Node?
    var totalSize: nat
    var dataSize: nat
    var position: nat
    var endian: Endian

    // The chain that starts at `root` in order, the bytes of each node, and every
    // object the chain is made of.
    ghost var nodes: seq<Node>
    ghost var blocks: seq<seq<byte>>
    ghost var memory: set<object>

    // What the buffer means: all bytes up to the capacity.
    ghost function Contents(): seq<byte>
      reads this`blocks
    {
      Flat(blocks, |blocks|)
    }

    // The node chain: linked in order, all of one size, nothing shared.
    ghost predicate Linked()
      reads this`nodes, this`memory, nodes
    {
      && |nodes| > 0 && nodeSize > 0
      && root == nodes[0]
      && this !in memory
      && (forall k :: 0 <= k < |nodes| ==>
            && nodes[k] in memory && nodes[k].data in memory
            && nodes[k].size == nodes[k].data.Length == nodeSize)
      && (forall k {:trigger nodes[k].next} :: 0 <= k < |nodes| ==> nodes[k].next == NodeAt(nodes, k + 1))
      && (forall j, k {:trigger nodes[j].data, nodes[k].data} ::
            0 <= j < k < |nodes| ==> nodes[j].data != nodes[k].data)
    }

    ghost predicate Stored()
      reads this`nodes, this`memory, this`blocks, this`totalSize, memory
    {
      && |blocks| == |nodes| && totalSize == Times(|nodes|, nodeSize)
      && forall k :: 0 <= k < |nodes| ==>
           nodes[k].data in memory && nodes[k].data[..] == blocks[k] && |blocks[k]| == nodeSize
    }

    // The cached node is the one that holds the byte at `position`, and null exactly
    // at the end of the capacity.
    ghost predicate Cursor()
      reads this`nodes, this`memory, this`blocks, this`totalSize, this`cur, this`position, nodes, memory
    {
      && Linked() && Stored()
      && position <= totalSize
      && cur == NodeAt(nodes, Div(position, nodeSize))
    }

    ghost predicate Valid()
      reads this, nodes, memory
    {
      Cursor() && position <= dataSize <= totalSize
    }

    // The buffer grows by enough nodes for a write of n bytes, or for several writes.
    predicate CanGrow(n: nat)
      requires nodeSize > 0
      reads this
    {
      GrowsEnough(nodeSize, totalSize, position, n)
    }

    predicate CanGrowAll(sizes: seq<nat>)
      requires nodeSize > 0
      reads this
    {
      AllGrowEnough(nodeSize, totalSize, position, sizes)
    }

    constructor (nodeSize: nat := 4096)
      requires nodeSize > 0
      ensures Valid() && fresh(memory)
      ensures this.nodeSize == nodeSize && totalSize == nodeSize
      ensures position == 0 && dataSize == 0 && endian == Big
    {
      this.nodeSize := nodeSize;
      var first := new Node(nodeSize);
      root := first;
      cur := first;
      totalSize, dataSize, position := nodeSize, 0, 0;
      endian := Big;
      nodes := [first];
      blocks := [first.data[..]];
      memory := {first, first.data};
      new;
      DivModUnique(0, nodeSize, 0, 0);
      assert Times(1, nodeSize) == nodeSize;
    }

    lemma ContentsLength()
      requires Stored()
      ensures |Contents()| == totalSize
    {
      FlatLength(blocks, nodeSize, |blocks|);
    }

    method Clear()
      requires Valid()
      modifies this, root
      ensures Valid() && memory == old(memory)
      ensures position == 0 && dataSize == 0 && totalSize == nodeSize && endian == old(endian)
      ensures Contents() == old(blocks[0])
    {
      position, dataSize, totalSize := 0, 0, nodeSize;
      cur := root;
      root.next := null;
      nodes := [root];
      blocks := [blocks[0]];
      DivModUnique(0, nodeSize, 0, 0);
      assert Times(1, nodeSize) == nodeSize;
      assert Flat(blocks, 1) == Flat(blocks, 0) + blocks[0];
    }

    function GetRemainSize(): nat
      requires position <= totalSize
      reads this
    {
      totalSize - position
    }

    function GetReadSize(): nat
      requires position <= dataSize
      reads this
    {
      dataSize - position
    }

    // The walk to the end of the chain.
    method LastNode() returns (last: Node)
      requires Linked()
      ensures last == nodes[|nodes| - 1]
    {
      last := root;
      ghost var at := 0;
      while last.next != null
        invariant at < |nodes| && last == nodes[at]
        decreases |nodes| - at
      {
        last := last.next;
        at := at + 1;
      }
    }

    // Links one new node behind the last one.
    method Append(last: Node) returns (node: Node)
      requires Linked() && Stored() && last == nodes[|nodes| - 1]
      modifies this`nodes, this`blocks, this`memory, this`totalSize, last
      ensures Linked() && Stored() && nodes == old(nodes) + [node]
      ensures old(blocks) <= blocks
      ensures fresh(node) && fresh(memory - old(memory)) && old(memory) <= memory
    {
      node := new Node(nodeSize);
      last.next := node;
      nodes := nodes + [node];
      blocks := blocks + [node.data[..]];
      memory := memory + {node, node.data};
      totalSize := totalSize + nodeSize;
    }

    // Links `count` new nodes and returns the first of them.
    method AppendNodes(count: nat) returns (first: Node?)
      requires Linked() && Stored()
      modifies this`nodes, this`blocks, this`memory, this`totalSize, nodes
      ensures Linked() && Stored() && |nodes| == old(|nodes|) + count
      ensures old(nodes) <= nodes && old(blocks) <= blocks
      ensures old(memory) <= memory && fresh(memory - old(memory))
      ensures first == if count == 0 then null else nodes[old(|nodes|)]
    {
      first := null;
      var last := LastNode();
      for i := 0 to count
        invariant Linked() && Stored() && |nodes| == old(|nodes|) + i
        invariant old(nodes) <= nodes && old(blocks) <= blocks
        invariant old(memory) <= memory && fresh(memory - old(memory))
        invariant last == nodes[|nodes| - 1] && (i == 0 || fresh(last))
        invariant first == if i == 0 then null else nodes[old(|nodes|)]
      {
        last := Append(last);
        if first == null {
          first := last;
        }
      }
    }

    // Growing by whole nodes keeps every byte, every node and the position; at the
    // old end the cursor moves on to the first new node.
    method Grow(count: nat)
      requires Cursor() && count > 0
      modifies this`nodes, this`blocks, this`memory, this`totalSize, this`cur, nodes
      ensures Cursor() && |nodes| == old(|nodes|) + count && old(totalSize) <= totalSize
      ensures old(memory) <= memory && fresh(memory - old(memory))
      ensures old(blocks) <= blocks
    {
      var oldRemain := GetRemainSize();
      var first := AppendNodes(count);
      NodeOfPosition(nodeSize, old(|nodes|), position);
      TimesMonotone(old(|nodes|), |nodes|, nodeSize);
      if oldRemain == 0 {
        cur := first;
      }
    }

    // `addTotalSize`: nothing unless the capacity left is too small. The capacity grows to
    // the least multiple of the node size that fits if and only if the float ceiling is exact.
    method AddTotalSize(size: nat)
      requires Valid()
      modifies this`nodes, this`blocks, this`memory, this`totalSize, this`cur, nodes
      ensures Valid()
      ensures old(memory) <= memory && fresh(memory - old(memory))
      ensures totalSize == Capacity(nodeSize, old(totalSize), position, size)
      ensures GrowsRight(nodeSize, old(totalSize), position, size) <==>
                totalSize == Grown(nodeSize, old(totalSize), position, size)
      ensures old(totalSize) <= totalSize && old(Contents()) <= Contents()
    {
      CapacityExactly(nodeSize, |nodes|, position, size);
      if size == 0 {
        return;
      }
      var oldRemain := GetRemainSize();
      if oldRemain >= size {
        return;
      }
      var missing := size - oldRemain;
      assert CeilOfFloatQuotient(missing, nodeSize) == Added(nodeSize, totalSize, position, size);
      Grow(CeilOfFloatQuotient(missing, nodeSize));
      FlatPrefix(old(blocks), blocks);
    }

    // The position may move anywhere inside the capacity; moving it past the data
    // size declares the bytes in between to be data. A position outside is refused
    // and changes nothing.
    method SetPosition(pos: nat) returns (ok: bool)
      requires Valid()
      modifies this`position, this`dataSize, this`cur
      ensures Valid()
      ensures ok == (pos <= totalSize)
      ensures ok ==> position == pos && dataSize == Max(old(dataSize), pos)
      ensures !ok ==> position == old(position) && dataSize == old(dataSize)
    {
      if pos > totalSize {
        return false;
      }
      position := pos;
      cur := root;
      if position > dataSize {
        dataSize := position;
      }
      var left: nat := pos;
      ghost var k := 0;
      while left > cur.size
        invariant position == pos && dataSize == Max(old(dataSize), pos)
        invariant k < |nodes| && cur == nodes[k]
        invariant left + Times(k, nodeSize) == pos
      {
        NodeAfter(nodeSize, |nodes|, k, left);
        cur := cur.next;
        left := left - cur.size;
        k := k + 1;
      }
      NodeOfOffset(nodeSize, |nodes|, k, left);
      if left == cur.size {
        cur := cur.next;
      }
      return true;
    }

    // The contents after writing the first `done` bytes of buf at `start` over `before`.
    ghost predicate Replaced(before: seq<byte>, start: nat, buf: seq<byte>, done: nat)
      reads this`blocks
    {
      && done <= |buf| && start + |buf| <= |before|
      && Contents() == Splice(before, start, buf[..done])
    }

    lemma ReplacedNone(start: nat, buf: seq<byte>)
      requires start + |buf| <= |Contents()|
      ensures Replaced(Contents(), start, buf, 0)
    {
      assert Splice(Contents(), start, buf[..0]) == Contents();
    }

    lemma ReplacedAll(before: seq<byte>, start: nat, buf: seq<byte>)
      requires Replaced(before, start, buf, |buf|)
      ensures Contents() == Splice(before, start, buf)
    {
      assert buf[..|buf|] == buf;
    }

    // `Stored`, but for `src` having just been copied into node k.
    ghost predicate StoredBut(k: nat, offset: nat, src: seq<byte>)
      reads this`nodes, this`memory, this`blocks, this`totalSize, memory
    {
      && |blocks| == |nodes| && totalSize == Times(|nodes|, nodeSize)
      && k < |nodes| && offset + |src| <= nodeSize
      && forall j :: 0 <= j < |nodes| ==>
           && nodes[j].data in memory && |blocks[j]| == nodeSize
           && nodes[j].data[..] == if j == k then Splice(blocks[j], offset, src) else blocks[j]
    }

    ghost method NoteStore(k: nat, offset: nat, src: seq<byte>)
      requires Linked() && StoredBut(k, offset, src)
      modifies this`blocks
      ensures Stored()
      ensures Times(k, nodeSize) + offset + |src| <= |old(Contents())|
      ensures Contents() == Splice(old(Contents()), Times(k, nodeSize) + offset, src)
    {
      FlatSplice(blocks, nodeSize, k, offset, src, |blocks|);
      blocks := blocks[k := Splice(blocks[k], offset, src)];
    }

    // One memcpy into node k.
    method Store(data: array<byte>, ghost k: nat, offset: nat, src: seq<byte>)
      requires Linked() && Stored()
      requires k < |nodes| && data == nodes[k].data && offset + |src| <= nodeSize
      modifies this`blocks, data
      ensures Stored()
      ensures Times(k, nodeSize) + offset + |src| <= |old(Contents())|
      ensures Contents() == Splice(old(Contents()), Times(k, nodeSize) + offset, src)
    {
      CopyIn(data, offset, src);
      NoteStore(k, offset, src);
    }

    // Moves past n bytes of the current node, and off the node at its end.
    method Advance(nodePos: nat, n: nat)
      requires Cursor() && nodePos == Mod(position, nodeSize)
      requires 0 < n <= nodeSize - nodePos && position < totalSize
      modifies this`cur, this`position
      ensures Cursor() && position == old(position) + n
      ensures Mod(position, nodeSize) == if nodePos + n == nodeSize then 0 else nodePos + n
    {
      NodeOfPosition(nodeSize, |nodes|, position);
      DivMod(position, nodeSize);
      ghost var k := Div(position, nodeSize);
      NodeOfOffset(nodeSize, |nodes|, k, nodePos + n);
      if cur.size == nodePos + n {
        cur := cur.next;
      }
      position := position + n;
    }

    // One round of the loop in `write`, which began at `start` on the bytes `before`.
    method Put(nodePos: nat, buf: seq<byte>, done: nat, n: nat, ghost before: seq<byte>, ghost start: nat)
      requires Cursor() && nodePos == Mod(position, nodeSize)
      requires 0 < n <= nodeSize - nodePos && done + n <= |buf|
      requires |before| == totalSize && position == start + done
      requires Replaced(before, start, buf, done)
      modifies this`blocks, this`cur, this`position, memory
      ensures Cursor() && position == old(position) + n
      ensures Mod(position, nodeSize) == if nodePos + n == nodeSize then 0 else nodePos + n
      ensures Replaced(before, start, buf, done + n)
    {
      NodeOfPosition(nodeSize, |nodes|, position);
      DivMod(position, nodeSize);
      Store(cur.data, Div(position, nodeSize), nodePos, buf[done..done + n]);
      assert Contents() == Splice(old(Contents()), position, buf[done..done + n]);
      SpliceNext(before, old(Contents()), start, buf, done, n);
      Advance(nodePos, n);
    }

    // Where the loops in `write` and `read` are: before the next byte of the current node.
    ghost predicate InNode(nodePos: nat, nodeRemain: nat)
      requires nodeSize > 0
      reads this`position
    {
      nodePos == Mod(position, nodeSize) && nodePos + nodeRemain == nodeSize > nodePos
    }

    // `done` bytes of buf have been written over `before`, from `start` on.
    ghost predicate Writing(buf: seq<byte>, done: nat, before: seq<byte>, start: nat)
      reads this, nodes, memory
    {
      Cursor() && |before| == totalSize && position == start + done && Replaced(before, start, buf, done)
    }

    method PutNext(nodePos: nat, nodeRemain: nat, buf: seq<byte>, done: nat, n: nat,
                   ghost before: seq<byte>, ghost start: nat)
      returns (nextPos: nat, nextRemain: nat)
      requires Writing(buf, done, before, start) && InNode(nodePos, nodeRemain)
      requires 0 < n <= nodeRemain && done + n <= |buf| && (done + n < |buf| ==> n == nodeRemain)
      modifies this`blocks, this`cur, this`position, memory
      ensures Writing(buf, done + n, before, start)
      ensures done + n < |buf| ==> InNode(nextPos, nextRemain)
    {
      Put(nodePos, buf, done, n, before, start);
      nextPos, nextRemain := nodePos, nodeRemain;
      if done + n < |buf| {
        NodeOfPosition(nodeSize, |nodes|, position);
        nextPos, nextRemain := 0, cur.size;
      }
    }

    // The copying loop of `write`, once the capacity suffices.
    method WriteChunks(buf: seq<byte>)
      requires Cursor() && 0 < |buf| <= totalSize - position
      modifies this`blocks, this`cur, this`position, memory
      ensures Cursor() && position == old(position) + |buf| <= |old(Contents())|
      ensures Contents() == Splice(old(Contents()), old(position), buf)
    {
      ContentsLength();
      NodeOfPosition(nodeSize, |nodes|, position);
      DivMod(position, nodeSize);
      var size: nat := |buf|;
      var nodePos: nat := Mod(position, nodeSize);
      var nodeRemain: nat := cur.size - nodePos;
      var bufPos := 0;
      ghost var before: seq<byte>, start: nat := Contents(), position;
      ReplacedNone(start, buf);
      while size > 0
        invariant size + bufPos == |buf| && Writing(buf, bufPos, before, start)
        invariant size > 0 ==> InNode(nodePos, nodeRemain)
      {
        var n := if nodeRemain >= size then size else nodeRemain;
        nodePos, nodeRemain := PutNext(nodePos, nodeRemain, buf, bufPos, n, before, start);
        bufPos := bufPos + n;
        size := size - n;
      }
      ReplacedAll(before, start, buf);
    }

    // The bytes, and then the data size.
    method Fill(buf: seq<byte>)
      requires Valid() && 0 < |buf| <= totalSize - position
      modifies this`blocks, this`cur, this`position, this`dataSize, memory
      ensures Valid() && position == old(position) + |buf| <= |old(Contents())|
      ensures Contents() == Splice(old(Contents()), old(position), buf)
      ensures dataSize == Max(old(dataSize), position)
    {
      WriteChunks(buf);
      if position > dataSize {
        dataSize := position;
      }
    }

    // What every way of writing `data` at the position amounts to.
    twostate predicate Wrote(data: seq<byte>)
      reads this
    {
      && position == old(position) + |data|
      && dataSize == Max(old(dataSize), position)
      && Overwrites(old(Contents()), Contents(), old(position), data)
    }

    // Exactly the bytes at the position are replaced; growth is as small as possible if the
    // float ceiling is exact.
    method Write(buf: seq<byte>)
      requires Valid() && CanGrow(|buf|)
      modifies this`nodes, this`blocks, this`memory, this`totalSize, this`cur, this`position, this`dataSize, memory
      ensures Valid()
      ensures old(memory) <= memory && fresh(memory - old(memory))
      ensures Wrote(buf) && old(totalSize) <= totalSize
      ensures totalSize == Capacity(nodeSize, old(totalSize), old(position), |buf|)
      ensures GrowsRight(nodeSize, old(totalSize), old(position), |buf|) <==>
                totalSize == Grown(nodeSize, old(totalSize), old(position), |buf|)
    {
      ContentsLength();
      if |buf| == 0 {
        return;
      }
      AddTotalSize(|buf|);
      ContentsLength();
      SpliceOverwrites(old(Contents()), Contents(), position, buf);
      Fill(buf);
    }

    // What is left to read.
    ghost function Readable(): seq<byte>
      reads this`blocks, this`position, this`dataSize
    {
      if position <= dataSize <= |Contents()| then Contents()[position..dataSize] else []
    }

    // A read moved the position over n readable bytes and did nothing else.
    twostate predicate Took(n: nat)
      reads this
    {
      && position == old(position) + n
      && n <= |old(Readable())|
      && Readable() == old(Readable())[n..]
    }

    // A stretch of node k, seen in the flat string.
    lemma StretchOfNode(k: nat, from: nat, to: nat)
      requires Linked() && Stored() && k < |nodes| && from <= to <= nodeSize
      ensures Times(k, nodeSize) + to <= |Contents()|
      ensures nodes[k].data[from..to] == Contents()[Times(k, nodeSize) + from..Times(k, nodeSize) + to]
    {
      FlatSlice(blocks, nodeSize, k, from, to);
      assert nodes[k].data[from..to] == blocks[k][from..to];
    }

    // `data` is what a read that began at `start` has delivered up to p.
    ghost predicate Delivers(data: seq<byte>, start: nat, p: nat)
      reads this`blocks
    {
      start <= p <= |Contents()| && data == Contents()[start..p]
    }

    // n bytes of node k, the next ones of a read.
    lemma DeliversNext(data: seq<byte>, start: nat, k: nat, offset: nat, n: nat)
      requires Linked() && Stored() && k < |nodes| && offset + n <= nodeSize
      requires Delivers(data, start, Times(k, nodeSize) + offset)
      ensures Delivers(data + nodes[k].data[offset..offset + n], start, Times(k, nodeSize) + offset + n)
    {
      var p := Times(k, nodeSize) + offset;
      StretchOfNode(k, offset, offset + n);
      SliceMore(Contents(), start, p, p + n, data, nodes[k].data[offset..offset + n]);
    }

    // One round of the loop in `read`: n bytes of the current node.
    method Get(nodePos: nat, n: nat, data: seq<byte>, ghost start: nat) returns (more: seq<byte>)
      requires Cursor() && nodePos == Mod(position, nodeSize)
      requires 0 < n <= nodeSize - nodePos && position < totalSize
      requires Delivers(data, start, position)
      modifies this`cur, this`position
      ensures Cursor() && position == old(position) + n
      ensures Mod(position, nodeSize) == if nodePos + n == nodeSize then 0 else nodePos + n
      ensures Delivers(more, start, position)
    {
      NodeOfPosition(nodeSize, |nodes|, position);
      DivMod(position, nodeSize);
      DeliversNext(data, start, Div(position, nodeSize), nodePos, n);
      more := data + cur.data[nodePos..nodePos + n];
      Advance(nodePos, n);
    }

    // The copying loop of `read`.
    method ReadChunks(size: nat) returns (data: seq<byte>)
      requires Cursor() && 0 < size <= totalSize - position
      modifies this`cur, this`position
      ensures Cursor() && position == old(position) + size
      ensures Delivers(data, old(position), position)
    {
      ContentsLength();
      NodeOfPosition(nodeSize, |nodes|, position);
      DivMod(position, nodeSize);
      var left: nat := size;
      var nodePos: nat := Mod(position, nodeSize);
      var nodeRemain: nat := cur.size - nodePos;
      data := [];
      while left > 0
        invariant Cursor() && left <= size && position == old(position) + size - left
        invariant left > 0 ==> InNode(nodePos, nodeRemain)
        invariant Delivers(data, old(position), position)
      {
        var n := if left <= nodeRemain then left else nodeRemain;
        data := Get(nodePos, n, data, old(position));
        left := left - n;
        if left > 0 {
          NodeOfPosition(nodeSize, |nodes|, position);
          nodeRemain := cur.size;
          nodePos := 0;
        }
      }
    }

    // `read`: refused without any effect when fewer than `size` bytes are left to read.
    method Read(size: nat) returns (r: ReadResult)
      requires Valid()
      modifies this`cur, this`position
      ensures Valid() && dataSize <= |Contents()|
      ensures size <= dataSize - old(position) ==>
                position == old(position) + size && r == Delivered(Contents()[old(position)..position])
      ensures size > dataSize - old(position) ==> position == old(position) && r == OutOfRange
    {
      ContentsLength();
      if size == 0 {
        return Delivered([]);
      }
      if size > GetReadSize() {
        return OutOfRange;
      }
      var data := ReadChunks(size);
      return Delivered(data);
    }

    // Where the positional `read` really starts: it keeps the cached node of the
    // current position and takes only the offset from the requested one.
    ghost function Aliased(at: nat): nat
      requires nodeSize > 0
      reads this`position
    {
      Times(Div(position, nodeSize), nodeSize) + Mod(at, nodeSize)
    }

    // So it reads from the requested position exactly when that lies in the current node.
    lemma AliasedIsExact(at: nat)
      requires nodeSize > 0
      ensures Aliased(at) == at <==> Div(at, nodeSize) == Div(position, nodeSize)
    {
      DivMod(at, nodeSize);
      TimesMonotone(Div(at, nodeSize), Div(position, nodeSize), nodeSize);
      TimesMonotone(Div(position, nodeSize), Div(at, nodeSize), nodeSize);
    }

    // A place in the chain: offset `offset` of node k, at flat position p.
    ghost predicate Place(node: Node?, k: nat, offset: nat, remain: nat, p: nat)
      requires nodeSize > 0
      reads this`nodes
    {
      && k < |nodes| && node == nodes[k]
      && offset + remain == nodeSize > offset
      && p == Times(k, nodeSize) + offset
    }

    // Where a walk over the chain continues after the n bytes it took at a place.
    method NextPlace(node: Node, offset: nat, remain: nat, n: nat, more: bool, ghost k: nat, ghost p: nat)
      returns (next: Node?, nextOffset: nat, nextRemain: nat, ghost nextK: nat)
      requires Linked() && Place(node, k, offset, remain, p) && n <= remain
      requires more ==> n == remain && p + n < Times(|nodes|, nodeSize)
      ensures more ==> Place(next, nextK, nextOffset, nextRemain, p + n)
    {
      next, nextOffset, nextRemain, nextK := node, 0, 0, k;
      if more {
        NodeAfter(nodeSize, |nodes|, k, nodeSize + 1);
        next, nextRemain, nextK := node.next, node.next.size, k + 1;
      }
    }

    lemma FirstPlace(at: nat)
      requires Cursor() && Aliased(at) < totalSize
      ensures cur != null && Mod(at, nodeSize) < nodeSize == cur.size
      ensures Place(cur, Div(position, nodeSize), Mod(at, nodeSize), nodeSize - Mod(at, nodeSize), Aliased(at))
    {
      DivMod(at, nodeSize);
      TimesMonotone(|nodes|, Div(position, nodeSize), nodeSize);
    }

    // The copying loop of the positional `read`.
    method ReadFrom(size: nat, at: nat) returns (data: seq<byte>)
      requires Cursor() && 0 < size && Aliased(at) + size <= totalSize
      ensures Delivers(data, Aliased(at), Aliased(at) + size)
    {
      ContentsLength();
      FirstPlace(at);
      ghost var k: nat, start: nat, p: nat := Div(position, nodeSize), Aliased(at), Aliased(at);
      var left: nat, node: Node?, nodePos: nat := size, cur, Mod(at, nodeSize);
      var nodeRemain: nat := cur.size - nodePos;
      data := [];
      while left > 0
        invariant left <= size && p == start + size - left
        invariant Delivers(data, start, p)
        invariant left > 0 ==> Place(node, k, nodePos, nodeRemain, p)
        decreases left
      {
        var n := if left <= nodeRemain then left else nodeRemain;
        DeliversNext(data, start, k, nodePos, n);
        data := data + node.data[nodePos..nodePos + n];
        node, nodePos, nodeRemain, k := NextPlace(node, nodePos, nodeRemain, n, n < left, k, p);
        left, p := left - n, p + n;
      }
    }

    // `m_data_size - position` in 64-bit unsigned arithmetic: huge beyond the data.
    function Ahead(at: nat): int
      reads this
    {
      if at <= dataSize then dataSize - at else dataSize - at + SIZE_WORD
    }

    // It is the difference cut to 64 bits, and the bytes ahead if there are any.
    lemma AheadMeans(at: nat)
      requires dataSize < 0x1_0000_0000_0000_0000 && at < 0x1_0000_0000_0000_0000
      ensures Ahead(at) == (dataSize - at) % 0x1_0000_0000_0000_0000
      ensures at <= dataSize ==> Ahead(at) == dataSize - at
    {
    }

    // The positional `read`. Its bound check lets positions beyond the data pass; the walk
    // must not leave the chain, where the source would follow a null pointer.
    method ReadAt(size: nat, at: nat) returns (r: ReadResult)
      requires Valid() && at < SIZE_WORD && size < SIZE_WORD
      requires 0 < size <= Ahead(at) ==> Aliased(at) + size <= totalSize
      ensures size > Ahead(at) && size > 0 ==> r == OutOfRange
      ensures size == 0 ==> r == Delivered([])
      ensures 0 < size <= Ahead(at) ==>
                && Aliased(at) + size <= |Contents()|
                && r == Delivered(Contents()[Aliased(at)..Aliased(at) + size])
    {
      if size == 0 {
        return Delivered([]);
      }
      if size > Ahead(at) {
        return OutOfRange;
      }
      var data := ReadFrom(size, at);
      return Delivered(data);
    }

    // `toString`: everything from the position to the end of the data, without moving.
    method ToString() returns (s: seq<byte>)
      requires Valid() && totalSize < SIZE_WORD
      ensures dataSize <= |Contents()| && s == Contents()[position..dataSize]
    {
      ContentsLength();
      var size := GetReadSize();
      if size == 0 {
        return [];
      }
      AliasedIsExact(position);
      var r := ReadAt(size, position);
      s := r.data;
    }

    // Segment `seg` is the stretch of the chain that begins at flat position p.
    ghost predicate Holds(seg: IoVec, p: nat)
      requires nodeSize > 0
      reads this`nodes
    {
      && seg.len > 0
      && Div(p, nodeSize) < |nodes|
      && seg.base == nodes[Div(p, nodeSize)].data
      && seg.offset == Mod(p, nodeSize)
      && seg.offset + seg.len <= nodeSize
    }

    // The first k segments are consecutive stretches from `at` on.
    ghost predicate Consecutive(segments: seq<IoVec>, at: nat, k: nat)
      requires nodeSize > 0 && k <= |segments|
      reads this`nodes
    {
      k > 0 ==> Consecutive(segments, at, k - 1) && Holds(segments[k - 1], at + Total(segments, k - 1))
    }

    // The segments are [at, at + n) in order, none empty; being consecutive stretches
    // they are disjoint.
    ghost predicate Covers(segments: seq<IoVec>, at: nat, n: nat)
      requires nodeSize > 0
      reads this`nodes
    {
      Total(segments, |segments|) == n && Consecutive(segments, at, |segments|)
    }

    lemma {:induction false} ConsecutiveAt(segments: seq<IoVec>, at: nat, k: nat, i: nat)
      requires nodeSize > 0 && i < k <= |segments| && Consecutive(segments, at, k)
      ensures Holds(segments[i], at + Total(segments, i))
    {
      if i < k - 1 {
        ConsecutiveAt(segments, at, k - 1, i);
      }
    }

    lemma {:induction false} ConsecutiveSame(segments: seq<IoVec>, more: seq<IoVec>, at: nat, k: nat)
      requires nodeSize > 0 && segments <= more && k <= |segments| && Consecutive(segments, at, k)
      ensures Consecutive(more, at, k) && Total(more, k) == Total(segments, k)
    {
      if k > 0 {
        ConsecutiveSame(segments, more, at, k - 1);
      }
    }

    // No two segments share a byte.
    lemma SegmentsDisjoint(segments: seq<IoVec>, at: nat, n: nat, i: nat, j: nat)
      requires Linked() && Stored() && Covers(segments, at, n) && i < j < |segments|
      requires segments[i].base == segments[j].base
      ensures segments[i].offset + segments[i].len <= segments[j].offset
    {
      ConsecutiveAt(segments, at, |segments|, i);
      ConsecutiveAt(segments, at, |segments|, j);
      HoldsFits(segments[i], at + Total(segments, i));
      HoldsFits(segments[j], at + Total(segments, j));
      TotalGrows(segments, i + 1, j);
    }

    lemma CoversOneMore(segments: seq<IoVec>, at: nat, n: nat, seg: IoVec)
      requires nodeSize > 0 && Covers(segments, at, n) && Holds(seg, at + n)
      ensures Covers(segments + [seg], at, n + seg.len)
    {
      ConsecutiveSame(segments, segments + [seg], at, |segments|);
    }

    lemma HoldsFits(seg: IoVec, p: nat)
      requires Linked() && Stored() && Holds(seg, p)
      ensures p == Times(Div(p, nodeSize), nodeSize) + seg.offset
      ensures p + seg.len <= totalSize == |Contents()|
    {
      ContentsLength();
      DivMod(p, nodeSize);
      TimesMonotone(Div(p, nodeSize), |nodes|, nodeSize);
    }

    lemma CoversFits(segments: seq<IoVec>, at: nat, n: nat)
      requires Linked() && Stored() && Covers(segments, at, n) && n > 0
      ensures at + n <= totalSize == |Contents()|
    {
      var last := |segments| - 1;
      HoldsFits(segments[last], at + Total(segments, last));
    }

    lemma HoldsPlace(seg: IoVec, p: nat)
      requires nodeSize > 0 && Holds(seg, p)
      ensures Times(Div(p, nodeSize), nodeSize) + seg.offset == p
    {
      DivMod(p, nodeSize);
    }

    // Scattered input has just put data[done..done + n] into the segment at `at` + done.
    ghost method NoteFill(seg: IoVec, n: nat, data: seq<byte>, done: nat, before: seq<byte>, at: nat)
      requires Linked() && Holds(seg, at + done) && n <= seg.len && done + n <= |data|
      requires StoredBut(Div(at + done, nodeSize), seg.offset, data[done..done + n])
      requires |before| == totalSize && Replaced(before, at, data, done)
      modifies this`blocks
      ensures Stored() && Replaced(before, at, data, done + n)
    {
      HoldsPlace(seg, at + done);
      SpliceNext(before, old(Contents()), at, data, done, n);
      NoteStore(Div(at + done, nodeSize), seg.offset, data[done..done + n]);
      assert Contents() == Splice(old(Contents()), at + done, data[done..done + n]);
    }

    // The first n bytes of a segment, as bytes of the flat string.
    lemma SegmentBytes(seg: IoVec, n: nat, p: nat)
      requires Linked() && Stored() && Holds(seg, p) && n <= seg.len
      ensures p + n <= |Contents()|
      ensures seg.base[seg.offset..seg.offset + n] == Contents()[p..p + n]
    {
      HoldsFits(seg, p);
      StretchOfNode(Div(p, nodeSize), seg.offset, seg.offset + n);
    }

    // The segment loop that the three buffer getters share, from offset `nodePos` of `from`.
    method Segments(from: Node?, nodePos: nat, len: nat, ghost at: nat) returns (segments: seq<IoVec>)
      requires Linked() && Stored() && at + len <= totalSize
      requires len > 0 ==> from != null && from == NodeAt(nodes, Div(at, nodeSize)) && nodePos == Mod(at, nodeSize)
      ensures Covers(segments, at, len)
    {
      segments := [];
      if len == 0 {
        return;
      }
      NodeOfPosition(nodeSize, |nodes|, at);
      DivMod(at, nodeSize);
      var left: nat, node: Node?, offset: nat := len, from, nodePos;
      var nodeRemain: nat := node.size - offset;
      ghost var k: nat := Div(at, nodeSize);
      while left > 0
        invariant left <= len && Covers(segments, at, len - left)
        invariant left > 0 ==> Place(node, k, offset, nodeRemain, at + len - left)
        decreases left
      {
        var n := if nodeRemain >= left then left else nodeRemain;
        var seg := IoVec(node.data, offset, n);
        NodeOfOffset(nodeSize, |nodes|, k, offset);
        CoversOneMore(segments, at, len - left, seg);
        segments := segments + [seg];
        node, offset, nodeRemain, k := NextPlace(node, offset, nodeRemain, n, n < left, k, at + len - left);
        left := left - n;
      }
    }

    // `getReadBuffers`: at most the readable bytes, as segments; nothing moves.
    method GetReadBuffers(bufs: seq<IoVec>, len: nat) returns (more: seq<IoVec>, size: nat)
      requires Valid()
      ensures size == if len > dataSize - position then dataSize - position else len
      ensures bufs <= more && Covers(more[|bufs|..], position, size)
    {
      size := if len > dataSize - position then dataSize - position else len;
      NodeOfPosition(nodeSize, |nodes|, position);
      var segments := Segments(cur, Mod(position, nodeSize), size, position);
      more := bufs + segments;
      assert more[|bufs|..] == segments;
    }

    // The positional `getReadBuffers` walks from the root; it also reads the size of the
    // cached node, so there must be one.
    method GetReadBuffersAt(bufs: seq<IoVec>, len: nat, at: nat) returns (more: seq<IoVec>, size: nat)
      requires Valid() && at <= dataSize && position < totalSize
      ensures size == if len > dataSize - at then dataSize - at else len
      ensures bufs <= more && Covers(more[|bufs|..], at, size)
    {
      size := if len > dataSize - at then dataSize - at else len;
      if size == 0 {
        more := bufs;
        return;
      }
      NodeOfPosition(nodeSize, |nodes|, at);
      var node := root;
      var count := Div(at, nodeSize);
      ghost var k: nat := 0;
      while count > 0
        invariant k + count == Div(at, nodeSize) && node == nodes[k]
      {
        node := node.next;
        count := count - 1;
        k := k + 1;
      }
      var segments := Segments(node, Mod(at, nodeSize), size, at);
      more := bufs + segments;
      assert more[|bufs|..] == segments;
    }

    // `getWriteBuffers`: grows as `write` would, then exposes [position, position + len).
    method GetWriteBuffers(bufs: seq<IoVec>, len: nat) returns (more: seq<IoVec>, size: nat)
      requires Valid() && CanGrow(len)
      modifies this`nodes, this`blocks, this`memory, this`totalSize, this`cur, nodes
      ensures Valid() && size == len && position + len <= totalSize
      ensures old(memory) <= memory && fresh(memory - old(memory))
      ensures totalSize == Capacity(nodeSize, old(totalSize), position, len)
      ensures GrowsRight(nodeSize, old(totalSize), position, len) <==>
                totalSize == Grown(nodeSize, old(totalSize), position, len)
      ensures old(Contents()) <= Contents()
      ensures bufs <= more && Covers(more[|bufs|..], position, len)
    {
      size := len;
      AddTotalSize(len);
      NodeOfPosition(nodeSize, |nodes|, position);
      var segments := Segments(cur, Mod(position, nodeSize), size, position);
      more := bufs + segments;
      assert more[|bufs|..] == segments;
    }
  }
}
