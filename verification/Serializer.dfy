// The typed writers and readers as methods on a buffer (util/serializer.cpp:19-70,
// 103-159, 175-197, 201-297 and 315-349). `host` is the byte order of the machine.
module Serializers {
  import opened Arith
  import opened Bytes
  import opened Digits
  import opened Float32
  import opened Wire
  import opened ByteArrays
  import opened Codec

  // `Varint::encode32` and `encode64`: fills buf from the front.
  method EncodeVarint(buf: array?<byte>, n: nat) returns (cnt: int)
    requires buf != null ==> |Leb(n)| <= buf.Length
    modifies buf
    ensures buf == null ==> cnt == -1
    ensures buf != null ==> cnt == |Leb(n)| && buf[..cnt] == Leb(n) && IsVarint(buf[..cnt], n)
  {
    if buf == null {
      return -1;
    }
    cnt := 0;
    var m := n;
    while m > 127
      invariant 0 <= cnt && cnt + |Leb(m)| == |Leb(n)|
      invariant Leb(n) == buf[..cnt] + Leb(m)
      decreases m
    {
      buf[cnt] := m % 128 + 128;
      ghost var done := buf[..cnt];
      m := m / 128;
      cnt := cnt + 1;
      assert buf[..cnt] == done + [buf[cnt - 1]];
    }
    ghost var done := buf[..cnt];
    buf[cnt] := m;
    cnt := cnt + 1;
    assert buf[..cnt] == done + [m];
    LebIsVarint(n);
  }

  method WriteVarint(ba: ByteArray, n: nat, bits: nat)
    requires ba.Valid() && (bits == 32 || bits == 64) && n < Word(bits)
    modifies ba, ba.memory
    ensures ba.Valid() && old(ba.memory) <= ba.memory && fresh(ba.memory - old(ba.memory))
    ensures ba.Wrote(Leb(n)) && ba.endian == old(ba.endian) && old(ba.totalSize) <= ba.totalSize
    ensures ba.totalSize == Capacity(ba.nodeSize, old(ba.totalSize), old(ba.position), |Leb(n)|)
  {
    LebFits(n);
    SmallGrowsRight(ba.nodeSize, |ba.nodes|, ba.position, |Leb(n)|);
    var buf := new byte[if bits == 32 then 5 else 10];
    var len := EncodeVarint(buf, n);
    ba.Write(buf[..len]);
  }

  // `writeFInt8` to `writeFUInt64`
  method WriteFixed(ba: ByteArray, host: Endian, n: nat, w: nat)
    requires ba.Valid() && w <= 8
    modifies ba, ba.memory
    ensures ba.Valid() && old(ba.memory) <= ba.memory && fresh(ba.memory - old(ba.memory))
    ensures ba.Wrote(InMemory(old(ba.endian), n, w))
    ensures IsFixed(ba.endian, ba.Contents()[old(ba.position)..ba.position], n)
    ensures ba.endian == old(ba.endian) && old(ba.totalSize) <= ba.totalSize
    ensures ba.totalSize == Capacity(ba.nodeSize, old(ba.totalSize), old(ba.position), w)
  {
    SmallGrowsRight(ba.nodeSize, |ba.nodes|, ba.position, w);
    HostDoesNotMatter(host, ba.endian, n, w);
    MemoryIsFixed(ba.endian, n, w);
    ba.Write(FixedOut(host, ba.endian, n, w));
  }

  // What a string writer puts before the characters.
  function LengthPrefix(order: Endian, kind: Kind, len: nat): seq<byte>
    requires kind.FixedText? || kind.VarText?
  {
    if kind.VarText? then Leb(len) else InMemory(order, Cut(len, 8 * kind.w), kind.w)
  }

  // How many bytes a value takes in each of the writes it is made of.
  function Sizes(order: Endian, kind: Kind, v: Value): seq<nat>
    requires Suits(kind, v)
  {
    if v.Text? then [|LengthPrefix(order, kind, |v.s|)|, |v.s|] else [|Encode(order, kind, v)|]
  }

  lemma SizesSum(order: Endian, kind: Kind, v: Value)
    requires Suits(kind, v)
    ensures Sum(Sizes(order, kind, v)) == |Encode(order, kind, v)|
  {
    var sizes := Sizes(order, kind, v);
    assert Sum(sizes[1..]) == if v.Text? then |v.s| else 0;
  }

  function AllSizes(order: Endian, items: seq<Item>): seq<nat> {
    if items == [] then [] else Sizes(order, items[0].kind, items[0].v) + AllSizes(order, items[1..])
  }

  lemma AllSizesNext(order: Endian, items: seq<Item>, i: nat)
    requires i < |items|
    ensures AllSizes(order, items[i..]) == Sizes(order, items[i].kind, items[i].v) + AllSizes(order, items[i + 1..])
  {
    assert items[i..][1..] == items[i + 1..];
  }

  // A list whose strings have 2^24 characters at most is written right into any buffer.
  lemma {:induction false} ShortTexts(order: Endian, items: seq<Item>, i: nat)
    requires forall j :: 0 <= j < |items| && items[j].v.Text? ==> |items[j].v.s| <= SIGNIFICAND_MAX
    requires i < |AllSizes(order, items)|
    ensures AllSizes(order, items)[i] <= SIGNIFICAND_MAX
  {
    var first := Sizes(order, items[0].kind, items[0].v);
    if i < |first| {
      SmallSizes(order, items[0].kind, items[0].v);
    } else {
      ShortTexts(order, items[1..], i - |first|);
    }
  }

  lemma SmallSizes(order: Endian, kind: Kind, v: Value)
    requires Suits(kind, v) && (v.Text? ==> |v.s| <= SIGNIFICAND_MAX)
    ensures forall i :: 0 <= i < |Sizes(order, kind, v)| ==> Sizes(order, kind, v)[i] <= SIGNIFICAND_MAX
  {
    match kind
    case Fixed(_, _) =>
    case Var(bits, signed) =>
      if signed {
        ZigZagMeaning(v.n, Word(bits));
        LebFits(ZigZagEncode(v.n, Word(bits)));
      } else {
        LebFits(v.n);
      }
    case FixedText(_) =>
    case VarText => LebFits(|v.s|);
  }

  lemma ShortTextsGrowRight(nodeSize: nat, nodes: nat, pos: nat, order: Endian, items: seq<Item>)
    requires nodeSize > 0 && pos <= Times(nodes, nodeSize)
    requires forall j :: 0 <= j < |items| && items[j].v.Text? ==> |items[j].v.s| <= SIGNIFICAND_MAX
    ensures AllGrowEnough(nodeSize, Times(nodes, nodeSize), pos, AllSizes(order, items))
    ensures CapacityAll(nodeSize, Times(nodes, nodeSize), pos, AllSizes(order, items))
         == Grown(nodeSize, Times(nodes, nodeSize), pos, |EncodeAll(order, items)|)
  {
    forall i | 0 <= i < |AllSizes(order, items)|
      ensures AllSizes(order, items)[i] <= SIGNIFICAND_MAX
    {
      ShortTexts(order, items, i);
    }
    SmallGrowRight(nodeSize, nodes, pos, AllSizes(order, items));
    AllSizesSum(order, items);
  }

  lemma {:induction false} AllSizesSum(order: Endian, items: seq<Item>)
    ensures Sum(AllSizes(order, items)) == |EncodeAll(order, items)|
  {
    if items != [] {
      var first := Sizes(order, items[0].kind, items[0].v);
      AllSizesSum(order, items[1..]);
      SizesSum(order, items[0].kind, items[0].v);
      SumAppend(first, AllSizes(order, items[1..]));
      EncodeFirst(order, items);
    }
  }

  lemma {:induction false} SumAppend(a: seq<nat>, b: seq<nat>)
    ensures Sum(a + b) == Sum(a) + Sum(b)
  {
    if a == [] {
      assert a + b == b;
    } else {
      assert (a + b)[1..] == a[1..] + b;
      SumAppend(a[1..], b);
    }
  }

  method WriteLength(ba: ByteArray, host: Endian, kind: Kind, len: nat)
    requires ba.Valid() && (kind.FixedText? || (kind.VarText? && len < Word(64)))
    modifies ba, ba.memory
    ensures ba.Valid() && old(ba.memory) <= ba.memory && fresh(ba.memory - old(ba.memory))
    ensures ba.Wrote(LengthPrefix(old(ba.endian), kind, len))
    ensures ba.endian == old(ba.endian) && old(ba.totalSize) <= ba.totalSize
    ensures ba.totalSize ==
              Capacity(ba.nodeSize, old(ba.totalSize), old(ba.position), |LengthPrefix(old(ba.endian), kind, len)|)
  {
    if kind.VarText? {
      WriteVarint(ba, len, 64);
    } else {
      WriteFixed(ba, host, Cut(len, 8 * kind.w), kind.w);
    }
  }

  // The strings: first the length, then the characters.
  method WriteText(ba: ByteArray, host: Endian, kind: Kind, s: seq<byte>)
    requires ba.Valid() && Suits(kind, Text(s)) && ba.CanGrowAll(Sizes(ba.endian, kind, Text(s)))
    modifies ba, ba.memory
    ensures ba.Valid() && old(ba.memory) <= ba.memory && fresh(ba.memory - old(ba.memory))
    ensures ba.Wrote(Encode(old(ba.endian), kind, Text(s)))
    ensures ba.endian == old(ba.endian) && old(ba.totalSize) <= ba.totalSize
    ensures ba.totalSize ==
              CapacityAll(ba.nodeSize, old(ba.totalSize), old(ba.position), Sizes(ba.endian, kind, Text(s)))
  {
    ghost var p := |LengthPrefix(ba.endian, kind, |s|)|;
    BothGrowEnough(ba.nodeSize, ba.totalSize, ba.position, p, |s|);
    ghost var before: seq<byte>, start: nat := ba.Contents(), ba.position;
    ghost var grown: nat := Capacity(ba.nodeSize, ba.totalSize, start, p);
    WriteLength(ba, host, kind, |s|);
    assert ba.totalSize == grown && ba.position == start + p;
    WriteBody(ba, s, before, start, LengthPrefix(ba.endian, kind, |s|));
  }

  // The characters of a string behind its length.
  method WriteBody(ba: ByteArray, s: seq<byte>, ghost before: seq<byte>, ghost start: nat, ghost prefix: seq<byte>)
    requires ba.Valid() && ba.CanGrow(|s|)
    requires ba.position == start + |prefix| && Overwrites(before, ba.Contents(), start, prefix)
    modifies ba, ba.memory
    ensures ba.Valid() && old(ba.memory) <= ba.memory && fresh(ba.memory - old(ba.memory))
    ensures ba.position == start + |prefix + s| && Overwrites(before, ba.Contents(), start, prefix + s)
    ensures ba.dataSize == Max(old(ba.dataSize), ba.position)
    ensures ba.endian == old(ba.endian) && old(ba.totalSize) <= ba.totalSize
    ensures ba.totalSize == Capacity(ba.nodeSize, old(ba.totalSize), old(ba.position), |s|)
  {
    ghost var mid: seq<byte> := ba.Contents();
    ba.Write(s);
    OverwritesTwice(before, mid, ba.Contents(), start, prefix, s);
  }

  method WriteValue(ba: ByteArray, host: Endian, kind: Kind, v: Value)
    requires ba.Valid() && Suits(kind, v) && ba.CanGrowAll(Sizes(ba.endian, kind, v))
    modifies ba, ba.memory
    ensures ba.Valid() && old(ba.memory) <= ba.memory && fresh(ba.memory - old(ba.memory))
    ensures ba.Wrote(Encode(old(ba.endian), kind, v))
    ensures ba.endian == old(ba.endian) && old(ba.totalSize) <= ba.totalSize
    ensures ba.totalSize == CapacityAll(ba.nodeSize, old(ba.totalSize), old(ba.position), Sizes(ba.endian, kind, v))
  {
    match kind
    case Fixed(w, signed) =>
      WriteFixed(ba, host, if signed then Unsigned(v.n, Word(8 * w)) else v.n, w);
    case Var(bits, signed) =>
      if signed {
        ZigZagMeaning(v.n, Word(bits));
      }
      WriteVarint(ba, if signed then ZigZagEncode(v.n, Word(bits)) else v.n, bits);
    case FixedText(_) =>
      WriteText(ba, host, kind, v.s);
    case VarText =>
      WriteText(ba, host, kind, v.s);
  }

  // n << shift, without the cut to a word.
  function ShiftLeft(n: nat, shift: nat): nat
    decreases shift
  {
    if shift == 0 then n else ShiftLeft(2 * n, shift - 1)
  }

  lemma {:induction false} ShiftLeftSum(m: nat, n: nat, shift: nat)
    ensures ShiftLeft(m + n, shift) == ShiftLeft(m, shift) + ShiftLeft(n, shift)
    decreases shift
  {
    if shift > 0 {
      ShiftLeftSum(2 * m, 2 * n, shift - 1);
    }
  }

  lemma ShiftLeftSeven(n: nat, shift: nat)
    ensures ShiftLeft(n, shift + 7) == ShiftLeft(128 * n, shift)
  {
    assert ShiftLeft(n, shift + 7) == ShiftLeft(2 * n, shift + 6) == ShiftLeft(4 * n, shift + 5);
    assert ShiftLeft(4 * n, shift + 5) == ShiftLeft(8 * n, shift + 4) == ShiftLeft(16 * n, shift + 3);
    assert ShiftLeft(16 * n, shift + 3) == ShiftLeft(32 * n, shift + 2) == ShiftLeft(64 * n, shift + 1);
  }

  // Cutting to the word after each group is cutting once at the end.
  lemma CutLate(acc: nat, more: nat, bits: nat)
    requires bits == 32 || bits == 64
    ensures Cut(Cut(acc, bits) + more, bits) == Cut(acc + more, bits)
  {
    ModSum(acc, more, Word(bits));
  }

  // `read` as a step over the readable bytes.
  method Take(ba: ByteArray, n: nat) returns (r: ReadResult)
    requires ba.Valid()
    modifies ba`cur, ba`position
    ensures ba.Valid() && r == if n <= |old(ba.Readable())| then Delivered(old(ba.Readable())[..n]) else OutOfRange
    ensures ba.Took(if r.Delivered? then n else 0)
  {
    ba.ContentsLength();
    if n <= |ba.Readable()| {
      SliceTake(ba.Contents(), ba.position, ba.dataSize, n);
    }
    r := ba.Read(n);
  }

  // `readFUInt8`
  method ReadByte(ba: ByteArray) returns (ok: bool, b: byte)
    requires ba.Valid()
    modifies ba`cur, ba`position
    ensures ba.Valid() && ok == (old(ba.Readable()) != [])
    ensures ok ==> b == old(ba.Readable())[0]
    ensures ba.Took(if ok then 1 else 0)
  {
    var r := Take(ba, 1);
    ok, b := r.Delivered?, if r.Delivered? then r.data[0] else 0;
  }

  // The loop of the varint readers, from the round that places its group at `shift` on.
  function Scan(s: seq<byte>, bits: nat, shift: nat, data: nat): (r: Decoded<nat>)
    ensures r.used <= |s|
    decreases |s|
  {
    if shift >= bits then Got(data, 0)
    else if s == [] then Ended(0)
    else if s[0] < 128 then Got(Cut(data + ShiftLeft(s[0], shift), bits), 1)
    else
      Later(1, Scan(s[1..], bits, shift + 7, Cut(data + ShiftLeft(s[0] % 128, shift), bits)))
  }

  // The number that the remaining groups complete.
  function Complete(acc: nat, bits: nat, shift: nat, r: Unread): Decoded<nat> {
    match r
    case Whole(n, used) => Got(Cut(acc + ShiftLeft(n, shift), bits), used)
    case Short(used) => Ended(used)
  }

  lemma CompleteMore(acc: nat, bits: nat, shift: nat, s: seq<byte>, groups: nat)
    requires groups > 0 && s != [] && s[0] >= 128
    ensures Complete(acc, bits, shift, UnLeb(s, groups))
         == Later(1, Complete(acc + ShiftLeft(s[0] % 128, shift), bits, shift + 7, UnLeb(s[1..], groups - 1)))
  {
    var r := UnLeb(s[1..], groups - 1);
    if r.Whole? {
      ShiftLeftSum(s[0] % 128, 128 * r.n, shift);
      ShiftLeftSeven(r.n, shift);
    }
  }

  lemma ScanNext(s: seq<byte>, bits: nat, shift: nat, data: nat)
    requires shift < bits && s != [] && s[0] >= 128
    ensures Scan(s, bits, shift, data)
         == Later(1, Scan(s[1..], bits, shift + 7, Cut(data + ShiftLeft(s[0] % 128, shift), bits)))
  {
  }

  lemma ScanMore(s: seq<byte>, bits: nat, shift: nat, acc: nat, rest: Decoded<nat>)
    requires (bits == 32 || bits == 64) && shift < bits && s != [] && s[0] >= 128
    requires Scan(s[1..], bits, shift + 7, Cut(acc + ShiftLeft(s[0] % 128, shift), bits)) == rest
    ensures Scan(s, bits, shift, Cut(acc, bits)) == Later(1, rest)
  {
    ScanNext(s, bits, shift, Cut(acc, bits));
    CutLate(acc, ShiftLeft(s[0] % 128, shift), bits);
  }

  // The last round: nothing left to look at, or a group that ends the number.
  lemma ScanStop(s: seq<byte>, bits: nat, shift: nat, groups: nat, acc: nat)
    requires (bits == 32 || bits == 64) && (groups == 0 <==> shift >= bits)
    requires groups == 0 || s == [] || s[0] < 128
    ensures Scan(s, bits, shift, Cut(acc, bits)) == Complete(acc, bits, shift, UnLeb(s, groups))
  {
    if groups == 0 {
      ShiftLeftSum(0, 0, shift);
    } else if s != [] {
      CutLate(acc, ShiftLeft(s[0], shift), bits);
    }
  }

  // From a round on, the loop adds what the remaining groups say, at their place.
  lemma {:induction false} ScanFrom(s: seq<byte>, bits: nat, shift: nat, groups: nat, acc: nat)
    requires (bits == 32 && shift + 7 * groups == 35) || (bits == 64 && shift + 7 * groups == 70)
    ensures Scan(s, bits, shift, Cut(acc, bits)) == Complete(acc, bits, shift, UnLeb(s, groups))
    decreases groups
  {
    if groups == 0 || s == [] || s[0] < 128 {
      ScanStop(s, bits, shift, groups, acc);
    } else {
      var sum: nat := acc + ShiftLeft(s[0] % 128, shift);
      ScanFrom(s[1..], bits, shift + 7, groups - 1, sum);
      ScanMore(s, bits, shift, acc, Complete(sum, bits, shift + 7, UnLeb(s[1..], groups - 1)));
      CompleteMore(acc, bits, shift, s, groups);
    }
  }

  lemma ScanIsVarint(s: seq<byte>, bits: nat)
    requires bits == 32 || bits == 64
    ensures Scan(s, bits, 0, 0) == Varint(s, bits)
  {
    ScanFrom(s, bits, 0, Groups(bits), 0);
  }

  // What the loop has established after `used` bytes of s, all saying to go on.
  ghost predicate Midway(s: seq<byte>, bits: nat, used: nat, shift: nat, data: nat) {
    used <= |s| && Scan(s, bits, 0, 0) == Later(used, Scan(s[used..], bits, shift, data))
  }

  lemma MidwayNext(s: seq<byte>, bits: nat, used: nat, shift: nat, data: nat)
    requires Midway(s, bits, used, shift, data) && shift < bits
    ensures used == |s| ==> Scan(s, bits, 0, 0) == Ended(used)
    ensures used < |s| && s[used] < 128 ==>
              Scan(s, bits, 0, 0) == Got(Cut(data + ShiftLeft(s[used], shift), bits), used + 1)
    ensures used < |s| && s[used] >= 128 ==>
              Midway(s, bits, used + 1, shift + 7, Cut(data + ShiftLeft(s[used] % 128, shift), bits))
  {
    if used < |s| {
      assert s[used..][1..] == s[used + 1..];
    }
  }

  // One round of the readers: the number is complete, or there is more to come.
  datatype Round = Stop(ok: bool, data: nat) | More(data: nat)

  method ReadGroup(ba: ByteArray, bits: nat, shift: nat, data: nat, ghost s: seq<byte>, ghost used: nat)
    returns (r: Round)
    requires ba.Valid() && shift < bits && used <= |s| && ba.Readable() == s[used..]
    requires Midway(s, bits, used, shift, data)
    modifies ba`cur, ba`position
    ensures var n := if r.Stop? && !r.ok then 0 else 1;
            && ba.Valid() && ba.position == old(ba.position) + n
            && used + n <= |s| && ba.Readable() == s[used + n..]
    ensures r.Stop? ==> Scan(s, bits, 0, 0) == if r.ok then Got(r.data, used + 1) else Ended(used)
    ensures r.More? ==> Midway(s, bits, used + 1, shift + 7, r.data)
  {
    MidwayNext(s, bits, used, shift, data);
    var more, tmp := ReadByte(ba);
    DropDrop(s, used, if more then 1 else 0);
    r := if !more then Stop(false, 0)
         else if tmp < 128 then Stop(true, Cut(data + ShiftLeft(tmp, shift), bits))
         else More(Cut(data + ShiftLeft(tmp % 128, shift), bits));
  }

  // `readUInt32` and `readUInt64`. On a malformed varint the loop simply stops after the
  // last group; running out of data leaves the position behind the bytes already read.
  method ReadVarint(ba: ByteArray, bits: nat) returns (r: Decoded<nat>)
    requires ba.Valid() && (bits == 32 || bits == 64)
    modifies ba`cur, ba`position
    ensures ba.Valid() && ba.Took(r.used) && r == Varint(old(ba.Readable()), bits)
  {
    var data: nat, used: nat, cnt: nat := 0, 0, 0;
    ghost var s: seq<byte> := ba.Readable();
    ScanIsVarint(s, bits);
    while cnt < bits
      invariant ba.Valid() && ba.position == old(ba.position) + used
      invariant used <= |s| && ba.Readable() == s[used..]
      invariant Midway(s, bits, used, cnt, data)
      decreases bits - cnt
    {
      var round := ReadGroup(ba, bits, cnt, data, s, used);
      if round.Stop? {
        return if round.ok then Got(round.data, used + 1) else Ended(used);
      }
      used, cnt, data := used + 1, cnt + 7, round.data;
    }
    return Got(data, used);
  }

  // `readFInt8` to `readFUInt64`
  method ReadFixed(ba: ByteArray, host: Endian, w: nat) returns (r: Decoded<nat>)
    requires ba.Valid()
    modifies ba`cur, ba`position
    ensures ba.Valid() && ba.Took(r.used)
    ensures r == if w <= |old(ba.Readable())| then Got(FromMemory(ba.endian, old(ba.Readable())[..w]), w) else Ended(0)
    ensures r.Got? ==> r.v < Pow(256, w) && IsFixed(ba.endian, old(ba.Readable())[..w], r.v)
  {
    var memory := Take(ba, w);
    if memory.OutOfRange? {
      return Ended(0);
    }
    FixedInMeaning(host, ba.endian, memory.data);
    ReadIsFixed(ba.endian, memory.data);
    return Got(FixedIn(host, ba.endian, memory.data), w);
  }

  // The length in front of a string.
  method ReadLength(ba: ByteArray, host: Endian, kind: Kind) returns (r: Decoded<nat>)
    requires ba.Valid() && (kind.FixedText? || kind.VarText?)
    modifies ba`cur, ba`position
    ensures ba.Valid() && ba.Took(r.used)
    ensures Decode(ba.endian, kind, old(ba.Readable())) ==
              if r.Ended? then Ended(r.used) else Body(old(ba.Readable()), r.used, r.v)
  {
    if kind.VarText? {
      r := ReadVarint(ba, 64);
    } else {
      r := ReadFixed(ba, host, kind.w);
    }
  }

  // The characters of a string, behind the first `used` bytes of s.
  method ReadBody(ba: ByteArray, len: nat, ghost s: seq<byte>, used: nat) returns (r: Decoded<Value>)
    requires ba.Valid() && used <= |s| && ba.Readable() == s[used..]
    modifies ba`cur, ba`position
    ensures r.used >= used && r == Body(s, used, len)
    ensures ba.Valid() && ba.position == old(ba.position) + r.used - used && ba.Readable() == s[r.used..]
  {
    BodyLater(s, used, len);
    var body := Take(ba, len);
    r := if body.OutOfRange? then Ended(used) else Got(Text(body.data), used + len);
    DropDrop(s, used, r.used - used);
  }

  method ReadText(ba: ByteArray, host: Endian, kind: Kind) returns (r: Decoded<Value>)
    requires ba.Valid() && (kind.FixedText? || kind.VarText?)
    modifies ba`cur, ba`position
    ensures ba.Valid() && ba.Took(r.used) && r == Decode(ba.endian, kind, old(ba.Readable()))
  {
    ghost var s: seq<byte> := ba.Readable();
    var len := ReadLength(ba, host, kind);
    if len.Ended? {
      return Ended(len.used);
    }
    r := ReadBody(ba, len.v, s, len.used);
  }

  method ReadValue(ba: ByteArray, host: Endian, kind: Kind) returns (r: Decoded<Value>)
    requires ba.Valid()
    modifies ba`cur, ba`position
    ensures ba.Valid() && ba.Took(r.used) && r == Decode(ba.endian, kind, old(ba.Readable()))
  {
    match kind
    case Fixed(w, signed) =>
      var n := ReadFixed(ba, host, w);
      r := if n.Ended? then Ended(n.used)
           else Got(Number(if signed then Signed(n.v, Word(8 * w)) else n.v), n.used);
    case Var(bits, signed) =>
      var n := ReadVarint(ba, bits);
      r := if n.Ended? then Ended(n.used)
           else Got(Number(if signed then ZigZagDecode(n.v, Word(bits)) else n.v), n.used);
    case FixedText(_) =>
      r := ReadText(ba, host, kind);
    case VarText =>
      r := ReadText(ba, host, kind);
  }

  // ----- Lists of values -----

  // A value behind `done`, which was written from `start` on over the bytes `before`.
  method WriteItem(ba: ByteArray, host: Endian, item: Item,
                   ghost before: seq<byte>, ghost start: nat, ghost done: seq<byte>, ghost code: seq<byte>)
    requires ba.Valid() && ba.CanGrowAll(Sizes(ba.endian, item.kind, item.v))
    requires ba.position == start + |done| && Overwrites(before, ba.Contents(), start, done)
    requires code == Encode(ba.endian, item.kind, item.v)
    modifies ba, ba.memory
    ensures ba.Valid() && old(ba.memory) <= ba.memory && fresh(ba.memory - old(ba.memory))
    ensures ba.position == start + |done + code| && Overwrites(before, ba.Contents(), start, done + code)
    ensures ba.endian == old(ba.endian) && old(ba.totalSize) <= ba.totalSize
    ensures ba.dataSize == Max(old(ba.dataSize), ba.position)
    ensures ba.totalSize ==
              CapacityAll(ba.nodeSize, old(ba.totalSize), old(ba.position), Sizes(ba.endian, item.kind, item.v))
  {
    ghost var mid: seq<byte> := ba.Contents();
    WriteValue(ba, host, item.kind, item.v);
    OverwritesTwice(before, mid, ba.Contents(), start, done, code);
  }

  // The next value of a list, after which there is room for the rest.
  method WriteNext(ba: ByteArray, host: Endian, item: Item,
                   ghost before: seq<byte>, ghost start: nat, ghost done: seq<byte>, ghost rest: seq<nat>)
    requires ba.Valid() && ba.CanGrowAll(Sizes(ba.endian, item.kind, item.v) + rest)
    requires ba.position == start + |done| && Overwrites(before, ba.Contents(), start, done)
    modifies ba, ba.memory
    ensures ba.Valid() && old(ba.memory) <= ba.memory && fresh(ba.memory - old(ba.memory))
    ensures var code := Encode(ba.endian, item.kind, item.v);
            && ba.position == start + |done + code|
            && Overwrites(before, ba.Contents(), start, done + code)
    ensures ba.endian == old(ba.endian) && old(ba.totalSize) <= ba.totalSize
    ensures ba.dataSize == Max(old(ba.dataSize), ba.position) && ba.CanGrowAll(rest)
  {
    AllGrowEnoughSplit(ba.nodeSize, ba.totalSize, ba.position, Sizes(ba.endian, item.kind, item.v), rest);
    SizesSum(ba.endian, item.kind, item.v);
    WriteItem(ba, host, item, before, start, done, Encode(ba.endian, item.kind, item.v));
  }

  // Writing a list of values, one after the other.
  method WriteAll(ba: ByteArray, host: Endian, items: seq<Item>)
    requires ba.Valid() && ba.CanGrowAll(AllSizes(ba.endian, items))
    modifies ba, ba.memory
    ensures ba.Valid() && old(ba.memory) <= ba.memory && fresh(ba.memory - old(ba.memory))
    ensures ba.Wrote(EncodeAll(old(ba.endian), items))
    ensures ba.endian == old(ba.endian) && old(ba.totalSize) <= ba.totalSize
  {
    ba.ContentsLength();
    ghost var order := ba.endian;
    ghost var codes: seq<seq<byte>> := Codes(order, items);
    ghost var before: seq<byte>, start: nat := ba.Contents(), ba.position;
    assert items[0..] == items;
    for i := 0 to |items|
      invariant ba.Valid() && old(ba.memory) <= ba.memory && fresh(ba.memory - old(ba.memory))
      invariant ba.position == start + |Concat(codes[..i])|
      invariant Overwrites(before, ba.Contents(), start, Concat(codes[..i]))
      invariant ba.dataSize == Max(old(ba.dataSize), ba.position)
      invariant ba.endian == order && old(ba.totalSize) <= ba.totalSize
      invariant ba.CanGrowAll(AllSizes(order, items[i..]))
    {
      ConcatNext(codes, i);
      AllSizesNext(order, items, i);
      WriteNext(ba, host, items[i], before, start, Concat(codes[..i]), AllSizes(order, items[i + 1..]));
    }
    assert codes[..|items|] == codes;
  }

  lemma DecodeAllEnds(order: Endian, kinds: seq<Kind>, s: seq<byte>, first: Decoded<Value>)
    requires kinds != [] && first == Decode(order, kinds[0], s) && first.Ended?
    ensures DecodeAll(order, kinds, s) == ([], first.used)
  {
  }

  // The first value of a list behind `used` bytes, and then the rest of it.
  lemma DecodeAllNext(order: Endian, kinds: seq<Kind>, s: seq<byte>, used: nat, first: Decoded<Value>)
    requires kinds != [] && used <= |s| && first == Decode(order, kinds[0], s[used..]) && first.Got?
    ensures DecodeAll(order, kinds, s[used..])
         == Prepend(first, DecodeAll(order, kinds[1..], s[used + first.used..]))
  {
    DropDrop(s, used, first.used);
  }

  method ReadRest(ba: ByteArray, host: Endian, kinds: seq<Kind>, ghost s: seq<byte>, ghost used: nat)
    returns (r: (seq<Value>, nat))
    requires ba.Valid() && used <= |s| && ba.Readable() == s[used..]
    modifies ba`cur, ba`position
    ensures r == DecodeAll(ba.endian, kinds, s[used..]) && used + r.1 <= |s|
    ensures ba.Valid() && ba.position == old(ba.position) + r.1 && ba.Readable() == s[used + r.1..]
    decreases |kinds|
  {
    if kinds == [] {
      return ([], 0);
    }
    var first := ReadValue(ba, host, kinds[0]);
    DropDrop(s, used, first.used);
    if first.Ended? {
      DecodeAllEnds(ba.endian, kinds, s[used..], first);
      return ([], first.used);
    }
    DecodeAllNext(ba.endian, kinds, s, used, first);
    var rest := ReadRest(ba, host, kinds[1..], s, used + first.used);
    return Prepend(first, rest);
  }

  // Reading values of given types until they are all read or the data ends: the values and
  // the number of bytes they took.
  method ReadAll(ba: ByteArray, host: Endian, kinds: seq<Kind>) returns (r: (seq<Value>, nat))
    requires ba.Valid()
    modifies ba`cur, ba`position
    ensures ba.Valid() && ba.Took(r.1)
    ensures r == DecodeAll(ba.endian, kinds, old(ba.Readable()))
  {
    ghost var s: seq<byte> := ba.Readable();
    assert s[0..] == s;
    r := ReadRest(ba, host, kinds, s, 0);
  }

  // Write a list of values, go back, read the same types: the same list, and the position
  // is again where the writing ended. This holds on every buffer, whatever its node size,
  // its contents and the place of the values in its nodes, and for any two hosts.
  method WriteSeekRead(ba: ByteArray, writer: Endian, reader: Endian, items: seq<Item>)
    returns (values: seq<Value>)
    requires ba.Valid() && ba.CanGrowAll(AllSizes(ba.endian, items))
    modifies ba, ba.memory
    ensures ba.Valid() && values == Values(items)
    ensures ba.Wrote(EncodeAll(old(ba.endian), items))
  {
    var start := ba.position;
    ghost var code: seq<byte> := EncodeAll(ba.endian, items);
    WriteAll(ba, writer, items);
    ghost var rest: seq<byte> := GoBack(ba, start, code);
    ListRoundTrip(ba.endian, items, rest);
    var r := ReadAll(ba, reader, Kinds(items));
    values := r.0;
  }

  // Back to the start of the bytes just written, they are the next to be read.
  method GoBack(ba: ByteArray, start: nat, ghost code: seq<byte>) returns (ghost rest: seq<byte>)
    requires ba.Valid() && ba.position == start + |code| <= |ba.Contents()|
    requires ba.Contents()[start..ba.position] == code
    modifies ba`position, ba`dataSize, ba`cur
    ensures ba.Valid() && ba.position == start && ba.dataSize == old(ba.dataSize)
    ensures ba.Readable() == code + rest
  {
    ba.ContentsLength();
    rest := ba.Contents()[ba.position..ba.dataSize];
    SliceNext(ba.Contents(), start, ba.position, ba.dataSize);
    var ok := ba.SetPosition(start);
  }
}
