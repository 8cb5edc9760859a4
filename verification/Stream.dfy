// net::SocketStream over a socket (net/socketstream.cpp:29-68) and the transfer loops
// of util::Stream (util/stream.cpp:28-41 and 60-73).
//
// The network is a script: what arrives, in which pieces, where it fails, and how much
// of each send the kernel accepts. Every property below holds for every script.
module Streams {
  import opened Bytes
  import opened ByteArrays

  datatype Arrival = Arrived(data: seq<byte>) | Failure

  // One receive of at most len bytes: its result, the bytes, and what is left of the script.
  datatype Delivery = Delivery(n: int, data: seq<byte>, rest: seq<Arrival>)

  function Deliver(inbound: seq<Arrival>, len: nat): (d: Delivery)
    ensures if d.n > 0 then d.n == |d.data| <= len else d.data == []
  {
    if inbound == [] then Delivery(0, [], [])
    else
      match inbound[0]
      case Failure => Delivery(-1, [], inbound[1..])
      case Arrived(data) =>
        if |data| <= len then Delivery(|data|, data, inbound[1..])
        else Delivery(len, data[..len], [Arrived(data[len..])] + inbound[1..])
  }

  // What the kernel accepts of a send of `size` bytes.
  function Accept(quota: seq<int>, size: nat): (n: int)
    ensures n <= size
  {
    if quota == [] then 0 else if quota[0] > size then size else quota[0]
  }

  function Used(quota: seq<int>): seq<int> {
    if quota == [] then [] else quota[1..]
  }

  // Everything that repeated receives get before one of them gets nothing, and whether that
  // one fails.
  function Deliverable(inbound: seq<Arrival>): seq<byte> {
    if inbound == [] || inbound[0].Failure? || inbound[0].data == [] then []
    else inbound[0].data + Deliverable(inbound[1..])
  }

  predicate EndsInFailure(inbound: seq<Arrival>) {
    inbound != [] && (inbound[0].Failure? || (inbound[0].data != [] && EndsInFailure(inbound[1..])))
  }

  lemma DeliverFirst(inbound: seq<Arrival>, len: nat)
    requires len > 0
    ensures var d, all := Deliver(inbound, len), Deliverable(inbound);
            if d.n > 0 then
              && d.n <= |all| && d.data == all[..d.n] && Deliverable(d.rest) == all[d.n..]
              && (EndsInFailure(d.rest) <==> EndsInFailure(inbound))
            else all == [] && d.n == if EndsInFailure(inbound) then -1 else 0
  {
    if inbound != [] && inbound[0].Arrived? && |inbound[0].data| > len {
      assert ([Arrived(inbound[0].data[len..])] + inbound[1..])[1..] == inbound[1..];
    }
  }

  // How many bytes repeated sends get accepted before one of them gets none.
  function Acceptable(quota: seq<int>): nat {
    if quota == [] || quota[0] <= 0 then 0 else quota[0] + Acceptable(quota[1..])
  }

  function Least(a: nat, b: nat, c: nat): nat {
    var m := if a <= b then a else b;
    if m <= c then m else c
  }

  lemma AcceptFirst(quota: seq<int>, left: nat, readable: nat)
    requires left > 0
    ensures var n := Accept(quota, if left <= readable then left else readable);
            if n > 0
            then Least(left, readable, Acceptable(quota))
                   == n + Least(left - n, readable - n, Acceptable(Used(quota)))
            else Least(left, readable, Acceptable(quota)) == 0
  {
  }

  class Socket {
    var connected: bool
    // What the next receives will find; an exhausted script is the end of the stream.
    var inbound: seq<Arrival>
    // How many bytes the next sends will accept; a negative entry is an error.
    var quota: seq<int>
    // Everything delivered to the program, and everything it has sent.
    var received: seq<byte>
    var sent: seq<byte>

    constructor (connected: bool, inbound: seq<Arrival>, quota: seq<int>)
      ensures this.connected == connected && this.inbound == inbound && this.quota == quota
      ensures received == [] && sent == []
    {
      this.connected, this.inbound, this.quota := connected, inbound, quota;
      received, sent := [], [];
    }

    // What the script delivers to a receive of at most `len` bytes; the rest waits.
    method NextArrival(len: nat) returns (n: int, data: seq<byte>)
      modifies this`inbound
      ensures Delivery(n, data, inbound) == Deliver(old(inbound), len)
    {
      if inbound == [] {
        return 0, [];
      }
      match inbound[0]
      case Failure =>
        inbound := inbound[1..];
        return -1, [];
      case Arrived(bytes) =>
        data := if |bytes| <= len then bytes else bytes[..len];
        n := |data|;
        inbound := if |bytes| <= len then inbound[1..] else [Arrived(bytes[len..])] + inbound[1..];
    }

    // A receive of at most len bytes did what the script says, with result ret.
    twostate predicate Received(len: nat, ret: int)
      reads this
    {
      var d := Deliver(old(inbound), len);
      ret == d.n && inbound == d.rest && received == old(received) + d.data
    }

    // A send of `size` bytes, whose first are `data`.
    twostate predicate Sent(size: nat, ret: int, data: seq<byte>)
      reads this
    {
      && ret == Accept(old(quota), size) && quota == Used(old(quota))
      && |data| == (if ret > 0 then ret else 0) && sent == old(sent) + data
    }

    // recvmsg: fills the segments in order. The segments belong to `target`, where they
    // are the bytes [at, at + len).
    method Recv(iovs: seq<IoVec>, ghost target: ByteArray, ghost at: nat, ghost len: nat) returns (n: int)
      requires target.Linked() && target.Stored() && this !in target.memory
      requires target.Covers(iovs, at, len)
      modifies this`inbound, this`received, target`blocks, target.memory
      ensures target.Linked() && target.Stored()
      ensures n <= len && old(received) <= received
      ensures |received| == |old(received)| + if n > 0 then n else 0
      ensures n <= 0 ==> target.Contents() == old(target.Contents())
      ensures n > 0 ==> at + n <= |old(target.Contents())|
      ensures n > 0 ==> target.Contents() == Splice(old(target.Contents()), at, received[|old(received)|..])
      ensures Received(len, n)
    {
      var data;
      n, data := NextArrival(Total(iovs, |iovs|));
      received := received + data;
      assert received[|old(received)|..] == data;
      if n > 0 {
        Scatter(iovs, data, target, at, len);
      }
    }

    // One segment of the scatter.
    static method FillSegment(iovs: seq<IoVec>, i: nat, data: seq<byte>, done: nat,
                              ghost target: ByteArray, ghost before: seq<byte>, ghost at: nat, ghost len: nat)
      returns (n: nat)
      requires target.Linked() && target.Stored()
      requires target.Covers(iovs, at, len) && i <= |iovs| && done == Total(iovs, i) < |data| <= len
      requires |before| == target.totalSize && target.Replaced(before, at, data, done)
      modifies target`blocks, target.memory
      ensures target.Linked() && target.Stored()
      ensures i < |iovs| && 0 < n <= |data| - done && (done + n < |data| ==> done + n == Total(iovs, i + 1))
      ensures target.Replaced(before, at, data, done + n)
    {
      var seg := iovs[i];
      target.ConsecutiveAt(iovs, at, |iovs|, i);
      n := if seg.len <= |data| - done then seg.len else |data| - done;
      CopyIn(seg.base, seg.offset, data[done..done + n]);
      target.NoteFill(seg, n, data, done, before, at);
    }

    // The segments from the i-th on take what is left of the data.
    static method ScatterFrom(iovs: seq<IoVec>, i: nat, data: seq<byte>, done: nat,
                              ghost target: ByteArray, ghost before: seq<byte>, ghost at: nat, ghost len: nat)
      requires target.Linked() && target.Stored()
      requires target.Covers(iovs, at, len) && i <= |iovs| && done == Total(iovs, i) < |data| <= len
      requires |before| == target.totalSize && target.Replaced(before, at, data, done)
      modifies target`blocks, target.memory
      ensures target.Linked() && target.Stored() && target.Replaced(before, at, data, |data|)
      decreases |iovs| - i
    {
      var n := FillSegment(iovs, i, data, done, target, before, at, len);
      if done + n < |data| {
        ScatterFrom(iovs, i + 1, data, done + n, target, before, at, len);
      }
    }

    static method Scatter(iovs: seq<IoVec>, data: seq<byte>, ghost target: ByteArray, ghost at: nat, ghost len: nat)
      requires target.Linked() && target.Stored()
      requires target.Covers(iovs, at, len) && 0 < |data| <= len
      modifies target`blocks, target.memory
      ensures target.Linked() && target.Stored()
      ensures at + |data| <= |old(target.Contents())|
      ensures target.Contents() == Splice(old(target.Contents()), at, data)
    {
      target.CoversFits(iovs, at, len);
      target.ReplacedNone(at, data);
      ghost var before: seq<byte> := target.Contents();
      ScatterFrom(iovs, 0, data, 0, target, before, at, len);
      target.ReplacedAll(before, at, data);
    }

    // sendmsg: takes bytes from the segments in order, as many as the quota allows.
    method Send(iovs: seq<IoVec>, ghost source: ByteArray, ghost at: nat, ghost len: nat) returns (n: int)
      requires source.Linked() && source.Stored() && source.Covers(iovs, at, len)
      modifies this`quota, this`sent
      ensures n <= len
      ensures n <= 0 ==> sent == old(sent)
      ensures n > 0 ==> at + n <= |source.Contents()|
      ensures Sent(len, n, if n > 0 then source.Contents()[at..at + n] else [])
    {
      if quota == [] {
        return 0;
      }
      var total := Total(iovs, |iovs|);
      n := if quota[0] > total then total else quota[0];
      quota := quota[1..];
      if n > 0 {
        source.CoversFits(iovs, at, len);
        var data := Gather(iovs, n, source, at, len);
        sent := sent + data;
      }
    }

    static method Gather(iovs: seq<IoVec>, n: nat, ghost source: ByteArray, ghost at: nat, ghost len: nat)
      returns (data: seq<byte>)
      requires source.Linked() && source.Stored() && source.Covers(iovs, at, len)
      requires 0 < n <= len && at + n <= |source.Contents()|
      ensures data == source.Contents()[at..at + n]
    {
      data := [];
      var i, done: nat := 0, 0;
      ghost var flat: seq<byte> := source.Contents();
      while done < n
        invariant i <= |iovs| && done <= n && data == flat[at..at + done]
        invariant done < n ==> done == Total(iovs, i)
      {
        var m := if iovs[i].len <= n - done then iovs[i].len else n - done;
        GatherNext(iovs, i, m, source, at, len, n);
        data := data + iovs[i].base[iovs[i].offset..iovs[i].offset + m];
        i, done := i + 1, done + m;
      }
    }

    // The first m bytes of segment i are the next bytes of the flat string.
    static lemma GatherNext(iovs: seq<IoVec>, i: nat, m: nat, source: ByteArray, at: nat, len: nat, n: nat)
      requires source.Linked() && source.Stored() && source.Covers(iovs, at, len)
      requires i <= |iovs| && Total(iovs, i) < n <= len && at + n <= |source.Contents()|
      requires i < |iovs| ==> m == if iovs[i].len <= n - Total(iovs, i) then iovs[i].len else n - Total(iovs, i)
      ensures var flat, p := source.Contents(), at + Total(iovs, i);
              && i < |iovs| && m > 0 && p + m <= at + n && iovs[i].offset + m <= iovs[i].base.Length
              && flat[at..p] + iovs[i].base[iovs[i].offset..iovs[i].offset + m] == flat[at..p + m]
              && (p + m < at + n ==> Total(iovs, i + 1) == Total(iovs, i) + m)
    {
      var p := at + Total(iovs, i);
      source.ConsecutiveAt(iovs, at, |iovs|, i);
      source.SegmentBytes(iovs[i], m, p);
      SliceNext(source.Contents(), at, p, p + m);
    }
  }

  // What both directions of a stream do with a buffer. `Stream` is abstract in the
  // source; the socket stream is its implementation here.
  class SocketStream {
    const socket: Socket

    constructor (socket: Socket)
      ensures this.socket == socket
    {
      this.socket := socket;
    }

    ghost predicate Ready(buf: ByteArray)
      reads buf, buf.nodes, buf.memory
    {
      buf.Valid() && socket !in buf.memory
    }

    // The socket fills segments that cover the next len bytes.
    method Fill(buf: ByteArray, iovs: seq<IoVec>, len: nat) returns (ret: int)
      requires Ready(buf) && buf.Covers(iovs, buf.position, len)
      modifies socket`inbound, socket`received, buf`blocks, buf.memory
      ensures Ready(buf) && ret <= len && old(socket.received) <= socket.received
      ensures |socket.received| == |old(socket.received)| + if ret > 0 then ret else 0
      ensures ret <= 0 ==> buf.Contents() == old(buf.Contents())
      ensures ret > 0 ==> buf.position + ret <= |old(buf.Contents())|
      ensures ret > 0 ==> buf.Contents() == Splice(old(buf.Contents()), buf.position,
                                                   socket.received[|old(socket.received)|..])
      ensures socket.Received(len, ret)
    {
      ret := socket.Recv(iovs, buf, buf.position, len);
    }

    // Exposes room for len bytes and lets the socket fill some of it.
    method Arrive(buf: ByteArray, len: nat) returns (ret: int)
      requires Ready(buf) && buf.CanGrow(len)
      modifies socket`inbound, socket`received, buf, buf.memory
      ensures Ready(buf) && old(buf.memory) <= buf.memory && fresh(buf.memory - old(buf.memory))
      ensures ret <= len && old(socket.received) <= socket.received
      ensures |socket.received| == |old(socket.received)| + if ret > 0 then ret else 0
      ensures buf.position == old(buf.position) && buf.dataSize == old(buf.dataSize) && buf.endian == old(buf.endian)
      ensures Overwrites(old(buf.Contents()), buf.Contents(), buf.position,
                         socket.received[|old(socket.received)|..])
      ensures buf.totalSize == Capacity(buf.nodeSize, old(buf.totalSize), buf.position, len)
      ensures old(buf.totalSize) <= buf.totalSize && buf.position + len <= buf.totalSize
      ensures socket.Received(len, ret)
    {
      buf.ContentsLength();
      var iovs, size := buf.GetWriteBuffers([], len);
      buf.ContentsLength();
      ghost var grown: seq<byte> := buf.Contents();
      ret := Fill(buf, iovs, len);
      if ret > 0 {
        SpliceOverwrites(old(buf.Contents()), grown, buf.position, socket.received[|old(socket.received)|..]);
      }
    }

    // Then the position moves past what arrived.
    method Receive(buf: ByteArray, len: nat) returns (ret: int)
      requires Ready(buf) && buf.CanGrow(len)
      modifies socket`inbound, socket`received, buf, buf.memory
      ensures Ready(buf) && old(buf.memory) <= buf.memory && fresh(buf.memory - old(buf.memory))
      ensures ret <= len && old(socket.received) <= socket.received
      ensures |socket.received| == |old(socket.received)| + if ret > 0 then ret else 0
      ensures buf.Wrote(socket.received[|old(socket.received)|..]) && buf.endian == old(buf.endian)
      ensures buf.totalSize == Capacity(buf.nodeSize, old(buf.totalSize), old(buf.position), len)
      ensures old(buf.totalSize) <= buf.totalSize && old(buf.position) + len <= buf.totalSize
      ensures socket.Received(len, ret)
    {
      ret := Arrive(buf, len);
      if ret > 0 {
        var ok := buf.SetPosition(buf.position + ret);
      }
    }

    // `read` into a buffer is one `write` of the bytes that arrived, except that the
    // capacity has grown for len bytes.
    method Read(buf: ByteArray, len: nat) returns (ret: int)
      requires Ready(buf) && buf.CanGrow(len)
      modifies socket`inbound, socket`received, buf, buf.memory
      ensures Ready(buf) && old(buf.memory) <= buf.memory && fresh(buf.memory - old(buf.memory))
      ensures ret <= len && old(socket.received) <= socket.received
      ensures |socket.received| == |old(socket.received)| + if ret > 0 then ret else 0
      ensures buf.Wrote(socket.received[|old(socket.received)|..]) && buf.endian == old(buf.endian)
      ensures !socket.connected ==>
                ret == -1 && socket.received == old(socket.received) && socket.inbound == old(socket.inbound)
      ensures socket.connected ==>
                && socket.Received(len, ret)
                && buf.totalSize == Capacity(buf.nodeSize, old(buf.totalSize), old(buf.position), len)
                && old(buf.position) + len <= buf.totalSize
      ensures old(buf.totalSize) <= buf.totalSize
    {
      if socket.connected {
        ret := Receive(buf, len);
      } else {
        buf.ContentsLength();
        ret := -1;
      }
    }

    // Sends from the position on.
    method SendFrom(buf: ByteArray, len: nat) returns (ret: int)
      requires Ready(buf)
      modifies socket`quota, socket`sent
      ensures ret <= len && (ret > 0 ==> buf.position + ret <= buf.dataSize <= |buf.Contents()|)
      ensures socket.Sent(if len > buf.dataSize - buf.position then buf.dataSize - buf.position else len, ret,
                          if ret > 0 then buf.Contents()[buf.position..buf.position + ret] else [])
    {
      buf.ContentsLength();
      var iovs, size := buf.GetReadBuffers([], len);
      ret := socket.Send(iovs, buf, buf.position, size);
    }

    // `write` from a buffer sends a prefix of what is left to read and moves past it.
    method Write(buf: ByteArray, len: nat) returns (ret: int)
      requires Ready(buf)
      modifies socket`quota, socket`sent, buf`position, buf`dataSize, buf`cur
      ensures Ready(buf)
      ensures ret <= len && (ret > 0 ==> old(buf.position) + ret <= buf.dataSize)
      ensures buf.dataSize == old(buf.dataSize) <= |buf.Contents()|
      ensures buf.position == old(buf.position) + if ret > 0 then ret else 0
      ensures socket.sent == old(socket.sent) + buf.Contents()[old(buf.position)..buf.position]
      ensures socket.connected == old(socket.connected)
      ensures !socket.connected ==> ret == -1 && socket.quota == old(socket.quota) && buf.position == old(buf.position)
      ensures socket.connected ==>
                var left := buf.dataSize - old(buf.position);
                ret == Accept(old(socket.quota), if len > left then left else len)
                && socket.quota == Used(old(socket.quota))
    {
      buf.ContentsLength();
      if !socket.connected {
        return -1;
      }
      ret := SendFrom(buf, len);
      if ret > 0 {
        var ok := buf.SetPosition(buf.position + ret);
      }
    }

    // A buffer after one `write` of `data` at `start` over `before`, which had dataSize `size`.
    ghost predicate Holding(buf: ByteArray, before: seq<byte>, start: nat, size: nat, data: seq<byte>)
      reads buf
    {
      && buf.position == start + |data|
      && buf.dataSize == Max(size, buf.position)
      && Overwrites(before, buf.Contents(), start, data)
    }

    // The socket, connected, has delivered the first `got` bytes of those that repeated
    // receives get before one gets nothing. had: what it had delivered before.
    ghost predicate Along(all: seq<byte>, failure: bool, had: nat, got: nat)
      reads socket
    {
      && socket.connected && had <= |socket.received| && got <= |all|
      && socket.received[had..] == all[..got]
      && Deliverable(socket.inbound) == all[got..] && EndsInFailure(socket.inbound) == failure
    }

    method ReadAlong(buf: ByteArray, left: nat,
                     ghost all: seq<byte>, ghost failure: bool, ghost had: nat, ghost got: nat)
      returns (ret: int)
      requires Ready(buf) && buf.CanGrow(left) && left > 0
      requires socket.connected ==> Along(all, failure, had, got)
      modifies socket`inbound, socket`received, buf, buf.memory
      ensures Ready(buf) && old(buf.memory) <= buf.memory && fresh(buf.memory - old(buf.memory))
      ensures ret <= left && old(socket.received) <= socket.received
      ensures |socket.received| == |old(socket.received)| + if ret > 0 then ret else 0
      ensures buf.Wrote(socket.received[|old(socket.received)|..]) && buf.endian == old(buf.endian)
      ensures ret > 0 ==> old(buf.position) + left <= buf.totalSize
      ensures !socket.connected ==> ret == -1
      ensures socket.connected && ret > 0 ==> Along(all, failure, had, got + ret)
      ensures socket.connected && ret <= 0 ==> got == |all| && ret == if failure then -1 else 0
    {
      DeliverFirst(socket.inbound, left);
      ghost var was, rest := socket.received, Deliver(socket.inbound, left).data;
      ret := Read(buf, left);
      if socket.connected && ret > 0 {
        AlongOn(all, was[had..], got, ret, rest);
        assert socket.received[had..] == was[had..] + rest;
      }
    }

    static lemma AlongOn(all: seq<byte>, before: seq<byte>, got: nat, n: nat, data: seq<byte>)
      requires got <= |all| && n <= |all| - got && before == all[..got] && data == all[got..][..n]
      ensures before + data == all[..got + n] && all[got..][n..] == all[got + n..]
    {
    }

    // One more `read`. had: what the socket had delivered before the first.
    method ReadMore(buf: ByteArray, left: nat, ghost before: seq<byte>, ghost start: nat, ghost size: nat,
                    ghost had: nat, ghost all: seq<byte>, ghost failure: bool)
      returns (ret: int)
      requires Ready(buf) && buf.CanGrow(left) && left > 0 && had <= |socket.received|
      requires Holding(buf, before, start, size, socket.received[had..])
      requires socket.connected ==> Along(all, failure, had, |socket.received| - had)
      modifies socket`inbound, socket`received, buf, buf.memory
      ensures Ready(buf) && old(buf.memory) <= buf.memory && fresh(buf.memory - old(buf.memory))
      ensures ret <= left && old(socket.received) <= socket.received
      ensures |socket.received| == |old(socket.received)| + if ret > 0 then ret else 0
      ensures Holding(buf, before, start, size, socket.received[had..]) && buf.endian == old(buf.endian)
      ensures ret > 0 ==> old(buf.position) + left <= buf.totalSize
      ensures !socket.connected ==> ret == -1
      ensures socket.connected && ret > 0 ==> Along(all, failure, had, |socket.received| - had)
      ensures socket.connected && ret <= 0 ==> |socket.received| - had == |all| && ret == if failure then -1 else 0
    {
      ghost var mid: seq<byte>, seen: seq<byte> := buf.Contents(), socket.received;
      ret := ReadAlong(buf, left, all, failure, had, |socket.received| - had);
      OverwritesTwice(before, mid, buf.Contents(), start, seen[had..], socket.received[|seen|..]);
      assert socket.received[had..] == seen[had..] + socket.received[|seen|..];
    }

    // How far the loop of `readF` has come: what arrived is in the buffer, and it is the next
    // `got` bytes of the script.
    ghost predicate Filling(buf: ByteArray, before: seq<byte>, start: nat, size: nat,
                            had: nat, all: seq<byte>, failure: bool, got: nat)
      reads buf, buf.nodes, buf.memory, socket
    {
      && Ready(buf) && |socket.received| == had + got
      && Holding(buf, before, start, size, socket.received[had..])
      && (socket.connected ==> Along(all, failure, had, got))
    }

    method ReadLoop(buf: ByteArray, len: nat, ghost before: seq<byte>, ghost start: nat, ghost size: nat,
                    ghost had: nat, ghost all: seq<byte>, ghost failure: bool)
      returns (ret: int)
      requires Filling(buf, before, start, size, had, all, failure, 0) && buf.CanGrow(len)
      modifies socket`inbound, socket`received, buf, buf.memory
      ensures Ready(buf) && old(buf.memory) <= buf.memory && fresh(buf.memory - old(buf.memory))
      ensures had <= |socket.received| && socket.received[..had] == old(socket.received)
      ensures Holding(buf, before, start, size, socket.received[had..]) && buf.endian == old(buf.endian)
      ensures !socket.connected ==> |socket.received| == had && ret == if len > 0 then -1 else 0
      ensures socket.connected ==>
                if |all| >= len then ret == len && socket.received[had..] == all[..len]
                else socket.received[had..] == all && ret == if failure then -1 else 0
    {
      var left: nat := len;
      while left > 0
        invariant left <= len && Filling(buf, before, start, size, had, all, failure, len - left)
        invariant left == len ==> buf.totalSize == old(buf.totalSize) && buf.position == old(buf.position)
        invariant left < len ==> buf.position + left <= buf.totalSize && socket.connected
        invariant old(buf.memory) <= buf.memory && fresh(buf.memory - old(buf.memory))
        invariant old(socket.received) <= socket.received && buf.endian == old(buf.endian)
      {
        var length := ReadMore(buf, left, before, start, size, had, all, failure);
        if length <= 0 {
          return length;
        }
        left := left - length;
      }
      return len;
    }

    // `readF`: repeats `read` until len bytes have come or one read gets nothing. Either way
    // the buffer is as after one `write` of everything that arrived, and that is everything
    // the network delivers before, up to len bytes.
    method ReadF(buf: ByteArray, len: nat) returns (ret: int)
      requires Ready(buf) && buf.CanGrow(len)
      modifies socket`inbound, socket`received, buf, buf.memory
      ensures Ready(buf) && old(buf.memory) <= buf.memory && fresh(buf.memory - old(buf.memory))
      ensures old(socket.received) <= socket.received
      ensures buf.Wrote(socket.received[|old(socket.received)|..]) && buf.endian == old(buf.endian)
      ensures !socket.connected ==> socket.received == old(socket.received) && ret == if len > 0 then -1 else 0
      ensures socket.connected ==>
                var all := Deliverable(old(socket.inbound));
                var got := socket.received[|old(socket.received)|..];
                if |all| >= len then ret == len && got == all[..len]
                else got == all && ret == if EndsInFailure(old(socket.inbound)) then -1 else 0
    {
      buf.ContentsLength();
      ret := ReadLoop(buf, len, buf.Contents(), buf.position, buf.dataSize, |socket.received|,
                      Deliverable(socket.inbound), EndsInFailure(socket.inbound));
    }

    // How far the loop of `writeF` has come: the stretch from start on has been sent, and in
    // the end it will be `total` bytes long.
    ghost predicate Draining(buf: ByteArray, flat: seq<byte>, start: nat, sent: seq<byte>, total: nat, left: nat)
      reads buf, buf.nodes, buf.memory, socket
    {
      && Ready(buf) && buf.Contents() == flat && start <= buf.position <= buf.dataSize <= |flat|
      && socket.sent == sent + flat[start..buf.position]
      && (socket.connected ==>
            total == buf.position - start
                     + Least(left, buf.dataSize - buf.position, Acceptable(socket.quota)))
    }

    // One more `write`.
    method WriteMore(buf: ByteArray, left: nat, ghost flat: seq<byte>, ghost start: nat, ghost sent: seq<byte>,
                     ghost total: nat)
      returns (ret: int)
      requires Draining(buf, flat, start, sent, total, left) && left > 0
      modifies socket`quota, socket`sent, buf`position, buf`dataSize, buf`cur
      ensures ret <= left && buf.position == old(buf.position) + (if ret > 0 then ret else 0)
      ensures buf.dataSize == old(buf.dataSize)
      ensures if ret > 0 then Draining(buf, flat, start, sent, total, left - ret)
              else
                && Ready(buf) && buf.Contents() == flat && socket.sent == sent + flat[start..buf.position]
                && (socket.connected ==> total == buf.position - start)
      ensures !socket.connected ==> ret == -1
    {
      ghost var mid := buf.position;
      AcceptFirst(socket.quota, left, buf.dataSize - mid);
      ret := Write(buf, left);
      SliceNext(flat, start, mid, buf.position);
    }

    // `writeF`: repeats `write`. What has been sent is exactly the stretch the position
    // moved over, also when an error stops the loop early; how much that is the network says.
    method WriteF(buf: ByteArray, len: nat) returns (ret: int)
      requires Ready(buf)
      modifies socket`quota, socket`sent, buf`position, buf`dataSize, buf`cur
      ensures Ready(buf)
      ensures old(buf.position) <= buf.position <= buf.dataSize == old(buf.dataSize) <= |buf.Contents()|
      ensures if buf.position - old(buf.position) == len then ret == len else ret <= 0
      ensures socket.sent == old(socket.sent) + buf.Contents()[old(buf.position)..buf.position]
      ensures buf.position - old(buf.position) ==
                if socket.connected then Least(len, buf.dataSize - old(buf.position), Acceptable(old(socket.quota)))
                else 0
    {
      buf.ContentsLength();
      var left: nat := len;
      ghost var flat: seq<byte>, start: nat := buf.Contents(), buf.position;
      ghost var total := Least(len, buf.dataSize - start, Acceptable(socket.quota));
      while left > 0
        invariant left <= len && buf.position == start + len - left && buf.dataSize == old(buf.dataSize)
        invariant Draining(buf, flat, start, old(socket.sent), total, left)
        invariant !socket.connected ==> left == len
      {
        var length := WriteMore(buf, left, flat, start, old(socket.sent), total);
        if length <= 0 {
          return length;
        }
        left := left - length;
      }
      return len;
    }
  }
}
