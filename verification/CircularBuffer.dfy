/** The byte buffers of Project/Public/CircularBuffer.h, with their wrapping counters, and the loops of
    Project/Kernel/Net/IOEngine_Epoll.cpp that send from one and receive into the other. */
module CircularBuffer {
  import opened Division
  import Q = CircularQueue

  const TWO_31 := 0x8000_0000
  const TWO_32 := 0x1_0000_0000

  /** What is left of a number in a signed 32-bit variable. */
  function Wrap(x: int): (r: int)
    ensures -TWO_31 <= r < TWO_31
  {
    (x + TWO_31) % TWO_32 - TWO_31
  }

  /** The powers of two up to 2^30 are the divisors of 2^32 in that range. */
  predicate PowerOfTwo(size: int) {
    0 < size <= 0x4000_0000 && TWO_32 % size == 0
  }

  lemma PowersOfTwo(size: int)
    ensures PowerOfTwo(size) <==> exists k: nat :: k <= 30 && size == Q.Pow2(k)
  {
    hide Q.Pow2;
    Q.Pow2Of31();
    Q.Pow2Half();
    if PowerOfTwo(size) {
      assert TWO_32 == TWO_32 / size * size;
      Q.DivisorIsPow2(size, TWO_32 / size, 32);
      var k: nat :| k <= 32 && size == Q.Pow2(k);
      if k > 30 { Q.Pow2Order(30, k); }
    }
    if k: nat :| k <= 30 && size == Q.Pow2(k) {
      if k < 30 { Q.Pow2Order(k, 30); }
      Q.Pow2Divides(k);
    }
  }

  function Min(a: int, b: int): int { if a < b then a else b }

  /** The position `k` places behind `r` in a ring. */
  function At(r: int, k: int, size: int): int {
    if r + k < size then r + k else r + k - size
  }

  // ---------------------------------------------------------------------------------------------------------
  // Counters

  /** Moving on by `k` and by any multiple of 2^32. */
  lemma ModShift(x: int, k: int, c: int, size: int)
    requires PowerOfTwo(size) && 0 <= k <= size
    ensures 0 <= x % size < size && (x + k + c * TWO_32) % size == At(x % size, k, size)
  {
    var d, q := TWO_32 / size, x / size;
    assert TWO_32 == d * size;
    assert c * TWO_32 == c * d * size;
    assert x == q * size + x % size;
    if x % size + k < size {
      assert x + k + c * TWO_32 == (q + c * d) * size + (x % size + k);
      QuotientIs(x + k + c * TWO_32, size, q + c * d, x % size + k);
    } else {
      assert x + k + c * TWO_32 == (q + c * d + 1) * size + (x % size + k - size);
      QuotientIs(x + k + c * TWO_32, size, q + c * d + 1, x % size + k - size);
    }
  }

  lemma WrapIs(x: int) returns (c: int)
    ensures Wrap(x) == x + c * TWO_32
  {
    c := -((x + TWO_31) / TWO_32);
  }

  /** The counters, taken as positions in the ring, are as far apart as their wrapping difference. */
  lemma Offsets(w: int, r: int, size: int)
    requires PowerOfTwo(size) && 0 <= Wrap(w - r) <= size
    ensures 0 <= r % size < size && w % size == At(r % size, Wrap(w - r), size)
  {
    var c := WrapIs(w - r);
    assert w == r + Wrap(w - r) + (-c) * TWO_32;
    ModShift(r, Wrap(w - r), -c, size);
  }

  lemma WrapUnique(x: int, y: int, c: int)
    requires -TWO_31 <= y < TWO_31 && y == x + c * TWO_32
    ensures Wrap(x) == y
  {
  }

  lemma WrapSum(w: int, r: int, k: int)
    ensures 0 <= Wrap(w - r) && 0 <= k && Wrap(w - r) + k < TWO_31 ==> Wrap(Wrap(w + k) - r) == Wrap(w - r) + k
    ensures 0 <= k <= Wrap(w - r) ==> Wrap(w - Wrap(r + k)) == Wrap(w - r) - k
  {
    hide Wrap;
    var a := WrapIs(w - r);
    var b := WrapIs(w + k);
    var c := WrapIs(r + k);
    if 0 <= Wrap(w - r) && 0 <= k && Wrap(w - r) + k < TWO_31 {
      WrapUnique(Wrap(w + k) - r, Wrap(w - r) + k, a - b);
    }
    if 0 <= k <= Wrap(w - r) {
      WrapUnique(w - Wrap(r + k), Wrap(w - r) - k, a + c);
    }
  }

  lemma Bump(w: int, r: int, k: int, size: int)
    requires PowerOfTwo(size) && 0 <= Wrap(w - r) <= size && 0 <= k <= size
    ensures Wrap(w - r) + k <= size ==> Wrap(Wrap(w + k) - r) == Wrap(w - r) + k
    ensures k <= Wrap(w - r) ==> Wrap(w - Wrap(r + k)) == Wrap(w - r) - k
    ensures Wrap(r + k) % size == At(r % size, k, size)
  {
    hide Wrap;
    WrapSum(w, r, k);
    var c := WrapIs(r + k);
    ModShift(r, k, c, size);
  }

  // ---------------------------------------------------------------------------------------------------------
  // The bytes

  /** The ring holds `queue` from position `r` on. */
  ghost predicate Holds(ring: seq<char>, r: int, queue: seq<char>) {
    && 0 <= r < |ring| && |queue| <= |ring|
    && forall i {:trigger queue[i]} :: 0 <= i < |queue| ==> ring[At(r, i, |ring|)] == queue[i]
  }

  /** Bytes that lie in one piece are those of the queue. */
  lemma Piece(ring: seq<char>, r: int, queue: seq<char>, k: nat, n: nat)
    requires Holds(ring, r, queue) && k + n <= |queue| && At(r, k, |ring|) + n <= |ring|
    ensures var a := At(r, k, |ring|); 0 <= a && ring[a..a + n] == queue[k..k + n]
  {
    var a := At(r, k, |ring|);
    var s, t := ring[a..a + n], queue[k..k + n];
    forall i | 0 <= i < n ensures s[i] == t[i] {
      assert t[i] == queue[k + i];
    }
  }

  /** Taking bytes off the front. */
  lemma Taken(ring: seq<char>, r: int, queue: seq<char>, k: nat)
    requires Holds(ring, r, queue) && k <= |queue|
    ensures Holds(ring, At(r, k, |ring|), queue[k..])
  {
    forall i | 0 <= i < |queue| - k ensures ring[At(At(r, k, |ring|), i, |ring|)] == queue[k..][i] {
      assert queue[k..][i] == queue[k + i];
    }
  }

  /** Bytes put behind the queue. */
  lemma Put(ring: seq<char>, r: int, queue: seq<char>, bytes: seq<char>, ring': seq<char>)
    requires Holds(ring, r, queue) && |queue| + |bytes| <= |ring| == |ring'|
    requires forall i :: 0 <= i < |bytes| ==> ring'[At(r, |queue| + i, |ring|)] == bytes[i]
    requires forall i :: 0 <= i < |queue| ==> ring'[At(r, i, |ring|)] == ring[At(r, i, |ring|)]
    ensures Holds(ring', r, queue + bytes)
  {
    forall i | 0 <= i < |queue + bytes| ensures ring'[At(r, i, |ring|)] == (queue + bytes)[i] {
      if i >= |queue| { assert (queue + bytes)[i] == bytes[i - |queue|]; }
    }
  }

  /** The ring with bytes written from `off` on. */
  function Overwrite(ring: seq<char>, off: int, bytes: seq<char>): (r: seq<char>)
    requires 0 <= off && off + |bytes| <= |ring|
    ensures |r| == |ring|
  {
    ring[..off] + bytes + ring[off + |bytes|..]
  }

  /** The ring with bytes written from `off` on, the rest of them at its start. */
  function Spread(ring: seq<char>, off: int, bytes: seq<char>): seq<char>
    requires 0 <= off < |ring| && |bytes| <= |ring|
  {
    var l := Min(|bytes|, |ring| - off);
    Overwrite(Overwrite(ring, off, bytes[..l]), 0, bytes[l..])
  }

  lemma OverwriteAt(ring: seq<char>, off: int, bytes: seq<char>, k: nat)
    requires 0 <= off && off + |bytes| <= |ring| && k < |ring|
    ensures Overwrite(ring, off, bytes)[k] == if off <= k < off + |bytes| then bytes[k - off] else ring[k]
  {
  }

  lemma SpreadAt(ring: seq<char>, off: int, bytes: seq<char>, k: nat)
    requires 0 <= off < |ring| && |bytes| <= |ring| && k < |ring|
    ensures |Spread(ring, off, bytes)| == |ring|
    ensures var l := Min(|bytes|, |ring| - off);
      Spread(ring, off, bytes)[k] ==
        if k < |bytes| - l then bytes[l + k] else if off <= k < off + l then bytes[k - off] else ring[k]
  {
    hide Overwrite;
    var l := Min(|bytes|, |ring| - off);
    OverwriteAt(ring, off, bytes[..l], k);
    OverwriteAt(Overwrite(ring, off, bytes[..l]), 0, bytes[l..], k);
  }

  /** Bytes put behind the queue in two pieces: up to the end of the ring, and from its start. */
  lemma PutInTwo(ring: seq<char>, r: int, queue: seq<char>, bytes: seq<char>)
    requires Holds(ring, r, queue) && |queue| + |bytes| <= |ring|
    ensures 0 <= At(r, |queue|, |ring|) < |ring|
    ensures Holds(Spread(ring, At(r, |queue|, |ring|), bytes), r, queue + bytes)
  {
    hide Spread;
    var off := At(r, |queue|, |ring|);
    var ring' := Spread(ring, off, bytes);
    SpreadAt(ring, off, bytes, 0);
    forall i | 0 <= i < |bytes| ensures ring'[At(r, |queue| + i, |ring|)] == bytes[i] {
      SpreadAt(ring, off, bytes, At(r, |queue| + i, |ring|));
    }
    forall i | 0 <= i < |queue| ensures ring'[At(r, i, |ring|)] == ring[At(r, i, |ring|)] {
      SpreadAt(ring, off, bytes, At(r, i, |ring|));
    }
    Put(ring, r, queue, bytes, ring');
  }

  // ---------------------------------------------------------------------------------------------------------
  // The buffer

  /** A place in the buffer, and how many bytes there may be read or written in one piece. */
  datatype Region = NoRegion | Region(offset: int, len: int)

  class CircluarBuffer {
    var buff: array<char>
    var size: int
    var wcount: int
    var rcount: int

    /** The bytes written and not read yet. */
    ghost var queue: seq<char>

    ghost predicate Valid()
      reads this, buff
    {
      && PowerOfTwo(size) && buff.Length == size
      && -TWO_31 <= wcount < TWO_31 && -TWO_31 <= rcount < TWO_31
      && |queue| <= size && Wrap(wcount - rcount) == |queue|
      && Holds(buff[..], rcount % size, queue)
    }

    constructor (size': int)
      requires PowerOfTwo(size')
      ensures Valid() && queue == [] && size == size' && fresh(buff)
    {
      buff := new char[size'](_ => '\0');
      size, wcount, rcount := size', 0, 0;
      queue := [];
    }

    function DataSize(): int
      reads this
    {
      Wrap(wcount - rcount)
    }

    function GetUnUsed(): int
      reads this
    {
      size - Wrap(wcount - rcount)
    }

    lemma Positions()
      requires Valid()
      ensures 0 <= rcount % size < size && wcount % size == At(rcount % size, |queue|, size)
    {
      Offsets(wcount, rcount, size);
    }

    /** As many bytes as there is room for, in up to two pieces. */
    method Write(buffer: seq<char>) returns (n: int)
      requires Valid()
      modifies this`wcount, this`queue, buff
      ensures Valid() && n == Min(|buffer|, old(size - |queue|)) && queue == old(queue) + buffer[..n]
    {
      hide Wrap, Holds, Spread;
      var len := Min(|buffer|, GetUnUsed());
      Positions();
      var off := wcount % size;
      var bytes := buffer[..len];
      PutInTwo(buff[..], rcount % size, queue, bytes);
      CopyInTwo(off, bytes);
      Bump(wcount, rcount, len, size);
      wcount := Wrap(wcount + len);
      queue := queue + bytes;
      n := len;
    }

    /** The two `memcpy`s of a write. */
    method CopyInTwo(off: int, bytes: seq<char>)
      requires 0 <= off < buff.Length && |bytes| <= buff.Length
      modifies buff
      ensures buff[..] == Spread(old(buff[..]), off, bytes)
    {
      hide Overwrite;
      var l := Min(|bytes|, buff.Length - off);
      CopyIn(off, bytes[..l]);
      CopyIn(0, bytes[l..]);
    }

    /** `memcpy` into the buffer. */
    method CopyIn(off: int, bytes: seq<char>)
      requires 0 <= off && off + |bytes| <= buff.Length
      modifies buff
      ensures buff[..] == Overwrite(old(buff[..]), off, bytes)
    {
      ghost var was := buff[..];
      forall i | 0 <= i < |bytes| { buff[off + i] := bytes[i]; }
      ghost var now, then' := buff[..], Overwrite(was, off, bytes);
      assert forall i :: 0 <= i < |now| ==> now[i] == then'[i];
    }

    /** Where the next bytes go: all the unused room there is in one piece. */
    method GetCanWriteBuff() returns (region: Region)
      requires Valid()
      ensures region == NoRegion <==> |queue| == size
      ensures region.Region? ==>
        region.offset == wcount % size && 0 <= region.offset &&
          0 < region.len == Min(size - |queue|, size - region.offset)
    {
      hide Wrap;
      Positions();
      if GetUnUsed() == 0 { return NoRegion; }
      var realW, realR := wcount % size, rcount % size;
      if realW >= realR {
        region := Region(realW, size - realW);
      } else {
        region := Region(realW, realR - realW);
      }
    }

    /** The caller puts bytes at the write position. */
    method Fill(offset: int, bytes: seq<char>)
      requires Valid() && offset == wcount % size && offset + |bytes| <= size && |queue| + |bytes| <= size
      modifies buff
      ensures Valid() && buff[offset..offset + |bytes|] == bytes
    {
      hide Wrap;
      Positions();
      ghost var was := buff[..];
      CopyIn(offset, bytes);
      Put(was, rcount % size, queue, [], buff[..]);
      assert queue + [] == queue;
    }

    /** They become part of the queue. */
    method WriteBuff(n: int)
      requires Valid() && 0 <= n && wcount % size + n <= size && |queue| + n <= size
      modifies this`wcount, this`queue
      ensures Valid() && queue == old(queue) + old(buff[wcount % size..wcount % size + n])
    {
      hide Wrap;
      Positions();
      ghost var bytes := buff[wcount % size..wcount % size + n];
      Put(buff[..], rcount % size, queue, bytes, buff[..]);
      Bump(wcount, rcount, n, size);
      wcount := Wrap(wcount + n);
      queue := queue + bytes;
    }

    /** Where the next bytes are: all there are in one piece. */
    method GetCanReadBuff() returns (region: Region)
      requires Valid()
      ensures region == NoRegion <==> queue == []
      ensures region.Region? ==>
        && region.offset == rcount % size && 0 <= region.offset && 0 < region.len == Min(|queue|, size - region.offset)
        && buff[region.offset..region.offset + region.len] == queue[..region.len]
    {
      hide Wrap;
      Positions();
      EmptyIff(wcount, rcount);
      if rcount == wcount { return NoRegion; }
      var realW, realR := wcount % size, rcount % size;
      if realW > realR {
        region := Region(realR, DataSize());
      } else {
        region := Region(realR, size - realR);
      }
      Piece(buff[..], realR, queue, 0, region.len);
    }

    /** `Read(size)`: bytes taken off the front without a copy. */
    method Skip(n: int)
      requires Valid() && 0 <= n <= |queue|
      modifies this`rcount, this`queue
      ensures Valid() && queue == old(queue)[n..]
    {
      hide Wrap;
      Positions();
      Bump(wcount, rcount, n, size);
      Taken(buff[..], rcount % size, queue, n);
      rcount := Wrap(rcount + n);
      queue := queue[n..];
    }

    /** At most `len` bytes off the front, put together from up to two pieces. */
    method Read(len: nat) returns (bytes: seq<char>)
      requires Valid()
      modifies this`rcount, this`queue
      ensures Valid() && bytes == old(queue)[..Min(len, old(|queue|))] && queue == old(queue)[Min(len, old(|queue|))..]
    {
      hide Wrap;
      if DataSize() == 0 { return []; }
      var n := Min(len, DataSize());
      bytes := CopyOut(n);
      Skip(n);
    }

    /** The two `memcpy`s of a read. */
    method CopyOut(n: int) returns (bytes: seq<char>)
      requires Valid() && 0 <= n <= |queue|
      ensures bytes == queue[..n]
    {
      hide Wrap;
      Positions();
      var off := rcount % size;
      var l := Min(n, size - off);
      Piece(buff[..], off, queue, 0, l);
      if l < n { Piece(buff[..], off, queue, l, n - l); }
      bytes := buff[off..off + l] + buff[..n - l];
    }

    /** The first `len` bytes, if there are so many; nothing is taken off. */
    method TryReadBuff(len: nat) returns (ok: bool, bytes: seq<char>)
      requires Valid()
      ensures ok <==> len <= |queue|
      ensures ok ==> bytes == queue[..len]
    {
      hide Wrap;
      Positions();
      if DataSize() < len { return false, []; }
      var realW, realR := wcount % size, rcount % size;
      if realW > realR {
        Piece(buff[..], realR, queue, 0, len);
        return true, buff[realR..realR + len];
      }
      bytes := CopyOut(len);
      ok := true;
    }
  }

  /** Equal counters mean an empty queue, although they wrap. */
  lemma EmptyIff(w: int, r: int)
    requires -TWO_31 <= w < TWO_31 && -TWO_31 <= r < TWO_31
    ensures Wrap(w - r) == 0 <==> w == r
  {
  }

  // ---------------------------------------------------------------------------------------------------------
  // The driver's loops

  /** What `send` answers: some bytes gone, the connection closed, try again, an error. */
  datatype SendResult = Sent(n: int) | SendClosed | SendAgain | SendError

  /** What `recv` answers. */
  datatype RecvResult = Received(bytes: seq<char>) | RecvFin | RecvAgain | RecvError

  class EpollDriver {
    const sendBuff: CircluarBuffer
    const recvBuff: CircluarBuffer
    var activeClose: bool
    var recvFin: bool

    constructor (sendBuff': CircluarBuffer, recvBuff': CircluarBuffer)
      ensures sendBuff == sendBuff' && recvBuff == recvBuff' && !activeClose && !recvFin
    {
      sendBuff, recvBuff := sendBuff', recvBuff';
      activeClose, recvFin := false, false;
    }

    /** However short the sends, the bytes sent followed by the bytes still buffered are the bytes there were.  The
        answer is true exactly when all have gone or the `last` call, for the first of what is left, asked to try
        again; the socket is shut down exactly when all have gone and the close was asked for. `send(k, bytes)` is the
        answer to the `k`th call. */
    method OnSend(send: (nat, seq<char>) -> SendResult)
      returns (ok: bool, sent: seq<char>, shut: bool, ghost last: SendResult)
      requires sendBuff.Valid()
      requires forall k, bytes :: bytes != [] && send(k, bytes).Sent? ==> 0 < send(k, bytes).n <= |bytes|
      modifies sendBuff`rcount, sendBuff`queue
      ensures sendBuff.Valid() && sent + sendBuff.queue == old(sendBuff.queue)
      ensures sendBuff.queue != [] ==>
        !last.Sent? && exists k, n :: 0 < n <= |sendBuff.queue| && last == send(k, sendBuff.queue[..n])
      ensures ok <==> sendBuff.queue == [] || last.SendAgain?
      ensures shut <==> sendBuff.queue == [] && activeClose
    {
      hide Wrap, Holds, At, PowerOfTwo;
      var calls := 0;
      sent, last := [], SendAgain;
      while sendBuff.DataSize() > 0
        invariant sendBuff.Valid() && sent + sendBuff.queue == old(sendBuff.queue)
        decreases |sendBuff.queue|
      {
        var region := sendBuff.GetCanReadBuff();
        var bytes := sendBuff.buff[region.offset..region.offset + region.len];
        last := send(calls, bytes);
        assert bytes == sendBuff.queue[..|bytes|];
        match send(calls, bytes) {
          case SendClosed => return false, sent, false, last;
          case Sent(n) =>
            Moved(sent, sendBuff.queue, bytes, n);
            sendBuff.Skip(n);
            sent := sent + bytes[..n];
          case SendAgain => return true, sent, false, last;
          case SendError => return false, sent, false, last;
        }
        calls := calls + 1;
      }
      return true, sent, activeClose, last;
    }

    /** Bytes taken off the front of the queue and put behind those that have gone. */
    static lemma Moved(sent: seq<char>, queue: seq<char>, bytes: seq<char>, n: nat)
      requires n <= |bytes| <= |queue| && bytes == queue[..|bytes|]
      ensures sent + bytes[..n] + queue[n..] == sent + queue
    {
      assert bytes[..n] == queue[..n];
      assert queue == queue[..n] + queue[n..];
    }

    /** The bytes received follow those that were there.  The answer is false exactly when the buffer is full or the
        `last` call said that the peer has finished, or an error; the end of the peer's bytes is kept in mind. */
    method OnRead(recv: (nat, int) -> RecvResult) returns (ok: bool, got: seq<char>, ghost last: RecvResult)
      requires recvBuff.Valid()
      requires forall k, len :: len > 0 && recv(k, len).Received? ==> 0 < |recv(k, len).bytes| <= len
      modifies recvBuff`wcount, recvBuff`queue, recvBuff.buff, `recvFin
      ensures recvBuff.Valid() && recvBuff.queue == old(recvBuff.queue) + got
      ensures |recvBuff.queue| < recvBuff.size ==> !last.Received? && exists k, len :: len > 0 && last == recv(k, len)
      ensures ok <==> |recvBuff.queue| < recvBuff.size && last.RecvAgain?
      ensures recvFin <==> old(recvFin) || (|recvBuff.queue| < recvBuff.size && last.RecvFin?)
    {
      hide Wrap, Holds;
      var calls := 0;
      got, last := [], RecvAgain;
      while true
        invariant recvBuff.Valid() && recvBuff.queue == old(recvBuff.queue) + got && recvFin == old(recvFin)
        decreases recvBuff.size - |recvBuff.queue|
      {
        var region := recvBuff.GetCanWriteBuff();
        if region == NoRegion { return false, got, last; }
        var answer := recv(calls, region.len);
        last := answer;
        match answer {
          case RecvFin =>
            recvFin := true;
            return false, got, last;
          case Received(bytes) =>
            recvBuff.Fill(region.offset, bytes);
            recvBuff.WriteBuff(|bytes|);
            got := got + bytes;
          case RecvAgain => return true, got, last;
          case RecvError => return false, got, last;
        }
        calls := calls + 1;
      }
    }
  }
}
