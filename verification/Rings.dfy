/**
 Two byte rings: the UART driver's, which counts its free space, and the user ring buffer,
 which has only a head and a tail.
 */
module Rings {
  import opened Bytes

  // ---------------------------------------------------------------- bytes in a circle

  function Wrap(x: nat, size: nat): nat
    requires x <= 2 * size
  {
    if x >= size then x - size else x
  }

  /** The `n` bytes from `from` on. */
  function Cyclic(b: seq<Byte>, from: nat, n: nat): (c: seq<Byte>)
    requires from < |b| && n <= |b|
    ensures |c| == n
  {
    if from + n <= |b| then b[from..from + n] else b[from..] + b[..from + n - |b|]
  }

  function Written(b: seq<Byte>, at: nat, s: seq<Byte>): (r: seq<Byte>)
    requires at + |s| <= |b|
    ensures |r| == |b|
  {
    b[..at] + s + b[at + |s|..]
  }

  lemma CyclicAt(b: seq<Byte>, from: nat, n: nat, i: nat)
    requires from < |b| && i < n <= |b|
    ensures Cyclic(b, from, n)[i] == b[Wrap(from + i, |b|)]
  {
  }

  lemma SameBytes(a: seq<Byte>, b: seq<Byte>)
    requires |a| == |b| && forall i | 0 <= i < |a| :: a[i] == b[i]
    ensures a == b
  {
  }

  /** Writing behind the last byte appends. */
  lemma WriteAppends(b: seq<Byte>, from: nat, n: nat, s: seq<Byte>)
    requires from < |b| && n + |s| <= |b| && Wrap(from + n, |b|) + |s| <= |b|
    ensures var r := Written(b, Wrap(from + n, |b|), s);
      Cyclic(r, from, n + |s|) == Cyclic(b, from, n) + s
  {
    var at := Wrap(from + n, |b|);
    var r := Written(b, at, s);
    var c, d := Cyclic(r, from, n + |s|), Cyclic(b, from, n) + s;
    forall i | 0 <= i < n + |s|
      ensures c[i] == d[i]
    {
      CyclicAt(r, from, n + |s|, i);
      if i < n {
        CyclicAt(b, from, n, i);
      }
    }
    SameBytes(c, d);
  }

  /** A write that goes on at the start of the array when it reaches the end. */
  function WrittenRound(b: seq<Byte>, at: nat, s: seq<Byte>): (r: seq<Byte>)
    requires at <= |b| && |s| <= |b|
    ensures |r| == |b|
  {
    var k := |b| - at;
    if |s| <= k then Written(b, at, s) else Written(Written(b, at, s[..k]), 0, s[k..])
  }

  lemma WriteRoundAppends(b: seq<Byte>, from: nat, n: nat, s: seq<Byte>)
    requires from < |b| && n + |s| <= |b|
    ensures Wrap(from + n, |b|) <= |b|
    ensures Cyclic(WrittenRound(b, Wrap(from + n, |b|), s), from, n + |s|) == Cyclic(b, from, n) + s
  {
    var at := Wrap(from + n, |b|);
    var k := |b| - at;
    hide Cyclic, Written;
    if |s| <= k {
      WriteAppends(b, from, n, s);
    } else {
      WriteAppends(b, from, n, s[..k]);
      WriteAppends(Written(b, at, s[..k]), from, n + k, s[k..]);
      assert Cyclic(b, from, n) + s[..k] + s[k..] == Cyclic(b, from, n) + s;
    }
  }

  lemma TakePrefix(b: seq<Byte>, from: nat, n: nat, k: nat)
    requires from < |b| && k <= n <= |b|
    ensures Cyclic(b, from, k) == Cyclic(b, from, n)[..k]
  {
    var e, f := Cyclic(b, from, k), Cyclic(b, from, n)[..k];
    forall i | 0 <= i < k
      ensures e[i] == f[i]
    {
      CyclicAt(b, from, k, i);
      CyclicAt(b, from, n, i);
    }
    SameBytes(e, f);
  }

  lemma DropPrefix(b: seq<Byte>, from: nat, n: nat, k: nat)
    requires from < |b| && k <= n <= |b|
    ensures Wrap(from + k, |b|) < |b|
    ensures Cyclic(b, Wrap(from + k, |b|), n - k) == Cyclic(b, from, n)[k..]
  {
    var c, d := Cyclic(b, Wrap(from + k, |b|), n - k), Cyclic(b, from, n)[k..];
    hide Cyclic;
    forall i | 0 <= i < n - k
      ensures c[i] == d[i]
    {
      CyclicAt(b, Wrap(from + k, |b|), n - k, i);
      CyclicAt(b, from, n, i + k);
    }
    SameBytes(c, d);
  }

  lemma Modulo(x: nat, size: nat)
    requires 0 < size && x < 2 * size
    ensures x % size == Wrap(x, size)
  {
  }

  lemma WrapWrap(from: nat, n: nat, k: nat, size: nat)
    requires from < size && n + k <= size
    ensures Wrap(from + n, size) <= size
    ensures Wrap(Wrap(from + n, size) + k, size) == Wrap(from + (n + k), size)
  {
  }

  /** `user_rb_unread_size`. */
  function Distance(head: nat, tail: nat, size: nat): (n: nat)
    requires head < size && tail < size
    ensures n < size && head == Wrap(tail + n, size)
  {
    if head >= tail then head - tail else size + head - tail
  }

  lemma DistanceAfterPut(head: nat, tail: nat, size: nat, k: nat)
    requires head < size && tail < size && k <= size - Distance(head, tail, size)
    ensures Wrap(head + k, size) < size
    ensures var n := Distance(head, tail, size);
      Distance(Wrap(head + k, size), tail, size) == if n + k < size then n + k else 0
  {
  }

  lemma DistanceAfterGet(head: nat, tail: nat, size: nat, k: nat)
    requires head < size && tail < size && k <= Distance(head, tail, size)
    ensures Wrap(tail + k, size) < size
    ensures Distance(head, Wrap(tail + k, size), size) == Distance(head, tail, size) - k
  {
  }

  /** `memcpy` into an array. */
  method CopyTo(buf: array<Byte>, at: nat, s: seq<Byte>)
    requires at + |s| <= buf.Length
    modifies buf
    ensures buf[..] == Written(old(buf[..]), at, s)
  {
    forall i | 0 <= i < |s| {
      buf[at + i] := s[i];
    }
    assert buf[..] == Written(old(buf[..]), at, s);
  }

  /** One `memcpy`, or two when the data go on at the start of the array. */
  method CopyRound(buf: array<Byte>, at: nat, s: seq<Byte>)
    requires at <= buf.Length && |s| <= buf.Length
    modifies buf
    ensures buf[..] == WrittenRound(old(buf[..]), at, s)
  {
    hide Written;
    var k := buf.Length - at;
    if k >= |s| {
      CopyTo(buf, at, s);
    } else {
      CopyTo(buf, at, s[..k]);
      CopyTo(buf, 0, s[k..]);
    }
  }

  /** The same for reading. */
  method ReadRound(buf: array<Byte>, from: nat, n: nat) returns (s: seq<Byte>)
    requires from < buf.Length && n <= buf.Length
    ensures s == Cyclic(buf[..], from, n)
  {
    var k := buf.Length - from;
    if k >= n {
      s := buf[from..from + n];
    } else {
      s := buf[from..] + buf[..n - k];
    }
  }

  // ---------------------------------------------------------------- head and tail

  /** `ringbuf_t`. */
  class UserRing {
    const buf: array<Byte>
    var head: nat
    var tail: nat

    ghost predicate Valid()
      reads this
    {
      head < buf.Length && tail < buf.Length
    }

    function Unread(): (n: nat)
      requires Valid()
      reads this
      ensures n < buf.Length
    {
      Distance(head, tail, buf.Length)
    }

    ghost function Contents(): (c: seq<Byte>)
      requires Valid()
      reads this, buf
      ensures |c| == Unread()
    {
      Cyclic(buf[..], tail, Unread())
    }

    /** `user_rb_init`, which refuses a size of 0. */
    constructor (b: array<Byte>)
      requires b.Length > 0
      ensures Valid() && buf == b && Contents() == []
    {
      buf, head, tail := b, 0, 0;
    }

    /** `user_rb_put`. The last free byte must stay free: filling it makes head and tail
        equal, and everything in the ring is gone. */
    method Put(src: seq<Byte>) returns (sz: nat)
      requires Valid()
      modifies this`head, buf
      ensures Valid() && sz == Min(|src|, buf.Length - |old(Contents())|)
      ensures Contents() == if |old(Contents())| + sz < buf.Length then old(Contents()) + src[..sz] else []
    {
      hide Cyclic, WrittenRound, Distance, Wrap;
      ghost var n := Unread();
      sz := PutSize(|src|);
      WriteRoundAppends(buf[..], tail, n, src[..sz]);
      DistanceAfterPut(head, tail, buf.Length, sz);
      CopyRound(buf, head, src[..sz]);
      AdvanceHead(sz);
    }

    method PutSize(len: nat) returns (sz: nat)
      requires Valid()
      ensures sz == Min(len, buf.Length - Unread())
    {
      sz := if head >= tail then buf.Length + tail - head else tail - head;
      if sz > len {
        sz := len;
      }
    }

    method AdvanceHead(sz: nat)
      requires Valid() && sz <= buf.Length
      modifies this`head
      ensures head == Wrap(old(head) + sz, buf.Length)
    {
      head := head + sz;
      if head >= buf.Length {
        head := head - buf.Length;
      }
    }

    method GetSize(len: nat) returns (sz: nat)
      requires Valid()
      ensures sz == Min(len, Unread())
    {
      sz := if head >= tail then head - tail else buf.Length + head - tail;
      if sz > len {
        sz := len;
      }
    }

    method AdvanceTail(sz: nat)
      requires Valid() && sz <= buf.Length
      modifies this`tail
      ensures tail == Wrap(old(tail) + sz, buf.Length)
    {
      tail := tail + sz;
      if tail >= buf.Length {
        tail := tail - buf.Length;
      }
    }

    /** `user_rb_get`, into a buffer of its own. */
    method Get(des: array<Byte>, len: nat) returns (sz: nat)
      requires Valid() && des != buf && len <= des.Length
      modifies this`tail, des
      ensures Valid() && sz == Min(len, |old(Contents())|)
      ensures des[..] == Written(old(des[..]), 0, old(Contents())[..sz])
      ensures Contents() == old(Contents())[sz..]
    {
      hide Cyclic, Written, Distance, Wrap;
      ghost var n := Unread();
      sz := GetSize(len);
      TakePrefix(buf[..], tail, n, sz);
      DropPrefix(buf[..], tail, n, sz);
      DistanceAfterGet(head, tail, buf.Length, sz);
      var data := ReadRound(buf, tail, sz);
      CopyTo(des, 0, data);
      AdvanceTail(sz);
    }
  }

  // ---------------------------------------------------------------- the space counter

  const FIFO_LEN := 128

  /** `struct UartBuffer`; the positions are offsets in the buffer. */
  class UartRing {
    const buf: array<Byte>
    var inPos: nat
    var outPos: nat
    var space: nat

    ghost predicate Valid()
      reads this
    {
      && 0 < buf.Length && space <= buf.Length && outPos < buf.Length
      && inPos == Wrap(outPos + (buf.Length - space), buf.Length)
    }

    ghost function Contents(): (c: seq<Byte>)
      requires Valid()
      reads this, buf
      ensures |c| == buf.Length - space
    {
      Cyclic(buf[..], outPos, buf.Length - space)
    }

    /** `Uart_Buf_Init`. */
    constructor (size: nat)
      requires size > 0
      ensures Valid() && Contents() == [] && buf.Length == size && fresh(buf)
    {
      buf := new Byte[size];
      inPos, outPos, space := 0, 0, size;
    }

    /** `Uart_Buf_Cpy`: for data that fits. */
    method Copy(data: seq<Byte>)
      requires Valid() && |data| <= space
      modifies this`inPos, this`space, buf
      ensures Valid() && Contents() == old(Contents()) + data
    {
      ghost var n := buf.Length - space;
      if |data| == 0 {
        assert old(Contents()) + data == old(Contents());
        return;
      }
      WriteRoundAppends(buf[..], outPos, n, data);
      WrapWrap(outPos, n, |data|, buf.Length);
      hide Cyclic, WrittenRound, Wrap;
      CopyRound(buf, inPos, data);
      AdvanceIn(|data|);
    }

    /** The position and the space, in one step or in two. */
    method AdvanceIn(len: nat)
      requires 0 < buf.Length && inPos < buf.Length && len <= space <= buf.Length
      modifies this`inPos, this`space
      ensures inPos == Wrap(old(inPos) + len, buf.Length) && space == old(space) - len
    {
      var tailLen := buf.Length - inPos;
      Modulo(inPos + len, buf.Length);
      if tailLen >= len {
        inPos := (inPos + len) % buf.Length;
        space := space - len;
      } else {
        Modulo(inPos + tailLen, buf.Length);
        inPos := (inPos + tailLen) % buf.Length;
        space := space - tailLen;
        Modulo(inPos + (len - tailLen), buf.Length);
        inPos := (inPos + (len - tailLen)) % buf.Length;
        space := space - (len - tailLen);
      }
    }

    /** `tx_buff_enq`, with the buffer in place: all of the data or nothing. */
    method TxEnqueue(data: seq<Byte>)
      requires Valid()
      modifies this`inPos, this`space, buf
      ensures Valid()
      ensures Contents() == if |data| <= old(space) then old(Contents()) + data else old(Contents())
    {
      if |data| <= space {
        Copy(data);
      }
    }

    /** `tx_fifo_insert`: what is written to the FIFO. */
    method TxInsert(len: nat) returns (sent: seq<Byte>)
      requires Valid() && len <= buf.Length - space
      modifies this`outPos, this`space
      ensures Valid() && sent == old(Contents())[..len] && Contents() == old(Contents())[len..]
    {
      sent := [];
      ghost var n := buf.Length - space;
      for i := 0 to len
        invariant outPos == Wrap(old(outPos) + i, buf.Length) < buf.Length && space == old(space)
        invariant sent == old(Contents())[..i]
      {
        CyclicAt(buf[..], old(outPos), n, i);
        assert old(Contents())[..i + 1] == old(Contents())[..i] + [buf[outPos]];
        sent := sent + [buf[outPos]];
        outPos := outPos + 1;
        if outPos == buf.Length {
          outPos := 0;
        }
      }
      DropPrefix(buf[..], old(outPos), n, len);
      space := space + len;
    }

    /** `tx_start_uart_buffer`: as much as the FIFO has room for. */
    method TxStart(fifoCount: nat) returns (sent: seq<Byte>)
      requires Valid() && fifoCount <= FIFO_LEN
      modifies this`outPos, this`space
      ensures Valid()
      ensures var k := Min(FIFO_LEN - fifoCount, |old(Contents())|);
        sent == old(Contents())[..k] && Contents() == old(Contents())[k..]
    {
      var remain := FIFO_LEN - fifoCount;
      var len := buf.Length - space;
      if len > remain {
        len := remain;
      }
      sent := TxInsert(len);
    }

    /** The receive ring always has a free byte, so that equal positions mean empty. */
    ghost predicate NeverFull()
      reads this
    {
      Valid() && space > 0
    }

    /** `Uart_rx_buff_enq`: the whole FIFO, or nothing when that would fill the ring. */
    method RxEnqueue(fifo: seq<Byte>)
      requires NeverFull()
      modifies this`inPos, this`space, buf
      ensures NeverFull()
      ensures Contents() == if |fifo| < old(space) then old(Contents()) + fifo else old(Contents())
    {
      if |fifo| >= space {
        return;
      }
      hide Cyclic, Wrap;
      PutAll(fifo, buf.Length - space);
      space := space - |fifo|;
    }

    method PutAll(fifo: seq<Byte>, ghost n: nat)
      requires n + |fifo| <= buf.Length && outPos < buf.Length && inPos == Wrap(outPos + n, buf.Length)
      modifies this`inPos, buf
      ensures inPos == Wrap(outPos + (n + |fifo|), buf.Length)
      ensures Cyclic(buf[..], outPos, n + |fifo|) == old(Cyclic(buf[..], outPos, n)) + fifo
    {
      hide Cyclic, Wrap;
      var idx := 0;
      ghost var c := Cyclic(buf[..], outPos, n);
      assert c + fifo[..0] == c;
      while idx < |fifo|
        invariant 0 <= idx <= |fifo|
        invariant inPos == Wrap(outPos + (n + idx), buf.Length)
        invariant Cyclic(buf[..], outPos, n + idx) == c + fifo[..idx]
      {
        assert fifo[..idx + 1] == fifo[..idx] + [fifo[idx]];
        PutByte(fifo[idx], n + idx);
        idx := idx + 1;
      }
      assert fifo[..|fifo|] == fifo;
    }

    /** One byte behind the `n` that are there. */
    method PutByte(c: Byte, ghost n: nat)
      requires n < buf.Length && outPos < buf.Length && inPos == Wrap(outPos + n, buf.Length)
      modifies this`inPos, buf
      ensures inPos == Wrap(outPos + (n + 1), buf.Length)
      ensures Cyclic(buf[..], outPos, n + 1) == old(Cyclic(buf[..], outPos, n)) + [c]
    {
      WriteAppends(buf[..], outPos, n, [c]);
      buf[inPos] := c;
      assert buf[..] == Written(old(buf[..]), inPos, [c]);
      inPos := inPos + 1;
      if inPos == buf.Length {
        inPos := 0;
      }
    }

    /** `rx_buff_deq`. */
    method RxDequeue(len: nat) returns (data: seq<Byte>)
      requires NeverFull()
      modifies this`outPos, this`space
      ensures NeverFull()
      ensures var k := Min(len, |old(Contents())|); data == old(Contents())[..k] && Contents() == old(Contents())[k..]
    {
      var n := buf.Length - space;
      data := TakeOut(if len > n then n else len);
    }

    method TakeOut(k: nat) returns (data: seq<Byte>)
      requires NeverFull() && k <= buf.Length - space
      modifies this`outPos, this`space
      ensures NeverFull() && data == old(Contents())[..k] && Contents() == old(Contents())[k..]
    {
      ghost var n := buf.Length - space;
      TakePrefix(buf[..], outPos, n, k);
      DropPrefix(buf[..], outPos, n, k);
      WrapWrap(outPos, k, n - k, buf.Length);
      hide Cyclic, Wrap;
      data := FrontBytes(k);
      AdvanceOut(k);
    }

    /** What `rx_buff_deq` copies. The branch without wrap-around takes equal positions for
        an empty ring. */
    method FrontBytes(k: nat) returns (data: seq<Byte>)
      requires NeverFull() && k <= buf.Length - space
      ensures data == Cyclic(buf[..], outPos, k)
    {
      var tailLen := buf.Length - outPos;
      if outPos <= inPos {
        data := buf[outPos..outPos + k];
      } else if k > tailLen {
        data := buf[outPos..] + buf[..k - tailLen];
      } else {
        data := buf[outPos..outPos + k];
      }
    }

    /** How it moves the position, in the same branches. */
    method AdvanceOut(k: nat)
      requires NeverFull() && k <= buf.Length - space
      modifies this`outPos, this`space
      ensures outPos == Wrap(old(outPos) + k, buf.Length) && space == old(space) + k
    {
      var tailLen := buf.Length - outPos;
      Modulo(outPos + k, buf.Length);
      if outPos <= inPos {
        outPos := outPos + k;
        space := space + k;
      } else if k > tailLen {
        Modulo(outPos + tailLen, buf.Length);
        outPos := (outPos + tailLen) % buf.Length;
        space := space + tailLen;
        Modulo(outPos + (k - tailLen), buf.Length);
        outPos := (outPos + (k - tailLen)) % buf.Length;
        space := space + (k - tailLen);
      } else {
        outPos := (outPos + k) % buf.Length;
        space := space + k;
      }
    }
  }
}
