/** The receive ring buffer of a TCP socket: a bounded byte queue of capacity size - 1. */
module TcpRing {

  type byte = b: int | 0 <= b < 256

  /** Position `i` steps after `head`, going round once at most. */
  function Wrap(size: nat, i: nat): nat {
    if i < size then i else i - size
  }

  /** The `len` bytes of a ring stored from `head` on. */
  ghost function Window(ring: seq<byte>, size: nat, head: nat, len: nat): (w: seq<byte>)
    requires head < size <= |ring| && len <= size
    ensures |w| == len
  {
    seq(len, i requires 0 <= i < len => ring[Wrap(size, head + i)])
  }

  /** How far `j` lies after `tail`. */
  function Offset(size: nat, tail: nat, j: nat): int {
    if tail <= j then j - tail else j - tail + size
  }

  /** `data` stored from `tail` on, going round once at most; all else unchanged. */
  ghost predicate StoredAt(ring: seq<byte>, ring': seq<byte>, size: nat, tail: nat, data: seq<byte>) {
    && tail < size <= |ring| == |ring'|
    && (forall j :: 0 <= j < size ==>
          ring'[j] == if Offset(size, tail, j) < |data| then data[Offset(size, tail, j)] else ring[j])
  }

  lemma WindowAppend(ring: seq<byte>, ring': seq<byte>, size: nat, head: nat, len: nat, data: seq<byte>)
    requires head < size <= |ring| == |ring'| && len + |data| <= size && len < size
    requires StoredAt(ring, ring', size, Wrap(size, head + len), data)
    ensures Window(ring', size, head, len + |data|) == Window(ring, size, head, len) + data
  {
    var a, b := Window(ring', size, head, len + |data|), Window(ring, size, head, len) + data;
    var tail := Wrap(size, head + len);
    forall i | 0 <= i < len + |data| ensures a[i] == b[i] {
      var j := Wrap(size, head + i);
      assert a[i] == ring'[j];
      if i < len {
        assert b[i] == ring[j] && Offset(size, tail, j) >= |data|;
      } else {
        assert b[i] == data[i - len] && Offset(size, tail, j) == i - len;
      }
    }
  }

  lemma WindowSplit(ring: seq<byte>, size: nat, head: nat, len: nat, n: nat)
    requires head < size <= |ring| && n <= len <= size && n < size
    ensures Window(ring, size, head, len)[n..] == Window(ring, size, Wrap(size, head + n), len - n)
  {
    var a, b := Window(ring, size, head, len)[n..], Window(ring, size, Wrap(size, head + n), len - n);
    forall i | 0 <= i < len - n ensures a[i] == b[i] {
      assert a[i] == Window(ring, size, head, len)[n + i] == ring[Wrap(size, head + (n + i))];
      assert b[i] == ring[Wrap(size, Wrap(size, head + n) + i)];
    }
  }

  lemma ModOnce(x: nat, size: nat)
    requires 0 < size && x < 2 * size
    ensures x % size == Wrap(size, x)
  {
    if x >= size {
      assert x == size * 1 + (x - size);
    }
  }

  method MemCpy(dst: array<byte>, at: nat, src: seq<byte>, from: nat, n: nat)
    requires at + n <= dst.Length && from + n <= |src|
    modifies dst
    ensures forall i :: 0 <= i < dst.Length ==> dst[i] == if at <= i < at + n then src[from + (i - at)] else old(dst[i])
  {
    var k := 0;
    while k < n
      invariant 0 <= k <= n
      invariant forall i :: 0 <= i < dst.Length ==> dst[i] == if at <= i < at + k then src[from + (i - at)] else old(dst[i])
    {
      dst[at + k] := src[from + k];
      k := k + 1;
    }
  }

  class RingBuffer {
    const size: nat
    const buf: array<byte>  // one byte more than is ever used
    var head: nat
    var tail: nat

    ghost predicate Valid()
      reads this
    {
      0 < size && buf.Length == size + 1 && head < size && tail < size
    }

    ghost function Contents(): (c: seq<byte>)
      requires Valid()
      reads this, buf
      ensures |c| < size
    {
      Window(buf[..], size, head, if head <= tail then tail - head else tail - head + size)
    }

    constructor (size: nat)
      requires 0 < size
      ensures Valid() && this.size == size && Contents() == [] && fresh(buf)
    {
      this.size := size;
      buf := new byte[size + 1](_ => 0);
      head, tail := 0, 0;
    }

    function Used(): (n: nat)
      requires Valid()
      reads this, buf
      ensures n == |Contents()|
    {
      ModOnce(tail - head + size, size);
      (tail - head + size) % size
    }

    function Free(): (n: nat)
      requires Valid()
      reads this, buf
      ensures n + |Contents()| == size - 1
    {
      size - Used() - 1
    }

    predicate Empty()
      requires Valid()
      reads this, buf
      ensures Empty() <==> Contents() == []
    {
      Used() == 0
    }

    predicate Full()
      requires Valid()
      reads this, buf
      ensures Full() <==> |Contents()| == size - 1
    {
      Free() == 0
    }

    /** The copying half of `read_ring_buffer`, in one or two pieces. */
    method CopyOut(dst: array<byte>, len: nat)
      requires Valid() && dst != buf && len <= dst.Length && len <= Used()
      modifies dst
      ensures forall i :: 0 <= i < dst.Length ==> dst[i] == if i < len then Contents()[i] else old(dst[i])
    {
      if head + len > size {
        var right := size - head;
        var left := len - right;
        MemCpy(dst, 0, buf[..], head, right);
        MemCpy(dst, right, buf[..], 0, left);
      } else {
        MemCpy(dst, 0, buf[..], head, len);
      }
      forall i | 0 <= i < len ensures dst[i] == Contents()[i] {
        assert Contents()[i] == buf[Wrap(size, head + i)];
      }
    }

    /** Copies the oldest bytes out; what is left is the rest of the queue, in order. */
    method Read(dst: array<byte>, n: nat) returns (len: nat)
      requires Valid() && dst != buf && n <= dst.Length
      modifies this`head, dst
      ensures Valid() && len == if |old(Contents())| < n then |old(Contents())| else n
      ensures dst[..len] == old(Contents())[..len] && dst[len..] == old(dst[len..])
      ensures Contents() == old(Contents())[len..]
    {
      len := if Used() < n then Used() else n;
      if len > 0 {
        WindowSplit(buf[..], size, head, Used(), len);
        CopyOut(dst, len);
        ModOnce(head + len, size);
        head := (head + len) % size;
      }
    }

    /** The copying half of `write_ring_buffer`, in one or two pieces. */
    method CopyIn(src: seq<byte>)
      requires Valid() && |src| < size
      modifies buf
      ensures StoredAt(old(buf[..]), buf[..], size, tail, src)
    {
      var n := |src|;
      if tail + n > size {
        var right := size - tail;
        var left := n - right;
        MemCpy(buf, tail, src, 0, right);
        MemCpy(buf, 0, src, right, left);
      } else {
        MemCpy(buf, tail, src, 0, n);
      }
    }

    /** Appends bytes; the source asserts that there are some and that they fit. */
    method Write(src: seq<byte>)
      requires Valid() && 0 < |src| <= Free()
      modifies this`tail, buf
      ensures Valid() && Contents() == old(Contents()) + src
    {
      ghost var was, used := buf[..], Used();
      CopyIn(src);
      WindowAppend(was, buf[..], size, head, used, src);
      ModOnce(tail + |src|, size);
      tail := (tail + |src|) % size;
    }
  }
}
