/** The 4 KiB ring behind a pipe (kernel/vfs/vfs.c, struct vfs_pipe). */
module Pipes {
  import opened Base

  const PIPE_BUF_SIZE: nat := 4096

  datatype Ring = Ring(buf: seq<byte>, head: nat, count: nat, refsR: int, refsW: int)

  ghost predicate RingOk(r: Ring) {
    |r.buf| == PIPE_BUF_SIZE && r.head < PIPE_BUF_SIZE && r.count <= PIPE_BUF_SIZE
  }

  function FreshRing(): Ring {
    Ring(seq(PIPE_BUF_SIZE, _ => 0), 0, 0, 1, 1)
  }

  /** What a pipe holds: the buffered bytes, oldest first, unwrapped from head. */
  ghost function Contents(r: Ring): (c: seq<byte>)
    requires RingOk(r)
  {
    if r.head + r.count <= PIPE_BUF_SIZE then r.buf[r.head..r.head + r.count]
    else r.buf[r.head..] + r.buf[..r.head + r.count - PIPE_BUF_SIZE]
  }

  /** One copying pass of pipe_read: one or two memcpy calls out of the ring. */
  function Drain(r: Ring, count: nat): (res: (Ring, seq<byte>))
    requires RingOk(r)
  {
    var n := Min(count, r.count);
    var first := PIPE_BUF_SIZE - r.head;
    var out := if n > first then r.buf[r.head..] + r.buf[..n - first]
               else r.buf[r.head..r.head + n];
    (r.(head := (r.head + n) % PIPE_BUF_SIZE, count := r.count - n), out)
  }

  /** The one or two memcpy calls that store data from wpos on, wrapping at the end. */
  function Splice(buf: seq<byte>, wpos: nat, data: seq<byte>): (r: seq<byte>)
    requires |buf| == PIPE_BUF_SIZE && wpos < PIPE_BUF_SIZE && |data| <= PIPE_BUF_SIZE
    ensures |r| == PIPE_BUF_SIZE
  {
    var first := PIPE_BUF_SIZE - wpos;
    if |data| > first then Overwrite(Overwrite(buf, wpos, data[..first]), 0, data[first..])
    else Overwrite(buf, wpos, data)
  }

  /** One copying pass of pipe_write. */
  function Fill(r: Ring, data: seq<byte>): (res: (Ring, nat))
    requires RingOk(r)
  {
    var n := Min(|data|, PIPE_BUF_SIZE - r.count);
    var wpos := (r.head + r.count) % PIPE_BUF_SIZE;
    (r.(buf := Splice(r.buf, wpos, data[..n]), count := r.count + n), n)
  }

  /** Reading removes exactly a prefix of the queue, across the wrap-around. */
  lemma DrainTakesPrefix(r: Ring, count: nat)
    requires RingOk(r)
    ensures var (r', out) := Drain(r, count);
            && RingOk(r') && r'.refsR == r.refsR && r'.refsW == r.refsW
            && Contents(r) == out + Contents(r')
            && |out| == Min(count, |Contents(r)|)
  {
    var (r', out) := Drain(r, count);
    var n := |out|;
    if r.head + n < PIPE_BUF_SIZE {
      assert r'.head == r.head + n;
    } else {
      assert r'.head == r.head + n - PIPE_BUF_SIZE;
    }
    assert Contents(r) == out + Contents(r');
  }

  lemma DrainNonempty(r: Ring, count: nat)
    requires RingOk(r) && r.count > 0 && count > 0
    ensures Drain(r, count).1 != []
  {
  }

  /** Position of the i-th buffered byte when the queue starts at head. */
  function Wrap(x: nat): (w: nat)
    requires x < 2 * PIPE_BUF_SIZE
    ensures w == x % PIPE_BUF_SIZE
  {
    if x < PIPE_BUF_SIZE then x else x - PIPE_BUF_SIZE
  }

  lemma ContentsAt(r: Ring, i: nat)
    requires RingOk(r) && i < r.count
    ensures |Contents(r)| == r.count && Contents(r)[i] == r.buf[Wrap(r.head + i)]
  {
  }

  /** Buffer position k bytes past the end of the queue. */
  function FromTail(r: Ring, k: nat): (at: nat)
    requires RingOk(r) && k < PIPE_BUF_SIZE
    ensures at < PIPE_BUF_SIZE
  {
    Wrap(Wrap(r.head + r.count) + k)
  }

  /** From wpos on, wrapping, the buffer of r' holds data[..n] and then what r held. */
  ghost predicate Written(r: Ring, r': Ring, data: seq<byte>, n: nat) {
    && RingOk(r) && RingOk(r')
    && r' == r.(buf := r'.buf, count := r.count + n)
    && n == Min(|data|, PIPE_BUF_SIZE - r.count)
    && forall k | 0 <= k < PIPE_BUF_SIZE ::
         r'.buf[FromTail(r, k)] == if k < n then data[k] else r.buf[FromTail(r, k)]
  }

  lemma FillAt(r: Ring, data: seq<byte>, k: nat)
    requires RingOk(r) && k < PIPE_BUF_SIZE
    ensures var (r', n) := Fill(r, data);
            var at := FromTail(r, k);
            r'.buf[at] == if k < n then data[k] else r.buf[at]
  {
  }

  lemma FillWrites(r: Ring, data: seq<byte>)
    requires RingOk(r)
    ensures Written(r, Fill(r, data).0, data, Fill(r, data).1)
  {
    var (r', n) := Fill(r, data);
    forall k | 0 <= k < PIPE_BUF_SIZE
      ensures r'.buf[FromTail(r, k)] == if k < n then data[k] else r.buf[FromTail(r, k)]
    {
      FillAt(r, data, k);
    }
  }

  lemma WrittenByte(r: Ring, r': Ring, data: seq<byte>, n: nat, i: nat)
    requires Written(r, r', data, n) && i < r'.count
    ensures Contents(r')[i] == if i < r.count then Contents(r)[i] else data[i - r.count]
  {
    var k := if i < r.count then PIPE_BUF_SIZE - r.count + i else i - r.count;
    assert FromTail(r, k) == Wrap(r.head + i);
    ContentsAt(r', i);
    if i < r.count {
      ContentsAt(r, i);
    }
  }

  lemma WrittenAppends(r: Ring, r': Ring, data: seq<byte>, n: nat)
    requires Written(r, r', data, n)
    ensures Contents(r') == Contents(r) + data[..n]
  {
    forall i | 0 <= i < r'.count
      ensures Contents(r')[i] == (Contents(r) + data[..n])[i]
    {
      WrittenByte(r, r', data, n, i);
    }
  }

  /** Writing appends exactly the accepted prefix, across the wrap-around. */
  lemma FillAppendsPrefix(r: Ring, data: seq<byte>)
    requires RingOk(r)
    ensures var (r', n) := Fill(r, data);
            && RingOk(r') && r'.refsR == r.refsR && r'.refsW == r.refsW
            && n == Min(|data|, PIPE_BUF_SIZE - |Contents(r)|)
            && Contents(r') == Contents(r) + data[..n]
  {
    FillWrites(r, data);
    WrittenAppends(r, Fill(r, data).0, data, Fill(r, data).1);
  }

  /** Outcome of one pass of pipe_read or pipe_write between two hlt() waits. */
  datatype ReadPass = EndOfFile | ReadWait | Got(bytes: seq<byte>)
  datatype WritePass = WriteDone | BrokenPipe | WriteWait | Accepted(n: nat)

  function ReadPassOf(r: Ring, count: nat): (res: (Ring, ReadPass))
    requires RingOk(r)
  {
    if r.count == 0 then
      if r.refsW == 0 then (r, EndOfFile) else (r, ReadWait)
    else
      var (r', out) := Drain(r, count);
      (r', Got(out))
  }

  function WritePassOf(r: Ring, data: seq<byte>): (res: (Ring, WritePass))
    requires RingOk(r)
  {
    if data == [] then (r, WriteDone)
    else if r.refsR == 0 then (r, BrokenPipe)
    else if r.count == PIPE_BUF_SIZE then (r, WriteWait)
    else
      var (r', n) := Fill(r, data);
      (r', Accepted(n))
  }

  lemma OverwritePrefix(base: seq<byte>, a: seq<byte>)
    requires |a| <= |base|
    ensures Overwrite(base, 0, a)[..|a|] == a
  {
  }

  lemma OverwriteTwice(base: seq<byte>, a: seq<byte>, b: seq<byte>)
    requires |a| + |b| <= |base|
    ensures Overwrite(Overwrite(base, 0, a), |a|, b) == Overwrite(base, 0, a + b)
  {
  }

  /** memcpy(dst + at, src + from, n) between two distinct arrays. */
  method MemCopy(dst: array<byte>, at: nat, src: array<byte>, from: nat, n: nat)
    requires dst != src
    requires at + n <= dst.Length && from + n <= src.Length
    modifies dst
    ensures dst[..] == old(Overwrite(dst[..], at, src[from..from + n]))
  {
    ghost var before := dst[..];
    for i := 0 to n
      invariant forall k | 0 <= k < dst.Length ::
        dst[k] == if at <= k < at + i then src[from + (k - at)] else before[k]
    {
      dst[at + i] := src[from + i];
    }
    assert dst[..] == old(Overwrite(dst[..], at, src[from..from + n]));
  }

  /** struct vfs_pipe itself, updated in place. */
  class PipeBuffer {
    const buf: array<byte>
    var head: nat
    var count: nat
    var refsR: int
    var refsW: int

    ghost function Value(): Ring
      reads this, buf
    {
      Ring(buf[..], head, count, refsR, refsW)
    }

    constructor ()
      ensures fresh(buf) && RingOk(Value()) && Value() == FreshRing()
    {
      buf := new byte[PIPE_BUF_SIZE](_ => 0);
      head, count, refsR, refsW := 0, 0, 1, 1;
      new;
      assert buf[..] == FreshRing().buf;
    }

    /** The one or two memcpy calls of pipe_read. */
    method CopyOut(dst: array<byte>, n: nat)
      requires RingOk(Value())
      requires dst != buf && n <= count && n <= dst.Length
      modifies dst
      ensures dst[..] == Overwrite(old(dst[..]), 0, Drain(Value(), n).1)
    {
      var first := PIPE_BUF_SIZE - head;
      if n > first {
        ghost var before := dst[..];
        MemCopy(dst, 0, buf, head, first);
        MemCopy(dst, first, buf, 0, n - first);
        OverwriteTwice(before, buf[head..head + first], buf[0..n - first]);
        assert buf[head..head + first] == buf[..][head..] && buf[0..n - first] == buf[..][..n - first];
      } else {
        MemCopy(dst, 0, buf, head, n);
      }
    }

    /** pipe_read up to its next hlt() or return; the bytes land at the start of dst. */
    method ReadStep(dst: array<byte>, want: nat) returns (pass: ReadPass)
      requires RingOk(Value())
      requires dst != buf && want <= dst.Length
      modifies this`head, this`count, dst
      ensures (Value(), pass) == ReadPassOf(old(Value()), want)
      ensures dst[..] == if pass.Got? then Overwrite(old(dst[..]), 0, pass.bytes) else old(dst[..])
    {
      if count == 0 {
        return if refsW == 0 then EndOfFile else ReadWait;
      }
      var n := Min(want, count);
      CopyOut(dst, n);
      pass := Got(dst[..n]);
      OverwritePrefix(old(dst[..]), Drain(Value(), n).1);
      head := (head + n) % PIPE_BUF_SIZE;
      count := count - n;
    }

    /** The one or two memcpy calls of pipe_write, on the n bytes of src from total on. */
    method CopyIn(wpos: nat, src: array<byte>, total: nat, n: nat)
      requires buf.Length == PIPE_BUF_SIZE && wpos < PIPE_BUF_SIZE
      requires src != buf && total + n <= src.Length && n <= PIPE_BUF_SIZE
      modifies buf
      ensures buf[..] == old(Splice(buf[..], wpos, src[total..total + n]))
    {
      var first := PIPE_BUF_SIZE - wpos;
      ghost var data := src[total..total + n];
      if n > first {
        assert src[total..total + first] == data[..first];
        MemCopy(buf, wpos, src, total, first);
        assert src[total + first..total + n] == data[first..];
        MemCopy(buf, 0, src, total + first, n - first);
      } else {
        MemCopy(buf, wpos, src, total, n);
      }
    }

    /** One iteration of pipe_write's loop on the part of src that starts at total. */
    method WriteStep(src: array<byte>, total: nat) returns (pass: WritePass)
      requires RingOk(Value())
      requires src != buf && total <= src.Length
      modifies this`count, buf
      ensures (Value(), pass) == old(WritePassOf(Value(), src[total..]))
    {
      hide Splice, Overwrite;
      if total == src.Length {
        return WriteDone;
      }
      if refsR == 0 {
        return BrokenPipe;
      }
      if count == PIPE_BUF_SIZE {
        return WriteWait;
      }
      var n := Min(src.Length - total, PIPE_BUF_SIZE - count);
      var wpos := (head + count) % PIPE_BUF_SIZE;
      assert src[total..][..n] == src[total..total + n];
      CopyIn(wpos, src, total, n);
      count := count + n;
      pass := Accepted(n);
    }
  }
}
