/** The pipe's ring buffer and its two system calls (fs/pipe.c:40-247), proved against the
    sections of PipeStream.

    PIPE_END is (START + LEN) mod PIPE_SIZE, PIPE_FREE is PIPE_SIZE - LEN, PIPE_MAX_RCHUNK is
    PIPE_SIZE - START and PIPE_MAX_WCHUNK is PIPE_SIZE - PIPE_END. */
module Pipe {
  import opened Common
  import opened PipeStream

  /** Remainder modulo the buffer size, for what can come up: less than two turns. */
  function Wrap(x: nat, size: nat): (r: nat)
    requires 0 < size && x < 2 * size
    ensures r < size && (r == x || r == x - size)
  {
    if x >= size then x - size else x
  }

  /** The bytes of the ring, oldest first. */
  function Ring(b: seq<byte>, start: nat, len: nat): (r: seq<byte>)
    requires start < |b| && len <= |b|
    ensures |r| == len
  {
    if start + len <= |b| then b[start..start + len] else b[start..] + b[..start + len - |b|]
  }

  lemma Joins(b: seq<byte>, lo: nat, mid: nat, hi: nat)
    requires lo <= mid <= hi <= |b|
    ensures b[lo..hi] == b[lo..mid] + b[mid..hi]
  {
  }

  lemma Appended(a: seq<byte>, data: seq<byte>, from: nat, to: nat, end: nat, was: seq<byte>)
    requires from <= to <= end <= |data| && was == a + data[from..to]
    ensures was + data[to..end] == a + data[from..end]
  {
    Joins(data, from, to, end);
    Associate(a, data[from..to], data[to..end]);
  }

  lemma RingTake(b: seq<byte>, start: nat, len: nat, n: nat)
    requires start < |b| && len <= |b| && n <= len && start + n <= |b|
    ensures Ring(b, start, len) == b[start..start + n] + Ring(b, Wrap(start + n, |b|), len - n)
  {
    if start + len <= |b| {
      Joins(b, start, start + n, start + len);
      if start + n == |b| { assert b[0..0] == b[|b|..|b|]; }
    } else {
      TakeAround(b, start, len, n);
    }
  }

  lemma TakeAround(b: seq<byte>, start: nat, len: nat, n: nat)
    requires start < |b| && start + len > |b| && len <= |b| && start + n <= |b|
    ensures Ring(b, start, len) == b[start..start + n] + Ring(b, Wrap(start + n, |b|), len - n)
  {
    if start + n == |b| { TakeToEnd(b, start, len); } else { TakeInside(b, start, len, n); }
  }

  lemma TakeToEnd(b: seq<byte>, start: nat, len: nat)
    requires start < |b| && start + len > |b| && len <= |b|
    ensures Ring(b, start, len) == b[start..|b|] + Ring(b, 0, len - (|b| - start))
  {
    assert b[start..] == b[start..|b|];
    assert b[0..start + len - |b|] == b[..start + len - |b|];
  }

  lemma TakeInside(b: seq<byte>, start: nat, len: nat, n: nat)
    requires start < |b| && start + len > |b| && len <= |b| && start + n < |b|
    ensures Ring(b, start, len) == b[start..start + n] + Ring(b, start + n, len - n)
  {
    var k := start + len - |b|;
    assert Ring(b, start, len) == b[start..] + b[..k];
    assert Ring(b, start + n, len - n) == b[start + n..] + b[..k];
    TailSplit(b, start, start + n, b[..k]);
  }

  lemma TailSplit(b: seq<byte>, lo: nat, mid: nat, w: seq<byte>)
    requires lo <= mid <= |b|
    ensures b[lo..] + w == b[lo..mid] + (b[mid..] + w)
  {
    assert b[lo..] == b[lo..mid] + b[mid..];
    Associate(b[lo..mid], b[mid..], w);
  }

  /** Writing a chunk at PIPE_END appends it. */
  lemma RingPut(b: seq<byte>, c: seq<byte>, start: nat, len: nat, bs: seq<byte>)
    requires start < |b| == |c| && len + |bs| <= |b|
    requires var end := Wrap(start + len, |b|);
             end + |bs| <= |b| && c == b[..end] + bs + b[end + |bs|..]
    ensures Ring(c, start, len + |bs|) == Ring(b, start, len) + bs
  {
    if start + len < |b| { PutStraight(b, c, start, len, bs); } else { PutAround(b, c, start, len, bs); }
  }

  /** The ring does not reach the end of the buffer yet. */
  lemma PutStraight(b: seq<byte>, c: seq<byte>, start: nat, len: nat, bs: seq<byte>)
    requires start < |b| == |c| && start + len < |b| && start + len + |bs| <= |b|
    requires var end := start + len; c == b[..end] + bs + b[end + |bs|..]
    ensures Ring(c, start, len + |bs|) == Ring(b, start, len) + bs
  {
    var end := start + len;
    Joins(c, start, end, end + |bs|);
    assert c[start..end] == b[start..end];
    assert c[end..end + |bs|] == bs;
  }

  /** It does, and goes on at its beginning. */
  lemma PutAround(b: seq<byte>, c: seq<byte>, start: nat, len: nat, bs: seq<byte>)
    requires start < |b| == |c| && start + len >= |b| && len + |bs| <= |b|
    requires var end := start + len - |b|; c == b[..end] + bs + b[end + |bs|..]
    ensures Ring(c, start, len + |bs|) == Ring(b, start, len) + bs
  {
    var end := start + len - |b|;
    assert c[start..] == b[start..];
    assert c[..end + |bs|] == b[..end] + bs;
    if end == 0 { assert b[start..start + len] == b[start..] && b[..0] == []; }
    if end + |bs| == 0 { assert c[start..start + len] == c[start..]; }
    Associate(b[start..], b[..end], bs);
  }

  /** `struct pipe_inode_info`. */
  class PipeInode {
    const atomic: nat
    const base: array<byte>
    var start: nat
    var len: nat
    var readers: nat
    var writers: nat
    var waitingReaders: int
    var waitingWriters: int

    ghost predicate Valid()
      reads this, base
    {
      0 < base.Length && atomic <= base.Length && start < base.Length && len <= base.Length
    }

    ghost function Contents(): seq<byte>
      reads this, base
      requires Valid()
    {
      Ring(base[..], start, len)
    }

    ghost function Model(): PipeStream.Pipe
      reads this, base
      requires Valid()
    {
      PipeStream.Pipe(base.Length, atomic, Contents(), readers, writers, waitingReaders, waitingWriters)
    }

    constructor (size: nat, pipeBuf: nat)
      requires 0 < size && pipeBuf <= size
      ensures Valid() && Model() == PipeStream.Pipe(size, pipeBuf, [], 0, 0, 0, 0) && fresh(base)
    {
      atomic := pipeBuf;
      base := new byte[size](_ => 0);
      start, len, readers, writers, waitingReaders, waitingWriters := 0, 0, 0, 0, 0, 0;
    }

    /** One chunk of the copying loop of `pipe_read`. */
    method TakeChunk(left: nat) returns (out: seq<byte>)
      requires Valid() && left > 0 && len > 0
      modifies this`start, this`len
      ensures Valid() && 0 < |out| <= left && len == old(len) - |out|
      ensures out + Contents() == old(Contents())
    {
      var chars := base.Length - start;
      if chars > left { chars := left; }
      if chars > len { chars := len; }
      ghost var b := base[..];
      RingTake(b, start, len, chars);
      out := base[start..start + chars];
      assert out == b[start..start + chars];
      start := Wrap(start + chars, base.Length);
      len := len - chars;
    }

    /** The copying loop of `pipe_read`, and the reset of an empty pipe. */
    method CopyBytesOut(count: nat) returns (out: seq<byte>)
      requires Valid()
      modifies this`start, this`len
      ensures Valid() && out + Contents() == old(Contents()) && |out| == Min(count, old(len))
      ensures len == 0 ==> start == 0
    {
      out := [];
      var left: nat := count;
      while left > 0 && len > 0
        invariant Valid() && out + Contents() == old(Contents()) && |out| + left == count && |out| + len == old(len)
        decreases len
      {
        var more := TakeChunk(left);
        Associate(out, more, Contents());
        out := out + more;
        left := left - |more|;
      }
      if len == 0 {
        assert Contents() == [];
        start := 0;
      }
    }

    /** `copy_from_user` of one chunk. */
    method Poke(end: nat, piece: seq<byte>)
      requires end + |piece| <= base.Length
      modifies base
      ensures base[..] == old(base[..])[..end] + piece + old(base[..])[end + |piece|..]
    {
      forall k | 0 <= k < |piece| { base[end + k] := piece[k]; }
    }

    /** One chunk of the copying loop of `pipe_write`. */
    method PutChunk(data: seq<byte>, from: nat) returns (chars: nat)
      requires Valid() && from < |data| && len < base.Length
      modifies this`len, base
      ensures Valid() && 0 < chars <= |data| - from
      ensures len == old(len) + chars && Contents() == old(Contents()) + data[from..from + chars]
    {
      var end := Wrap(start + len, base.Length);
      chars := base.Length - end;
      if chars > |data| - from { chars := |data| - from; }
      if chars > base.Length - len { chars := base.Length - len; }
      ghost var b := base[..];
      var piece := data[from..from + chars];
      Poke(end, piece);
      RingPut(b, base[..], start, len, piece);
      len := len + chars;
    }

    /** Copies until the data or the room runs out. */
    method CopyBytesIn(data: seq<byte>, from: nat) returns (to: nat)
      requires Valid() && from <= |data|
      modifies this`len, base
      ensures Valid() && to == from + Min(|data| - from, base.Length - old(len))
      ensures Contents() == old(Contents()) + data[from..to]
    {
      to := from;
      ghost var was, now := Contents(), Contents();
      assert was + data[from..from] == was;
      while to < |data| && len < base.Length
        invariant Valid() && from <= to <= |data| && to - from == len - old(len)
        invariant now == Contents() && now == was + data[from..to]
        decreases |data| - to
      {
        var chars := PutChunk(data, to);
        Appended(was, data, from, to, to + chars, now);
        to := to + chars;
        now := Contents();
      }
    }

    /** `do_more_read`, up to the next sleep or the end. */
    method WaitForData(r: Reader) returns (r1: Reader)
      requires Valid()
      modifies this`waitingReaders
      ensures Valid() && (Model(), r1) == AwaitData(old(Model()), r)
    {
      if writers == 0 {
        return EndRead(r, Count(0));
      }
      if r.nonblock {
        return EndRead(r, Again);
      }
      waitingReaders := waitingReaders + 1;
      return r.(phase := WaitData);
    }

    method ReadData(r: Reader) returns (r1: Reader)
      requires Valid() && |r.got| <= r.want
      modifies this`start, this`len, this`waitingReaders
      ensures Valid() && (Model(), r1) == CopyOut(old(Model()), r)
    {
      ghost var was := Contents();
      var out := CopyBytesOut(r.want - |r.got|);
      assert was[..|out|] == out && was[|out|..] == Contents();
      r1 := r.(got := r.got + out);
      if |r1.got| < r.want && waitingWriters > 0 && !r.nonblock {
        assert len == 0;
        r1 := WaitForData(r1);
      } else {
        r1 := EndRead(r1, Count(0));
      }
    }

    /** `pipe_read`, from one acquisition of the semaphore to the next sleep or to its end. */
    method PipeRead(r: Reader, signal: bool) returns (r1: Reader)
      requires Valid() && |r.got| <= r.want
      modifies this`start, this`len, this`waitingReaders
      ensures Valid() && (Model(), r1) == ReadSection(old(Model()), r, signal)
    {
      match r.phase
      case ReadStart =>
        if r.want == 0 {
          return EndRead(r, Count(0));
        }
        if signal {
          return EndRead(r, RestartSys);
        }
        if len == 0 {
          r1 := WaitForData(r);
        } else {
          r1 := ReadData(r);
        }
      case WaitData =>
        waitingReaders := waitingReaders - 1;
        if signal {
          return EndRead(r, RestartSys);
        }
        if len != 0 {
          r1 := ReadData(r);
          return;
        }
        if writers == 0 {
          return EndRead(r, Count(0));
        }
        waitingReaders := waitingReaders + 1;
        return r;
      case ReadDone => return r;
    }

    method WriteData(w: Writer) returns (w1: Writer)
      requires Valid() && w.written <= |w.data|
      modifies this`len, this`waitingWriters, base
      ensures Valid() && (Model(), w1) == CopyIn(old(Model()), w)
    {
      var to := CopyBytesIn(w.data, w.written);
      w1 := w.(written := to);
      if to == |w.data| || w.nonblock {
        return EndWrite(w1, Count(0));
      }
      waitingWriters := waitingWriters + 1;
      w1 := w1.(phase := WaitMore);
    }

    /** `pipe_write`, from one acquisition of the semaphore to the next sleep or to its end. */
    method PipeWrite(w: Writer, signal: bool) returns (w1: Writer)
      requires Valid() && w.written <= |w.data|
      modifies this`len, this`waitingWriters, base
      ensures Valid() && (Model(), w1) == WriteSection(old(Model()), w, signal)
    {
      if w.phase == WriteDone {
        return w;
      }
      if w.phase == WriteStart {
        if |w.data| == 0 {
          return EndWrite(w, Count(0));
        }
      } else {
        waitingWriters := waitingWriters - 1;
      }
      if signal {
        return EndWrite(w, if w.phase == WaitMore then Count(0) else RestartSys);
      }
      if readers == 0 {
        return EndWrite(w, BrokenPipe);
      }
      var free := if w.phase == WaitMore || |w.data| > atomic then 1 else |w.data|;
      if base.Length - len < free {
        if w.nonblock && w.phase == WriteStart {
          return EndWrite(w, Again);
        }
        waitingWriters := waitingWriters + 1;
        return if w.phase == WriteStart then w.(phase := WaitRoom) else w;
      }
      w1 := WriteData(w);
    }
  }
}
