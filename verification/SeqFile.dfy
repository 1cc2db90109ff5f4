/** The reader itself (fs/seq_file.c:45-226): a buffer, four counters and nested loops, proved
    against the functions of SeqText. */
module SeqFile {
  import opened Common
  import opened SeqText

  /** Cutting a slice of the buffer in two. */
  lemma Cut(b: array<Cell>, lo: nat, mid: nat, hi: nat)
    requires lo <= mid <= hi <= b.Length
    ensures b[lo..hi][..mid - lo] == b[lo..mid] && b[lo..hi][mid - lo..] == b[mid..hi]
  {
  }

  lemma Whole(b: array<Cell>, n: nat)
    requires n <= b.Length
    ensures b[0..n] == b[..n]
  {
  }

  /** `struct seq_file`, with the file position, over a fixed sequence of records. */
  class SeqFile {
    const records: seq<string>
    var buf: array?<Cell>
    var size: nat
    var from: nat
    var count: nat
    var index: nat
    var pos: nat

    ghost predicate Valid()
      reads this, buf
    {
      if buf == null then count == 0 && from == 0
      else size == buf.Length > 0 && from + count <= buf.Length
    }

    /** The state as the reader sees it; a missing buffer will have one page. */
    ghost function Model(): File
      reads this, buf
      requires Valid()
    {
      if buf == null then File(PAGE_SIZE, [], index, pos) else File(size, buf[from..from + count], index, pos)
    }

    constructor (rs: seq<string>)
      ensures Valid() && records == rs && Model() == Opened
    {
      records := rs;
      buf, size, from, count, index, pos := null, 0, 0, 0, 0, 0;
    }

    /** `op->show`: prints a record behind what is in the buffer; `count == size` is the sign
        that it did not fit. */
    method Show(b: array<Cell>, r: string)
      requires buf == b && size == b.Length && count <= size
      modifies this`count, b
      ensures old(count) + |r| < size ==> count == old(count) + |r| && b[..count] == old(b[..count]) + Printed(r)
      ensures old(count) + |r| >= size ==> count == size
      ensures b[..old(count)] == old(b[..count])
    {
      var k := 0;
      while k < |r| && count + k < size
        invariant 0 <= k <= |r| && count + k <= size && count == old(count)
        invariant b[..count] == old(b[..count])
        invariant b[count..count + k] == Printed(r)[..k]
      {
        b[count + k] := Byte(r[k]);
        k := k + 1;
      }
      assert b[..count + k] == b[..count] + b[count..count + k];
      count := if count + |r| < size then count + |r| else size;
    }

    /** The first record into an empty buffer, with the buffer doubled until it fits. */
    method ShowFirst(r: string)
      requires Valid() && buf != null && count == 0
      modifies this`buf, this`size, this`count, buf
      ensures buf != null && buf.Length == size > 0 && count < size && (buf == old(buf) || fresh(buf))
      ensures (size, buf[..count]) == First(r, old(size))
    {
      Show(buf, r);
      if count < size {
        assert old(buf[..count]) + Printed(r) == Printed(r);
        return;
      }
      ghost var s0 := size;
      while count == size
        invariant buf != null && buf.Length == size > 0 && count <= size && (buf == old(buf) || fresh(buf))
        invariant count == size ==> Grow(r, size) == Grow(r, s0)
        invariant count < size ==> (size, buf[..count]) == Grow(r, s0)
        decreases count == size, |r| - size
      {
        size := 2 * size;
        buf := new Cell[size](_ => Junk);
        ghost var junk := buf[..count];
        Show(buf, r);
        assert junk == seq(size / 2, _ => Junk);
      }
    }

    /** Leftover text goes out first. */
    method FlushBuffer(want: nat) returns (out: seq<Cell>)
      requires Valid() && buf != null && count > 0
      modifies this`from, this`count, this`index, this`pos
      ensures Valid() && Model() == Flush(old(Model()), want)
      ensures out == old(Model()).pending[..Min(old(count), want)]
    {
      var n := Min(count, want);
      ghost var f := Model();
      out := buf[from..from + n];
      Cut(buf, from, from + n, from + count);
      count := count - n;
      from := from + n;
      pos := pos + n;
      if count == 0 {
        index := index + 1;
      }
      assert Model().pending == f.pending[n..];
    }

    /** Further records while the caller wants more and they fit. */
    method FillBuffer(want: nat) returns (at: nat)
      requires buf != null && buf.Length == size && count < size
      modifies this`count, buf
      ensures count < size
      ensures (buf[..count], at) == Fill(records, size, old(buf[..count]), index, want)
    {
      at := index;
      var more := true;
      while more && count < want
        invariant count < size
        invariant more ==>
          Fill(records, size, buf[..count], at, want) == Fill(records, size, old(buf[..count]), index, want)
        invariant !more ==> (buf[..count], at) == Fill(records, size, old(buf[..count]), index, want)
        decreases if more then 1 else 0, |records| - at
      {
        var offs := count;
        if at + 1 >= |records| {
          more := false;
        } else {
          Show(buf, records[at + 1]);
          if count == size {
            count := offs;
            more := false;
          } else {
            at := at + 1;
          }
        }
      }
    }

    method HandOutBuffer(at: nat, want: nat) returns (out: seq<Cell>)
      requires buf != null && buf.Length == size > 0 && count <= size
      modifies this`from, this`count, this`index, this`pos
      ensures Valid()
      ensures Model() == HandOut(size, old(buf[..count]), at, want, old(pos))
      ensures out == old(buf[..count])[..Min(old(count), want)]
    {
      var n := Min(count, want);
      ghost var got := buf[..count];
      out := buf[..n];
      assert out == got[..n];
      count := count - n;
      from := n;
      index := if count > 0 then at else at + 1;
      pos := pos + n;
      assert buf[from..from + count] == got[n..];
    }

    /** From an empty buffer. */
    method ReadRecords(want: nat) returns (out: seq<Cell>)
      requires Valid() && buf != null && count == 0
      modifies this, buf
      ensures Valid() && buf != null && (buf == old(buf) || fresh(buf))
      ensures (Model(), out) == ReadMore(records, old(Model()), want)
    {
      if index >= |records| {
        return [];
      }
      ShowFirst(records[index]);
      var at := FillBuffer(want);
      out := HandOutBuffer(at, want);
    }

    /** `seq_read`. */
    method SeqRead(want: nat) returns (out: seq<Cell>)
      requires Valid()
      modifies this, buf
      ensures Valid() && buf != null && (buf == old(buf) || fresh(buf))
      ensures (Model(), out) == Read(records, old(Model()), want)
    {
      if buf == null {
        size := PAGE_SIZE;
        buf := new Cell[size](_ => Junk);
      }
      ghost var f := Model();
      assert f == old(Model());
      out := [];
      var left := want;
      if count > 0 {
        out := FlushBuffer(want);
        left := want - |out|;
        if left == 0 {
          return;
        }
      }
      ghost var f1 := Model();
      assert f1 == Flush(f, want) && f1.pending == [];
      var more := ReadRecords(left);
      out := out + more;
      ReadParts(records, f, want);
    }

    /** One record of the traversal, shown at offset 0; when it ends at or before `offset`
        the buffer is empty again. */
    method Probe(b: array<Cell>, at: nat, offset: nat)
      requires buf == b && size == b.Length && size > 0 && count == 0 && from == 0 && at < offset && index < |records|
      modifies this`count, this`from, b
      ensures from + count <= size
      ensures |records[index]| >= size ==> count == size
      ensures |records[index]| < size && at + |records[index]| > offset ==>
        count > 0 && b[from..from + count] == Printed(records[index])[offset - at..] && count < size
      ensures |records[index]| < size && at + |records[index]| <= offset ==> count == 0 && from == 0
    {
      Show(b, records[index]);
      if count < size {
        assert b[..count] == Printed(records[index]);
        if at + count > offset {
          Whole(b, count);
          Cut(b, 0, offset - at, count);
          from := offset - at;
          count := count - from;
        } else {
          count := 0;
        }
      }
    }

    /** The loop of `traverse`; false means that a record did not fit. */
    method Scan(b: array<Cell>, offset: nat) returns (ok: bool)
      requires buf == b && Valid() && index == 0 && count == 0 && from == 0 && offset > 0
      modifies this`index, this`count, this`from, b
      ensures Valid() && size > 0
      ensures ok == Pass(records, size, 0, 0, offset).Some?
      ensures ok ==> (index, b[from..from + count]) == Pass(records, size, 0, 0, offset).value
    {
      var at: nat := 0;
      while index < |records|
        invariant size == b.Length && size > 0 && count == 0 && from == 0 && at < offset
        invariant Pass(records, size, index, at, offset) == Pass(records, size, 0, 0, offset)
        decreases |records| - index
      {
        Probe(b, at, offset);
        if count == size {
          return false;
        }
        if count > 0 {
          return true;
        }
        at := at + |records[index]|;
        index := index + 1;
        if at == offset {
          assert b[0..0] == [];
          return true;
        }
      }
      assert b[0..0] == [];
      return true;
    }

    /** One pass of `traverse`; false is -EAGAIN, after the buffer has been doubled. */
    method TraverseTo(offset: nat) returns (ok: bool)
      requires Valid()
      modifies this, buf
      ensures Valid() && (buf == old(buf) || fresh(buf)) && pos == old(pos)
      ensures old(Model()).size > 0
      ensures offset == 0 ==> ok && Model() == old(Model()).(index := 0, pending := [])
      ensures offset > 0 ==>
        match Pass(records, old(Model()).size, 0, 0, offset)
        case Some(p) => ok && Model() == old(Model()).(index := p.0, pending := p.1)
        case None => !ok && Model().size == 2 * old(Model()).size
    {
      index, count, from := 0, 0, 0;
      if offset == 0 {
        return true;
      }
      if buf == null {
        size := PAGE_SIZE;
        buf := new Cell[size](_ => Junk);
      }
      ok := Scan(buf, offset);
      if !ok {
        size := 2 * size;
        buf := new Cell[size](_ => Junk);
      }
    }

    /** The retry loop of `seq_lseek`. */
    method TraverseAgain(to: nat)
      requires Valid()
      modifies this, buf
      ensures Valid() && (buf == old(buf) || fresh(buf)) && pos == old(pos)
      ensures old(Model()).size > 0 && Model().(pos := to) == Traverse(records, old(Model()).size, to)
    {
      ghost var size := Model().size;
      var ok := TraverseTo(to);
      while !ok
        invariant Valid() && (buf == old(buf) || fresh(buf)) && pos == old(pos)
        invariant size > 0 && Traverse(records, size, to) == Traverse(records, old(Model()).size, to)
        invariant ok ==> Model().(pos := to) == Traverse(records, size, to)
        invariant !ok ==> to > 0 && Pass(records, size, 0, 0, to).None? && Model().size == 2 * size
        decreases !ok, Longest(records, 0) - size
      {
        PassWants(records, size, 0, 0, to);
        size := 2 * size;
        ok := TraverseTo(to);
      }
    }

    /** `seq_lseek`. */
    method SeqLseek(offset: int, origin: Origin) returns (r: Option<nat>)
      requires Valid()
      modifies this, buf
      ensures Valid() && (buf == old(buf) || fresh(buf))
      ensures old(Model()).size > 0 && (Model(), r) == Seek(records, old(Model()), offset, origin)
      ensures forall to: nat :: r == Some(to) <==> Targets(old(Model()), offset, origin, to)
      ensures pos == if r.Some? then r.value else old(pos)
    {
      var to := offset;
      if origin == FromHere {
        to := to + pos;
      }
      if origin == Elsewhere || to < 0 {
        return None;
      }
      if to != pos {
        TraverseAgain(to);
        pos := to;
      }
      return Some(to);
    }
  }
}
