/** Synthetic files made of records (fs/seq_file.c:45-226): a buffered, restartable reader
    against the plain concatenation of the records. */
module SeqText {
  import opened Common

  const PAGE_SIZE: nat := 4096

  /** A byte of the kernel buffer; `Junk` is memory that nothing was printed into. */
  datatype Cell = Junk | Byte(c: char)

  /** What a reader can observe between two calls: `pending` is `buf[from..from+count]`. */
  datatype File = File(size: nat, pending: seq<Cell>, index: nat, pos: nat)

  function Printed(s: string): (r: seq<Cell>)
    ensures |r| == |s| && forall k :: 0 <= k < |s| ==> r[k] == Byte(s[k])
  {
    seq(|s|, k requires 0 <= k < |s| => Byte(s[k]))
  }

  // ---------------------------------------------------------------- the file as a text

  /** The records from number `i` on, joined. */
  function Joined(rs: seq<string>, i: nat): seq<Cell>
    decreases |rs| - i
  {
    if i >= |rs| then [] else Printed(rs[i]) + Joined(rs, i + 1)
  }

  /** The text still to be delivered. */
  function Rest(rs: seq<string>, f: File): seq<Cell> {
    f.pending + Joined(rs, if f.pending == [] then f.index else f.index + 1)
  }

  predicate IsSuffix(a: seq<Cell>, b: seq<Cell>) { |a| <= |b| && b[|b| - |a|..] == a }

  /** Leftover text is the tail of the record it belongs to. */
  predicate Tidy(rs: seq<string>, f: File) {
    f.pending != [] ==> f.index < |rs| && IsSuffix(f.pending, Printed(rs[f.index]))
  }

  /** The reader stands where the file position says. */
  predicate Synced(rs: seq<string>, f: File) {
    var text := Joined(rs, 0);
    Rest(rs, f) == text[Min(f.pos, |text|)..]
  }

  predicate AllFit(rs: seq<string>, size: nat) { forall i :: 0 <= i < |rs| ==> |rs[i]| < size }

  // ---------------------------------------------------------------- seq_read

  /** Further records, as long as the caller wants more and they fit. */
  function Fill(rs: seq<string>, size: nat, got: seq<Cell>, at: nat, want: nat): (seq<Cell>, nat)
    decreases |rs| - at
  {
    if |got| < want && at + 1 < |rs| && |got| + |rs[at + 1]| < size
    then Fill(rs, size, got + Printed(rs[at + 1]), at + 1, want)
    else (got, at)
  }

  /** A record that does not fit: the buffer is doubled, but `count` stays at the old size,
      so that the record is printed behind as many bytes of fresh memory. */
  function Grow(r: string, size: nat): (g: (nat, seq<Cell>))
    requires size > 0
    ensures |g.1| < g.0 && |g.1| >= size && g.1[0] == Junk
    decreases if |r| >= size then |r| - size + 1 else 0
  {
    if |r| < size then (2 * size, seq(size, _ => Junk) + Printed(r)) else Grow(r, 2 * size)
  }

  /** `size` doubled `k` times. */
  function Doubled(size: nat, k: nat): nat { if k == 0 then size else 2 * Doubled(size, k - 1) }

  lemma {:induction false} DoubledTwice(size: nat, k: nat)
    ensures Doubled(2 * size, k) == Doubled(size, k + 1)
  {
    if k > 0 { DoubledTwice(size, k - 1); }
  }

  /** The growing stops at the first doubling that leaves room for the record behind as much fresh
      memory. */
  lemma {:induction false} GrowExact(r: string, size: nat) returns (k: nat)
    requires size > 0
    ensures |r| < Doubled(size, k) && (k > 0 ==> |r| >= Doubled(size, k - 1))
    ensures Grow(r, size) == (Doubled(size, k + 1), seq(Doubled(size, k), _ => Junk) + Printed(r))
    decreases if |r| >= size then |r| - size + 1 else 0
  {
    k := 0;
    if |r| >= size {
      var j := GrowExact(r, 2 * size);
      DoubledTwice(size, j);
      DoubledTwice(size, j + 1);
      if j > 0 { DoubledTwice(size, j - 1); }
      k := j + 1;
    }
  }

  function First(r: string, size: nat): (g: (nat, seq<Cell>))
    requires size > 0
  {
    if |r| < size then (size, Printed(r)) else Grow(r, size)
  }

  /** After the first `want` bytes of the buffer have been handed out; record `at` is the last
      one in it. */
  function HandOut(size: nat, got: seq<Cell>, at: nat, want: nat, pos: nat): File {
    var n := Min(|got|, want);
    File(size, got[n..], if n == |got| then at + 1 else at, pos + n)
  }

  /** From an empty buffer. */
  function ReadMore(rs: seq<string>, f: File, want: nat): (File, seq<Cell>)
    requires f.size > 0
  {
    if f.index >= |rs| then (f, [])
    else
      var (size, got0) := First(rs[f.index], f.size);
      var (got, at) := Fill(rs, size, got0, f.index, want);
      (HandOut(size, got, at, want, f.pos), got[..Min(|got|, want)])
  }

  function Flush(f: File, want: nat): File {
    var n := Min(|f.pending|, want);
    File(f.size, f.pending[n..], if f.pending != [] && n == |f.pending| then f.index + 1 else f.index, f.pos + n)
  }

  function Read(rs: seq<string>, f: File, want: nat): (File, seq<Cell>)
    requires f.size > 0
  {
    var n := Min(|f.pending|, want);
    var f1 := Flush(f, want);
    if f.pending != [] && n == want then (f1, f.pending[..n])
    else
      var (f2, out) := ReadMore(rs, f1.(pending := []), want - n);
      (f2, f.pending[..n] + out)
  }

  // ---------------------------------------------------------------- what a read delivers

  /** The record the read must start a fresh buffer with, if it needs one, fits. */
  predicate Fits(rs: seq<string>, f: File, want: nat) {
    var i := if f.pending == [] then f.index else f.index + 1;
    f.pending == [] || |f.pending| < want ==> i < |rs| ==> |rs[i]| < f.size
  }

  lemma {:induction false} FillJoins(rs: seq<string>, size: nat, got: seq<Cell>, at: nat, want: nat)
    ensures var (g, a) := Fill(rs, size, got, at, want);
            a >= at && (at < |rs| ==> a < |rs|) && g + Joined(rs, a + 1) == got + Joined(rs, at + 1)
    decreases |rs| - at
  {
    if |got| < want && at + 1 < |rs| && |got| + |rs[at + 1]| < size {
      FillJoins(rs, size, got + Printed(rs[at + 1]), at + 1, want);
      assert got + Joined(rs, at + 1) == got + Printed(rs[at + 1]) + Joined(rs, at + 2);
    }
  }

  /** What does not fit into the caller's buffer belongs to the last record. */
  lemma {:induction false} FillTail(rs: seq<string>, size: nat, got: seq<Cell>, at: nat, want: nat)
    requires at < |rs| && IsSuffix(Printed(rs[at]), got) && |got| - |rs[at]| <= want
    ensures var (g, a) := Fill(rs, size, got, at, want);
            a < |rs| && IsSuffix(Printed(rs[a]), g) && |g| - |rs[a]| <= want
    decreases |rs| - at
  {
    if |got| < want && at + 1 < |rs| && |got| + |rs[at + 1]| < size {
      FillTail(rs, size, got + Printed(rs[at + 1]), at + 1, want);
    }
  }

  lemma FlushExact(rs: seq<string>, f: File, want: nat)
    ensures f.pending[..Min(|f.pending|, want)] + Rest(rs, Flush(f, want)) == Rest(rs, f)
    ensures Tidy(rs, f) ==> Tidy(rs, Flush(f, want))
  {
    var n := Min(|f.pending|, want);
    CutJoin(f.pending, n, Joined(rs, f.index + 1));
    if Tidy(rs, f) && f.pending[n..] != [] {
      SuffixTail(f.pending, Printed(rs[f.index]), n);
    }
    if f.pending == [] { assert Flush(f, want) == f; }
  }

  lemma CutJoin(a: seq<Cell>, n: nat, b: seq<Cell>)
    requires n <= |a|
    ensures a[..n] + (a[n..] + b) == a + b
  {
  }

  lemma SuffixTail(a: seq<Cell>, b: seq<Cell>, n: nat)
    requires IsSuffix(a, b) && n <= |a|
    ensures IsSuffix(a[n..], b)
  {
    assert b[|b| - |a[n..]|..] == b[|b| - |a|..][n..];
  }

  /** Handing out the first `want` bytes of the buffer. */
  lemma Deliver(rs: seq<string>, size: nat, got: seq<Cell>, at: nat, want: nat, pos: nat)
    requires at < |rs| && IsSuffix(Printed(rs[at]), got) && |got| - |rs[at]| <= want
    ensures var f := HandOut(size, got, at, want, pos);
            got[..Min(|got|, want)] + Rest(rs, f) == got + Joined(rs, at + 1) && Tidy(rs, f)
  {
    var n, r := Min(|got|, want), Printed(rs[at]);
    assert got == got[..n] + got[n..];
    if n < |got| {
      var k := n - (|got| - |r|);
      assert r[k..] == got[|got| - |r|..][k..] == got[n..];
    }
  }

  /** The usual case of a fresh buffer: no growth. */
  lemma ReadMoreFits(rs: seq<string>, f: File, want: nat)
    requires f.size > 0 && f.index < |rs| && |rs[f.index]| < f.size
    ensures var g := Fill(rs, f.size, Printed(rs[f.index]), f.index, want);
            ReadMore(rs, f, want) == (HandOut(f.size, g.0, g.1, want, f.pos), g.0[..Min(|g.0|, want)])
  {
    assert First(rs[f.index], f.size) == (f.size, Printed(rs[f.index]));
  }

  lemma RestFresh(rs: seq<string>, f: File)
    requires f.pending == []
    ensures Rest(rs, f) == Joined(rs, f.index)
  {
    assert [] + Joined(rs, f.index) == Joined(rs, f.index);
  }

  /** A buffer that starts with record `i`. */
  lemma FillFirst(rs: seq<string>, size: nat, i: nat, want: nat)
    requires i < |rs|
    ensures var g := Fill(rs, size, Printed(rs[i]), i, want);
            && g.1 < |rs| && IsSuffix(Printed(rs[g.1]), g.0) && |g.0| - |rs[g.1]| <= want
            && g.0 + Joined(rs, g.1 + 1) == Joined(rs, i)
  {
    FillJoins(rs, size, Printed(rs[i]), i, want);
    assert IsSuffix(Printed(rs[i]), Printed(rs[i]));
    FillTail(rs, size, Printed(rs[i]), i, want);
  }

  lemma ReadMoreExact(rs: seq<string>, f: File, want: nat)
    requires f.size > 0 && f.pending == [] && (f.index < |rs| ==> |rs[f.index]| < f.size)
    ensures var m := ReadMore(rs, f, want);
            m.1 + Rest(rs, m.0) == Rest(rs, f) && Tidy(rs, m.0) && m.0.size == f.size && m.0.pos == f.pos + |m.1|
  {
    RestFresh(rs, f);
    if f.index < |rs| {
      var g := Fill(rs, f.size, Printed(rs[f.index]), f.index, want);
      ReadMoreFits(rs, f, want);
      FillFirst(rs, f.size, f.index, want);
      Deliver(rs, f.size, g.0, g.1, want, f.pos);
    } else {
      assert [] + Rest(rs, f) == Rest(rs, f);
    }
  }

  lemma ReadMoreJunk(rs: seq<string>, f: File, want: nat)
    requires f.size > 0 && f.pending == [] && f.index < |rs| && |rs[f.index]| >= f.size && want > 0
    ensures ReadMore(rs, f, want).1 != [] && ReadMore(rs, f, want).1[0] == Junk
  {
    var (size, got0) := First(rs[f.index], f.size);
    FillPrefix(rs, size, got0, f.index, want);
  }

  lemma {:induction false} FillPrefix(rs: seq<string>, size: nat, got: seq<Cell>, at: nat, want: nat)
    ensures |got| <= |Fill(rs, size, got, at, want).0| && Fill(rs, size, got, at, want).0[..|got|] == got
    decreases |rs| - at
  {
    if |got| < want && at + 1 < |rs| && |got| + |rs[at + 1]| < size {
      var more := got + Printed(rs[at + 1]);
      FillPrefix(rs, size, more, at + 1, want);
      var g := Fill(rs, size, more, at + 1, want).0;
      assert g[..|got|] == g[..|more|][..|got|];
    }
  }

  /** A read is a flush, and a fresh buffer only when the flush emptied the old one. */
  lemma ReadParts(rs: seq<string>, f: File, want: nat)
    requires f.size > 0
    ensures var (f2, out) := Read(rs, f, want);
            var n := Min(|f.pending|, want);
            if f.pending != [] && n == want then f2 == Flush(f, want) && out == f.pending[..n]
            else (
              && Flush(f, want).pending == [] && n == |f.pending|
              && f2 == ReadMore(rs, Flush(f, want), want - n).0
              && out == f.pending + ReadMore(rs, Flush(f, want), want - n).1)
  {
    var f1 := Flush(f, want);
    if !(f.pending != [] && Min(|f.pending|, want) == want) {
      assert f.pending[|f.pending|..] == [] && f.pending[..|f.pending|] == f.pending;
      assert f1.(pending := []) == f1;
    }
  }

  /** With room for the record, nothing is lost or invented, and leftover text stays the tail
      of its record. */
  lemma ReadKeeps(rs: seq<string>, f: File, want: nat)
    requires f.size > 0 && Fits(rs, f, want)
    ensures var (f2, out) := Read(rs, f, want);
            && out + Rest(rs, f2) == Rest(rs, f) && |out| <= want
            && (Tidy(rs, f) ==> Tidy(rs, f2)) && f2.size == f.size && f2.pos == f.pos + |out|
  {
    var n := Min(|f.pending|, want);
    var f1 := Flush(f, want);
    FlushExact(rs, f, want);
    ReadParts(rs, f, want);
    if !(f.pending != [] && n == want) {
      var (f2, out) := ReadMore(rs, f1, want - n);
      ReadMoreExact(rs, f1, want - n);
      assert f.pending[..n] == f.pending;
      Associate(f.pending, out, Rest(rs, f2));
    }
  }

  lemma Associate(a: seq<Cell>, b: seq<Cell>, c: seq<Cell>)
    ensures a + b + c == a + (b + c)
  {
  }

  /** Otherwise the first byte from the fresh buffer is not one that anybody printed. */
  lemma ReadJunk(rs: seq<string>, f: File, want: nat)
    requires f.size > 0 && want > 0 && !Fits(rs, f, want)
    ensures var out := Read(rs, f, want).1;
            |f.pending| < |out| && out[|f.pending|] == Junk
            && |f.pending| < |Rest(rs, f)| && Rest(rs, f)[|f.pending|] != Junk
  {
    var f1 := Flush(f, want);
    ReadParts(rs, f, want);
    ReadMoreJunk(rs, f1, want - |f.pending|);
    assert Joined(rs, f1.index)[0] == Printed(rs[f1.index])[0];
  }

  /** A read takes its bytes off the front of the remaining text and loses none, exactly when
      the first record it has to print fits into the buffer. */
  lemma ReadExactIff(rs: seq<string>, f: File, want: nat)
    requires f.size > 0 && want > 0
    ensures var (f2, out) := Read(rs, f, want); out + Rest(rs, f2) == Rest(rs, f) <==> Fits(rs, f, want)
  {
    if Fits(rs, f, want) {
      ReadKeeps(rs, f, want);
    } else {
      ReadJunk(rs, f, want);
      var (f2, out) := Read(rs, f, want);
      assert (out + Rest(rs, f2))[|f.pending|] == Junk;
    }
  }

  // ---------------------------------------------------------------- how much a read delivers

  lemma {:induction false} FillStops(rs: seq<string>, size: nat, got: seq<Cell>, at: nat, want: nat)
    ensures var (g, a) := Fill(rs, size, got, at, want);
            |g| >= want || a + 1 >= |rs| || |g| + |rs[a + 1]| >= size
    decreases |rs| - at
  {
    if |got| < want && at + 1 < |rs| && |got| + |rs[at + 1]| < size {
      FillStops(rs, size, got + Printed(rs[at + 1]), at + 1, want);
    }
  }

  /** A read that returns less than was asked for leaves nothing in the buffer, and has come to
      the end, or to a record that does not fit behind the ones it has just printed. */
  lemma ReadAmount(rs: seq<string>, f: File, want: nat)
    requires f.size > 0 && Fits(rs, f, want)
    ensures var (f2, out) := Read(rs, f, want);
            && Min(|f.pending|, want) <= |out| <= want
            && (|out| < want ==>
                  f2.pending == [] && (f2.index >= |rs| || |out| - |f.pending| + |rs[f2.index]| >= f.size))
  {
    ReadParts(rs, f, want);
    var n, f1 := Min(|f.pending|, want), Flush(f, want);
    if !(f.pending != [] && n == want) && f1.index < |rs| {
      ReadMoreFits(rs, f1, want - n);
      FillStops(rs, f.size, Printed(rs[f1.index]), f1.index, want - n);
    }
  }

  // ---------------------------------------------------------------- end of file

  /** Only empty records, and then one that does not fit. */
  predicate Stuck(rs: seq<string>, size: nat, i: nat)
    decreases |rs| - i
  {
    i < |rs| && (if rs[i] == [] then Stuck(rs, size, i + 1) else |rs[i]| >= size)
  }

  /** No text is left. */
  predicate AllEmpty(rs: seq<string>, i: nat)
    decreases |rs| - i
  {
    i >= |rs| || (rs[i] == [] && AllEmpty(rs, i + 1))
  }

  lemma {:induction false} AllEmptyIff(rs: seq<string>, i: nat)
    ensures AllEmpty(rs, i) <==> Joined(rs, i) == []
    decreases |rs| - i
  {
    if i < |rs| {
      AllEmptyIff(rs, i + 1);
      assert rs[i] == [] ==> Printed(rs[i]) == [];
      assert |Joined(rs, i)| == |Printed(rs[i])| + |Joined(rs, i + 1)|;
    }
  }

  lemma {:induction false} FillNothing(rs: seq<string>, size: nat, at: nat, want: nat)
    requires want > 0 && size > 0
    ensures |Fill(rs, size, [], at, want).0| == 0 <==> AllEmpty(rs, at + 1) || Stuck(rs, size, at + 1)
    decreases |rs| - at
  {
    if at + 1 < |rs| && |rs[at + 1]| < size {
      if rs[at + 1] == [] {
        assert [] + Printed(rs[at + 1]) == [];
        FillNothing(rs, size, at + 1, want);
      } else {
        FillPrefix(rs, size, [] + Printed(rs[at + 1]), at + 1, want);
      }
    }
  }

  lemma ReadMoreNothing(rs: seq<string>, f: File, want: nat)
    requires f.size > 0 && want > 0 && f.pending == [] && f.index < |rs| && |rs[f.index]| < f.size
    ensures |ReadMore(rs, f, want).1| == 0 <==>
      rs[f.index] == [] && (AllEmpty(rs, f.index + 1) || Stuck(rs, f.size, f.index + 1))
  {
    var r := rs[f.index];
    ReadMoreFits(rs, f, want);
    if r == [] {
      assert Printed(r) == [];
      FillNothing(rs, f.size, f.index, want);
    } else {
      FillPrefix(rs, f.size, Printed(r), f.index, want);
    }
  }

  /** A read reports the end of the file exactly when no text remains, or when empty records
      stand between the reader and a record larger than the buffer. */
  lemma EndOfFileIff(rs: seq<string>, f: File, want: nat)
    requires f.size > 0 && want > 0
    ensures |Read(rs, f, want).1| == 0 <==>
      f.pending == [] && (AllEmpty(rs, f.index) || (rs[f.index] == [] && Stuck(rs, f.size, f.index)))
  {
    ReadParts(rs, f, want);
    if f.pending == [] {
      var f1 := Flush(f, want);
      if f.index < |rs| {
        if |rs[f.index]| < f.size {
          ReadMoreNothing(rs, f1, want);
        } else {
          ReadMoreJunk(rs, f1, want);
        }
      }
    }
  }

  // ---------------------------------------------------------------- seq_lseek

  /** One pass of `traverse` from record `i`, of which byte number `pos` of the file is the
      first; `None` asks for a larger buffer. */
  function Pass(rs: seq<string>, size: nat, i: nat, pos: nat, offset: nat): Option<(nat, seq<Cell>)>
    requires pos < offset
    decreases |rs| - i
  {
    if i >= |rs| then Some((i, []))
    else if |rs[i]| >= size then None
    else if pos + |rs[i]| > offset then Some((i, Printed(rs[i])[offset - pos..]))
    else if pos + |rs[i]| == offset then Some((i + 1, []))
    else Pass(rs, size, i + 1, pos + |rs[i]|, offset)
  }

  function Longest(rs: seq<string>, i: nat): nat
    decreases |rs| - i
  {
    if i >= |rs| then 0
    else if |rs[i]| > Longest(rs, i + 1) then |rs[i]| else Longest(rs, i + 1)
  }

  /** Doubling ends: a pass asks for more only if some record is at least as long as the
      buffer. */
  lemma {:induction false} PassWants(rs: seq<string>, size: nat, i: nat, pos: nat, offset: nat)
    requires pos < offset
    ensures Pass(rs, size, i, pos, offset).None? ==> Longest(rs, i) >= size
    decreases |rs| - i
  {
    if i < |rs| && |rs[i]| < size && pos + |rs[i]| < offset {
      PassWants(rs, size, i + 1, pos + |rs[i]|, offset);
    }
  }

  /** `traverse`, repeated while it says -EAGAIN. */
  function Traverse(rs: seq<string>, size: nat, offset: nat): File
    requires size > 0
    decreases if Longest(rs, 0) >= size then Longest(rs, 0) - size + 1 else 0
  {
    if offset == 0 then File(size, [], 0, 0)
    else
      match Pass(rs, size, 0, 0, offset)
      case Some((index, pending)) => File(size, pending, index, offset)
      case None =>
        PassWants(rs, size, 0, 0, offset);
        Traverse(rs, 2 * size, offset)
  }

  datatype Origin = FromStart | FromHere | Elsewhere

  /** The second component is None for -EINVAL. */
  function Seek(rs: seq<string>, f: File, offset: int, origin: Origin): (File, Option<nat>)
    requires f.size > 0
  {
    var to := if origin.FromHere? then offset + f.pos else offset;
    if origin.Elsewhere? || to < 0 then (f, None)
    else if to == f.pos then (f, Some(to))
    else (Traverse(rs, f.size, to), Some(to))
  }

  /** The reader stands `k` bytes into record `i`, or behind it, or further on. */
  lemma StandsIn(rs: seq<string>, size: nat, i: nat, k: nat, offset: nat)
    requires i < |rs| && k < |rs[i]|
    ensures var f := File(size, Printed(rs[i])[k..], i, offset);
            Rest(rs, f) == Joined(rs, i)[k..] && k <= |Joined(rs, i)| && Tidy(rs, f)
  {
    var r, rest := Printed(rs[i]), Joined(rs, i + 1);
    assert (r + rest)[k..] == r[k..] + rest;
    assert r[|r| - |r[k..]|..] == r[k..];
  }

  lemma StandsBehind(rs: seq<string>, size: nat, i: nat, offset: nat)
    requires i < |rs|
    ensures var f := File(size, [], i + 1, offset);
            |rs[i]| <= |Joined(rs, i)| && Rest(rs, f) == Joined(rs, i)[|rs[i]|..]
  {
    RestFresh(rs, File(size, [], i + 1, offset));
    assert (Printed(rs[i]) + Joined(rs, i + 1))[|rs[i]|..] == Joined(rs, i + 1);
  }

  lemma FurtherOn(rs: seq<string>, i: nat, k: nat)
    requires i < |rs| && k > |rs[i]|
    ensures var all, rest := Joined(rs, i), Joined(rs, i + 1);
            all[Min(k, |all|)..] == rest[Min(k - |rs[i]|, |rest|)..]
  {
    var r, rest := Printed(rs[i]), Joined(rs, i + 1);
    assert (r + rest)[Min(k, |r + rest|)..] == rest[Min(k - |r|, |rest|)..];
  }

  lemma {:induction false} PassLands(rs: seq<string>, size: nat, i: nat, pos: nat, offset: nat)
    requires size > 0 && pos < offset
    ensures var p := Pass(rs, size, i, pos, offset); p.Some? ==>
      && var f := File(size, p.value.1, p.value.0, offset);
      Rest(rs, f) == Joined(rs, i)[Min(offset - pos, |Joined(rs, i)|)..] && Tidy(rs, f)
    decreases |rs| - i
  {
    if i < |rs| && |rs[i]| < size {
      if pos + |rs[i]| > offset {
        StandsIn(rs, size, i, offset - pos, offset);
      } else if pos + |rs[i]| == offset {
        StandsBehind(rs, size, i, offset);
      } else {
        FurtherOn(rs, i, offset - pos);
        PassLands(rs, size, i + 1, pos + |rs[i]|, offset);
      }
    }
  }

  /** A traversal leaves the buffer as large as it was, or doubled until the records it passes fit. */
  lemma {:induction false} TraverseSize(rs: seq<string>, size: nat, offset: nat) returns (k: nat)
    requires size > 0
    ensures Traverse(rs, size, offset).size == Doubled(size, k) && (k > 0 ==> Longest(rs, 0) >= Doubled(size, k - 1))
    decreases if Longest(rs, 0) >= size then Longest(rs, 0) - size + 1 else 0
  {
    k := 0;
    if offset > 0 && Pass(rs, size, 0, 0, offset).None? {
      PassWants(rs, size, 0, 0, offset);
      var j := TraverseSize(rs, 2 * size, offset);
      DoubledTwice(size, j);
      if j > 0 { DoubledTwice(size, j - 1); }
      k := j + 1;
    }
  }

  /** Records of any length: after a seek that moves, the reader delivers the joined records
      from the wanted byte on. */
  lemma {:induction false} TraverseLands(rs: seq<string>, size: nat, offset: nat)
    requires size > 0
    ensures var g := Traverse(rs, size, offset); g.pos == offset && Synced(rs, g) && Tidy(rs, g) && g.size >= size
    decreases if Longest(rs, 0) >= size then Longest(rs, 0) - size + 1 else 0
  {
    if offset == 0 {
      assert [] + Joined(rs, 0) == Joined(rs, 0);
    } else if Pass(rs, size, 0, 0, offset).Some? {
      PassLands(rs, size, 0, 0, offset);
    } else {
      PassWants(rs, size, 0, 0, offset);
      TraverseLands(rs, 2 * size, offset);
    }
  }

  /** Where a seek may go: an absolute position, or one counted from here, not below zero. */
  predicate Targets(f: File, offset: int, origin: Origin, to: nat) {
    (origin == FromStart && to == offset) || (origin == FromHere && to == f.pos + offset)
  }

  /** A seek goes exactly where it was sent and says so, or is refused and changes nothing; where
      it moves to, the reader stands at the position. */
  lemma SeekAgrees(rs: seq<string>, f: File, offset: int, origin: Origin)
    requires f.size > 0
    ensures var (g, r) := Seek(rs, f, offset, origin);
            && (forall to: nat :: r == Some(to) <==> Targets(f, offset, origin, to))
            && (r.None? ==> g == f)
            && (r.Some? ==> g.pos == r.value && (r.value != f.pos || Synced(rs, f) ==> Synced(rs, g)))
            && (Tidy(rs, f) ==> Tidy(rs, g)) && g.size >= f.size
  {
    var to := if origin.FromHere? then offset + f.pos else offset;
    if !origin.Elsewhere? && to >= 0 && to != f.pos {
      TraverseLands(rs, f.size, to);
    }
  }

  // ---------------------------------------------------------------- whole runs

  datatype Event = DoRead(want: nat) | DoSeek(offset: int, origin: Origin)

  function Step(rs: seq<string>, f: File, e: Event): (File, seq<Cell>)
    requires f.size > 0
  {
    match e
    case DoRead(want) => Read(rs, f, want)
    case DoSeek(offset, origin) => (Seek(rs, f, offset, origin).0, [])
  }

  /** What is true between any two calls when every record fits the buffer. */
  predicate Inv(rs: seq<string>, f: File) { AllFit(rs, f.size) && f.size > 0 && Tidy(rs, f) && Synced(rs, f) }

  /** Every read returns the bytes of the joined records that start at the file position. */
  lemma StepHonest(rs: seq<string>, f: File, e: Event)
    requires Inv(rs, f)
    ensures var (f2, out) := Step(rs, f, e); Inv(rs, f2) && out <= Joined(rs, 0)[Min(f.pos, |Joined(rs, 0)|)..]
    ensures e.DoRead? ==> Step(rs, f, e).0.pos == f.pos + |Step(rs, f, e).1|
    ensures e.DoRead? && e.want > 0 ==> (Step(rs, f, e).1 == [] <==> f.pos >= |Joined(rs, 0)|)
  {
    var text := Joined(rs, 0);
    match e
    case DoRead(want) =>
      ReadKeeps(rs, f, want);
      var (f2, out) := Read(rs, f, want);
      assert text[Min(f.pos, |text|)..] == out + Rest(rs, f2);
      assert text[Min(f.pos, |text|)..][|out|..] == Rest(rs, f2);
      if want > 0 {
        EndOfFileIff(rs, f, want);
        AllEmptyIff(rs, f.index);
        if f.pending == [] { NotStuck(rs, f.size, f.index); }
      }
    case DoSeek(offset, origin) => SeekAgrees(rs, f, offset, origin);
  }

  lemma {:induction false} NotStuck(rs: seq<string>, size: nat, i: nat)
    requires AllFit(rs, size)
    ensures !Stuck(rs, size, i)
    decreases |rs| - i
  {
    if i < |rs| { NotStuck(rs, size, i + 1); }
  }

  const Opened: File := File(PAGE_SIZE, [], 0, 0)

  ghost function After(rs: seq<string>, f: File, es: seq<Event>): (g: File)
    requires Inv(rs, f)
    ensures Inv(rs, g)
    decreases |es|
  {
    if es == [] then f
    else
      StepHonest(rs, f, es[0]);
      After(rs, Step(rs, f, es[0]).0, es[1..])
  }

  lemma OpenedInv(rs: seq<string>)
    requires AllFit(rs, PAGE_SIZE)
    ensures Inv(rs, Opened)
  {
    RestFresh(rs, Opened);
  }

  /** After any run of reads and seeks on an opened file, a read returns the next bytes of the
      joined records from the file position, and nothing only past their end. */
  lemma RunsAreHonest(rs: seq<string>, es: seq<Event>, want: nat)
    requires AllFit(rs, PAGE_SIZE) && want > 0
    ensures Inv(rs, Opened)
    ensures var f := After(rs, Opened, es);
            var text, out := Joined(rs, 0), Read(rs, f, want).1;
            out <= text[Min(f.pos, |text|)..] && (out == [] <==> f.pos >= |text|)
  {
    OpenedInv(rs);
    StepHonest(rs, After(rs, Opened, es), DoRead(want));
  }

  /** A record as large as the buffer: the first byte ever read was never printed. */
  lemma GrowthCounterexample(want: nat)
    requires want > 0
    ensures var rs := [seq(PAGE_SIZE, _ => 'x')];
            var out := Read(rs, Opened, want).1; |out| > 0 && out[0] == Junk && Joined(rs, 0)[0] == Byte('x')
  {
    var rs := [seq(PAGE_SIZE, _ => 'x')];
    ReadJunk(rs, Opened, want);
    assert Joined(rs, 0)[0] == Printed(rs[0])[0];
  }

  /** Everything a series of reads returned, joined. */
  function Outputs(rs: seq<string>, f: File, wants: seq<nat>): (File, seq<Cell>)
    requires f.size > 0 && AllFit(rs, f.size)
    decreases |wants|
  {
    if wants == [] then (f, [])
    else
      var (f1, out) := Read(rs, f, wants[0]);
      ReadKeeps(rs, f, wants[0]);
      var (f2, outs) := Outputs(rs, f1, wants[1..]);
      (f2, out + outs)
  }

  /** Whatever the sizes of the reads, what they return is the text itself, front first. */
  lemma {:induction false} ReadsConcatenate(rs: seq<string>, f: File, wants: seq<nat>)
    requires f.size > 0 && AllFit(rs, f.size) && Tidy(rs, f)
    ensures var (g, out) := Outputs(rs, f, wants); out + Rest(rs, g) == Rest(rs, f) && Tidy(rs, g)
    decreases |wants|
  {
    if wants != [] {
      ReadKeeps(rs, f, wants[0]);
      var (f1, out) := Read(rs, f, wants[0]);
      ReadsConcatenate(rs, f1, wants[1..]);
      var (g, outs) := Outputs(rs, f1, wants[1..]);
      assert out + outs + Rest(rs, g) == out + (outs + Rest(rs, g));
    }
  }
}
