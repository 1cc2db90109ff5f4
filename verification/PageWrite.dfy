/** Writing part of a page (fs/buffer.c:1618-1726): `__block_prepare_write` maps, zeroes
    and reads what the write does not cover, the caller copies its bytes in, and
    `__block_commit_write` marks the touched buffers up to date and dirty. */
module PageWrite {
  import opened Common

  /** A buffer and its part of the page's memory. */
  datatype Buffer = Buffer(data: seq<Byte>, mapped: bool, uptodate: bool, dirty: bool)

  /** What `get_block(..., 1)` answers for an unmapped block: an error, a block that had been
      allocated already, or a new one. */
  datatype Lookup = Fails | Found | New

  /** What is outside the page cache: for each block of the page, the answer of `get_block`,
      the bytes on disk, and whether a read of it succeeds. */
  datatype Device = Device(look: seq<Lookup>, disk: seq<seq<Byte>>, readable: seq<bool>)

  /** `memset(data + a, 0, b - a)`. */
  function ZeroRange(d: seq<Byte>, a: nat, b: nat): (r: seq<Byte>)
    requires a <= b <= |d|
    ensures |r| == |d| && forall j :: 0 <= j < |d| ==> r[j] == if a <= j < b then 0 else d[j]
  {
    seq(|d|, j requires 0 <= j < |d| => if a <= j < b then 0 else d[j])
  }

  /** Bytes `from` to `to` of the page overwritten; `start` is where this block begins. */
  function Overlay(d: seq<Byte>, start: nat, from: nat, data: seq<Byte>): (r: seq<Byte>)
    ensures |r| == |d|
    ensures forall j :: 0 <= j < |d| ==>
      r[j] == if from <= start + j < from + |data| then data[start + j - from] else d[j]
  {
    seq(|d|, j requires 0 <= j < |d| => if from <= start + j < from + |data| then data[start + j - from] else d[j])
  }

  /** The block at `start` meets the write. */
  predicate Meets(start: nat, size: nat, from: nat, to: nat) {
    from < start + size && start < to
  }

  /** `d` agrees with the file outside the bytes to be written. */
  ghost predicate AgreesOutside(d: seq<Byte>, file: seq<Byte>, start: nat, from: nat, to: nat) {
    |d| == |file| && forall j :: 0 <= j < |d| && !(from <= start + j < to) ==> d[j] == file[j]
  }

  // ---------------------------------------------------------------- one block

  datatype Outcome = Failed | Fine(b: Buffer) | NeedsRead(b: Buffer)

  /** One iteration of `__block_prepare_write`. */
  function PrepareBlock(b: Buffer, look: Lookup, start: nat, from: nat, to: nat, pageUptodate: bool): Outcome {
    var end := start + |b.data|;
    if !Meets(start, |b.data|, from, to) then Fine(b)
    else if !b.mapped && look.Fails? then Failed
    else if !b.mapped && look.New? then
      if pageUptodate then Fine(b.(mapped := true, uptodate := true))
      else
        var d1 := if end > to then ZeroRange(b.data, to - start, |b.data|) else b.data;
        var d2 := if start < from then ZeroRange(d1, 0, from - start) else d1;
        Fine(b.(mapped := true, data := d2))
    else if pageUptodate then Fine(b.(mapped := true, uptodate := true))
    else if !b.uptodate && (start < from || end > to) then NeedsRead(b.(mapped := true))
    else Fine(b.(mapped := true))
  }

  /** A block can be prepared: the write does not meet it, or it has a place on disk or gets one,
      and can be read if it is there, not in memory, and the write leaves part of it as it was. */
  predicate Preparable(b: Buffer, look: Lookup, readable: bool, start: nat, from: nat, to: nat, pageUptodate: bool) {
    Meets(start, |b.data|, from, to) ==>
      && (b.mapped || !look.Fails?)
      && ((b.mapped || look.Found?) && !pageUptodate && !b.uptodate && (start < from || to < start + |b.data|) ==>
            readable)
  }

  predicate Succeeds(o: Outcome, readable: bool) { !o.Failed? && (o.NeedsRead? ==> readable) }

  lemma PreparableIff(b: Buffer, look: Lookup, readable: bool, start: nat, from: nat, to: nat, pageUptodate: bool)
    ensures Succeeds(PrepareBlock(b, look, start, from, to, pageUptodate), readable) <==>
      Preparable(b, look, readable, start, from, to, pageUptodate)
  {
  }

  /** The buffer once its read, if it needs one, has come in. */
  function Filled(o: Outcome, disk: seq<Byte>): Buffer
    requires !o.Failed?
  {
    if o.Fine? then o.b else o.b.(data := disk, uptodate := true)
  }

  /** One iteration of `__block_commit_write`. */
  function CommitBlock(b: Buffer, start: nat, from: nat, to: nat): Buffer {
    if Meets(start, |b.data|, from, to) then b.(uptodate := true, dirty := true) else b
  }

  /** How a block of the file relates to its buffer and the device: up-to-date memory shows
      the file, an allocated block that is not in memory is on disk, a hole is zeroes. */
  ghost predicate Backed(b: Buffer, look: Lookup, disk: seq<Byte>, file: seq<Byte>, pageUptodate: bool) {
    && |b.data| == |file|
    && (pageUptodate || b.uptodate ==> b.data == file)
    && (!b.uptodate && (b.mapped || look.Found?) ==> disk == file)
    && (!b.mapped && look.New? ==> file == Zeroes(|file|))
  }

  /** After a successful prepare the block shows the file outside the write; up-to-date
      blocks show it everywhere. */
  lemma PreparedBlock(b: Buffer, look: Lookup, disk: seq<Byte>, file: seq<Byte>, start: nat, from: nat, to: nat,
                      pageUptodate: bool)
    requires Backed(b, look, disk, file, pageUptodate) && from <= to
    requires !PrepareBlock(b, look, start, from, to, pageUptodate).Failed?
    ensures var o := PrepareBlock(b, look, start, from, to, pageUptodate);
            var b1 := Filled(o, disk);
            && (pageUptodate || b1.uptodate ==> b1.data == file)
            && (pageUptodate || o.b.uptodate ==> o.b.data == file)
            && (Meets(start, |b.data|, from, to) ==> b1.mapped && AgreesOutside(b1.data, file, start, from, to))
            && (!Meets(start, |b.data|, from, to) ==> b1 == b)
  {
    var o := PrepareBlock(b, look, start, from, to, pageUptodate);
    if Meets(start, |b.data|, from, to) && !b.mapped && look.New? && !pageUptodate && b.uptodate {
      assert o.b.data == file;
    }
  }

  /** Prepare, copy, commit: every up-to-date block shows the old bytes overlaid by the
      written ones. */
  lemma WrittenBlock(b: Buffer, look: Lookup, disk: seq<Byte>, file: seq<Byte>, start: nat, from: nat, data: seq<Byte>,
                     pageUptodate: bool)
    requires Backed(b, look, disk, file, pageUptodate)
    requires !PrepareBlock(b, look, start, from, from + |data|, pageUptodate).Failed?
    ensures var b1 := Filled(PrepareBlock(b, look, start, from, from + |data|, pageUptodate), disk);
            var b2 := b1.(data := Overlay(b1.data, start, from, data));
            var b3 := CommitBlock(b2, start, from, from + |data|);
            && (pageUptodate || b3.uptodate ==> b3.data == Overlay(file, start, from, data))
            && (Meets(start, |b.data|, from, from + |data|) ==> b3.uptodate && b3.dirty && b3.mapped)
            && (!Meets(start, |b.data|, from, from + |data|) ==> b3 == b)
  {
    var to := from + |data|;
    PreparedBlock(b, look, disk, file, start, from, to, pageUptodate);
    var b1 := Filled(PrepareBlock(b, look, start, from, to, pageUptodate), disk);
    assert |b1.data| == |file|;
    if Meets(start, |b.data|, from, to) {
      assert Overlay(b1.data, start, from, data) == Overlay(file, start, from, data);
    } else {
      assert Overlay(b1.data, start, from, data) == b1.data;
      assert Overlay(file, start, from, data) == file;
    }
  }

  /** A new block, to be mapped before the write has filled it, whose place on disk still holds
      other bytes than the zeroes the file has there. */
  predicate Exposed(b: Buffer, look: Lookup, disk: seq<Byte>, file: seq<Byte>, start: nat, from: nat, to: nat,
                    pageUptodate: bool)
  {
    Meets(start, |b.data|, from, to) && !b.mapped && look.New? && !pageUptodate && !b.uptodate && disk != file
  }

  /** Preparing a block leaves it backed, whether or not its read has come in, exactly when it is
      not exposed. */
  lemma PreparedBackedIff(b: Buffer, look: Lookup, disk: seq<Byte>, file: seq<Byte>, start: nat, from: nat, to: nat,
                          pageUptodate: bool)
    requires Backed(b, look, disk, file, pageUptodate) && from <= to
    requires !PrepareBlock(b, look, start, from, to, pageUptodate).Failed?
    ensures var o := PrepareBlock(b, look, start, from, to, pageUptodate);
            var exposed := Exposed(b, look, disk, file, start, from, to, pageUptodate);
            && (Backed(o.b, look, disk, file, pageUptodate) <==> !exposed)
            && (Backed(Filled(o, disk), look, disk, file, pageUptodate) <==> !exposed)
  {
    PreparedBlock(b, look, disk, file, start, from, to, pageUptodate);
  }

  /** A written block is backed again: it is in memory, or nothing has changed. */
  lemma WrittenBacked(b: Buffer, look: Lookup, disk: seq<Byte>, file: seq<Byte>, start: nat, from: nat, data: seq<Byte>,
                      pageUptodate: bool, later: bool)
    requires Backed(b, look, disk, file, pageUptodate)
    requires !PrepareBlock(b, look, start, from, from + |data|, pageUptodate).Failed?
    ensures var b1 := Filled(PrepareBlock(b, look, start, from, from + |data|, pageUptodate), disk);
            var b2 := b1.(data := Overlay(b1.data, start, from, data));
            var b3 := CommitBlock(b2, start, from, from + |data|);
            (later ==> pageUptodate || b3.uptodate) ==> Backed(b3, look, disk, Overlay(file, start, from, data), later)
  {
    WrittenBlock(b, look, disk, file, start, from, data, pageUptodate);
    if !Meets(start, |b.data|, from, from + |data|) {
      assert Overlay(b.data, start, from, data) == b.data;
      assert Overlay(file, start, from, data) == file;
    }
  }

  lemma PreparedSize(b: Buffer, look: Lookup, disk: seq<Byte>, file: seq<Byte>, start: nat, from: nat, to: nat,
                     pageUptodate: bool)
    requires Backed(b, look, disk, file, pageUptodate) && from <= to
    requires !PrepareBlock(b, look, start, from, to, pageUptodate).Failed?
    ensures var o := PrepareBlock(b, look, start, from, to, pageUptodate);
            |o.b.data| == |b.data| && |Filled(o, disk).data| == |b.data|
  {
  }

  /** A hole of one block, written in part: the block is mapped, and if a later block then fails,
      its old disk bytes have become part of the file. */
  lemma ExposureCounterexample()
    ensures var b, disk := Buffer([0, 0], false, false, false), [7, 7];
            var o := PrepareBlock(b, New, 0, 1, 3, false);
            && Backed(b, New, disk, [0, 0], false) && o.Fine? && !Backed(o.b, New, disk, [0, 0], false)
  {
    assert Zeroes(2) == [0, 0];
    PreparedBackedIff(Buffer([0, 0], false, false, false), New, [7, 7], [0, 0], 0, 1, 3, false);
  }

  // ---------------------------------------------------------------- the page

  /** The offset of block `i` in the page. */
  function At(i: nat, size: nat): nat {
    if i == 0 then 0 else At(i - 1, size) + size
  }

  lemma {:induction false} AtGrows(i: nat, j: nat, size: nat)
    requires i <= j
    ensures At(i, size) <= At(j, size)
    decreases j
  {
    if i < j {
      AtGrows(i, j - 1, size);
    }
  }

  /** A prepare of bytes `from` to `to` of a page with these buffers. */
  datatype Task = Task(bufs: seq<Buffer>, dev: Device, size: nat, from: nat, to: nat, uptodate: bool) {
    ghost predicate Valid() {
      && size > 0 && from <= to && |bufs| == |dev.look| == |dev.disk| == |dev.readable|
      && forall i :: 0 <= i < |bufs| ==> |bufs[i].data| == size
    }

    ghost function Block(i: nat): Outcome
      requires i < |bufs| && i < |dev.look|
    {
      PrepareBlock(bufs[i], dev.look[i], At(i, size), from, to, uptodate)
    }
  }

  /** `o[i]` is what prepare makes of block `i`. */
  ghost predicate IsOutcome(t: Task, o: seq<Outcome>, i: nat) {
    i < |o| && i < |t.bufs| && i < |t.dev.look| && o[i] == t.Block(i)
  }

  ghost predicate AreOutcomes(t: Task, o: seq<Outcome>) {
    |o| == |t.bufs| && forall i :: 0 <= i < |o| ==> IsOutcome(t, o, i)
  }

  /** How many blocks are prepared before one fails. */
  function Reach(o: seq<Outcome>): (n: nat)
    ensures n <= |o| && (n < |o| ==> o[n].Failed?)
  {
    if o == [] || o[0].Failed? then 0 else 1 + Reach(o[1..])
  }

  lemma {:induction false} ReachIs(o: seq<Outcome>, n: nat)
    requires n <= |o| && (n < |o| ==> o[n].Failed?) && forall k :: 0 <= k < n ==> !o[k].Failed?
    ensures Reach(o) == n
  {
    if n > 0 { ReachIs(o[1..], n - 1); }
  }

  /** No block that is prepared before one fails is exposed. */
  ghost predicate NoneExposed(t: Task, o: seq<Outcome>, file: seq<seq<Byte>>)
    requires t.Valid() && |o| == |file| == |t.bufs|
  {
    forall k :: 0 <= k < Reach(o) ==>
      !Exposed(t.bufs[k], t.dev.look[k], t.dev.disk[k], file[k], At(k, t.size), t.from, t.to, t.uptodate)
  }

  ghost predicate AllBacked(bufs: seq<Buffer>, dev: Device, file: seq<seq<Byte>>, uptodate: bool) {
    && |file| == |dev.look| == |dev.disk| == |dev.readable| == |bufs|
    && forall i :: 0 <= i < |bufs| ==> IsBacked(bufs, dev, file, uptodate, i)
  }

  ghost predicate IsBacked(bufs: seq<Buffer>, dev: Device, file: seq<seq<Byte>>, uptodate: bool, i: nat)
    requires |file| == |dev.look| == |dev.disk| == |bufs| && i < |bufs|
  {
    Backed(bufs[i], dev.look[i], dev.disk[i], file[i], uptodate)
  }

  /** The buffers after a prepare that got as far as `n`. */
  ghost predicate PreparedUpto(t: Task, o: seq<Outcome>, n: nat, bufs: seq<Buffer>) {
    && n <= |o| == |bufs| == |t.bufs| == |t.dev.disk|
    && (forall k :: 0 <= k < n ==> !o[k].Failed? && (bufs[k] == o[k].b || bufs[k] == Filled(o[k], t.dev.disk[k])))
    && (forall k :: n <= k < |o| ==> bufs[k] == t.bufs[k])
  }

  lemma BackedAfterPrepareIff(t: Task, o: seq<Outcome>, file: seq<seq<Byte>>, bufs: seq<Buffer>)
    requires t.Valid() && AreOutcomes(t, o) && AllBacked(t.bufs, t.dev, file, t.uptodate)
    requires PreparedUpto(t, o, Reach(o), bufs)
    ensures AllBacked(bufs, t.dev, file, t.uptodate) <==> NoneExposed(t, o, file)
    ensures forall k :: 0 <= k < |bufs| ==> |bufs[k].data| == t.size
  {
    forall k | 0 <= k < |bufs|
      ensures IsBacked(bufs, t.dev, file, t.uptodate, k) <==>
        k >= Reach(o)
        || !Exposed(t.bufs[k], t.dev.look[k], t.dev.disk[k], file[k], At(k, t.size), t.from, t.to, t.uptodate)
      ensures |bufs[k].data| == t.size
    {
      assert IsBacked(t.bufs, t.dev, file, t.uptodate, k);
      if k < Reach(o) {
        assert IsOutcome(t, o, k);
        PreparedBackedIff(t.bufs[k], t.dev.look[k], t.dev.disk[k], file[k], At(k, t.size), t.from, t.to, t.uptodate);
        PreparedSize(t.bufs[k], t.dev.look[k], t.dev.disk[k], file[k], At(k, t.size), t.from, t.to, t.uptodate);
      }
    }
  }

  /** Blocks the write meets are up to date, dirty and mapped; the others are as they were. */
  predicate Touched(b0: seq<Buffer>, b1: seq<Buffer>, size: nat, from: nat, to: nat) {
    |b1| == |b0| && forall k :: 0 <= k < |b1| ==>
      if Meets(At(k, size), size, from, to) then b1[k].uptodate && b1[k].dirty && b1[k].mapped else b1[k] == b0[k]
  }

  /** Every block the write meets can be prepared. */
  ghost predicate AllPreparable(t: Task)
    requires t.Valid()
  {
    forall k :: 0 <= k < |t.bufs| ==>
      Preparable(t.bufs[k], t.dev.look[k], t.dev.readable[k], At(k, t.size), t.from, t.to, t.uptodate)
  }

  lemma AllPreparableIff(t: Task, o: seq<Outcome>)
    requires t.Valid() && AreOutcomes(t, o)
    ensures (forall k :: 0 <= k < |o| ==> Succeeds(o[k], t.dev.readable[k])) <==> AllPreparable(t)
    ensures Reach(o) < |o| ==> !AllPreparable(t)
  {
    forall k | 0 <= k < |o|
      ensures Succeeds(o[k], t.dev.readable[k]) <==>
        Preparable(t.bufs[k], t.dev.look[k], t.dev.readable[k], At(k, t.size), t.from, t.to, t.uptodate)
    {
      assert IsOutcome(t, o, k);
      PreparableIff(t.bufs[k], t.dev.look[k], t.dev.readable[k], At(k, t.size), t.from, t.to, t.uptodate);
    }
  }

  /** Blocks behind the write are left alone. */
  lemma Behind(t: Task, o: seq<Outcome>, i: nat)
    requires t.Valid() && AreOutcomes(t, o) && i <= |o| && (i < |o| ==> At(i, t.size) >= t.to)
    ensures forall k :: i <= k < |o| ==> o[k] == Fine(t.bufs[k])
  {
    forall k | i <= k < |o| ensures o[k] == Fine(t.bufs[k]) {
      assert IsOutcome(t, o, k);
      AtGrows(i, k, t.size);
    }
  }

  class Page {
    const size: nat
    var bufs: seq<Buffer>
    var uptodate: bool

    ghost predicate Valid()
      reads this
    {
      size > 0 && forall i :: 0 <= i < |bufs| ==> |bufs[i].data| == size
    }

    /** What the device answers for this page, and the file's bytes, block by block. */
    ghost predicate Backs(dev: Device, file: seq<seq<Byte>>)
      reads this
    {
      AllBacked(bufs, dev, file, uptodate)
    }

    /** What is marked up to date shows the file's bytes. */
    ghost predicate Shows(file: seq<seq<Byte>>)
      reads this
    {
      && |file| == |bufs|
      && forall i :: 0 <= i < |bufs| && (uptodate || bufs[i].uptodate) ==> bufs[i].data == file[i]
    }

    ghost function Prepare(dev: Device, from: nat, to: nat): Task
      reads this
    {
      Task(bufs, dev, size, from, to, uptodate)
    }

    /** The loop of `__block_prepare_write` over the buffers. The array `wait[2]` of buffers
        to wait for never gets a third entry, whatever the block size. */
    method SubmitReads(dev: Device, from: nat, to: nat, ghost o: seq<Outcome>)
      returns (ok: bool, wait: seq<nat>)
      requires Prepare(dev, from, to).Valid() && AreOutcomes(Prepare(dev, from, to), o)
      modifies this`bufs
      ensures |wait| <= 2 && |bufs| == |o|
      ensures ok == (Reach(o) == |o|)
      ensures forall k :: 0 <= k < Reach(o) ==> !o[k].Failed? && bufs[k] == o[k].b
      ensures forall k :: Reach(o) <= k < |o| ==> bufs[k] == old(bufs)[k]
      ensures ok ==> forall k :: k in wait <==> 0 <= k < |o| && o[k].NeedsRead?
    {
      ghost var t := Prepare(dev, from, to);
      wait := [];
      var i, start := 0, 0;
      while i < |bufs|
        invariant 0 <= i <= |bufs| == |t.bufs| && start == At(i, size)
        invariant |wait| <= (if start > from then 1 else 0) + (if start > to then 1 else 0)
        invariant forall k :: i <= k < |bufs| ==> bufs[k] == t.bufs[k]
        invariant forall k :: 0 <= k < i ==> !o[k].Failed? && bufs[k] == o[k].b
        invariant forall k :: k in wait <==> 0 <= k < i && o[k].NeedsRead?
      {
        var end := start + size;
        if end > from && start >= to {
          break;
        }
        assert IsOutcome(t, o, i);
        var r := PrepareOne(bufs[i], dev.look[i], start, from, to);
        if r.Failed? {
          ReachIs(o, i);
          return false, wait;
        }
        bufs := bufs[i := r.b];
        if r.NeedsRead? {
          assert |wait| < 2;
          wait := wait + [i];
        }
        i, start := i + 1, end;
      }
      Behind(t, o, i);
      ReachIs(o, |o|);
      ok := true;
    }

    /** One buffer in `__block_prepare_write`. */
    method PrepareOne(b0: Buffer, look: Lookup, start: nat, from: nat, to: nat) returns (r: Outcome)
      requires |b0.data| == size && !(start + size > from && start >= to)
      ensures r == PrepareBlock(b0, look, start, from, to, uptodate)
    {
      var b, end := b0, start + size;
      if end <= from {
        return Fine(b);
      }
      if !b.mapped {
        if look.Fails? {
          return Failed;
        }
        b := b.(mapped := true);
        if look.New? {
          if uptodate {
            return Fine(b.(uptodate := true));
          }
          if end > to {
            b := b.(data := ZeroRange(b.data, to - start, size));
          }
          if start < from {
            b := b.(data := ZeroRange(b.data, 0, from - start));
          }
          return Fine(b);
        }
      }
      if uptodate {
        return Fine(b.(uptodate := true));
      }
      if !b.uptodate && (start < from || end > to) {
        return NeedsRead(b);
      }
      return Fine(b);
    }

    /** The loop of `__block_prepare_write` that waits for the reads it issued, the last one
        first. */
    method WaitForReads(dev: Device, wait0: seq<nat>, ghost o: seq<Outcome>) returns (ok: bool)
      requires |bufs| == |o| == |dev.disk| == |dev.readable|
      requires forall k :: 0 <= k < |o| ==> !o[k].Failed? && bufs[k] == o[k].b
      requires forall k :: k in wait0 <==> 0 <= k < |o| && o[k].NeedsRead?
      modifies this`bufs
      ensures |bufs| == |o|
      ensures forall k :: 0 <= k < |o| ==>
        bufs[k] == o[k].b || (bufs[k] == Filled(o[k], dev.disk[k]) && dev.readable[k])
      ensures ok ==> forall k :: 0 <= k < |o| ==> bufs[k] == Filled(o[k], dev.disk[k])
      ensures ok <==> forall k :: 0 <= k < |o| ==> Succeeds(o[k], dev.readable[k])
    {
      var wait := wait0;
      while wait != []
        invariant |bufs| == |o|
        invariant forall k :: k in wait ==> 0 <= k < |o| && o[k].NeedsRead?
        invariant forall k :: 0 <= k < |o| ==>
          if k in wait || o[k].Fine? then bufs[k] == o[k].b
            || (k in wait && bufs[k] == Filled(o[k], dev.disk[k]) && dev.readable[k])
          else bufs[k] == Filled(o[k], dev.disk[k]) && dev.readable[k]
        decreases |wait|
      {
        var k := wait[|wait| - 1];
        assert k in wait && wait == wait[..|wait| - 1] + [k];
        wait := wait[..|wait| - 1];
        if !dev.readable[k] {
          assert !Succeeds(o[k], dev.readable[k]);
          return false;
        }
        bufs := bufs[k := bufs[k].(data := dev.disk[k], uptodate := true)];
      }
      return true;
    }

    /** `__block_prepare_write`. */
    method PrepareWrite(dev: Device, from: nat, to: nat, ghost file: seq<seq<Byte>>, ghost o: seq<Outcome>)
      returns (ok: bool)
      requires Prepare(dev, from, to).Valid() && AreOutcomes(Prepare(dev, from, to), o) && Backs(dev, file)
      modifies this`bufs
      ensures |bufs| == |o| && Valid() && Shows(file)
      ensures ok <==> AllPreparable(old(Prepare(dev, from, to)))
      ensures ok ==> forall k :: 0 <= k < |o| ==> !o[k].Failed? && bufs[k] == Filled(o[k], dev.disk[k])
      ensures Backs(dev, file) <==> NoneExposed(old(Prepare(dev, from, to)), o, file)
    {
      ghost var t := Prepare(dev, from, to);
      var wait;
      AllPreparableIff(t, o);
      ok, wait := SubmitReads(dev, from, to, o);
      if ok {
        ok := WaitForReads(dev, wait, o);
      }
      forall k | 0 <= k < |bufs| && (uptodate || bufs[k].uptodate) ensures bufs[k].data == file[k] {
        assert IsOutcome(t, o, k) && IsBacked(t.bufs, dev, file, uptodate, k);
        if !o[k].Failed? {
          PreparedBlock(t.bufs[k], dev.look[k], dev.disk[k], file[k], At(k, size), from, to, uptodate);
        }
      }
      BackedAfterPrepareIff(t, o, file, bufs);
    }

    /** The copy between prepare and commit. */
    method CopyIn(from: nat, data: seq<Byte>)
      modifies this`bufs
      ensures |bufs| == |old(bufs)|
      ensures forall k :: 0 <= k < |bufs| ==>
        bufs[k] == old(bufs)[k].(data := Overlay(old(bufs)[k].data, At(k, size), from, data))
    {
      var i, start := 0, 0;
      while i < |bufs|
        invariant 0 <= i <= |bufs| == |old(bufs)| && start == At(i, size)
        invariant forall k :: i <= k < |bufs| ==> bufs[k] == old(bufs)[k]
        invariant forall k :: 0 <= k < i ==>
          bufs[k] == old(bufs)[k].(data := Overlay(old(bufs)[k].data, At(k, size), from, data))
      {
        bufs := bufs[i := bufs[i].(data := Overlay(bufs[i].data, start, from, data))];
        i, start := i + 1, start + size;
      }
    }

    /** `__block_commit_write`: the page as a whole is up to date once no buffer is left that
        is not. */
    method CommitWrite(from: nat, to: nat)
      requires Valid()
      modifies this
      ensures |bufs| == |old(bufs)|
      ensures forall k :: 0 <= k < |bufs| ==> IsCommitted(old(bufs), bufs, size, from, to, k)
      ensures uptodate == (old(uptodate) || forall k :: 0 <= k < |bufs| ==> bufs[k].uptodate)
    {
      ghost var b0, stale := bufs, 0;
      var i, start, partial := 0, 0, false;
      while i < |bufs|
        invariant 0 <= i <= |bufs| == |b0| && start == At(i, size)
        invariant forall k :: i <= k < |bufs| ==> bufs[k] == b0[k]
        invariant forall k :: 0 <= k < i ==> IsCommitted(b0, bufs, size, from, to, k)
        invariant !partial ==> forall k :: 0 <= k < i ==> bufs[k].uptodate
        invariant partial ==> 0 <= stale < i && !bufs[stale].uptodate
        invariant uptodate == old(uptodate)
      {
        var end := start + size;
        ghost var b1 := bufs;
        if end <= from || start >= to {
          if !bufs[i].uptodate {
            partial := true;
            stale := i;
          }
        } else {
          bufs := bufs[i := bufs[i].(uptodate := true, dirty := true)];
        }
        assert IsCommitted(b0, bufs, size, from, to, i);
        forall k | 0 <= k < i ensures IsCommitted(b0, bufs, size, from, to, k) {
          assert IsCommitted(b0, b1, size, from, to, k) && bufs[k] == b1[k];
        }
        i, start := i + 1, end;
      }
      if !partial {
        uptodate := true;
      }
    }

    /** Copy and commit, on prepared buffers. */
    method CopyAndCommit(from: nat, data: seq<Byte>, ghost t: Task, ghost o: seq<Outcome>, ghost file: seq<seq<Byte>>)
      requires t.Valid() && AreOutcomes(t, o) && t.size == size && t.from == from && t.to == from + |data|
      requires |o| == |file| == |bufs| && uptodate == t.uptodate
      requires AllBacked(t.bufs, t.dev, file, t.uptodate)
      requires forall k :: 0 <= k < |o| ==> !o[k].Failed? && bufs[k] == Filled(o[k], t.dev.disk[k])
      modifies this
      ensures |bufs| == |o| && Valid() && Shows(Overwritten(file, size, from, data))
      ensures Backs(t.dev, Overwritten(file, size, from, data))
      ensures Touched(t.bufs, bufs, size, from, from + |data|)
      ensures uptodate == (old(uptodate) || forall k :: 0 <= k < |bufs| ==> bufs[k].uptodate)
    {
      ghost var b1 := bufs;
      CopyIn(from, data);
      ghost var b2 := bufs;
      PageCopied(t, o, file, data, b1, b2);
      CommitWrite(from, from + |data|);
      PageWritten(t, o, file, data, b1, b2, bufs);
      PageBacked(t, o, file, data, b1, b2, bufs, uptodate);
    }

    /** A write of `data` at `from`. It succeeds exactly when every block it meets has a place on
        disk or gets one, and can be read where it has to be. If it succeeds, everything marked up
        to date shows the file's old bytes overlaid by the written ones, with zeroes around them in
        new blocks, every block it met is dirty and no other is touched, and the new file is backed
        in its turn. If it fails,
        up-to-date memory still shows the old file, which is still backed exactly when no block
        prepared before the failure was exposed. */
    method Write(dev: Device, from: nat, data: seq<Byte>, ghost file: seq<seq<Byte>>) returns (ok: bool)
      requires Valid() && Backs(dev, file)
      modifies this
      ensures Valid() && |bufs| == |old(bufs)| && old(Prepare(dev, from, from + |data|)).Valid()
      ensures !ok ==> Shows(file)
      ensures var t := old(Prepare(dev, from, from + |data|));
              !ok ==> (Backs(dev, file) <==> NoneExposed(t, Outcomes(t), file))
      ensures ok ==> Shows(Overwritten(file, size, from, data)) && Backs(dev, Overwritten(file, size, from, data))
      ensures ok <==> AllPreparable(old(Prepare(dev, from, from + |data|)))
      ensures ok ==> Touched(old(bufs), bufs, size, from, from + |data|)
      ensures uptodate == (old(uptodate) || (ok && forall k :: 0 <= k < |bufs| ==> bufs[k].uptodate))
    {
      ghost var t := Prepare(dev, from, from + |data|);
      ghost var o := Outcomes(t);
      ok := PrepareWrite(dev, from, from + |data|, file, o);
      if ok {
        CopyAndCommit(from, data, t, o, file);
      }
    }

    /** A write on a page that more writes may follow. */
    method WriteOne(dev: Device, w: (nat, seq<Byte>), ghost file: seq<seq<Byte>>) returns (ok: bool)
      requires Valid() && Backs(dev, file)
      modifies this
      ensures Valid()
      ensures ok ==> Backs(dev, Overwritten(file, size, w.0, w.1))
      ensures !ok ==> Shows(file) && (Clean(dev, size) ==> Backs(dev, file))
    {
      ghost var t := Prepare(dev, w.0, w.0 + |w.1|);
      ok := Write(dev, w.0, w.1, file);
      if !ok && Clean(dev, size) {
        CleanExposesNothing(t, Outcomes(t), file);
      }
    }

    /** One write after another, up to the first that fails: what is up to date shows the file
        with all the completed writes in it, in their order. The page can go on from there if
        nothing failed, or if the device keeps zeroes where it has free blocks. */
    method WriteAll(dev: Device, ws: seq<(nat, seq<Byte>)>, ghost file: seq<seq<Byte>>) returns (n: nat)
      requires Valid() && Backs(dev, file)
      modifies this
      ensures n <= |ws| && Valid() && Shows(OverwrittenBy(file, size, ws[..n]))
      ensures n == |ws| || Clean(dev, size) ==> Backs(dev, OverwrittenBy(file, size, ws[..n]))
    {
      n := 0;
      ghost var now := file;
      assert ws[..0] == [];
      while n < |ws|
        invariant n <= |ws| && Valid() && Backs(dev, now) && now == OverwrittenBy(file, size, ws[..n])
      {
        var ok := WriteOne(dev, ws[n], now);
        if !ok {
          return;
        }
        now := Overwritten(now, size, ws[n].0, ws[n].1);
        assert ws[..n + 1][..n] == ws[..n];
        n := n + 1;
      }
      BackedShows(dev, now);
    }

    lemma BackedShows(dev: Device, file: seq<seq<Byte>>)
      requires Backs(dev, file)
      ensures Shows(file)
    {
      forall i | 0 <= i < |bufs| && (uptodate || bufs[i].uptodate) ensures bufs[i].data == file[i] {
        assert IsBacked(bufs, dev, file, uptodate, i);
      }
    }
  }

  /** Every block that `get_block` would allocate holds zeroes on disk. */
  predicate Clean(dev: Device, size: nat) {
    |dev.look| == |dev.disk| && forall k :: 0 <= k < |dev.look| && dev.look[k].New? ==> dev.disk[k] == Zeroes(size)
  }

  lemma CleanExposesNothing(t: Task, o: seq<Outcome>, file: seq<seq<Byte>>)
    requires t.Valid() && |o| == |t.bufs| && AllBacked(t.bufs, t.dev, file, t.uptodate) && Clean(t.dev, t.size)
    ensures NoneExposed(t, o, file)
  {
    forall k | 0 <= k < Reach(o)
      ensures !Exposed(t.bufs[k], t.dev.look[k], t.dev.disk[k], file[k], At(k, t.size), t.from, t.to, t.uptodate)
    {
      assert IsBacked(t.bufs, t.dev, file, t.uptodate, k);
    }
  }

  ghost function Outcomes(t: Task): (o: seq<Outcome>)
    requires t.Valid()
    ensures AreOutcomes(t, o)
  {
    seq(|t.bufs|, i requires 0 <= i < |t.bufs| && i < |t.dev.look| => t.Block(i))
  }

  ghost predicate IsCommitted(b0: seq<Buffer>, b1: seq<Buffer>, size: nat, from: nat, to: nat, k: nat) {
    k < |b0| && k < |b1| && b1[k] == CommitBlock(b0[k], At(k, size), from, to)
  }

  /** Block `k` through prepare, copy and commit. */
  lemma BlockWritten(t: Task, o: seq<Outcome>, file: seq<seq<Byte>>, data: seq<Byte>,
                     b1: seq<Buffer>, b2: seq<Buffer>, b3: Buffer, k: nat)
    requires t.Valid() && AreOutcomes(t, o) && t.to == t.from + |data| && k < |o| == |file| == |b1| == |b2|
    requires Backed(t.bufs[k], t.dev.look[k], t.dev.disk[k], file[k], t.uptodate)
    requires !o[k].Failed? && b1[k] == Filled(o[k], t.dev.disk[k])
    requires b2[k] == b1[k].(data := Overlay(b1[k].data, At(k, t.size), t.from, data))
    requires b3 == CommitBlock(b2[k], At(k, t.size), t.from, t.to)
    ensures |b2[k].data| == t.size
    ensures (t.uptodate || b3.uptodate) ==> b3.data == Overlay(file[k], At(k, t.size), t.from, data)
    ensures if Meets(At(k, t.size), t.size, t.from, t.to) then b3.uptodate && b3.dirty && b3.mapped else b3 == t.bufs[k]
  {
    assert IsOutcome(t, o, k);
    WrittenBlock(t.bufs[k], t.dev.look[k], t.dev.disk[k], file[k], At(k, t.size), t.from, data, t.uptodate);
    PreparedBlock(t.bufs[k], t.dev.look[k], t.dev.disk[k], file[k], At(k, t.size), t.from, t.to, t.uptodate);
  }

  /** All blocks between prepare and copy. */
  ghost predicate AllFilled(t: Task, o: seq<Outcome>, file: seq<seq<Byte>>, data: seq<Byte>, b1: seq<Buffer>,
                            b2: seq<Buffer>) {
    && t.Valid() && AreOutcomes(t, o) && t.to == t.from + |data| && |o| == |file| == |b1| == |b2|
    && AllBacked(t.bufs, t.dev, file, t.uptodate)
    && (forall k :: 0 <= k < |o| ==> !o[k].Failed? && b1[k] == Filled(o[k], t.dev.disk[k]))
    && (forall k :: 0 <= k < |o| ==> b2[k] == b1[k].(data := Overlay(b1[k].data, At(k, t.size), t.from, data)))
  }

  lemma PageCopied(t: Task, o: seq<Outcome>, file: seq<seq<Byte>>, data: seq<Byte>, b1: seq<Buffer>, b2: seq<Buffer>)
    requires AllFilled(t, o, file, data, b1, b2)
    ensures forall k :: 0 <= k < |b2| ==> |b2[k].data| == t.size
  {
    forall k | 0 <= k < |b2| ensures |b2[k].data| == t.size {
      assert IsBacked(t.bufs, t.dev, file, t.uptodate, k);
      BlockWritten(t, o, file, data, b1, b2, CommitBlock(b2[k], At(k, t.size), t.from, t.to), k);
    }
  }

  /** The new file is backed by what the write leaves. */
  lemma PageBacked(t: Task, o: seq<Outcome>, file: seq<seq<Byte>>, data: seq<Byte>, b1: seq<Buffer>, b2: seq<Buffer>,
                   b3: seq<Buffer>, later: bool)
    requires AllFilled(t, o, file, data, b1, b2) && |b3| == |b2|
    requires forall k :: 0 <= k < |b3| ==> IsCommitted(b2, b3, t.size, t.from, t.to, k)
    requires later ==> t.uptodate || forall k :: 0 <= k < |b3| ==> b3[k].uptodate
    ensures AllBacked(b3, t.dev, Overwritten(file, t.size, t.from, data), later)
    ensures forall k :: 0 <= k < |b3| ==> |b3[k].data| == t.size
  {
    forall k | 0 <= k < |b3|
      ensures IsBacked(b3, t.dev, Overwritten(file, t.size, t.from, data), later, k) && |b3[k].data| == t.size
    {
      assert IsCommitted(b2, b3, t.size, t.from, t.to, k) && IsBacked(t.bufs, t.dev, file, t.uptodate, k);
      BlockBacked(t, o, file, data, b1, b2, b3[k], k, later);
    }
  }

  lemma BlockBacked(t: Task, o: seq<Outcome>, file: seq<seq<Byte>>, data: seq<Byte>, b1: seq<Buffer>, b2: seq<Buffer>,
                    b3: Buffer, k: nat, later: bool)
    requires t.Valid() && AreOutcomes(t, o) && t.to == t.from + |data| && k < |o| == |file| == |b1| == |b2|
    requires Backed(t.bufs[k], t.dev.look[k], t.dev.disk[k], file[k], t.uptodate)
    requires !o[k].Failed? && b1[k] == Filled(o[k], t.dev.disk[k])
    requires b2[k] == b1[k].(data := Overlay(b1[k].data, At(k, t.size), t.from, data))
    requires b3 == CommitBlock(b2[k], At(k, t.size), t.from, t.to) && (later ==> t.uptodate || b3.uptodate)
    ensures Backed(b3, t.dev.look[k], t.dev.disk[k], Overlay(file[k], At(k, t.size), t.from, data), later)
    ensures |b3.data| == t.size
  {
    assert IsOutcome(t, o, k);
    WrittenBacked(t.bufs[k], t.dev.look[k], t.dev.disk[k], file[k], At(k, t.size), t.from, data, t.uptodate, later);
  }

  lemma PageWritten(t: Task, o: seq<Outcome>, file: seq<seq<Byte>>, data: seq<Byte>, b1: seq<Buffer>, b2: seq<Buffer>,
                    b3: seq<Buffer>)
    requires AllFilled(t, o, file, data, b1, b2) && |b3| == |b2|
    requires forall k :: 0 <= k < |b3| ==> IsCommitted(b2, b3, t.size, t.from, t.to, k)
    ensures forall k :: 0 <= k < |b3| && (t.uptodate || b3[k].uptodate) ==>
      b3[k].data == Overlay(file[k], At(k, t.size), t.from, data)
    ensures Touched(t.bufs, b3, t.size, t.from, t.to)
  {
    forall k | 0 <= k < |b3|
      ensures (t.uptodate || b3[k].uptodate) ==> b3[k].data == Overlay(file[k], At(k, t.size), t.from, data)
      ensures if Meets(At(k, t.size), t.size, t.from, t.to) then b3[k].uptodate && b3[k].dirty && b3[k].mapped
              else b3[k] == t.bufs[k]
    {
      assert IsCommitted(b2, b3, t.size, t.from, t.to, k);
      assert IsBacked(t.bufs, t.dev, file, t.uptodate, k);
      BlockWritten(t, o, file, data, b1, b2, b3[k], k);
    }
  }

  /** The file's bytes after a series of writes, each an offset and its data. */
  function OverwrittenBy(file: seq<seq<Byte>>, size: nat, ws: seq<(nat, seq<Byte>)>): (r: seq<seq<Byte>>)
    ensures |r| == |file|
  {
    if ws == [] then file
    else
      var w := ws[|ws| - 1];
      Overwritten(OverwrittenBy(file, size, ws[..|ws| - 1]), size, w.0, w.1)
  }

  /** The file's bytes over the page after the write. */
  function Overwritten(file: seq<seq<Byte>>, size: nat, from: nat, data: seq<Byte>): (r: seq<seq<Byte>>)
    ensures |r| == |file| && forall i :: 0 <= i < |file| ==> r[i] == Overlay(file[i], At(i, size), from, data)
  {
    seq(|file|, i requires 0 <= i < |file| => Overlay(file[i], At(i, size), from, data))
  }
}
