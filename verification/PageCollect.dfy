/** The first stage of `block_read_full_page` (fs/buffer.c:1735-1789): which buffers have to be
    read, and what the page shows in the end. */
module PageCollect {
  import opened Common
  import opened Lists
  import opened PageRead

  /** What `get_block` does to an unmapped buffer: fail, find a hole, or map it and possibly
      fill it at once. */
  datatype Lookup = Fails | Hole | Maps(filled: bool)

  datatype Head = Head(uptodate: bool, mapped: bool, data: seq<Byte>)

  /** The bytes of the file in a block: what the buffer shows if it is up to date, else what is
      on disk where the file has a block, else zeroes. */
  function FileBytes(h: Head, look: Lookup, inFile: bool, disk: seq<Byte>): seq<Byte> {
    if h.uptodate then h.data
    else if h.mapped || (inFile && look.Maps?) then disk
    else Zeroes(|h.data|)
  }

  predicate GivenUp(h: Head, look: Lookup, inFile: bool) {
    !h.uptodate && !h.mapped && inFile && look.Fails?
  }

  /** What becomes of a buffer before any I/O. It is queued for reading exactly when it is mapped
      and not up to date; it becomes up to date only if `get_block` filled it, or it is a hole,
      or it lies past the file; and if it is up to date it shows the bytes of the file. */
  predicate Handled(h: Head, look: Lookup, inFile: bool, disk: seq<Byte>, uptodate: bool, data: seq<Byte>, queued: bool)
  {
    && (queued <==> !h.uptodate && (h.mapped || (inFile && look == Maps(false))))
    && (uptodate <==> h.uptodate || (!h.mapped && (!inFile || look == Hole || look == Maps(true))))
    && data == if uptodate then FileBytes(h, look, inFile, disk) else h.data
  }

  /** The first loop of `block_read_full_page`; `iblock` is the first block of the page and
      `lblock` the first one past the file. */
  method CollectBuffers(heads: seq<Head>, looks: seq<Lookup>, disk: seq<seq<Byte>>, iblock: nat, lblock: nat)
    returns (after: seq<Head>, arr: seq<nat>)
    requires |looks| == |disk| == |heads|
    ensures |after| == |heads| && NoDup(arr) && forall b :: b in arr ==> b < |heads|
    ensures forall b :: 0 <= b < |heads| ==>
      Handled(heads[b], looks[b], iblock + b < lblock, disk[b], after[b].uptodate, after[b].data, b in arr)
    ensures forall b :: 0 <= b < |heads| ==>
      (b in arr <==> !heads[b].uptodate && (heads[b].mapped || (iblock + b < lblock && looks[b] == Maps(false))))
    ensures forall b :: 0 <= b < |heads| ==>
      after[b].uptodate || b in arr || GivenUp(heads[b], looks[b], iblock + b < lblock)
  {
    after, arr := heads, [];
    var i := 0;
    while i < |heads|
      invariant i <= |heads| == |after| && NoDup(arr) && forall b :: b in arr ==> b < i
      invariant forall b :: 0 <= b < i ==>
        Handled(heads[b], looks[b], iblock + b < lblock, disk[b], after[b].uptodate, after[b].data, b in arr)
      invariant forall b :: i <= b < |heads| ==> after[b] == heads[b]
    {
      if !after[i].uptodate {
        var read := true;
        if !after[i].mapped {
          if iblock + i < lblock {
            match looks[i] {
              case Fails => read := false;
              case Hole =>
              case Maps(filled) => after := after[i := Head(filled, true, if filled then disk[i] else after[i].data)];
            }
          }
          if read && !after[i].mapped {
            after := after[i := Head(true, false, Zeroes(|after[i].data|))];
            read := false;
          } else if read && after[i].uptodate {
            read := false;
          }
        }
        if read {
          NoDupSnoc(arr, i);
          arr := arr + [i];
        }
      }
      i := i + 1;
    }
  }

  /** The buffers of a page as the second stage finds them. */
  ghost predicate Collected(s: Page, heads: seq<Head>, looks: seq<Lookup>, iblock: nat, lblock: nat) {
    && Start(s) && |looks| == |heads| == |s.bufs|
    && forall b :: 0 <= b < |s.bufs| ==>
         Handled(heads[b], looks[b], iblock + b < lblock, s.disk[b], s.bufs[b].uptodate, s.bufs[b].data, b in s.arr)
  }

  /** A buffer of a page unlocked as up to date shows the bytes of the file, unless its lookup
      failed: then it is not up to date at all. */
  lemma BufferShowsFile(s: Page, es: seq<Event>, heads: seq<Head>, looks: seq<Lookup>, iblock: nat, lblock: nat, b: nat)
    requires Collected(s, heads, looks, iblock, lblock) && IsRun(s, es) && b < |heads|
    requires After(s, es).unlocks == 1 && After(s, es).uptodate
    ensures var t := After(s, es);
            && |t.bufs| == |s.disk| == |heads|
            && (t.bufs[b].uptodate <==> !GivenUp(heads[b], looks[b], iblock + b < lblock))
            && (t.bufs[b].uptodate ==>
                  t.bufs[b].data == FileBytes(heads[b], looks[b], iblock + b < lblock, s.disk[b]))
  {
    var t := After(s, es);
    CompletesOnce(s, es);
    SameBuffers(s, es);
    if b in s.arr {
      var k :| 0 <= k < |t.arr| && t.arr[k] == b;
      assert HasRead(t.bufs[t.arr[k]], s.disk[t.arr[k]], k !in t.failed);
    } else {
      OthersUntouched(s, es, b);
    }
  }

  /** A page unlocked as up to date shows the bytes of the file in every block, up to date,
      exactly when no block lookup failed: the code goes on as if a failed lookup had not
      happened. */
  lemma PageShowsFileIff(s: Page, es: seq<Event>, heads: seq<Head>, looks: seq<Lookup>, iblock: nat, lblock: nat)
    requires Collected(s, heads, looks, iblock, lblock) && IsRun(s, es)
    requires After(s, es).unlocks == 1 && After(s, es).uptodate
    ensures |After(s, es).bufs| == |s.disk| == |heads|
    ensures (forall b :: 0 <= b < |heads| ==>
               && After(s, es).bufs[b].uptodate
               && After(s, es).bufs[b].data == FileBytes(heads[b], looks[b], iblock + b < lblock, s.disk[b]))
       <==> (forall b :: 0 <= b < |heads| ==> !GivenUp(heads[b], looks[b], iblock + b < lblock))
  {
    SameBuffers(s, es);
    forall b | 0 <= b < |heads|
      ensures After(s, es).bufs[b].uptodate <==> !GivenUp(heads[b], looks[b], iblock + b < lblock)
      ensures After(s, es).bufs[b].uptodate ==>
        After(s, es).bufs[b].data == FileBytes(heads[b], looks[b], iblock + b < lblock, s.disk[b])
    {
      BufferShowsFile(s, es, heads, looks, iblock, lblock, b);
    }
  }

  /** The plainest case: a page of one block whose lookup fails is marked up to date at once,
      with its buffer unread. */
  lemma LookupCounterexample(iblock: nat, lblock: nat, disk: seq<Byte>, junk: seq<Byte>)
    requires iblock < lblock
    ensures var s := OneBlock(disk, junk);
            && Collected(s, [Head(false, false, junk)], [Fails], iblock, lblock) && IsRun(s, [Skip])
            && var t := After(s, [Skip]);
            t.unlocks == 1 && t.uptodate && !t.bufs[0].uptodate && t.bufs[0].data == junk
  {
    RunOne(OneBlock(disk, junk), Skip);
  }

  /** A page of one block that nobody is going to read. */
  function OneBlock(disk: seq<Byte>, junk: seq<Byte>): Page {
    Page([Buffer(false, false, false, junk)], [], Locking(0), [], true, false, false, 0, {}, -1, false, [disk])
  }
}
