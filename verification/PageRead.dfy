/** Asynchronous page reads (fs/buffer.c:756-810 and 1735-1804): the reader locks every
    buffer it needs, marks it async and only then submits; each completion handler runs in
    pieces that interleave freely with everybody else's. */
module PageRead {
  import opened Common
  import opened Lists

  /** A buffer and its part of the page's memory. */
  datatype Buffer = Buffer(locked: bool, async: bool, uptodate: bool, data: seq<Byte>)

  /** Where a buffer to be read is: untouched, locked and async but not submitted, I/O in
      flight; then its completion handler is past `mark_buffer_uptodate`, past the error
      note, past the locked section as the last one, past `SetPageUptodate`, returned. */
  datatype Pc = Idle | Ready | Flying | Marked(ok: bool) | Noted | Last | Settled | Returned

  /** How far `block_read_full_page` is in its second and third stage. */
  datatype Reader = Locking(i: nat) | Submitting(i: nat)

  /** `arr` lists the buffers to read and `pc` their progress; `disk` holds the bytes of the block
      behind each buffer. The rest is history:
      `unlocks` counts the calls of UnlockPage, `failed` collects the reads that reported
      an error, `last` is the handler that found nobody else waiting, -1 before there is
      one, and `stale` says that PG_error was set before the read began: nothing clears it. */
  datatype Page = Page(bufs: seq<Buffer>, arr: seq<nat>, reader: Reader, pc: seq<Pc>, locked: bool, error: bool,
                       uptodate: bool, unlocks: nat, failed: set<nat>, last: int, stale: bool, disk: seq<seq<Byte>>)

  /** `k` is a position in `arr`. */
  datatype Event =
    | Skip                       // SetPageUptodate; UnlockPage: there is nothing to read
    | LockNext                   // lock_buffer; set_buffer_async_io
    | SubmitNext                 // submit_bh
    | Mark(k: nat, ok: bool)     // mark_buffer_uptodate
    | Note(k: nat)               // SetPageError if the read failed
    | Section(k: nat)            // under page_uptodate_lock
    | Settle(k: nat)             // SetPageUptodate unless PageError
    | Unlock(k: nat)             // UnlockPage

  predicate Busy(b: Buffer) { b.async && b.locked }

  ghost predicate OtherBusy(bufs: seq<Buffer>, b: nat) {
    exists j :: 0 <= j < |bufs| && j != b && Busy(bufs[j])
  }

  ghost predicate WellTyped(s: Page) {
    && |s.pc| == |s.arr| && s.reader.i <= |s.arr| && |s.disk| == |s.bufs|
    && forall k :: 0 <= k < |s.arr| ==> s.arr[k] < |s.bufs|
  }

  ghost predicate Enabled(s: Page, e: Event) {
    && WellTyped(s)
    && match e
       case Skip => s.arr == [] && s.reader.Locking?
       case LockNext => s.reader.Locking? && s.reader.i < |s.arr| && !s.bufs[s.arr[s.reader.i]].locked
       case SubmitNext => s.reader.Submitting? && s.reader.i < |s.arr|
       case Mark(k, ok) => k < |s.pc| && s.pc[k] == Flying
       case Note(k) => k < |s.pc| && s.pc[k].Marked?
       case Section(k) => k < |s.pc| && s.pc[k] == Noted
       case Settle(k) => k < |s.pc| && s.pc[k] == Last
       case Unlock(k) => k < |s.pc| && s.pc[k] == Settled
  }

  ghost function Step(s: Page, e: Event): Page
    requires Enabled(s, e)
  {
    match e
    case Skip => s.(uptodate := true, locked := false, unlocks := s.unlocks + 1, reader := Submitting(0))
    case LockNext =>
      var k := s.reader.i;
      s.(bufs := s.bufs[s.arr[k] := s.bufs[s.arr[k]].(locked := true, async := true)], pc := s.pc[k := Ready],
         reader := if k + 1 == |s.arr| then Submitting(0) else Locking(k + 1))
    case SubmitNext =>
      s.(pc := s.pc[s.reader.i := Flying], reader := Submitting(s.reader.i + 1))
    case Mark(k, ok) =>
      var b := s.bufs[s.arr[k]];
      s.(bufs := s.bufs[s.arr[k] := b.(uptodate := ok, data := if ok then s.disk[s.arr[k]] else b.data)],
         pc := s.pc[k := Marked(ok)], failed := if ok then s.failed else s.failed + {k})
    case Note(k) =>
      s.(error := s.error || !s.pc[k].ok, pc := s.pc[k := Noted])
    case Section(k) =>
      s.(bufs := s.bufs[s.arr[k] := s.bufs[s.arr[k]].(locked := false, async := false)],
         pc := s.pc[k := if OtherBusy(s.bufs, s.arr[k]) then Returned else Last],
         last := if OtherBusy(s.bufs, s.arr[k]) then s.last else k)
    case Settle(k) =>
      s.(uptodate := s.uptodate || !s.error, pc := s.pc[k := Settled])
    case Unlock(k) =>
      s.(locked := false, unlocks := s.unlocks + 1, pc := s.pc[k := Returned])
  }

  ghost predicate IsRun(s: Page, es: seq<Event>)
    decreases |es|
  {
    es == [] || (Enabled(s, es[0]) && IsRun(Step(s, es[0]), es[1..]))
  }

  ghost function After(s: Page, es: seq<Event>): Page
    requires IsRun(s, es)
    decreases |es|
  {
    if es == [] then s else After(Step(s, es[0]), es[1..])
  }

  /** A locked page with no async buffer, and any number of buffers to read. */
  ghost predicate Start(s: Page) {
    && WellTyped(s) && NoDup(s.arr) && s.reader == Locking(0)
    && (forall k :: 0 <= k < |s.pc| ==> s.pc[k] == Idle)
    && (forall b :: 0 <= b < |s.bufs| ==> !s.bufs[b].async)
    && s.locked && s.error == s.stale && !s.uptodate && s.unlocks == 0 && s.failed == {} && s.last == -1
  }

  // ---------------------------------------------------------------- the invariant

  /** Not yet through the locked section. */
  predicate Waiting(p: Pc) { p.Ready? || p.Flying? || p.Marked? || p.Noted? }

  /** Through it as the last one, the page still to be unlocked. */
  predicate Closing(p: Pc) { p.Last? || p.Settled? }

  ghost predicate AllThrough(pc: seq<Pc>) {
    forall k :: 0 <= k < |pc| ==> Closing(pc[k]) || pc[k].Returned?
  }

  /** All buffers are locked before the first one is submitted. */
  ghost predicate InOrder(s: Page)
    requires WellTyped(s)
  {
    && s.arr != [] && (s.reader.Locking? ==> s.reader.i < |s.arr|)
    && forall k :: 0 <= k < |s.pc| ==>
         if s.reader.Locking? then s.pc[k] == (if k < s.reader.i then Ready else Idle)
         else if k < s.reader.i then !s.pc[k].Idle? && !s.pc[k].Ready? else s.pc[k] == Ready
  }

  /** A buffer is async and locked exactly as long as its handler has not been through the
      locked section. */
  ghost predicate BusyIffWaiting(s: Page)
    requires WellTyped(s)
  {
    && NoDup(s.arr)
    && (forall k :: 0 <= k < |s.arr| ==> (Busy(s.bufs[s.arr[k]]) <==> Waiting(s.pc[k])))
    && (forall b :: 0 <= b < |s.bufs| && b !in s.arr ==> !Busy(s.bufs[b]))
  }

  ghost predicate OneClosing(s: Page)
    requires WellTyped(s)
  {
    && (if AllThrough(s.pc) then 0 <= s.last < |s.pc| && s.unlocks <= 1 && (s.unlocks == 0 <==> Closing(s.pc[s.last]))
        else s.unlocks == 0 && s.last == -1)
    && (forall k :: 0 <= k < |s.pc| && Closing(s.pc[k]) ==> k == s.last)
    && (s.locked <==> s.unlocks == 0)
  }

  /** A failed read is noted before its handler gets to the locked section. */
  ghost predicate ErrorsKnown(s: Page)
    requires WellTyped(s)
  {
    && (forall k :: k in s.failed ==> k < |s.pc| && Started(s.pc[k]) && (s.pc[k] == Marked(false) || s.error))
    && (forall k :: 0 <= k < |s.pc| && s.pc[k] == Marked(false) ==> k in s.failed)
    && (forall k :: 0 <= k < |s.pc| && s.pc[k] == Marked(true) ==> k !in s.failed)
    && (s.stale ==> s.error) && (s.error ==> s.stale || s.failed != {})
    && s.uptodate == (AllThrough(s.pc) && s.failed == {} && !s.stale && 0 <= s.last < |s.pc| && !s.pc[s.last].Last?)
  }

  predicate Started(p: Pc) { p.Marked? || p.Noted? || Closing(p) || p.Returned? }

  /** A buffer whose read has come back is up to date exactly when it did not fail, and then
      shows what is on disk. */
  ghost predicate BuffersRead(s: Page)
    requires WellTyped(s)
  {
    forall k :: 0 <= k < |s.pc| && Started(s.pc[k]) ==> HasRead(s.bufs[s.arr[k]], s.disk[s.arr[k]], k !in s.failed)
  }

  predicate HasRead(b: Buffer, disk: seq<Byte>, ok: bool) { b.uptodate == ok && (ok ==> b.data == disk) }

  /** With nothing to read, the reader settles the page itself. */
  ghost predicate NothingToRead(s: Page) {
    && WellTyped(s) && s.arr == [] && s.failed == {} && s.reader.i == 0 && (s.locked <==> s.unlocks == 0)
    && (if s.reader.Locking? then s.unlocks == 0 && !s.uptodate else s.unlocks == 1 && s.uptodate)
  }

  ghost predicate Reads(s: Page) {
    WellTyped(s) && InOrder(s) && BusyIffWaiting(s) && OneClosing(s) && ErrorsKnown(s) && BuffersRead(s)
  }

  ghost predicate Inv(s: Page) { if s.arr == [] then NothingToRead(s) else Reads(s) }

  lemma StartInv(s: Page)
    requires Start(s)
    ensures Inv(s)
  {
    if s.arr != [] {
      assert !AllThrough(s.pc) by { assert s.pc[0] == Idle; }
    }
  }

  /** What the handler sees in the locked section is whether anybody else still waits. */
  lemma SeesOthers(s: Page, k: nat)
    requires WellTyped(s) && BusyIffWaiting(s) && k < |s.pc|
    ensures OtherBusy(s.bufs, s.arr[k]) <==> exists j :: 0 <= j < |s.pc| && j != k && Waiting(s.pc[j])
  {
    NoDupPairs(s.arr);
    if OtherBusy(s.bufs, s.arr[k]) {
      var b :| 0 <= b < |s.bufs| && b != s.arr[k] && Busy(s.bufs[b]);
      assert b in s.arr;
      var j :| 0 <= j < |s.arr| && s.arr[j] == b;
      assert Waiting(s.pc[j]);
    }
    if j :| 0 <= j < |s.pc| && j != k && Waiting(s.pc[j]) {
      assert Busy(s.bufs[s.arr[j]]) && s.arr[j] != s.arr[k];
    }
  }

  /** Only the buffer at position `k` of `arr` is touched. */
  ghost predicate Touches(s: Page, s1: Page, k: nat) {
    && WellTyped(s) && WellTyped(s1) && k < |s.pc| && s1.arr == s.arr && |s1.bufs| == |s.bufs| && s1.disk == s.disk
    && (forall j :: 0 <= j < |s.pc| && j != k ==> s1.pc[j] == s.pc[j])
    && (forall b :: 0 <= b < |s.bufs| && b != s.arr[k] ==> s1.bufs[b] == s.bufs[b])
  }

  lemma BusyLocal(s: Page, s1: Page, k: nat)
    requires Touches(s, s1, k) && BusyIffWaiting(s)
    requires Busy(s1.bufs[s.arr[k]]) <==> Waiting(s1.pc[k])
    ensures BusyIffWaiting(s1)
  {
    NoDupPairs(s.arr);
    assert s.arr[k] in s.arr;
  }

  lemma BuffersLocal(s: Page, s1: Page, k: nat)
    requires Touches(s, s1, k) && BuffersRead(s) && NoDup(s.arr)
    requires forall j :: j != k ==> (j in s1.failed <==> j in s.failed)
    requires Started(s1.pc[k]) ==> HasRead(s1.bufs[s.arr[k]], s.disk[s.arr[k]], k !in s1.failed)
    ensures BuffersRead(s1)
  {
    NoDupPairs(s.arr);
  }

  /** Steps of a handler that is not yet through the locked section. */
  lemma WaitingLocal(s: Page, s1: Page, k: nat)
    requires Touches(s, s1, k) && OneClosing(s)
    requires !Closing(s.pc[k]) && !s.pc[k].Returned? && !Closing(s1.pc[k]) && !s1.pc[k].Returned?
    requires s1.unlocks == s.unlocks && s1.last == s.last && s1.locked == s.locked
    ensures OneClosing(s1) && !AllThrough(s.pc) && !AllThrough(s1.pc)
  {
  }

  lemma ReaderKeeps(s: Page, e: Event)
    requires Reads(s) && Enabled(s, e) && (e.LockNext? || e.SubmitNext?)
    ensures Reads(Step(s, e))
  {
    var s1, k := Step(s, e), s.reader.i;
    assert Touches(s, s1, k);
    BusyLocal(s, s1, k);
    BuffersLocal(s, s1, k);
    WaitingLocal(s, s1, k);
    QuietLocal(s, s1, k);
  }

  /** No read has come back in this step. */
  lemma QuietLocal(s: Page, s1: Page, k: nat)
    requires Touches(s, s1, k) && ErrorsKnown(s) && !AllThrough(s.pc) && !AllThrough(s1.pc)
    requires !Started(s.pc[k]) && !Started(s1.pc[k])
    requires s1.uptodate == s.uptodate && s1.stale == s.stale && s1.error == s.error && s1.failed == s.failed
    ensures ErrorsKnown(s1)
  {
  }

  lemma HandlerKeeps(s: Page, e: Event, k: nat)
    requires Reads(s) && Enabled(s, e) && ((e.Mark? && e.k == k) || e == Note(k))
    ensures Reads(Step(s, e))
  {
    var s1 := Step(s, e);
    assert Touches(s, s1, k);
    BusyLocal(s, s1, k);
    BuffersLocal(s, s1, k);
    WaitingLocal(s, s1, k);
    InOrderLocal(s, s1, k);
    ErrorsLocal(s, s1, k);
  }

  lemma ErrorsLocal(s: Page, s1: Page, k: nat)
    requires Touches(s, s1, k) && ErrorsKnown(s) && !AllThrough(s.pc) && !AllThrough(s1.pc)
    requires s1.uptodate == s.uptodate && s1.stale == s.stale
    requires || (s.pc[k] == Flying && s1.pc[k].Marked? && s1.error == s.error
                 && s1.failed == if s1.pc[k].ok then s.failed else s.failed + {k})
             || (s.pc[k].Marked? && s1.pc[k] == Noted && s1.failed == s.failed
                 && s1.error == (s.error || !s.pc[k].ok))
    ensures ErrorsKnown(s1)
  {
  }

  lemma InOrderLocal(s: Page, s1: Page, k: nat)
    requires Touches(s, s1, k) && InOrder(s) && s1.reader == s.reader
    requires !s.pc[k].Idle? && !s.pc[k].Ready? && !s1.pc[k].Idle? && !s1.pc[k].Ready?
    ensures InOrder(s1)
  {
  }

  lemma SectionKeeps(s: Page, k: nat)
    requires Reads(s) && Enabled(s, Section(k))
    ensures Reads(Step(s, Section(k)))
  {
    var s1 := Step(s, Section(k));
    assert Touches(s, s1, k);
    BusyLocal(s, s1, k);
    BuffersLocal(s, s1, k);
    InOrderLocal(s, s1, k);
    SeesOthers(s, k);
    assert s.pc[k] == Noted;
    if OtherBusy(s.bufs, s.arr[k]) {
      var j :| 0 <= j < |s.pc| && j != k && Waiting(s.pc[j]);
      SectionBusy(s, s1, k, j);
    } else {
      NobodyWaits(s, s1, k);
      SectionLast(s, s1, k);
    }
  }

  lemma SectionBusy(s: Page, s1: Page, k: nat, j: nat)
    requires Touches(s, s1, k) && OneClosing(s) && ErrorsKnown(s)
    requires s.pc[k] == Noted && s1.pc[k] == Returned && j < |s.pc| && j != k && Waiting(s.pc[j])
    requires s1.unlocks == s.unlocks && s1.last == s.last && s1.locked == s.locked
    requires s1.failed == s.failed && s1.error == s.error && s1.uptodate == s.uptodate && s1.stale == s.stale
    ensures OneClosing(s1) && ErrorsKnown(s1)
  {
    assert s1.pc[j] == s.pc[j];
    assert !AllThrough(s.pc) && !AllThrough(s1.pc);
  }

  lemma SectionLast(s: Page, s1: Page, k: nat)
    requires Touches(s, s1, k) && OneClosing(s) && ErrorsKnown(s)
    requires s.pc[k] == Noted && s1.pc[k] == Last && s1.last == k && AllThrough(s1.pc)
    requires s1.unlocks == s.unlocks && s1.locked == s.locked
    requires s1.failed == s.failed && s1.error == s.error && s1.uptodate == s.uptodate && s1.stale == s.stale
    ensures OneClosing(s1) && ErrorsKnown(s1)
  {
    assert !AllThrough(s.pc);
  }

  lemma NobodyWaits(s: Page, s1: Page, k: nat)
    requires Touches(s, s1, k) && InOrder(s) && s.pc[k] == Noted && s1.pc[k] == Last
    requires forall j :: 0 <= j < |s.pc| && j != k ==> !Waiting(s.pc[j])
    ensures AllThrough(s1.pc)
  {
    forall j | 0 <= j < |s.pc| && j != k ensures Closing(s1.pc[j]) || s1.pc[j].Returned? {
      assert s1.pc[j] == s.pc[j];
      assert s.reader.Submitting?;
    }
  }

  lemma ClosingKeeps(s: Page, e: Event, k: nat)
    requires Reads(s) && Enabled(s, e) && (e == Settle(k) || e == Unlock(k))
    ensures Reads(Step(s, e))
  {
    var s1 := Step(s, e);
    assert Touches(s, s1, k);
    assert AllThrough(s.pc) && s.last == k;
    assert AllThrough(s1.pc);
    BusyLocal(s, s1, k);
    BuffersLocal(s, s1, k);
    InOrderLocal(s, s1, k);
  }

  lemma StepKeeps(s: Page, e: Event)
    requires Inv(s) && Enabled(s, e)
    ensures Inv(Step(s, e))
  {
    match e
    case Skip =>
    case LockNext => ReaderKeeps(s, e);
    case SubmitNext => ReaderKeeps(s, e);
    case Mark(k, ok) => HandlerKeeps(s, e, k);
    case Note(k) => HandlerKeeps(s, e, k);
    case Section(k) => SectionKeeps(s, k);
    case Settle(k) => ClosingKeeps(s, e, k);
    case Unlock(k) => ClosingKeeps(s, e, k);
  }

  lemma {:induction false} RunKeeps(s: Page, es: seq<Event>)
    requires Inv(s) && IsRun(s, es)
    ensures Inv(After(s, es))
    decreases |es|
  {
    if es != [] {
      StepKeeps(s, es[0]);
      RunKeeps(Step(s, es[0]), es[1..]);
    }
  }

  // ---------------------------------------------------------------- the theorems

  /** Under any interleaving the page is unlocked at most once; while it is locked nobody
      has unlocked it, and when it is unlocked every handler has returned and every buffer read
      is up to date and shows what is on disk unless its own read failed. The page is then marked
      up to date exactly when there was nothing to read, or no read failed and PG_error was not
      set already. */
  lemma CompletesOnce(s: Page, es: seq<Event>)
    requires Start(s) && IsRun(s, es)
    ensures var t := After(s, es);
            && t.unlocks <= 1 && (t.locked <==> t.unlocks == 0)
            && (t.unlocks == 1 ==>
                  && |t.pc| == |t.arr| && (forall k :: 0 <= k < |t.pc| ==> t.pc[k] == Returned)
                  && t.uptodate == (s.arr == [] || (t.failed == {} && !s.error))
                  && forall k :: 0 <= k < |t.arr| ==>
                       && t.arr[k] < |t.bufs| == |s.disk|
                       && HasRead(t.bufs[t.arr[k]], s.disk[t.arr[k]], k !in t.failed))
            && (t.uptodate ==> t.failed == {})
  {
    StartInv(s);
    RunKeeps(s, es);
    SameBuffers(s, es);
    var t := After(s, es);
    if t.unlocks == 1 && t.arr != [] {
      forall k | 0 <= k < |t.pc| ensures t.pc[k] == Returned {
        assert Closing(t.pc[k]) ==> k == t.last;
      }
    }
  }

  /** The events `es` lead from `s` to `t`. */
  ghost predicate RunsTo(s: Page, es: seq<Event>, t: Page) { IsRun(s, es) && After(s, es) == t }

  lemma RunOne(s: Page, e: Event)
    requires Enabled(s, e)
    ensures RunsTo(s, [e], Step(s, e))
  {
    assert IsRun(Step(s, e), []);
  }

  lemma {:induction false} RunJoin(s: Page, es: seq<Event>, t: Page, fs: seq<Event>, u: Page)
    requires RunsTo(s, es, t) && RunsTo(t, fs, u)
    ensures RunsTo(s, es + fs, u)
    decreases |es|
  {
    if es == [] {
      assert es + fs == fs;
    } else {
      assert (es + fs)[1..] == es[1..] + fs;
      RunJoin(Step(s, es[0]), es[1..], t, fs, u);
    }
  }

  /** A page of one buffer, with PG_error set. */
  function StalePage(b: Buffer, r: Reader, p: Pc, unlocks: nat, last: int): Page {
    Page([b], [0], r, [p], unlocks == 0, true, false, unlocks, {}, last, true, [[7]])
  }

  lemma StaleStarts()
    ensures RunsTo(StalePage(Buffer(false, false, false, [0]), Locking(0), Idle, 0, -1), [LockNext] + [SubmitNext],
                   StalePage(Buffer(true, true, false, [0]), Submitting(1), Flying, 0, -1))
  {
    var s := StalePage(Buffer(false, false, false, [0]), Locking(0), Idle, 0, -1);
    var s1 := StalePage(Buffer(true, true, false, [0]), Submitting(0), Ready, 0, -1);
    RunOne(s, LockNext);
    RunOne(s1, SubmitNext);
    RunJoin(s, [LockNext], s1, [SubmitNext], Step(s1, SubmitNext));
  }

  lemma StaleReads()
    ensures RunsTo(StalePage(Buffer(true, true, false, [0]), Submitting(1), Flying, 0, -1), [Mark(0, true)] + [Note(0)],
                   StalePage(Buffer(true, true, true, [7]), Submitting(1), Noted, 0, -1))
  {
    var s2 := StalePage(Buffer(true, true, false, [0]), Submitting(1), Flying, 0, -1);
    var s3 := StalePage(Buffer(true, true, true, [7]), Submitting(1), Marked(true), 0, -1);
    RunOne(s2, Mark(0, true));
    RunOne(s3, Note(0));
    RunJoin(s2, [Mark(0, true)], s3, [Note(0)], Step(s3, Note(0)));
  }

  lemma StaleSection()
    ensures RunsTo(StalePage(Buffer(true, true, true, [7]), Submitting(1), Noted, 0, -1), [Section(0)],
                   StalePage(Buffer(false, false, true, [7]), Submitting(1), Last, 0, 0))
  {
    var s4 := StalePage(Buffer(true, true, true, [7]), Submitting(1), Noted, 0, -1);
    assert !OtherBusy(s4.bufs, 0);
    RunOne(s4, Section(0));
  }

  lemma StaleConcludes()
    ensures RunsTo(StalePage(Buffer(true, true, true, [7]), Submitting(1), Noted, 0, -1),
                   [Section(0)] + [Settle(0)] + [Unlock(0)],
                   StalePage(Buffer(false, false, true, [7]), Submitting(1), Returned, 1, 0))
  {
    var s4 := StalePage(Buffer(true, true, true, [7]), Submitting(1), Noted, 0, -1);
    var s5 := StalePage(Buffer(false, false, true, [7]), Submitting(1), Last, 0, 0);
    var s6 := StalePage(Buffer(false, false, true, [7]), Submitting(1), Settled, 0, 0);
    StaleSection();
    RunOne(s5, Settle(0));
    RunOne(s6, Unlock(0));
    RunJoin(s4, [Section(0)], s5, [Settle(0)], s6);
    RunJoin(s4, [Section(0)] + [Settle(0)], s6, [Unlock(0)], Step(s6, Unlock(0)));
  }

  /** PG_error left over from an earlier read that failed: every buffer is read without error,
      and the page is unlocked without being marked up to date. */
  lemma StaleErrorCounterexample()
    ensures var s := StalePage(Buffer(false, false, false, [0]), Locking(0), Idle, 0, -1);
            var es0 := ([LockNext] + [SubmitNext]) + ([Mark(0, true)] + [Note(0)]);
            var es := es0 + ([Section(0)] + [Settle(0)] + [Unlock(0)]);
            && Start(s) && IsRun(s, es)
            && var t := After(s, es);
            t.unlocks == 1 && t.failed == {} && t.bufs == [Buffer(false, false, true, [7])] && !t.uptodate
  {
    var s0 := StalePage(Buffer(false, false, false, [0]), Locking(0), Idle, 0, -1);
    var s2 := StalePage(Buffer(true, true, false, [0]), Submitting(1), Flying, 0, -1);
    var s4 := StalePage(Buffer(true, true, true, [7]), Submitting(1), Noted, 0, -1);
    StaleStarts();
    StaleReads();
    StaleConcludes();
    RunJoin(s0, [LockNext] + [SubmitNext], s2, [Mark(0, true)] + [Note(0)], s4);
    RunJoin(s0, ([LockNext] + [SubmitNext]) + ([Mark(0, true)] + [Note(0)]), s4,
            [Section(0)] + [Settle(0)] + [Unlock(0)],
            StalePage(Buffer(false, false, true, [7]), Submitting(1), Returned, 1, 0));
  }

  /** The reader waits in `lock_buffer`. */
  predicate WaitsForBuffer(t: Page)
    requires forall k :: 0 <= k < |t.arr| ==> t.arr[k] < |t.bufs|
  {
    t.reader.Locking? && t.reader.i < |t.arr| && t.bufs[t.arr[t.reader.i]].locked
  }

  /** It is unlocked for certain: as long as it is locked, some step is enabled, or else
      the reader waits for a buffer that somebody outside the protocol has locked. */
  lemma NeverStuck(s: Page, es: seq<Event>)
    requires Start(s) && IsRun(s, es)
    ensures var t := After(s, es);
            t.locked ==> || (exists e :: Enabled(t, e))
                         || (WellTyped(t) && WaitsForBuffer(t))
  {
    StartInv(s);
    RunKeeps(s, es);
    var t := After(s, es);
    if t.locked {
      if t.arr == [] { assert Enabled(t, Skip); } else { SomeStep(t); }
    }
  }

  lemma SomeStep(t: Page)
    requires Reads(t) && t.locked
    ensures (exists e :: Enabled(t, e)) || WaitsForBuffer(t)
  {
    if t.reader.Locking? {
      assert Enabled(t, LockNext) || t.bufs[t.arr[t.reader.i]].locked;
    } else if t.reader.i < |t.arr| {
      assert Enabled(t, SubmitNext);
    } else if AllThrough(t.pc) {
      assert Enabled(t, Settle(t.last)) || Enabled(t, Unlock(t.last));
    } else {
      var k :| 0 <= k < |t.pc| && !(Closing(t.pc[k]) || t.pc[k].Returned?);
      assert Enabled(t, Mark(k, true)) || Enabled(t, Note(k)) || Enabled(t, Section(k));
    }
  }

  /** Every step brings the read closer to its end, so runs are finite. */
  function Remaining(p: Pc): nat {
    match p
    case Idle => 7 case Ready => 6 case Flying => 5 case Marked(_) => 4
    case Noted => 3 case Last => 2 case Settled => 1 case Returned => 0
  }

  function Work(pc: seq<Pc>): nat {
    if pc == [] then 0 else Remaining(pc[0]) + Work(pc[1..])
  }

  lemma {:induction false} WorkUpdate(pc: seq<Pc>, k: nat, p: Pc)
    requires k < |pc|
    ensures Work(pc[k := p]) == Work(pc) - Remaining(pc[k]) + Remaining(p)
  {
    if k == 0 {
      assert pc[0 := p][1..] == pc[1..];
    } else {
      assert pc[k := p][1..] == pc[1..][k - 1 := p];
      WorkUpdate(pc[1..], k - 1, p);
    }
  }

  /** What is left to do, with the one step of a reader that has nothing to read. */
  function ToDo(s: Page): nat { Work(s.pc) + if s.arr == [] && s.reader.Locking? then 1 else 0 }

  lemma StepsAreFew(s: Page, e: Event)
    requires WellTyped(s) && (s.arr != [] ==> InOrder(s)) && Enabled(s, e)
    ensures ToDo(Step(s, e)) < ToDo(s)
  {
    if e != Skip {
      var k, t := if e.LockNext? || e.SubmitNext? then s.reader.i else e.k, Step(s, e);
      assert t.pc == s.pc[k := t.pc[k]] && Remaining(t.pc[k]) < Remaining(s.pc[k]) by {
        assert e.LockNext? ==> s.pc[k] == Idle;
        assert e.SubmitNext? ==> s.pc[k] == Ready;
      }
      WorkUpdate(s.pc, k, t.pc[k]);
    }
  }

  lemma {:induction false} RunIsShort(s: Page, es: seq<Event>)
    requires Inv(s) && IsRun(s, es)
    ensures |es| <= ToDo(s)
    decreases |es|
  {
    if es != [] {
      StepKeeps(s, es[0]);
      StepsAreFew(s, es[0]);
      RunIsShort(Step(s, es[0]), es[1..]);
    }
  }

  lemma {:induction false} WorkBound(pc: seq<Pc>)
    ensures Work(pc) <= 7 * |pc|
  {
    if pc != [] { WorkBound(pc[1..]); }
  }

  /** No run is longer than seven steps per buffer, or one step when there is none. */
  lemma RunsAreFinite(s: Page, es: seq<Event>)
    requires Start(s) && IsRun(s, es)
    ensures |es| <= 7 * |s.arr| + if s.arr == [] then 1 else 0
  {
    StartInv(s);
    RunIsShort(s, es);
    WorkBound(s.pc);
  }

  // ---------------------------------------------------------------- submitting early

  /** A reader that submits every buffer as soon as it has locked it. The handlers are the same. */
  ghost function EagerStep(s: Page, e: Event): Page
    requires Enabled(s, e)
  {
    match e
    case LockNext => Step(s, e).(reader := Submitting(s.reader.i))
    case SubmitNext => Step(s, e).(reader := Locking(s.reader.i + 1))
    case _ => Step(s, e)
  }

  ghost predicate IsEagerRun(s: Page, es: seq<Event>)
    decreases |es|
  {
    es == [] || (Enabled(s, es[0]) && IsEagerRun(EagerStep(s, es[0]), es[1..]))
  }

  ghost function AfterEager(s: Page, es: seq<Event>): Page
    requires IsEagerRun(s, es)
    decreases |es|
  {
    if es == [] then s else AfterEager(EagerStep(s, es[0]), es[1..])
  }

  /** The events `es` lead from `s` to `t`, whatever comes after. */
  ghost predicate EagerlyTo(s: Page, es: seq<Event>, t: Page) { IsEagerRun(s, es) && AfterEager(s, es) == t }

  lemma EagerOne(s: Page, e: Event)
    requires Enabled(s, e)
    ensures EagerlyTo(s, [e], EagerStep(s, e))
  {
    assert IsEagerRun(EagerStep(s, e), []);
  }

  lemma {:induction false} EagerJoin(s: Page, es: seq<Event>, t: Page, fs: seq<Event>, u: Page)
    requires EagerlyTo(s, es, t) && EagerlyTo(t, fs, u)
    ensures EagerlyTo(s, es + fs, u)
    decreases |es|
  {
    if es == [] {
      assert es + fs == fs;
    } else {
      assert (es + fs)[1..] == es[1..] + fs;
      EagerJoin(EagerStep(s, es[0]), es[1..], t, fs, u);
    }
  }

  ghost predicate NobodyBusy(s: Page) { forall b :: 0 <= b < |s.bufs| ==> !s.bufs[b].async }

  /** Nobody is reading, and the reader has come to buffer `k`. */
  ghost predicate Next(s: Page, k: nat) {
    && WellTyped(s) && k < |s.arr| && s.reader == Locking(k) && s.pc[k] == Idle && NobodyBusy(s)
    && !s.bufs[s.arr[k]].locked && !s.error
  }

  /** Buffer `k` has been locked, submitted and read, and its handler is about to look round. */
  function Arrived(s: Page, k: nat): Page
    requires k < |s.arr| && k < |s.pc| && s.arr[k] < |s.bufs| == |s.disk|
  {
    s.(bufs := s.bufs[s.arr[k] := Buffer(true, true, true, s.disk[s.arr[k]])], pc := s.pc[k := Noted],
       reader := Locking(k + 1))
  }

  function ArrivalOf(k: nat): seq<Event> { [LockNext] + [SubmitNext] + [Mark(k, true)] + [Note(k)] }

  lemma EagerArrives(s: Page, k: nat)
    requires Next(s, k)
    ensures EagerlyTo(s, ArrivalOf(k), Arrived(s, k))
  {
    var s1 := EagerStep(s, LockNext);
    var s2 := EagerStep(s1, SubmitNext);
    var s3 := EagerStep(s2, Mark(k, true));
    var s4 := EagerStep(s3, Note(k));
    EagerOne(s, LockNext);
    EagerOne(s1, SubmitNext);
    EagerOne(s2, Mark(k, true));
    EagerOne(s3, Note(k));
    EagerJoin(s, [LockNext], s1, [SubmitNext], s2);
    EagerJoin(s, [LockNext] + [SubmitNext], s2, [Mark(k, true)], s3);
    EagerJoin(s, [LockNext] + [SubmitNext] + [Mark(k, true)], s3, [Note(k)], s4);
    assert s4.bufs == Arrived(s, k).bufs && s4.pc == Arrived(s, k).pc;
  }

  /** Its handler has taken itself for the last one. */
  function Concluded(s: Page, k: nat): Page
    requires k < |s.arr| && k < |s.pc| && s.arr[k] < |s.bufs| == |s.disk|
  {
    s.(bufs := s.bufs[s.arr[k] := Buffer(false, false, true, s.disk[s.arr[k]])], pc := s.pc[k := Returned],
       reader := Locking(k + 1), uptodate := true, locked := false, unlocks := s.unlocks + 1, last := k)
  }

  function EndOf(k: nat): seq<Event> { [Section(k)] + [Settle(k)] + [Unlock(k)] }

  lemma EagerConcludes(s: Page, k: nat)
    requires Next(s, k)
    ensures EagerlyTo(Arrived(s, k), EndOf(k), Concluded(s, k)) && NobodyBusy(Concluded(s, k))
  {
    var s4 := Arrived(s, k);
    assert !OtherBusy(s4.bufs, s4.arr[k]);
    var s5 := EagerStep(s4, Section(k));
    var s6 := EagerStep(s5, Settle(k));
    var s7 := EagerStep(s6, Unlock(k));
    EagerOne(s4, Section(k));
    EagerOne(s5, Settle(k));
    EagerOne(s6, Unlock(k));
    EagerJoin(s4, [Section(k)], s5, [Settle(k)], s6);
    EagerJoin(s4, [Section(k)] + [Settle(k)], s6, [Unlock(k)], s7);
    assert s7.bufs == Concluded(s, k).bufs && s7.pc == Concluded(s, k).pc;
  }

  /** The reader and the handler of buffer `k`, one after the other. */
  function OneByOne(k: nat): seq<Event> { ArrivalOf(k) + EndOf(k) }

  /** If a buffer comes back before the next one is locked, its handler takes itself for the
      last one. */
  lemma EagerRound(s: Page, k: nat)
    requires Next(s, k)
    ensures EagerlyTo(s, OneByOne(k), Concluded(s, k)) && NobodyBusy(Concluded(s, k))
  {
    EagerArrives(s, k);
    EagerConcludes(s, k);
    EagerJoin(s, ArrivalOf(k), Arrived(s, k), EndOf(k), Concluded(s, k));
  }

  /** Locking all buffers before the first submission is needed: with a reader that submits
      early, on any page with two buffers to read, there is a run that unlocks the page as up to
      date while the second buffer has not been touched, and one that unlocks it twice. */
  lemma LockingFirstIsNeeded(s: Page)
    requires Start(s) && |s.arr| >= 2 && !s.error && !s.bufs[s.arr[0]].locked && !s.bufs[s.arr[1]].locked
    ensures var es := OneByOne(0);
            IsEagerRun(s, es)
            && var t := AfterEager(s, es);
            t.unlocks == 1 && t.uptodate && t.pc[1] == Idle && t.bufs[s.arr[1]] == s.bufs[s.arr[1]]
    ensures var es := OneByOne(0) + OneByOne(1); IsEagerRun(s, es) && AfterEager(s, es).unlocks == 2
  {
    EagerRound(s, 0);
    var t := Concluded(s, 0);
    NoDupApart(s.arr, 0, 1);
    EagerRound(t, 1);
    EagerJoin(s, OneByOne(0), t, OneByOne(1), Concluded(t, 1));
  }

  // ---------------------------------------------------------------- what does not change

  lemma {:induction false} OthersUntouched(s: Page, es: seq<Event>, b: nat)
    requires IsRun(s, es) && b < |s.bufs| && b !in s.arr
    ensures After(s, es).arr == s.arr && |After(s, es).bufs| == |s.bufs| && After(s, es).bufs[b] == s.bufs[b]
    decreases |es|
  {
    if es != [] {
      assert forall k :: 0 <= k < |s.arr| ==> s.arr[k] in s.arr;
      OthersUntouched(Step(s, es[0]), es[1..], b);
    }
  }

  lemma {:induction false} SameBuffers(s: Page, es: seq<Event>)
    requires IsRun(s, es)
    ensures After(s, es).arr == s.arr && |After(s, es).bufs| == |s.bufs| && After(s, es).stale == s.stale
    ensures After(s, es).disk == s.disk
    decreases |es|
  {
    if es != [] {
      SameBuffers(Step(s, es[0]), es[1..]);
    }
  }

  /** The scan of the handler around the ring `b_this_page`. */
  method ScanRing(bufs: seq<Buffer>, b: nat) returns (busy: bool)
    requires b < |bufs|
    ensures busy <==> OtherBusy(bufs, b)
  {
    var n := |bufs|;
    var d := 1;
    while d < n
      invariant 1 <= d <= n
      invariant forall i :: 0 < i < d ==> !Busy(bufs[Around(b, i, n)])
    {
      if Busy(bufs[Around(b, d, n)]) {
        return true;
      }
      d := d + 1;
    }
    forall j | 0 <= j < n && j != b ensures !Busy(bufs[j]) {
      assert Around(b, if j > b then j - b else j - b + n, n) == j;
    }
    return false;
  }

  /** The buffer `d` links further on in a ring of `n`. */
  function Around(b: nat, d: nat, n: nat): (r: nat)
    requires b < n && 0 < d < n
    ensures r < n && r != b
  {
    if b + d < n then b + d else b + d - n
  }
}
