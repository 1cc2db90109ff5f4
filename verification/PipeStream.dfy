/** Pipes (fs/pipe.c:40-247): any number of readers and writers that sleep in `pipe_wait`,
    against a stream of bytes with unbounded history.

    A section is what a call does between taking the pipe's semaphore and giving it up, so the
    steps here are atomic; `signal` is what `signal_pending` says. */
module PipeStream {
  import opened Common

  type byte = x | 0 <= x < 256

  /** What the inode says about the pipe. `size` is PIPE_SIZE and `atomic` is PIPE_BUF. */
  datatype Pipe = Pipe(size: nat, atomic: nat, contents: seq<byte>, readers: nat, writers: nat,
                       waitingReaders: int, waitingWriters: int)
  {
    predicate Valid() { 0 < size && atomic <= size && |contents| <= size }

    function Free(): int { size - |contents| }
  }

  datatype Outcome = Running | Count(n: nat) | RestartSys | Again | BrokenPipe

  datatype ReadPhase = ReadStart | WaitData | ReadDone

  datatype Reader = Reader(want: nat, nonblock: bool, got: seq<byte>, phase: ReadPhase, outcome: Outcome)

  datatype WritePhase = WriteStart | WaitRoom | WaitMore | WriteDone

  datatype Writer = Writer(data: seq<byte>, nonblock: bool, written: nat, phase: WritePhase, outcome: Outcome)

  // ---------------------------------------------------------------- pipe_read

  /** Bytes already copied win over any other result. */
  function EndRead(r: Reader, o: Outcome): Reader {
    r.(phase := ReadDone, outcome := if r.got != [] then Count(|r.got|) else o)
  }

  /** `do_more_read`, on an empty pipe. */
  function AwaitData(p: Pipe, r: Reader): (Pipe, Reader) {
    if p.writers == 0 then (p, EndRead(r, Count(0)))
    else if r.nonblock then (p, EndRead(r, Again))
    else (p.(waitingReaders := p.waitingReaders + 1), r.(phase := WaitData))
  }

  /** Takes what is there; goes on waiting only if writers are stuck behind a full pipe. */
  function CopyOut(p: Pipe, r: Reader): (Pipe, Reader)
    requires |r.got| <= r.want
  {
    var n := Min(r.want - |r.got|, |p.contents|);
    var p1 := p.(contents := p.contents[n..]);
    var r1 := r.(got := r.got + p.contents[..n]);
    if |r1.got| < r.want && p.waitingWriters > 0 && !r.nonblock then AwaitData(p1, r1)
    else (p1, EndRead(r1, Count(0)))
  }

  function ReadSection(p: Pipe, r: Reader, signal: bool): (Pipe, Reader)
    requires |r.got| <= r.want
  {
    match r.phase
    case ReadStart =>
      if r.want == 0 then (p, EndRead(r, Count(0)))
      else if signal then (p, EndRead(r, RestartSys))
      else if p.contents == [] then AwaitData(p, r)
      else CopyOut(p, r)
    case WaitData =>
      var p1 := p.(waitingReaders := p.waitingReaders - 1);
      if signal then (p1, EndRead(r, RestartSys))
      else if p.contents != [] then CopyOut(p1, r)
      else if p.writers == 0 then (p1, EndRead(r, Count(0)))
      else (p, r)
    case ReadDone => (p, r)
  }

  // ---------------------------------------------------------------- pipe_write

  function EndWrite(w: Writer, o: Outcome): Writer {
    w.(phase := WriteDone, outcome := if w.written != 0 then Count(w.written) else o)
  }

  /** A write of at most PIPE_BUF bytes has to go in at once. */
  function Needed(p: Pipe, w: Writer): nat { if |w.data| <= p.atomic then |w.data| else 1 }

  function Sleep(p: Pipe): Pipe { p.(waitingWriters := p.waitingWriters + 1) }

  function Awake(p: Pipe): Pipe { p.(waitingWriters := p.waitingWriters - 1) }

  /** Fills the pipe; then waits for more room if something is left. */
  function CopyIn(p: Pipe, w: Writer): (Pipe, Writer)
    requires p.Valid() && w.written <= |w.data|
  {
    var n := Min(|w.data| - w.written, p.Free());
    var p1 := p.(contents := p.contents + w.data[w.written..w.written + n]);
    var w1 := w.(written := w.written + n);
    if w1.written == |w.data| || w.nonblock then (p1, EndWrite(w1, Count(0)))
    else (Sleep(p1), w1.(phase := WaitMore))
  }

  function WriteSection(p: Pipe, w: Writer, signal: bool): (Pipe, Writer)
    requires p.Valid() && w.written <= |w.data|
  {
    match w.phase
    case WriteStart =>
      if w.data == [] then (p, EndWrite(w, Count(0)))
      else if signal then (p, EndWrite(w, RestartSys))
      else if p.readers == 0 then (p, EndWrite(w, BrokenPipe))
      else if p.Free() >= Needed(p, w) then CopyIn(p, w)
      else if w.nonblock then (p, EndWrite(w, Again))
      else (Sleep(p), w.(phase := WaitRoom))
    case WaitRoom =>
      if signal then (Awake(p), EndWrite(w, RestartSys))
      else if p.readers == 0 then (Awake(p), EndWrite(w, BrokenPipe))
      else if p.Free() >= Needed(p, w) then CopyIn(Awake(p), w)
      else (p, w)
    case WaitMore =>
      if signal then (Awake(p), EndWrite(w, Count(0)))
      else if p.readers == 0 then (Awake(p), EndWrite(w, BrokenPipe))
      else if p.Free() > 0 then CopyIn(Awake(p), w)
      else (p, w)
    case WriteDone => (p, w)
  }

  // ---------------------------------------------------------------- the system

  /** `accepted` and `delivered` record every byte that ever went in and out, each with the
      number of the call that wrote or read it. */
  type Log = seq<(nat, byte)>

  datatype Sys = Sys(pipe: Pipe, readers: seq<Reader>, writers: seq<Writer>, accepted: Log, delivered: Log)

  datatype Event =
    | StartRead(want: nat, nonblock: bool)
    | StartWrite(data: seq<byte>, nonblock: bool)
    | DoRead(j: nat, signal: bool)
    | DoWrite(i: nat, signal: bool)
    | Open(moreReaders: nat, moreWriters: nat)
    | Close(fewerReaders: nat, fewerWriters: nat)

  function Tagged(i: nat, bs: seq<byte>): (l: Log)
    ensures |l| == |bs| && forall k :: 0 <= k < |bs| ==> l[k] == (i, bs[k])
  {
    seq(|bs|, k requires 0 <= k < |bs| => (i, bs[k]))
  }

  ghost predicate Enabled(s: Sys, e: Event) {
    match e
    case DoRead(j, _) => j < |s.readers| && |s.readers[j].got| <= s.readers[j].want
    case DoWrite(i, _) => i < |s.writers| && s.writers[i].written <= |s.writers[i].data| && s.pipe.Valid()
    case Close(r, w) => r <= s.pipe.readers && w <= s.pipe.writers
    case _ => true
  }

  function Step(s: Sys, e: Event): Sys
    requires Enabled(s, e)
  {
    match e
    case StartRead(want, nonblock) => s.(readers := s.readers + [Reader(want, nonblock, [], ReadStart, Running)])
    case StartWrite(data, nonblock) => s.(writers := s.writers + [Writer(data, nonblock, 0, WriteStart, Running)])
    case DoRead(j, signal) =>
      var r := s.readers[j];
      var (p, r1) := ReadSection(s.pipe, r, signal);
      ReadGets(s.pipe, r, signal);
      s.(pipe := p, readers := s.readers[j := r1], delivered := s.delivered + Tagged(j, r1.got[|r.got|..]))
    case DoWrite(i, signal) =>
      var w := s.writers[i];
      var (p, w1) := WriteSection(s.pipe, w, signal);
      WritePuts(s.pipe, w, signal);
      s.(pipe := p, writers := s.writers[i := w1], accepted := s.accepted + Tagged(i, w.data[w.written..w1.written]))
    case Open(r, w) => s.(pipe := s.pipe.(readers := s.pipe.readers + r, writers := s.pipe.writers + w))
    case Close(r, w) => s.(pipe := s.pipe.(readers := s.pipe.readers - r, writers := s.pipe.writers - w))
  }

  // ---------------------------------------------------------------- one section

  /** Bytes move from the front of the pipe to the end of what was read, nothing else. */
  predicate Gets(p: Pipe, r: Reader, p1: Pipe, r1: Reader) {
    && |r.got| <= |r1.got| <= r.want && r1.want == r.want
    && r1.got[..|r.got|] == r.got && p.contents == r1.got[|r.got|..] + p1.contents
    && p1 == p.(contents := p1.contents, waitingReaders := p1.waitingReaders)
  }

  lemma CopyOutGets(p: Pipe, r: Reader)
    requires |r.got| <= r.want
    ensures Gets(p, r, CopyOut(p, r).0, CopyOut(p, r).1)
  {
    var n := Min(r.want - |r.got|, |p.contents|);
    assert (r.got + p.contents[..n])[|r.got|..] == p.contents[..n];
    assert p.contents == p.contents[..n] + p.contents[n..];
  }

  lemma Unmoved(p: Pipe, r: Reader, p1: Pipe, r1: Reader)
    requires |r.got| <= r.want && r1.got == r.got && r1.want == r.want && p1 == p.(waitingReaders := p1.waitingReaders)
    ensures Gets(p, r, p1, r1)
  {
    assert r.got[|r.got|..] + p.contents == p.contents;
  }

  lemma ReadGets(p: Pipe, r: Reader, signal: bool)
    requires |r.got| <= r.want
    ensures Gets(p, r, ReadSection(p, r, signal).0, ReadSection(p, r, signal).1)
  {
    var (q, r1) := ReadSection(p, r, signal);
    if r1.got == r.got && q == p.(waitingReaders := q.waitingReaders) {
      Unmoved(p, r, q, r1);
    } else {
      CopyOutGets(if r.phase.WaitData? then p.(waitingReaders := p.waitingReaders - 1) else p, r);
    }
  }

  /** Bytes move from the unwritten data to the end of the pipe, nothing else. */
  predicate Puts(p: Pipe, w: Writer, p1: Pipe, w1: Writer) {
    && w.written <= w1.written <= |w.data| && w1.data == w.data
    && p1.contents == p.contents + w.data[w.written..w1.written]
    && p1 == p.(contents := p1.contents, waitingWriters := p1.waitingWriters) && p1.Valid()
  }

  lemma CopyInPuts(p: Pipe, w: Writer)
    requires p.Valid() && w.written <= |w.data|
    ensures Puts(p, w, CopyIn(p, w).0, CopyIn(p, w).1)
  {
  }

  lemma WritePuts(p: Pipe, w: Writer, signal: bool)
    requires p.Valid() && w.written <= |w.data|
    ensures Puts(p, w, WriteSection(p, w, signal).0, WriteSection(p, w, signal).1)
  {
    CopyInPuts(p, w);
    CopyInPuts(Awake(p), w);
    assert p.contents + w.data[w.written..w.written] == p.contents;
  }

  // ---------------------------------------------------------------- logs

  function Bytes(l: Log): (bs: seq<byte>)
    ensures |bs| == |l| && forall k :: 0 <= k < |l| ==> bs[k] == l[k].1
  {
    seq(|l|, k requires 0 <= k < |l| => l[k].1)
  }

  /** The bytes of call `i`, in the order of the log. */
  function Of(l: Log, i: nat): seq<byte> {
    if l == [] then [] else Of(l[..|l| - 1], i) + if l[|l| - 1].0 == i then [l[|l| - 1].1] else []
  }

  lemma OfSnoc(l: Log, t: (nat, byte), j: nat)
    ensures Of(l + [t], j) == Of(l, j) + if t.0 == j then [t.1] else []
  {
    assert (l + [t])[..|l|] == l;
  }

  lemma TaggedSnoc(l: Log, i: nat, bs: seq<byte>)
    requires bs != []
    ensures var m := |bs| - 1; l + Tagged(i, bs) == l + Tagged(i, bs[..m]) + [(i, bs[m])]
  {
  }

  lemma {:induction false} OfAppend(l: Log, i: nat, bs: seq<byte>, j: nat)
    ensures Of(l + Tagged(i, bs), j) == if i == j then Of(l, j) + bs else Of(l, j)
  {
    if bs == [] {
      assert l + Tagged(i, bs) == l;
    } else {
      var m := |bs| - 1;
      TaggedSnoc(l, i, bs);
      OfSnoc(l + Tagged(i, bs[..m]), (i, bs[m]), j);
      OfAppend(l, i, bs[..m], j);
      if i == j {
        assert bs == bs[..m] + [bs[m]];
        Associate(Of(l, j), bs[..m], [bs[m]]);
      }
    }
  }

  lemma {:induction false} OfNobody(l: Log, i: nat)
    requires forall k :: 0 <= k < |l| ==> l[k].0 < i
    ensures Of(l, i) == []
  {
    if l != [] {
      OfNobody(l[..|l| - 1], i);
    }
  }

  /** The whole of `data` stands in one piece in the log. */
  ghost predicate Whole(l: Log, i: nat, data: seq<byte>) {
    exists k :: 0 <= k <= |l| - |data| && IsAt(l, k, i, data)
  }

  predicate IsAt(l: Log, k: nat, i: nat, data: seq<byte>) {
    k + |data| <= |l| && l[k..k + |data|] == Tagged(i, data)
  }

  lemma WholeAppend(l: Log, m: Log, i: nat, data: seq<byte>)
    requires Whole(l, i, data)
    ensures Whole(l + m, i, data)
  {
    var k :| 0 <= k <= |l| - |data| && IsAt(l, k, i, data);
    assert (l + m)[k..k + |data|] == l[k..k + |data|];
    assert IsAt(l + m, k, i, data);
  }

  lemma WholeNew(l: Log, i: nat, data: seq<byte>)
    ensures Whole(l + Tagged(i, data), i, data)
  {
    var m := l + Tagged(i, data);
    assert m[|l|..|l| + |data|] == Tagged(i, data);
    assert IsAt(m, |l|, i, data);
  }

  // ---------------------------------------------------------------- the invariant

  /** How far a write can be in each phase. */
  predicate WriterOk(atomic: nat, w: Writer) {
    && w.written <= |w.data|
    && (w.phase.WriteStart? || w.phase.WaitRoom? ==> w.written == 0)
    && (w.phase.WaitRoom? || w.phase.WaitMore? ==> !w.nonblock && w.data != [])
    && (w.phase.WaitMore? ==> 0 < w.written < |w.data| && |w.data| > atomic)
    && (w.phase.WriteDone? ==>
          w.outcome == Count(w.written) || (w.written == 0 && !w.outcome.Running? && !w.outcome.Count?))
    && (w.outcome == Count(0) ==> w.data == [])
    && (!w.phase.WriteDone? ==> w.outcome.Running?)
    && (|w.data| <= atomic ==> w.written == 0 || w.written == |w.data|)
  }

  predicate ReaderOk(r: Reader) {
    && |r.got| <= r.want
    && (r.phase.ReadStart? ==> r.got == [])
    && (r.phase.WaitData? ==> !r.nonblock && |r.got| < r.want)
    && (r.phase.ReadDone? ==>
          r.outcome == Count(|r.got|) || (r.got == [] && !r.outcome.Running? && !r.outcome.Count?))
    && (!r.phase.ReadDone? ==> r.outcome.Running?)
  }

  function WaitingW(ws: seq<Writer>): nat {
    if ws == [] then 0 else WaitingW(ws[1..]) + if IsWaiting(ws[0]) then 1 else 0
  }

  predicate IsWaiting(w: Writer) { w.phase.WaitRoom? || w.phase.WaitMore? }

  function WaitingR(rs: seq<Reader>): nat {
    if rs == [] then 0 else WaitingR(rs[1..]) + if rs[0].phase.WaitData? then 1 else 0
  }

  /** What went out, followed by what is in the pipe, is what came in. */
  ghost predicate Stream(s: Sys) {
    s.pipe.Valid() && Bytes(s.delivered) + s.pipe.contents == Bytes(s.accepted)
  }

  /** What the stream owes to writer `i`. */
  ghost predicate WroteOk(atomic: nat, l: Log, i: nat, w: Writer) {
    && WriterOk(atomic, w) && Of(l, i) == w.data[..w.written]
    && (|w.data| <= atomic && w.written > 0 ==> Whole(l, i, w.data))
  }

  ghost predicate WritersInv(s: Sys) {
    && (forall i :: 0 <= i < |s.writers| ==> WroteOk(s.pipe.atomic, s.accepted, i, s.writers[i]))
    && (forall k :: 0 <= k < |s.accepted| ==> s.accepted[k].0 < |s.writers|)
  }

  ghost predicate ReadersInv(s: Sys) {
    && (forall j :: 0 <= j < |s.readers| ==> ReaderOk(s.readers[j]) && Of(s.delivered, j) == s.readers[j].got)
    && (forall k :: 0 <= k < |s.delivered| ==> s.delivered[k].0 < |s.readers|)
  }

  ghost predicate Counters(s: Sys) {
    s.pipe.waitingWriters == WaitingW(s.writers) && s.pipe.waitingReaders == WaitingR(s.readers)
  }

  ghost predicate Inv(s: Sys) { Stream(s) && WritersInv(s) && ReadersInv(s) && Counters(s) }

  // ---------------------------------------------------------------- one step

  lemma CopyInOk(p: Pipe, w: Writer)
    requires p.Valid() && WriterOk(p.atomic, w) && !w.phase.WriteDone? && w.data != []
    requires if w.phase.WaitMore? then p.Free() > 0 else p.Free() >= Needed(p, w)
    ensures WriterOk(p.atomic, CopyIn(p, w).1)
    ensures |w.data| <= p.atomic ==> CopyIn(p, w).1.written == |w.data|
    ensures CopyIn(p, w).0.waitingWriters == p.waitingWriters + if IsWaiting(CopyIn(p, w).1) then 1 else 0
  {
  }

  lemma WriteOk(p: Pipe, w: Writer, signal: bool)
    requires p.Valid() && WriterOk(p.atomic, w)
    ensures var (p1, w1) := WriteSection(p, w, signal);
            && WriterOk(p.atomic, w1)
            && p1.waitingWriters - p.waitingWriters ==
                 (if IsWaiting(w1) then 1 else 0) - (if IsWaiting(w) then 1 else 0)
            && (|w.data| <= p.atomic && w1.written > w.written ==> w.written == 0 && w1.written == |w.data|)
  {
    match w.phase
    case WriteStart =>
      if w.data != [] && p.Free() >= Needed(p, w) { CopyInOk(p, w); }
    case WaitRoom =>
      if w.data != [] && p.Free() >= Needed(p, w) { CopyInOk(Awake(p), w); }
    case WaitMore =>
      if p.Free() > 0 { CopyInOk(Awake(p), w); }
    case WriteDone =>
  }

  lemma ReadOk(p: Pipe, r: Reader, signal: bool)
    requires ReaderOk(r)
    ensures var (p1, r1) := ReadSection(p, r, signal);
            && ReaderOk(r1)
            && p1.waitingReaders - p.waitingReaders ==
               (if r1.phase.WaitData? then 1 else 0) - (if r.phase.WaitData? then 1 else 0)
  {
  }

  /** A read, section by section. Unless a signal stops it, it takes as much as it wants of what
      is there. It waits exactly when it blocks, wants more, somebody may still write, and there
      was nothing or writers are stuck behind a full pipe. Otherwise it ends: with the bytes it
      has got; or, without any, interrupted by a signal, at the end of the stream if nobody can
      write, else with EAGAIN. */
  lemma ReadOutcomes(p: Pipe, r: Reader, signal: bool)
    requires ReaderOk(r) && !r.phase.ReadDone?
    ensures var (p1, r1) := ReadSection(p, r, signal);
            var end := if r1.got != [] || r.want == 0 then Count(|r1.got|)
                       else if signal then RestartSys
                       else if p.writers == 0 then Count(0) else Again;
            && |r1.got| == |r.got| + (if signal then 0 else Min(r.want - |r.got|, |p.contents|))
            && (r1.phase.WaitData? <==> && !signal && !r.nonblock && |r1.got| < r.want && p.writers > 0
                                        && (p.contents == [] || p.waitingWriters > 0))
            && (r1.phase.ReadDone? <==> !r1.phase.WaitData?)
            && (r1.phase.ReadDone? ==> r1.outcome == end)
  {
  }

  /** A write, section by section. It copies as much as there is room for exactly when no signal
      is pending, somebody can read and the room is enough: for all of it if it is to be in one
      piece and has not begun, for one byte otherwise. It waits exactly when it blocks and has
      something left. Otherwise it ends: with the bytes it has written; or, without any,
      interrupted by a signal, with EPIPE if nobody can read, else with EAGAIN. */
  lemma WriteOutcomes(p: Pipe, w: Writer, signal: bool)
    requires p.Valid() && WriterOk(p.atomic, w) && !w.phase.WriteDone?
    ensures var (p1, w1) := WriteSection(p, w, signal);
            var room := if |w.data| <= p.atomic && w.written == 0 then |w.data| else 1;
            var end := if w1.written > 0 || w.data == [] then Count(w1.written)
                       else if signal then RestartSys
                       else if p.readers == 0 then BrokenPipe else Again;
            var copies := !signal && p.readers > 0 && p.Free() >= room;
            && w1.written == w.written + (if copies then Min(|w.data| - w.written, p.Free()) else 0)
            && (IsWaiting(w1) <==> !signal && p.readers > 0 && !w.nonblock && w1.written < |w.data|)
            && (w1.phase.WriteDone? <==> !IsWaiting(w1))
            && (w1.phase.WriteDone? ==> w1.outcome == end)
  {
  }

  lemma {:induction false} WaitingWUpdate(ws: seq<Writer>, i: nat, w: Writer)
    requires i < |ws|
    ensures WaitingW(ws[i := w]) == WaitingW(ws) - (if IsWaiting(ws[i]) then 1 else 0) + (if IsWaiting(w) then 1 else 0)
  {
    if i == 0 {
      assert ws[0 := w][1..] == ws[1..];
    } else {
      assert ws[i := w][1..] == ws[1..][i - 1 := w];
      WaitingWUpdate(ws[1..], i - 1, w);
    }
  }

  lemma {:induction false} WaitingRUpdate(rs: seq<Reader>, i: nat, r: Reader)
    requires i < |rs|
    ensures WaitingR(rs[i := r]) ==
      WaitingR(rs) - (if rs[i].phase.WaitData? then 1 else 0) + (if r.phase.WaitData? then 1 else 0)
  {
    if i == 0 {
      assert rs[0 := r][1..] == rs[1..];
    } else {
      assert rs[i := r][1..] == rs[1..][i - 1 := r];
      WaitingRUpdate(rs[1..], i - 1, r);
    }
  }

  lemma {:induction false} WaitingAppend(rs: seq<Reader>, r: Reader, ws: seq<Writer>, w: Writer)
    requires r.phase.ReadStart? && w.phase.WriteStart?
    ensures WaitingR(rs + [r]) == WaitingR(rs) && WaitingW(ws + [w]) == WaitingW(ws)
    decreases |rs| + |ws|
  {
    if rs != [] {
      assert (rs + [r])[1..] == rs[1..] + [r];
      WaitingAppend(rs[1..], r, ws, w);
    } else if ws != [] {
      assert (ws + [w])[1..] == ws[1..] + [w];
      WaitingAppend(rs, r, ws[1..], w);
    }
  }

  lemma BytesAppend(l: Log, i: nat, bs: seq<byte>)
    ensures Bytes(l + Tagged(i, bs)) == Bytes(l) + bs
  {
  }

  lemma StepStream(s: Sys, e: Event)
    requires Stream(s) && Enabled(s, e)
    ensures Stream(Step(s, e))
  {
    match e
    case DoRead(j, signal) =>
      var r := s.readers[j];
      var (p, r1) := ReadSection(s.pipe, r, signal);
      ReadGets(s.pipe, r, signal);
      BytesAppend(s.delivered, j, r1.got[|r.got|..]);
      Associate(Bytes(s.delivered), r1.got[|r.got|..], p.contents);
    case DoWrite(i, signal) =>
      var w := s.writers[i];
      var (p, w1) := WriteSection(s.pipe, w, signal);
      WritePuts(s.pipe, w, signal);
      BytesAppend(s.accepted, i, w.data[w.written..w1.written]);
      Associate(Bytes(s.delivered), s.pipe.contents, w.data[w.written..w1.written]);
    case _ =>
  }

  lemma Associate(a: seq<byte>, b: seq<byte>, c: seq<byte>)
    ensures a + b + c == a + (b + c)
  {
  }

  lemma WholeStill(l: Log, i: nat, w: Writer, w1: Writer)
    requires w.written <= w1.written <= |w.data| == |w1.data| && w1.data == w.data
    requires w.written > 0 ==> Whole(l, i, w.data)
    requires w1.written > w.written ==> w.written == 0 && w1.written == |w.data|
    requires w1.written > 0
    ensures Whole(l + Tagged(i, w.data[w.written..w1.written]), i, w1.data)
  {
    var piece := w.data[w.written..w1.written];
    if w.written > 0 {
      WholeAppend(l, Tagged(i, piece), i, w.data);
    } else {
      assert piece == w.data;
      WholeNew(l, i, w.data);
    }
  }

  /** The writer that moved. */
  lemma WroteMore(p: Pipe, l: Log, i: nat, w: Writer, signal: bool)
    requires p.Valid() && WroteOk(p.atomic, l, i, w)
    ensures var w1 := WriteSection(p, w, signal).1;
            && w.written <= w1.written <= |w.data|
            && WroteOk(p.atomic, l + Tagged(i, w.data[w.written..w1.written]), i, w1)
  {
    var w1 := WriteSection(p, w, signal).1;
    WritePuts(p, w, signal);
    WriteOk(p, w, signal);
    OfAppend(l, i, w.data[w.written..w1.written], i);
    assert w.data[..w.written] + w.data[w.written..w1.written] == w.data[..w1.written];
    if |w.data| <= p.atomic && w1.written > 0 {
      WholeStill(l, i, w, w1);
    }
  }

  /** A writer that did not. */
  lemma WroteStill(atomic: nat, l: Log, i: nat, w: Writer, j: nat, piece: seq<byte>)
    requires WroteOk(atomic, l, i, w) && i != j
    ensures WroteOk(atomic, l + Tagged(j, piece), i, w)
  {
    OfAppend(l, j, piece, i);
    if |w.data| <= atomic && w.written > 0 {
      WholeAppend(l, Tagged(j, piece), i, w.data);
    }
  }

  lemma WriteKeeps(s: Sys, i: nat, signal: bool)
    requires s.pipe.Valid() && WritersInv(s) && Enabled(s, DoWrite(i, signal))
    ensures WritersInv(Step(s, DoWrite(i, signal)))
  {
    var w := s.writers[i];
    var (p, w1) := WriteSection(s.pipe, w, signal);
    var s1 := Step(s, DoWrite(i, signal));
    WritePuts(s.pipe, w, signal);
    var piece := w.data[w.written..w1.written];
    forall k | 0 <= k < |s1.writers| ensures WroteOk(p.atomic, s1.accepted, k, s1.writers[k]) {
      if k == i {
        WroteMore(s.pipe, s.accepted, i, w, signal);
      } else {
        WroteStill(p.atomic, s.accepted, k, s.writers[k], i, piece);
      }
    }
  }

  lemma StepWriters(s: Sys, e: Event)
    requires s.pipe.Valid() && WritersInv(s) && Enabled(s, e)
    ensures WritersInv(Step(s, e))
  {
    match e
    case DoRead(j, signal) => ReadGets(s.pipe, s.readers[j], signal);
    case DoWrite(i, signal) => WriteKeeps(s, i, signal);
    case StartWrite(data, nonblock) => OfNobody(s.accepted, |s.writers|);
    case _ =>
  }

  lemma ReadKeeps(s: Sys, j: nat, signal: bool)
    requires ReadersInv(s) && Enabled(s, DoRead(j, signal))
    ensures ReadersInv(Step(s, DoRead(j, signal)))
  {
    var r := s.readers[j];
    var (p, r1) := ReadSection(s.pipe, r, signal);
    var s1 := Step(s, DoRead(j, signal));
    ReadGets(s.pipe, r, signal);
    ReadOk(s.pipe, r, signal);
    var piece := r1.got[|r.got|..];
    assert r1.got == r.got + piece;
    forall k | 0 <= k < |s1.readers| ensures ReaderOk(s1.readers[k]) && Of(s1.delivered, k) == s1.readers[k].got {
      OfAppend(s.delivered, j, piece, k);
    }
  }

  lemma StepReaders(s: Sys, e: Event)
    requires ReadersInv(s) && Enabled(s, e)
    ensures ReadersInv(Step(s, e))
  {
    match e
    case DoRead(j, signal) => ReadKeeps(s, j, signal);
    case StartRead(want, nonblock) => OfNobody(s.delivered, |s.readers|);
    case _ =>
  }

  lemma StepCounters(s: Sys, e: Event)
    requires Inv(s) && Enabled(s, e)
    ensures Counters(Step(s, e))
  {
    match e
    case DoRead(j, signal) =>
      ReadGets(s.pipe, s.readers[j], signal);
      ReadOk(s.pipe, s.readers[j], signal);
      WaitingRUpdate(s.readers, j, ReadSection(s.pipe, s.readers[j], signal).1);
    case DoWrite(i, signal) =>
      WritePuts(s.pipe, s.writers[i], signal);
      assert WroteOk(s.pipe.atomic, s.accepted, i, s.writers[i]);
      WriteOk(s.pipe, s.writers[i], signal);
      WaitingWUpdate(s.writers, i, WriteSection(s.pipe, s.writers[i], signal).1);
    case StartRead(want, nonblock) =>
      var r, w := Reader(want, nonblock, [], ReadStart, Running), Writer([], nonblock, 0, WriteStart, Running);
      WaitingAppend(s.readers, r, [], w);
    case StartWrite(data, nonblock) =>
      var r, w := Reader(0, nonblock, [], ReadStart, Running), Writer(data, nonblock, 0, WriteStart, Running);
      WaitingAppend([], r, s.writers, w);
    case Open(r, w) =>
    case Close(r, w) =>
  }

  lemma StepInv(s: Sys, e: Event)
    requires Inv(s) && Enabled(s, e)
    ensures Inv(Step(s, e))
  {
    StepStream(s, e);
    StepWriters(s, e);
    StepReaders(s, e);
    StepCounters(s, e);
  }

  // ---------------------------------------------------------------- whole runs

  ghost predicate IsRun(s: Sys, es: seq<Event>)
    decreases |es|
  {
    es == [] || (Enabled(s, es[0]) && IsRun(Step(s, es[0]), es[1..]))
  }

  ghost function After(s: Sys, es: seq<Event>): Sys
    requires IsRun(s, es)
    decreases |es|
  {
    if es == [] then s else After(Step(s, es[0]), es[1..])
  }

  predicate IsFresh(s: Sys) {
    && s.pipe.Valid() && s.pipe.contents == [] && s.pipe.waitingReaders == 0 && s.pipe.waitingWriters == 0
    && s.readers == [] && s.writers == [] && s.accepted == [] && s.delivered == []
  }

  lemma {:induction false} RunInv(s: Sys, es: seq<Event>)
    requires Inv(s) && IsRun(s, es)
    ensures Inv(After(s, es)) && After(s, es).pipe.size == s.pipe.size && After(s, es).pipe.atomic == s.pipe.atomic
    decreases |es|
  {
    if es != [] {
      StepInv(s, es[0]);
      StepSizes(s, es[0]);
      RunInv(Step(s, es[0]), es[1..]);
    }
  }

  lemma StepSizes(s: Sys, e: Event)
    requires Enabled(s, e)
    ensures Step(s, e).pipe.size == s.pipe.size && Step(s, e).pipe.atomic == s.pipe.atomic
  {
    match e
    case DoRead(j, signal) => ReadGets(s.pipe, s.readers[j], signal);
    case DoWrite(i, signal) => WritePuts(s.pipe, s.writers[i], signal);
    case _ =>
  }

  /** Under every interleaving of reads, writes, signals, opens and closes: bytes come out in
      the order in which they went in and none is lost, made up or delivered twice; the pipe
      never overflows; every call has exactly the bytes it reports; and no call is ever
      refused its turn by the state it is in. */
  lemma PipeIsFifo(s: Sys, es: seq<Event>)
    requires IsFresh(s) && IsRun(s, es)
    ensures var t := After(s, es);
            && Bytes(t.delivered) + t.pipe.contents == Bytes(t.accepted) && |t.pipe.contents| <= s.pipe.size
            && (forall i :: 0 <= i < |t.writers| ==>
                  t.writers[i].written <= |t.writers[i].data|
                  && Of(t.accepted, i) == t.writers[i].data[..t.writers[i].written])
            && (forall j :: 0 <= j < |t.readers| ==>
                 Of(t.delivered, j) == t.readers[j].got && |t.readers[j].got| <= t.readers[j].want)
            && t.pipe.waitingWriters == WaitingW(t.writers) && t.pipe.waitingReaders == WaitingR(t.readers)
    ensures forall i, signal :: 0 <= i < |After(s, es).writers| ==> Enabled(After(s, es), DoWrite(i, signal))
    ensures forall j, signal :: 0 <= j < |After(s, es).readers| ==> Enabled(After(s, es), DoRead(j, signal))
  {
    RunInv(s, es);
    var t := After(s, es);
    forall i | 0 <= i < |t.writers|
      ensures t.writers[i].written <= |t.writers[i].data|
      ensures Of(t.accepted, i) == t.writers[i].data[..t.writers[i].written]
    {
      assert WroteOk(t.pipe.atomic, t.accepted, i, t.writers[i]);
    }
  }

  /** A write of at most PIPE_BUF bytes is never split: a finished one either stands in one
      piece in the stream, and reports its length, or has put nothing into the pipe. */
  lemma SmallWritesAreAtomic(s: Sys, es: seq<Event>, i: nat)
    requires IsFresh(s) && IsRun(s, es)
    requires i < |After(s, es).writers| && |After(s, es).writers[i].data| <= s.pipe.atomic
    ensures var t := After(s, es); var w := t.writers[i];
            && !w.phase.WaitMore?
            && (w.phase.WriteDone? && w.outcome.Count? ==> w.outcome == Count(|w.data|) && Whole(t.accepted, i, w.data))
            && (!w.phase.WriteDone? || !w.outcome.Count? ==> Of(t.accepted, i) == [])
  {
    RunInv(s, es);
    var t := After(s, es);
    assert WroteOk(t.pipe.atomic, t.accepted, i, t.writers[i]);
    var w := t.writers[i];
    if w.data == [] {
      WholeNew(t.accepted, i, []);
      assert t.accepted + Tagged(i, []) == t.accepted;
    }
  }
}
