/** Who sleeps in `pipe_wait`, and who is woken (fs/pipe.c:27-37, 70-82, 112-124, 165-179,
    205-229, 304-378): a section that has moved bytes wakes everybody before it sleeps or ends,
    and so does closing an end; opening one wakes nobody. */
module PipeWake {
  import opened PipeStream

  /** The calls that sleep and that nobody has woken yet. */
  datatype Dozing = Dozing(sys: Sys, readers: set<nat>, writers: set<nat>)

  /** The last end has been closed, and with it the pipe goes. */
  predicate Gone(p: Pipe) { p.readers == 0 && p.writers == 0 }

  ghost predicate AllDone(s: Sys) {
    && (forall j :: 0 <= j < |s.readers| ==> s.readers[j].phase.ReadDone?)
    && (forall i :: 0 <= i < |s.writers| ==> s.writers[i].phase.WriteDone?)
  }

  /** A sleeping call goes on only for a signal, and the last end is not closed under a call,
      which holds its file. */
  ghost predicate Allowed(s: Dozing, e: Event) {
    && Enabled(s.sys, e) && (e.Close? && Gone(Step(s.sys, e).pipe) ==> AllDone(s.sys))
    && (e.DoRead? && e.j in s.readers ==> e.signal)
    && (e.DoWrite? && e.i in s.writers ==> e.signal)
  }

  function With(s: set<nat>, x: nat, yes: bool): set<nat> { if yes then s + {x} else s - {x} }

  function Next(s: Dozing, e: Event): Dozing
    requires Enabled(s.sys, e)
  {
    var sys := Step(s.sys, e);
    var woken := (e.Close? && !Gone(sys.pipe)) || sys.pipe.contents != s.sys.pipe.contents;
    var readers, writers := if woken then {} else s.readers, if woken then {} else s.writers;
    match e
    case DoRead(j, _) => Dozing(sys, With(readers, j, sys.readers[j].phase.WaitData?), writers)
    case DoWrite(i, _) => Dozing(sys, readers, With(writers, i, IsWaiting(sys.writers[i])))
    case _ => Dozing(sys, readers, writers)
  }

  /** Going on would get this call nowhere: there is nothing to read, or not enough room. */
  predicate IdleReader(p: Pipe, r: Reader) { r.phase.WaitData? && p.contents == [] && p.writers > 0 }

  predicate IdleWriter(p: Pipe, w: Writer) {
    && p.readers > 0
    && (if w.phase.WaitRoom? then p.Free() < Needed(p, w) else w.phase.WaitMore? && p.Free() <= 0)
  }

  ghost predicate Rightly(s: Dozing) {
    && (forall j :: j in s.readers ==> j < |s.sys.readers| && IdleReader(s.sys.pipe, s.sys.readers[j]))
    && (forall i :: i in s.writers ==> i < |s.sys.writers| && IdleWriter(s.sys.pipe, s.sys.writers[i]))
  }

  lemma ReaderSleepsRightly(p: Pipe, r: Reader, signal: bool)
    requires ReaderOk(r)
    ensures var (p1, r1) := ReadSection(p, r, signal); r1.phase.WaitData? ==> IdleReader(p1, r1)
  {
  }

  lemma CopyInSleepsRightly(p: Pipe, w: Writer)
    requires p.Valid() && w.written <= |w.data| && p.readers > 0
    ensures var (p1, w1) := CopyIn(p, w); IsWaiting(w1) ==> IdleWriter(p1, w1)
  {
  }

  lemma WriterSleepsRightly(p: Pipe, w: Writer, signal: bool)
    requires p.Valid() && WriterOk(p.atomic, w)
    ensures var (p1, w1) := WriteSection(p, w, signal); IsWaiting(w1) ==> IdleWriter(p1, w1)
  {
    if p.readers > 0 {
      CopyInSleepsRightly(p, w);
      CopyInSleepsRightly(Awake(p), w);
    }
  }

  /** Everybody else's reason to sleep is as good as before, if nobody was woken. */
  lemma OthersRightly(s: Dozing, p: Pipe, readers: seq<Reader>, writers: seq<Writer>, rs: set<nat>, ws: set<nat>)
    requires Rightly(s) && rs <= s.readers && ws <= s.writers
    requires p == s.sys.pipe.(waitingReaders := p.waitingReaders, waitingWriters := p.waitingWriters)
    requires forall j :: j in rs ==> j < |readers| && readers[j] == s.sys.readers[j]
    requires forall i :: i in ws ==> i < |writers| && writers[i] == s.sys.writers[i]
    ensures forall j :: j in rs ==> IdleReader(p, readers[j])
    ensures forall i :: i in ws ==> IdleWriter(p, writers[i])
  {
  }

  lemma ReadRightly(s: Dozing, j: nat, signal: bool)
    requires Inv(s.sys) && Rightly(s) && Enabled(s.sys, DoRead(j, signal))
    ensures Rightly(Next(s, DoRead(j, signal)))
  {
    var p, s1 := s.sys.pipe, Next(s, DoRead(j, signal));
    ReadGets(p, s.sys.readers[j], signal);
    ReaderSleepsRightly(p, s.sys.readers[j], signal);
    if s1.sys.pipe.contents == p.contents {
      OthersRightly(s, s1.sys.pipe, s1.sys.readers, s1.sys.writers, s.readers - {j}, s.writers);
    }
  }

  lemma WriteRightly(s: Dozing, i: nat, signal: bool)
    requires Inv(s.sys) && Rightly(s) && Enabled(s.sys, DoWrite(i, signal))
    ensures Rightly(Next(s, DoWrite(i, signal)))
  {
    var p, s1 := s.sys.pipe, Next(s, DoWrite(i, signal));
    assert WroteOk(p.atomic, s.sys.accepted, i, s.sys.writers[i]);
    WritePuts(p, s.sys.writers[i], signal);
    WriterSleepsRightly(p, s.sys.writers[i], signal);
    if s1.sys.pipe.contents == p.contents {
      OthersRightly(s, s1.sys.pipe, s1.sys.readers, s1.sys.writers, s.readers, s.writers - {i});
    }
  }

  lemma NextRightly(s: Dozing, e: Event)
    requires Inv(s.sys) && Rightly(s) && Allowed(s, e)
    ensures Rightly(Next(s, e))
  {
    match e
    case DoRead(j, signal) => ReadRightly(s, j, signal);
    case DoWrite(i, signal) => WriteRightly(s, i, signal);
    case _ =>
  }

  ghost predicate IsRun(s: Dozing, es: seq<Event>)
    decreases |es|
  {
    es == [] || (Allowed(s, es[0]) && IsRun(Next(s, es[0]), es[1..]))
  }

  ghost function After(s: Dozing, es: seq<Event>): Dozing
    requires IsRun(s, es)
    decreases |es|
  {
    if es == [] then s else After(Next(s, es[0]), es[1..])
  }

  lemma {:induction false} RunRightly(s: Dozing, es: seq<Event>)
    requires Inv(s.sys) && Rightly(s) && IsRun(s, es)
    ensures Inv(After(s, es).sys) && Rightly(After(s, es))
    decreases |es|
  {
    if es != [] {
      StepInv(s.sys, es[0]);
      NextRightly(s, es[0]);
      RunRightly(Next(s, es[0]), es[1..]);
    }
  }

  /** No wake-up is ever lost: a call that still sleeps would find, if it went on, that it has to
      sleep again, so that nothing in the pipe or about its ends could let it proceed. */
  lemma NoLostWakeUp(sys: Sys, es: seq<Event>)
    requires IsFresh(sys) && IsRun(Dozing(sys, {}, {}), es)
    ensures var s := After(Dozing(sys, {}, {}), es);
            && (forall j :: j in s.readers ==>
                  j < |s.sys.readers| && ReaderOk(s.sys.readers[j])
                  && ReadSection(s.sys.pipe, s.sys.readers[j], false) == (s.sys.pipe, s.sys.readers[j]))
            && (forall i :: i in s.writers ==>
                  i < |s.sys.writers| && s.sys.pipe.Valid() && WriterOk(s.sys.pipe.atomic, s.sys.writers[i])
                  && WriteSection(s.sys.pipe, s.sys.writers[i], false) == (s.sys.pipe, s.sys.writers[i]))
  {
    RunRightly(Dozing(sys, {}, {}), es);
    var s := After(Dozing(sys, {}, {}), es);
    forall i | i in s.writers ensures WriterOk(s.sys.pipe.atomic, s.sys.writers[i]) {
      assert WroteOk(s.sys.pipe.atomic, s.sys.accepted, i, s.sys.writers[i]);
    }
  }
}
