/** Changes to a dquot reach the disk (fs/dquot.c:362-391, 421-456): whatever a task has marked with
    DQ_MOD stays in memory until `write_dquot` has written it. */
module DquotDirty {
  import opened Common
  import opened Lists
  import opened DquotCache
  import opened DquotSteps
  import opened DquotRuns
  import opened DquotGets

  /** The step is the `write_dquot` of dquot `x`. */
  predicate Writes(s: State, e: Event, x: nat) {
    && e.Run? && IsTask(s, e.i) && s.pcs[e.i].Writing?
    && s.pcs[e.i].k < LOCALS && s.hands[e.i][s.pcs[e.i].k] == Some(x)
  }

  lemma RunStaysDirty(s: State, i: nat, memory: bool, x: nat)
    requires Inv(s) && i < |s.hands| && x < |s.objs| && s.objs[x].dirty && !Writes(s, Run(i, memory), x)
    ensures x < |RunTask(s, i, memory).objs| && RunTask(s, i, memory).objs[x].dirty
  {
    assert TaskOk(s.objs, s.hands[i], s.pcs[i]) && FlagsOk(s, x);
    if s.pcs[i].Getting? {
      GetKeeps(s, i, s.pcs[i].key, s.pcs[i].into);
      FindIff(s.objs, s.pcs[i].key, 0);
    }
  }

  /** Only the write takes the mark away; no other step of any task does, and none frees the dquot. */
  lemma StaysDirty(s: State, e: Event, x: nat)
    requires Inv(s) && Enabled(s, e) && x < |s.objs| && s.objs[x].dirty && !Writes(s, e, x)
    ensures x < |Step(s, e).objs| && Step(s, e).objs[x].dirty
  {
    assert FlagsOk(s, x);
    match e
    case Run(i, memory) => RunStaysDirty(s, i, memory, x);
    case DoTransfer(i, n, use, ok) => TransferOnlyBy(s, i, n, use, ok);
    case DoPrune(n) =>
      PruneExact(s, n);
      assert IsFree(s, x);
      assert x !in s.free[|s.free| - Min(n, |s.free|)..];
    case _ =>
  }

  /** Some step of the run writes `x`. */
  ghost predicate Written(s: State, es: seq<Event>, x: nat)
    requires Inv(s) && IsRun(s, es)
    decreases |es|
  {
    es != [] && (Writes(s, es[0], x) || (StepKeeps(s, es[0]); Written(Step(s, es[0]), es[1..], x)))
  }

  lemma {:induction false} DirtyRuns(s: State, es: seq<Event>, x: nat)
    requires Inv(s) && IsRun(s, es) && x < |s.objs| && s.objs[x].dirty && !Written(s, es, x)
    ensures x < |After(s, es).objs| && After(s, es).objs[x].dirty
    decreases |es|
  {
    if es != [] {
      StepKeeps(s, es[0]);
      StaysDirty(s, es[0], x);
      DirtyRuns(Step(s, es[0]), es[1..], x);
    }
  }

  /** A task changes a dquot, and then anything happens: as long as nobody has written the dquot, it
      is marked, alive, held by somebody and on no free list. */
  lemma NoChangeIsLost(s: State, i: nat, k: nat, es: seq<Event>)
    requires Inv(s) && Enabled(s, DoDirty(i, k))
    requires var s0 := Step(s, DoDirty(i, k)); Inv(s0) && IsRun(s0, es) && !Written(s0, es, s.hands[i][k].value)
    ensures var r, x := After(Step(s, DoDirty(i, k)), es), s.hands[i][k].value;
            && x < |r.objs| && r.objs[x].dirty && r.objs[x].live && r.objs[x].count == Held(r, x) > 0 && x !in r.free
  {
    var s0, x := Step(s, DoDirty(i, k)), s.hands[i][k].value;
    DirtyRuns(s0, es, x);
    var r := After(s0, es);
    assert FlagsOk(r, x) && CountOk(r, x) && IsFree(r, x);
  }

  /** The task is about to write `x`, which is marked. */
  predicate Pressing(s: State, i: nat, x: nat) {
    && IsTask(s, i) && s.hands[i][FOUND] == Some(x) && x < |s.objs| && s.objs[x].dirty
    && (s.pcs[i] == Syncing || s.pcs[i] == Writing(FOUND))
  }

  lemma {:induction false} PressingRuns(s: State, es: seq<Event>, i: nat, x: nat)
    requires Inv(s) && IsRun(s, es) && Busy(s, es, i) && Pressing(s, i, x) && IsIdle(After(s, es), i)
    ensures Written(s, es, x)
    decreases |es|
  {
    StepKeeps(s, es[0]);
    if !Writes(s, es[0], x) {
      StaysDirty(s, es[0], x);
      if !IsBy(es[0], i) { OthersLeaveAlone(s, es[0], i); }
      PressingRuns(Step(s, es[0]), es[1..], i, x);
    }
  }

  /** When `sync_dquots` is through with a dquot that was marked, somebody has written it. */
  lemma SyncReachesDisk(s: State, i: nat, x: nat, es: seq<Event>)
    requires Inv(s) && Enabled(s, StartSync(i, x)) && s.objs[x].dirty
    requires var s0 := Step(s, StartSync(i, x));
             Inv(s0) && IsRun(s0, es) && Busy(s0, es, i) && IsIdle(After(s0, es), i)
    ensures Written(Step(s, StartSync(i, x)), es, x)
  {
    PressingRuns(Step(s, StartSync(i, x)), es, i, x);
  }
}
