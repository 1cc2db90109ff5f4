/** What `dqget` hands back (fs/dquot.c:479-524), over runs: the dquot of the user or group asked
    for, however often the task slept and whatever the others did meanwhile. */
module DquotGets {
  import opened Common
  import opened Lists
  import opened DquotCache
  import opened DquotSteps
  import opened DquotRuns

  // ---------------------------------------------------------------- what others leave alone

  /** Same dquots with the same identities and changes, and only task `i` has moved. */
  ghost predicate OnlyBy(s: State, s1: State, i: nat) {
    && |s1.hands| == |s.hands| && |s1.pcs| == |s.pcs| && |s1.objs| == |s.objs|
    && (forall j :: 0 <= j < |s.hands| && j != i ==> s1.hands[j] == s.hands[j])
    && (forall j :: 0 <= j < |s.pcs| && j != i ==> s1.pcs[j] == s.pcs[j])
    && (forall x :: 0 <= x < |s.objs| ==> s1.objs[x].key == s.objs[x].key && s1.objs[x].dirty == s.objs[x].dirty)
  }

  lemma {:induction false} BuildOnlyBy(s: State, i: nat, n: nat, t: nat, use: seq<bool>, ok: seq<bool>)
    requires IsTask(s, i) && IsInode(s, n) && Bounded(s.hands[i], |s.objs|)
    requires |use| == |ok| == MAXQUOTAS && t <= MAXQUOTAS
    ensures OnlyBy(s, BuildFrom(s, i, n, t, use, ok).0, i)
    decreases MAXQUOTAS - t
  {
    if t < MAXQUOTAS {
      if s.hands[i][TO + t].None? || !use[t] {
        BuildOnlyBy(s, i, n, t + 1, use, ok);
      } else {
        var s1 := Duplicate(s, i, n, t, FROM + t);
        assert OnlyBy(s, s1, i);
        BuildOnlyBy(s1, i, n, t + 1, use, ok);
      }
    }
  }

  lemma {:induction false} MoveOnlyBy(s: State, i: nat, n: nat, t: nat)
    requires IsTask(s, i) && IsInode(s, n) && Bounded(s.hands[i], |s.objs|) && t <= MAXQUOTAS
    ensures OnlyBy(s, MoveFrom(s, i, n, t), i)
    decreases MAXQUOTAS - t
  {
    if t < MAXQUOTAS {
      if s.hands[i][FROM + t].None? || s.hands[i][TO + t].None? {
        MoveOnlyBy(s, i, n, t + 1);
      } else {
        MoveOnlyBy(Swap(s, i, n, t, TO + t), i, n, t + 1);
      }
    }
  }

  /** The dquots of `gone` have been freed, and nothing has happened to the others. */
  predicate FreedOnly(objs: seq<Dquot>, objs1: seq<Dquot>, gone: seq<nat>) {
    |objs1| == |objs| && forall x :: 0 <= x < |objs| ==>
      if x in gone then !objs1[x].live && objs1[x].key == None else objs1[x] == objs[x]
  }

  lemma FreedMore(objs: seq<Dquot>, x: nat, objs2: seq<Dquot>, gone: seq<nat>)
    requires x < |objs| && (forall y :: y in gone ==> y != x)
    requires FreedOnly(objs[x := objs[x].(key := None, live := false, inval := false)], objs2, gone)
    ensures FreedOnly(objs, objs2, gone + [x])
  {
  }

  lemma SplitLast(l: seq<nat>, k: nat)
    requires k < |l|
    ensures var m := l[..|l| - 1]; m[..k] == l[..k] && m[k..] + [l[|l| - 1]] == l[k..]
  {
  }

  predicate Listed(s: State) { NoDup(s.free) && forall x :: x in s.free ==> x < |s.objs| }

  lemma PruneOne(s: State, n: nat)
    requires Listed(s) && s.free != [] && n > 0
    ensures s.free[|s.free| - 1] < |s.objs|
    ensures var last := |s.free| - 1;
            var s1 := Freed(s, s.free[last]);
            && Listed(s1) && s1.free == s.free[..last] && s.free[last] !in s1.free
            && Prune(s, n) == Prune(s1, n - 1)
  {
    var x := s.free[|s.free| - 1];
    assert x in s.free;
    WithoutLast(s.free);
    WithoutAll(s.free, x);
    WithoutNoDup(s.free, x);
  }

  /** The dquots behind the first `kept` of the free list are gone, and nothing else is. */
  predicate PrunedTo(s: State, r: State, kept: nat)
    requires kept <= |s.free|
  {
    r.free == s.free[..kept] && FreedOnly(s.objs, r.objs, s.free[kept..])
  }

  lemma PrunedMore(s: State, r: State, kept: nat)
    requires Listed(s) && s.free != [] && kept < |s.free|
    requires s.free[|s.free| - 1] < |s.objs|
    requires var s1 := Freed(s, s.free[|s.free| - 1]);
             s1.free == s.free[..|s.free| - 1] && s.free[|s.free| - 1] !in s1.free && PrunedTo(s1, r, kept)
    ensures PrunedTo(s, r, kept)
  {
    var x := s.free[|s.free| - 1];
    SplitLast(s.free, kept);
    FreedMore(s.objs, x, r.objs, Freed(s, x).free[kept..]);
  }

  /** `prune_dqcache` frees exactly the last `n` dquots of the free list, or all of them. */
  lemma {:induction false} PruneExact(s: State, n: nat)
    requires Listed(s)
    ensures PrunedTo(s, Prune(s, n), |s.free| - Min(n, |s.free|))
    decreases n
  {
    if n == 0 || s.free == [] {
      assert s.free[..|s.free|] == s.free;
    } else {
      PruneOne(s, n);
      PruneExact(Freed(s, s.free[|s.free| - 1]), n - 1);
      PrunedMore(s, Prune(s, n), |s.free| - Min(n, |s.free|));
    }
  }

  lemma {:induction false} WithoutLast(l: seq<nat>)
    requires NoDup(l) && l != []
    ensures Without(l, l[|l| - 1]) == l[..|l| - 1]
  {
    if |l| > 1 {
      NoDupApart(l, 0, |l| - 1);
      WithoutLast(l[1..]);
      assert [l[0]] + l[1..][..|l| - 2] == l[..|l| - 1];
    } else {
      assert l[1..] == [];
    }
  }

  /** Whoever is at work, a dquot that is held keeps its identity. */
  lemma KeyStays(s: State, e: Event, x: nat)
    requires Inv(s) && Enabled(s, e) && x < |s.objs| && s.objs[x].key.Some? && s.objs[x].count > 0
    ensures x < |Step(s, e).objs| && Step(s, e).objs[x].key == s.objs[x].key
  {
    match e
    case Run(i, memory) => RunKeyStays(s, i, memory, x);
    case DoTransfer(i, n, use, ok) => TransferOnlyBy(s, i, n, use, ok);
    case DoPrune(n) =>
      PruneExact(s, n);
      assert IsFree(s, x);
      assert x !in s.free[|s.free| - Min(n, |s.free|)..];
    case _ =>
  }

  lemma RunKeyStays(s: State, i: nat, memory: bool, x: nat)
    requires Inv(s) && i < |s.hands| && x < |s.objs| && s.objs[x].key.Some? && s.objs[x].count > 0
    ensures x < |RunTask(s, i, memory).objs| && RunTask(s, i, memory).objs[x].key == s.objs[x].key
  {
    assert TaskOk(s.objs, s.hands[i], s.pcs[i]);
    if s.pcs[i].Getting? {
      GetKeeps(s, i, s.pcs[i].key, s.pcs[i].into);
      FindIff(s.objs, s.pcs[i].key, 0);
    }
  }

  lemma TransferOnlyBy(s: State, i: nat, n: nat, use: seq<bool>, ok: seq<bool>)
    requires Inv(s) && i < |s.hands| && n < |s.slots| && |use| == |ok| == MAXQUOTAS
    ensures IsTask(s, i) && IsInode(s, n) && Bounded(s.hands[i], |s.objs|)
    ensures OnlyBy(s, Transfer(s, i, n, use, ok), i)
  {
    InodeFits(s, i, n);
    BuildOnlyBy(s, i, n, 0, use, ok);
    var (s1, all) := BuildFrom(s, i, n, 0, use, ok);
    if all { MoveOnlyBy(s1, i, n, 0); }
  }

  /** The event is a section of task `i`. */
  predicate IsBy(e: Event, i: nat) { !e.DoPrune? && !e.SetEnabled? && e.i == i }

  predicate Unmoved(s: State, s1: State, i: nat)
    requires i < |s.hands| && i < |s.pcs|
  {
    i < |s1.hands| && i < |s1.pcs| && s1.hands[i] == s.hands[i] && s1.pcs[i] == s.pcs[i]
  }

  lemma RunLeavesAlone(s: State, j: nat, memory: bool, i: nat)
    requires Inv(s) && j < |s.hands| && i != j && i < |s.hands|
    ensures Unmoved(s, RunTask(s, j, memory), i)
  {
    assert TaskOk(s.objs, s.hands[j], s.pcs[j]);
  }

  lemma OthersLeaveAlone(s: State, e: Event, i: nat)
    requires Inv(s) && Enabled(s, e) && !IsBy(e, i) && i < |s.hands|
    ensures Unmoved(s, Step(s, e), i)
  {
    match e
    case Run(j, memory) => RunLeavesAlone(s, j, memory, i);
    case DoTransfer(j, n, use, ok) => TransferOnlyBy(s, j, n, use, ok);
    case DoPrune(n) => PruneKeeps(s, n);
    case _ =>
  }

  // ---------------------------------------------------------------- one call of dqget

  predicate IsFor(objs: seq<Dquot>, v: Option<nat>, key: Key) {
    v.Some? && v.value < |objs| && objs[v.value].key == Some(key)
  }

  /** What the caller may be given: the dquot asked for, or NODQUOT if quota was off meanwhile. */
  predicate Answer(s: State, i: nat, key: Key, into: nat, off: bool)
    requires i < |s.hands| && into < |s.hands[i]|
  {
    IsFor(s.objs, s.hands[i][into], key) || (s.hands[i][into] == None && off)
  }

  /** Task `i` is inside `dqget(key)`, or has just left it; `h` is what it had in hand before. */
  predicate Underway(s: State, i: nat, key: Key, into: nat, h: Refs, off: bool) {
    && IsTask(s, i) && TO <= into < LOCALS && |h| == LOCALS
    && (forall k :: TO <= k < LOCALS && k != into ==> s.hands[i][k] == h[k])
    && match s.pcs[i]
       case Getting(k, t) => k == key && t == into && s.hands[i][into] == None
       case Allocating(k, t) => k == key && t == into && s.hands[i][into] == None
       case Reading(t) => t == into && IsFor(s.objs, s.hands[i][FOUND], key)
       case Waiting(t) => t == into && IsFor(s.objs, s.hands[i][FOUND], key)
       case Putting(k) => k == SPARE && Answer(s, i, key, into, off)
       case Writing(k) => k == SPARE && Answer(s, i, key, into, off)
       case Idle => Answer(s, i, key, into, off)
       case _ => false
  }

  lemma SearchSection(s: State, i: nat, key: Key, into: nat, h: Refs, off: bool)
    requires Inv(s) && Underway(s, i, key, into, h, off) && s.pcs[i] == Getting(key, into)
    ensures s.hands[i][SPARE].Some? ==> HasLocal(s, i, SPARE)
    ensures Underway(GetSection(s, i, key, into), i, key, into, h, off || (key.sb, key.typ) !in s.on)
  {
    assert TaskOk(s.objs, s.hands[i], s.pcs[i]);
    FindIff(s.objs, key, 0);
  }

  lemma OwnSection(s: State, i: nat, memory: bool, key: Key, into: nat, h: Refs, off: bool)
    requires Inv(s) && Underway(s, i, key, into, h, off)
    ensures Underway(RunTask(s, i, memory), i, key, into, h, off || (key.sb, key.typ) !in s.on)
  {
    assert TaskOk(s.objs, s.hands[i], s.pcs[i]);
    if s.pcs[i].Getting? { SearchSection(s, i, key, into, h, off); }
    if s.pcs[i].Putting? && IsFor(s.objs, s.hands[i][into], key) { InHand(s, i, into); }
  }

  /** A section of another task: what `i` has in hand keeps its identity. */
  lemma OtherSection(s: State, e: Event, i: nat, key: Key, into: nat, h: Refs, off: bool)
    requires Inv(s) && Enabled(s, e) && !IsBy(e, i) && Underway(s, i, key, into, h, off)
    ensures Underway(Step(s, e), i, key, into, h, off)
  {
    StepKeeps(s, e);
    OthersLeaveAlone(s, e, i);
    forall k | 0 <= k < LOCALS && IsFor(s.objs, s.hands[i][k], key) ensures IsFor(Step(s, e).objs, s.hands[i][k], key) {
      InHand(s, i, k);
      KeyStays(s, e, s.hands[i][k].value);
    }
  }

  /** The task has not come back from its call before the end of the run. */
  ghost predicate Busy(s: State, es: seq<Event>, i: nat)
    requires Inv(s) && IsRun(s, es)
    decreases |es|
  {
    es == [] || (i < |s.pcs| && s.pcs[i] != Idle && (StepKeeps(s, es[0]); Busy(Step(s, es[0]), es[1..], i)))
  }

  /** Quota was off for a file system and kind at some point of the run. */
  ghost predicate WasOff(s: State, es: seq<Event>, q: (nat, nat))
    requires Inv(s) && IsRun(s, es)
    decreases |es|
  {
    q !in s.on || (es != [] && (StepKeeps(s, es[0]); WasOff(Step(s, es[0]), es[1..], q)))
  }

  lemma {:induction false} UnderwayRuns(s: State, es: seq<Event>, i: nat, key: Key, into: nat, h: Refs, off: bool)
    requires Inv(s) && IsRun(s, es) && Underway(s, i, key, into, h, off) && Busy(s, es, i)
    ensures Underway(After(s, es), i, key, into, h, off || WasOff(s, es, (key.sb, key.typ)))
    decreases |es|
  {
    if es != [] {
      StepKeeps(s, es[0]);
      var s1, now := Step(s, es[0]), off || (key.sb, key.typ) !in s.on;
      if IsBy(es[0], i) {
        OwnSection(s, i, es[0].memory, key, into, h, off);
      } else {
        OtherSection(s, es[0], i, key, into, h, off);
      }
      UnderwayRuns(s1, es[1..], i, key, into, h, now);
    }
  }

  /** A call of `dqget` that has come back, whatever the other tasks did meanwhile: the caller
      has the dquot of the user or group asked for, alive, read in and held, or it has nothing
      and quota was off at some point of the call; its other references are as they were. */
  lemma DqgetReturns(s: State, i: nat, key: Key, into: nat, es: seq<Event>)
    requires Inv(s) && Enabled(s, StartGet(i, key, into))
    requires var s0 := Step(s, StartGet(i, key, into)); Inv(s0) && IsRun(s0, es) && Busy(s0, es, i)
    requires IsIdle(After(Step(s, StartGet(i, key, into)), es), i)
    ensures var s0 := Step(s, StartGet(i, key, into));
            var r := After(s0, es);
            && (forall k :: TO <= k < LOCALS && k != into ==> r.hands[i][k] == s.hands[i][k])
            && match r.hands[i][into]
               case Some(x) =>
                 && x < |r.objs| && r.objs[x].key == Some(key)
                 && r.objs[x].live && r.objs[x].count > 0 && !r.objs[x].locked
               case None => WasOff(s0, es, (key.sb, key.typ))
  {
    var s0 := Step(s, StartGet(i, key, into));
    UnderwayRuns(s0, es, i, key, into, s.hands[i], false);
    var r := After(s0, es);
    assert TaskOk(r.objs, r.hands[i], r.pcs[i]);
    assert Settled(r.objs, r.hands[i][into]);
    if r.hands[i][into].Some? { InHand(r, i, into); }
  }
}
