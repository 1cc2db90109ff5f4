/** Whole runs of the dquot cache (fs/dquot.c:333-541, 973-1014, 1136-1218): any number of
    tasks, interleaved wherever one of them may sleep. */
module DquotRuns {
  import opened Common
  import opened DquotCache
  import opened DquotSteps

  /** `Run` lets task `i` continue from where it sleeps; the other events of a task start an
      operation, or are an atomic section of its caller. */
  datatype Event =
    | StartGet(i: nat, key: Key, into: nat)
    | StartPut(i: nat, k: nat)
    | StartSync(i: nat, x: nat)
    | StartInvalidate(i: nat, sb: nat, typ: nat)
    | Meet(i: nat, x: nat)
    | ScanDone(i: nat)
    | Run(i: nat, memory: bool)
    | DoDuplicate(i: nat, n: nat, t: nat, k: nat)
    | DoAttach(i: nat, n: nat, t: nat, k: nat)
    | DoDrop(i: nat, n: nat, t: nat, k: nat)
    | DoTransfer(i: nat, n: nat, use: seq<bool>, ok: seq<bool>)
    | DoDirty(i: nat, k: nat)
    | DoPrune(n: nat)
    | SetEnabled(on: set<(nat, nat)>)

  predicate IsIdle(s: State, i: nat) { i < |s.hands| && i < |s.pcs| && |s.hands[i]| == LOCALS && s.pcs[i] == Idle }

  predicate Local(s: State, i: nat, k: nat, full: bool)
    requires IsIdle(s, i)
  {
    TO <= k < LOCALS && s.hands[i][k].Some? == full
  }

  /** What the callers see to: references go into empty variables, an inode slot is filled
      only when it is empty, and `dqoff_sem` keeps a second invalidation out. */
  predicate Enabled(s: State, e: Event) {
    match e
    case StartGet(i, key, into) => IsIdle(s, i) && Local(s, i, into, false)
    case StartPut(i, k) => IsIdle(s, i) && Local(s, i, k, true)
    case StartSync(i, x) => IsIdle(s, i) && MaySync(s, x)
    case StartInvalidate(i, sb, typ) =>
      && IsIdle(s, i) && (sb, typ) !in s.on
      && forall j :: 0 <= j < |s.pcs| ==> !SameScan(s.pcs[j], Scanning(sb, typ))
    case Meet(i, x) => i < |s.hands| && i < |s.pcs| && s.pcs[i].Scanning? && Matches(s, x, s.pcs[i].sb, s.pcs[i].typ)
    case ScanDone(i) =>
      && i < |s.hands| && i < |s.pcs| && s.pcs[i].Scanning?
      && forall x :: 0 <= x < |s.objs| ==> !Matches(s, x, s.pcs[i].sb, s.pcs[i].typ)
    case Run(i, memory) => i < |s.hands| && i < |s.pcs|
    case DoDuplicate(i, n, t, k) => IsIdle(s, i) && n < |s.slots| && t < MAXQUOTAS && Local(s, i, k, false)
    case DoAttach(i, n, t, k) =>
      && IsIdle(s, i) && n < |s.slots| && t < |s.slots[n]| && t < MAXQUOTAS
      && Local(s, i, k, true) && s.slots[n][t].None?
    case DoDrop(i, n, t, k) =>
      IsIdle(s, i) && n < |s.slots| && t < |s.slots[n]| && t < MAXQUOTAS && Local(s, i, k, false)
    case DoTransfer(i, n, use, ok) =>
      IsIdle(s, i) && n < |s.slots| && |use| == |ok| == MAXQUOTAS && NoFrom(s.hands[i], 0)
    case DoDirty(i, k) => IsIdle(s, i) && Local(s, i, k, true)
    case DoPrune(n) => true
    case SetEnabled(on) => true
  }

  ghost function Step(s: State, e: Event): State
    requires Inv(s) && Enabled(s, e)
  {
    match e
    case StartGet(i, key, into) => Go(s, i, Getting(key, into))
    case StartPut(i, k) => Go(s, i, Putting(k))
    case StartSync(i, x) => Take(s, i, FOUND, x, Syncing)
    case StartInvalidate(i, sb, typ) => Go(s, i, Scanning(sb, typ))
    case Meet(i, x) => ScanSection(s, i, s.pcs[i].sb, s.pcs[i].typ, x)
    case ScanDone(i) => Go(s, i, Idle)
    case Run(i, memory) => RunTask(s, i, memory)
    case DoDuplicate(i, n, t, k) => InodeFits(s, i, n); Duplicate(s, i, n, t, k)
    case DoAttach(i, n, t, k) => InodeFits(s, i, n); Swap(s, i, n, t, k)
    case DoDrop(i, n, t, k) => InodeFits(s, i, n); Swap(s, i, n, t, k)
    case DoTransfer(i, n, use, ok) => InodeFits(s, i, n); Transfer(s, i, n, use, ok)
    case DoDirty(i, k) => DirtyKeeps(s, i, k); Dirty(s, i, k)
    case DoPrune(n) => Prune(s, n)
    case SetEnabled(on) => s.(on := on)
  }

  ghost function RunTask(s: State, i: nat, memory: bool): State
    requires Inv(s) && i < |s.hands|
  {
    match s.pcs[i]
    case Idle => s
    case Getting(key, into) => GetKeeps(s, i, key, into); GetSection(s, i, key, into)
    case Allocating(key, into) => AllocSection(s, i, key, into, memory)
    case Reading(into) => ReadKeeps(s, i, into); ReadSection(s, i, into)
    case Waiting(into) => WaitKeeps(s, i, into); WaitSection(s, i, into)
    case Putting(k) => PutKeeps(s, i, k); PutSection(s, i, k)
    case Writing(k) => WriteKeeps(s, i, k); WriteSection(s, i, k)
    case Syncing => SyncKeeps(s, i); SyncSection(s, i)
    case Scanning(_, _) => s
    case Unusing(sb, typ, x) => UnuseKeeps(s, i, sb, typ, x); UnuseSection(s, i, sb, typ, x)
  }

  lemma RunTaskKeeps(s: State, i: nat, memory: bool)
    requires Inv(s) && i < |s.hands|
    ensures Inv(RunTask(s, i, memory))
  {
    match s.pcs[i]
    case Idle =>
    case Getting(key, into) => GetKeeps(s, i, key, into);
    case Allocating(key, into) => AllocKeeps(s, i, key, into, memory);
    case Reading(into) => ReadKeeps(s, i, into);
    case Waiting(into) => WaitKeeps(s, i, into);
    case Putting(k) => PutKeeps(s, i, k);
    case Writing(k) => WriteKeeps(s, i, k);
    case Syncing => SyncKeeps(s, i);
    case Scanning(_, _) =>
    case Unusing(sb, typ, x) => UnuseKeeps(s, i, sb, typ, x);
  }

  lemma StartKeeps(s: State, e: Event)
    requires Inv(s) && Enabled(s, e) && (e.StartGet? || e.StartPut? || e.StartInvalidate? || e.ScanDone?)
    ensures Inv(Step(s, e))
  {
    assert TaskOk(s.objs, s.hands[e.i], s.pcs[e.i]);
    match e
    case StartGet(i, key, into) => GoKeeps(s, i, Getting(key, into));
    case StartPut(i, k) =>
      assert Settled(s.objs, s.hands[i][k]);
      GoKeeps(s, i, Putting(k));
    case StartInvalidate(i, sb, typ) => GoKeeps(s, i, Scanning(sb, typ));
    case ScanDone(i) => GoKeeps(s, i, Idle);
  }

  lemma EnableKeeps(s: State, on: set<(nat, nat)>)
    requires Inv(s)
    ensures Inv(s.(on := on))
  {
    var s1 := s.(on := on);
    forall x | 0 <= x < |s1.objs| ensures FlagsOk(s1, x) && CountOk(s1, x) && IsFree(s1, x) {
      assert FlagsOk(s, x) && CountOk(s, x) && IsFree(s, x);
      assert HasReader(s, x) <==> HasReader(s1, x);
      assert HasUndertaker(s, x) <==> HasUndertaker(s1, x);
    }
  }

  lemma StepKeeps(s: State, e: Event)
    requires Inv(s) && Enabled(s, e)
    ensures Inv(Step(s, e))
  {
    match e
    case StartGet(_, _, _) => StartKeeps(s, e);
    case StartPut(_, _) => StartKeeps(s, e);
    case StartSync(i, x) => SyncStarts(s, i, x);
    case StartInvalidate(_, _, _) => StartKeeps(s, e);
    case Meet(i, x) => ScanKeeps(s, i, s.pcs[i].sb, s.pcs[i].typ, x);
    case ScanDone(_) => StartKeeps(s, e);
    case Run(i, memory) => RunTaskKeeps(s, i, memory);
    case DoDuplicate(i, n, t, k) => DuplicateKeeps(s, i, n, t, k);
    case DoAttach(i, n, t, k) => SwapKeeps(s, i, n, t, k);
    case DoDrop(i, n, t, k) => SwapKeeps(s, i, n, t, k);
    case DoTransfer(i, n, use, ok) => TransferKeeps(s, i, n, use, ok);
    case DoDirty(i, k) => DirtyKeeps(s, i, k);
    case DoPrune(n) => PruneKeeps(s, n);
    case SetEnabled(on) => EnableKeeps(s, on);
  }

  // ---------------------------------------------------------------- whole runs

  ghost predicate IsRun(s: State, es: seq<Event>)
    requires Inv(s)
    decreases |es|
  {
    es == [] || (Enabled(s, es[0]) && (StepKeeps(s, es[0]); IsRun(Step(s, es[0]), es[1..])))
  }

  ghost function After(s: State, es: seq<Event>): (r: State)
    requires Inv(s) && IsRun(s, es)
    ensures Inv(r)
    decreases |es|
  {
    if es == [] then s
    else
      StepKeeps(s, es[0]);
      After(Step(s, es[0]), es[1..])
  }

  /** Inodes without quota and tasks with nothing in hand. */
  function Fresh(inodes: nat, tasks: nat): (s: State)
    ensures Inv(s)
  {
    State([], [], 0, seq(inodes, _ => seq(MAXQUOTAS, _ => None)), seq(tasks, _ => seq(LOCALS, _ => None)),
          seq(tasks, _ => Idle), {})
  }

  /** In every state that any interleaving can reach: the count of a dquot is the number of
      inodes and tasks that refer to it; there is one dquot at most per user or group of a file
      system; the counter of the free list is its length, and the list holds exactly the unused
      dquots; a dquot that has been freed is referred to by nobody; and whatever an inode refers
      to is alive, known and read in. */
  lemma CacheIsSound(inodes: nat, tasks: nat, es: seq<Event>)
    requires IsRun(Fresh(inodes, tasks), es)
    ensures var s := After(Fresh(inodes, tasks), es);
            && (forall x :: 0 <= x < |s.objs| ==> s.objs[x].count == Held(s, x))
            && (forall x, y :: 0 <= x < |s.objs| && 0 <= y < |s.objs| && SameKey(s.objs, x, y) ==> x == y)
            && s.nrFree == |s.free|
            && (forall x :: 0 <= x < |s.objs| && !s.objs[x].live ==> Held(s, x) == 0 && x !in s.free)
            && (forall x :: 0 <= x < |s.objs| && Held(s, x) > 0 ==> s.objs[x].live && x !in s.free)
            && (forall n, t :: 0 <= n < |s.slots| && 0 <= t < |s.slots[n]| ==> Settled(s.objs, s.slots[n][t]))
  {
    var s := After(Fresh(inodes, tasks), es);
    forall x | 0 <= x < |s.objs|
      ensures s.objs[x].count == Held(s, x) && (!s.objs[x].live ==> Held(s, x) == 0 && x !in s.free)
      ensures Held(s, x) > 0 ==> x !in s.free
    {
      assert CountOk(s, x) && FlagsOk(s, x) && IsFree(s, x);
    }
  }

  // ---------------------------------------------------------------- the double release

  /** `dquot_transfer` hands every old reference to be released twice, once for the inode and
      once for the duplicate, and releases no new one. */
  lemma {:induction false} MoveExact(s: State, i: nat, n: nat, t: nat, u: nat)
    requires IsTask(s, i) && IsInode(s, n) && Bounded(s.hands[i], |s.objs|) && t <= MAXQUOTAS && u < MAXQUOTAS
    ensures var r := MoveFrom(s, i, n, t);
            var moved := u >= t && s.hands[i][FROM + u].Some? && s.hands[i][TO + u].Some?;
            && IsTask(r, i) && IsInode(r, n)
            && r.slots[n][u] == (if moved then s.hands[i][TO + u] else s.slots[n][u])
            && r.hands[i][TO + u] == (if moved then s.slots[n][u] else s.hands[i][TO + u])
            && r.hands[i][FROM + u] == s.hands[i][FROM + u]
    decreases MAXQUOTAS - t
  {
    if t < MAXQUOTAS {
      if s.hands[i][FROM + t].None? || s.hands[i][TO + t].None? {
        MoveExact(s, i, n, t + 1, u);
      } else {
        MoveExact(Swap(s, i, n, t, TO + t), i, n, t + 1, u);
      }
    }
  }

  lemma BuildNext(s: State, i: nat, n: nat, t: nat, use: seq<bool>, ok: seq<bool>) returns (s1: State)
    requires Ready(s, i, n) && |use| == |ok| == MAXQUOTAS && t < MAXQUOTAS && NoFrom(s.hands[i], t)
    ensures Ready(s1, i, n) && NoFrom(s1.hands[i], t + 1) && s1.slots == s.slots
    ensures var h := s.hands[i];
            s1.hands[i] == if h[TO + t].Some? && use[t] then h[FROM + t := s.slots[n][t]] else h
    ensures var refused := s1.hands[i][FROM + t].Some? && !ok[t];
            Built(s, i, n, t, use, ok) == if refused then (s1, false) else Built(s1, i, n, t + 1, use, ok)
  {
    BuildOne(s, i, n, t, use, ok);
    s1 := if s.hands[i][TO + t].Some? && use[t] then Duplicate(s, i, n, t, FROM + t) else s;
  }

  /** A kind of quota that changes, and that the inode has. */
  predicate Changes(s: State, i: nat, n: nat, use: seq<bool>, u: nat)
    requires IsTask(s, i) && IsInode(s, n) && |use| == MAXQUOTAS && u < MAXQUOTAS
  {
    use[u] && s.hands[i][TO + u].Some? && s.slots[n][u].Some?
  }

  /** The loop goes through exactly when every check it makes says yes. */
  lemma {:induction false} BuildIff(s: State, i: nat, n: nat, t: nat, use: seq<bool>, ok: seq<bool>)
    requires Ready(s, i, n) && NoFrom(s.hands[i], t) && |use| == |ok| == MAXQUOTAS && t <= MAXQUOTAS
    ensures IsTask(s, i) && IsInode(s, n)
    ensures Built(s, i, n, t, use, ok).1 <==> forall u :: t <= u < MAXQUOTAS && Changes(s, i, n, use, u) ==> ok[u]
    decreases MAXQUOTAS - t
  {
    InodeFits(s, i, n);
    if t < MAXQUOTAS {
      var s1 := BuildNext(s, i, n, t, use, ok);
      BuildIff(s1, i, n, t + 1, use, ok);
      assert forall u :: t < u < MAXQUOTAS ==> (Changes(s1, i, n, use, u) <==> Changes(s, i, n, use, u));
      assert s1.hands[i][FROM + t].Some? <==> Changes(s, i, n, use, t);
    }
  }

  lemma {:induction false} BuildExact(s: State, i: nat, n: nat, t: nat, use: seq<bool>, ok: seq<bool>, u: nat)
    requires Ready(s, i, n) && NoFrom(s.hands[i], t)
    requires |use| == |ok| == MAXQUOTAS && t <= MAXQUOTAS && u < MAXQUOTAS
    ensures var r := Built(s, i, n, t, use, ok);
            && r.0.slots == s.slots && IsTask(r.0, i) && r.0.hands[i][TO + u] == s.hands[i][TO + u]
            && (u < t ==> r.0.hands[i][FROM + u] == s.hands[i][FROM + u])
            && (r.1 && u >= t ==>
                  r.0.hands[i][FROM + u] == if s.hands[i][TO + u].Some? && use[u] then s.slots[n][u] else None)
    decreases MAXQUOTAS - t
  {
    if t < MAXQUOTAS {
      var s1 := BuildNext(s, i, n, t, use, ok);
      BuildExact(s1, i, n, t + 1, use, ok, u);
    }
  }

  /** For each kind of quota: when all checks say yes, an inode that has a quota of a kind that
      changes gets the new one, and both variables hold the old one; otherwise the inode and
      the new reference stay as they were. */
  lemma TransferExact(s: State, i: nat, n: nat, use: seq<bool>, ok: seq<bool>, u: nat)
    requires Inv(s) && i < |s.hands| && n < |s.slots| && s.pcs[i] == Idle && NoFrom(s.hands[i], 0)
    requires |use| == |ok| == MAXQUOTAS && u < MAXQUOTAS
    ensures IsTask(s, i) && IsInode(s, n) && Bounded(s.hands[i], |s.objs|)
    ensures var r := Transfer(s, i, n, use, ok);
            var all := forall v :: 0 <= v < MAXQUOTAS && Changes(s, i, n, use, v) ==> ok[v];
            var to, slot := s.hands[i][TO + u], s.slots[n][u];
            && IsTask(r, i) && n < |r.slots| && |r.slots[n]| == MAXQUOTAS
            && if all && Changes(s, i, n, use, u)
               then r.slots[n][u] == to && r.hands[i][TO + u] == slot && r.hands[i][FROM + u] == slot
               else r.slots[n][u] == slot && r.hands[i][TO + u] == to
  {
    InodeFits(s, i, n);
    BuildExact(s, i, n, 0, use, ok, u);
    BuildIff(s, i, n, 0, use, ok);
    var (s1, all) := BuildFrom(s, i, n, 0, use, ok);
    if all { MoveExact(s1, i, n, 0, u); }
  }
}
