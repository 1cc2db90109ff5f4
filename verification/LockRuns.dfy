/** Safety of whole runs: mutual exclusion, no lost wake-up, no deadlock. */
module LockRuns {
  import opened Common
  import opened PosixLocks
  import opened LockEdit
  import opened LockSafety
  import opened PosixLockFile
  import opened WaitGraph
  import opened LockSystem
  import opened LockGrants

  // ---------------------------------------------------------------- the wait graph

  lemma {:induction false} WaitOfMember(b: seq<Waiter>, w: Waiter)
    requires OneWaitEach(b) && w in b
    ensures WaitOf(b, w.req.owner) == Some(w)
  {
    if b[0] != w {
      WaitOfMember(b[1..], w);
    }
  }

  lemma {:induction false} OwnerOfMember(l: seq<Lock>, x: Lock)
    requires UniqueIds(l) && x in l
    ensures OwnerOf(l, x.id) == Some(x.owner)
  {
    if l[0] != x {
      var i :| 0 <= i < |l| && l[i] == x;
      assert l[0].id != l[i].id;
      assert x in l[1..];
      OwnerOfMember(l[1..], x);
    }
  }

  lemma SameAwait(s: Sys, s1: Sys, o: Owner)
    requires OneWaitEach(s.blocked) && WaitOf(s1.blocked, o).Some? && WaitOf(s1.blocked, o).value in s.blocked
    requires var w := WaitOf(s1.blocked, o).value;
             OwnerOf(ListOf(s1.lists, w.ino), w.blocker) == OwnerOf(ListOf(s.lists, w.ino), w.blocker)
    ensures Awaits(s, o) == Awaits(s1, o) && exists w :: w in s.blocked && w.req.owner == o
  {
    WaitOfMember(s.blocked, WaitOf(s1.blocked, o).value);
  }

  /** If every waiter that is left waits for the same owner as before, no edge is new. */
  lemma FewerWaits(s: Sys, s1: Sys)
    requires OneWaitEach(s.blocked) && OneWaitEach(s1.blocked)
    requires forall w :: w in s1.blocked ==> w in s.blocked
    requires forall w :: w in s1.blocked ==>
      OwnerOf(ListOf(s1.lists, w.ino), w.blocker) == OwnerOf(ListOf(s.lists, w.ino), w.blocker)
    ensures Subgraph(WaitsFor(s1), WaitsFor(s))
  {
    var g, g1 := WaitsFor(s), WaitsFor(s1);
    forall o | o in g1 ensures o in g && g1[o] == g[o] {
      SameAwait(s, s1, o);
    }
  }

  // ---------------------------------------------------------------- mutual exclusion

  /** A request that passed the scan meets nothing it would exclude. */
  lemma PassedScan(l: seq<Lock>, r: Request, p: Owner, b: int)
    requires NoConflict(l, r) && r.typ != UnLck && Typed(l) && p != r.owner && r.start <= b <= r.end
    ensures r.typ == WrLck ==> TypesAt(l, p, b) == {}
    ensures WrLck !in TypesAt(l, p, b)
  {
    NoConflictIff(l, r);
  }

  lemma ApplyExclusive(l: seq<Lock>, r: Request, newId: nat)
    requires Typed(l) && MutualExclusion(l) && r.Valid() && (r.typ == UnLck || NoConflict(l, r))
    ensures MutualExclusion(Apply(l, r, newId).list)
  {
    var m := Apply(l, r, newId).list;
    forall o, p, b | o != p && WrLck in TypesAt(m, o, b) ensures TypesAt(m, p, b) == {} {
      ApplyGrants(l, r, newId, o, b);
      ApplyGrants(l, r, newId, p, b);
      if r.typ != UnLck && r.start <= b <= r.end {
        if o != r.owner { PassedScan(l, r, o, b); }
        if p != r.owner { PassedScan(l, r, p, b); }
      }
    }
  }

  lemma {:induction false} RemainingTypes(l: seq<Lock>, files: nat, o: Owner, b: int)
    ensures TypesAt(Remaining(l, files), o, b) == if o.files == files then {} else TypesAt(l, o, b)
  {
    if l != [] {
      RemainingTypes(l[1..], files, o, b);
      if l[0].owner.files != files {
        assert ([l[0]] + Remaining(l[1..], files))[1..] == Remaining(l[1..], files);
      }
    }
  }

  lemma TailIds(l: seq<Lock>, n: nat)
    requires IdsBelow(l, n) && l != []
    ensures IdsBelow(l[1..], n) && l[0].id < n && forall x :: x in l[1..] ==> x.id != l[0].id
  {
    assert forall i :: 0 <= i < |l[1..]| ==> l[1..][i] == l[i + 1];
  }

  lemma PrependIds(h: Lock, m: seq<Lock>, n: nat)
    requires IdsBelow(m, n) && h.id < n && forall x :: x in m ==> x.id != h.id
    ensures IdsBelow([h] + m, n)
  {
  }

  lemma {:induction false} RemainingIds(l: seq<Lock>, files: nat, n: nat)
    requires IdsBelow(l, n)
    ensures IdsBelow(Remaining(l, files), n)
  {
    if l != [] {
      var m := Remaining(l[1..], files);
      TailIds(l, n);
      RemainingIds(l[1..], files, n);
      if l[0].owner.files != files { PrependIds(l[0], m, n); }
    }
  }

  // ---------------------------------------------------------------- the steps keep the invariant

  lemma WakeCalls(s: Sys, ino: nat, ids: set<nat>)
    requires OneCallEach(s)
    ensures OneCallEach(Wake(s, ino, ids))
  {
    var s1 := Wake(s, ino, ids);
    forall w, v | w in s.blocked && v in s.blocked && w.req.owner == v.req.owner ensures w == v {
      WaitOfMember(s.blocked, w);
      WaitOfMember(s.blocked, v);
    }
    forall p | p in s1.retry
      ensures p in s.retry || exists w :: w in s.blocked && Hit(w, ino, ids) && p == Pending(w.ino, w.req)
    {
    }
  }

  /** A list is replaced and the waiters of the records in `ids` are woken; every other
      waiter's record survives, with the same owner, type and at least its old range. */
  lemma EditKeeps(s: Sys, ino: nat, l1: seq<Lock>, ids: set<nat>, n: nat)
    requires Inv(s) && n >= s.nextId && GoodList(l1, n)
    requires forall x :: x in ListOf(s.lists, ino) && x.id !in ids ==> exists y :: y in l1 && Grown(x, y)
    ensures Inv(Wake(s.(lists := s.lists[ino := l1], nextId := n), ino, ids))
  {
    var s1 := Wake(s.(lists := s.lists[ino := l1], nextId := n), ino, ids);
    var l := ListOf(s.lists, ino);
    forall w | w in s1.blocked
      ensures Justified(s1.lists, w)
      ensures OwnerOf(ListOf(s1.lists, w.ino), w.blocker) == OwnerOf(ListOf(s.lists, w.ino), w.blocker)
    {
      if w.ino == ino {
        var x :| x in l && x.id == w.blocker && Conflict(w.req, x);
        var y :| y in l1 && Grown(x, y);
        OwnerOfMember(l, x);
        OwnerOfMember(l1, y);
      }
    }
    forall i | i in s1.lists ensures GoodList(s1.lists[i], n) {}
    WakeCalls(s, ino, ids);
    FewerWaits(s, s1);
    SubgraphAcyclic(WaitsFor(s1), WaitsFor(s));
  }

  lemma GoodListOf(s: Sys, ino: nat)
    requires Inv(s)
    ensures GoodList(ListOf(s.lists, ino), s.nextId)
  {
  }

  /** The call goes through. */
  lemma ApplyStep(s: Sys, ino: nat, r: Request)
    requires Inv(s) && r.Valid() && (r.typ == UnLck || NoConflict(ListOf(s.lists, ino), r))
    ensures var out := Apply(ListOf(s.lists, ino), r, s.nextId);
            Inv(Wake(s.(lists := s.lists[ino := out.list], nextId := s.nextId + 2), ino, out.woken))
  {
    var l := ListOf(s.lists, ino);
    var out := Apply(l, r, s.nextId);
    GoodListOf(s, ino);
    ApplyTyped(l, r, s.nextId);
    ApplyIds(l, r, s.nextId);
    ApplyExclusive(l, r, s.nextId);
    forall x | x in l && x.id !in out.woken ensures exists y :: y in out.list && Grown(x, y) {
      var y := ApplyKeeps(l, r, s.nextId, x);
    }
    EditKeeps(s, ino, out.list, out.woken, s.nextId + 2);
  }

  /** Going to sleep adds one edge, to the owner of the first lock that conflicts. */
  lemma BlockGraph(s: Sys, ino: nat, r: Request, x: Lock)
    requires Inv(s) && Idle(s, r.owner) && x in ListOf(s.lists, ino)
    ensures WaitsFor(s.(blocked := [Waiter(ino, r, x.id)] + s.blocked)) == WaitsFor(s)[r.owner := x.owner]
    ensures r.owner !in WaitsFor(s)
  {
    var w := Waiter(ino, r, x.id);
    var s1 := s.(blocked := [w] + s.blocked);
    GoodListOf(s, ino);
    OwnerOfMember(ListOf(s.lists, ino), x);
    assert s1.blocked[1..] == s.blocked;
    assert Awaits(s1, r.owner) == Some(x.owner);
    forall o | o != r.owner ensures Awaits(s1, o) == Awaits(s, o) {
      assert WaitOf(s1.blocked, o) == WaitOf(s.blocked, o);
    }
    assert forall v :: v in s1.blocked <==> v == w || v in s.blocked;
    assert (set v | v in s1.blocked :: v.req.owner) == (set v | v in s.blocked :: v.req.owner) + {r.owner};
  }

  lemma BlockStep(s: Sys, ino: nat, r: Request, x: Lock)
    requires Inv(s) && r.Valid() && r.typ != UnLck && Idle(s, r.owner)
    requires x in ListOf(s.lists, ino) && Conflict(r, x)
    requires !Reaches(WaitsFor(s), x.owner, r.owner)
    ensures Inv(s.(blocked := [Waiter(ino, r, x.id)] + s.blocked))
  {
    var w := Waiter(ino, r, x.id);
    var s1 := s.(blocked := [w] + s.blocked);
    assert s1.blocked[1..] == s.blocked;
    assert forall v :: v in s1.blocked <==> v == w || v in s.blocked;
    BlockGraph(s, ino, r, x);
    EdgeClosesCycle(WaitsFor(s), r.owner, x.owner);
  }

  lemma AttemptKeeps(s: Sys, ino: nat, r: Request, wait: bool)
    requires Inv(s) && r.Valid() && Idle(s, r.owner)
    ensures Inv(Attempt(s, ino, r, wait).0)
  {
    var l := ListOf(s.lists, ino);
    var k := Scan(l, r);
    var s1 := Attempt(s, ino, r, wait).0;
    if r.typ != UnLck && k < |l| {
      if wait && !Reaches(WaitsFor(s), l[k].owner, r.owner) {
        BlockStep(s, ino, r, l[k]);
        assert s1 == s.(blocked := [Waiter(ino, r, l[k].id)] + s.blocked);
      } else {
        assert s1 == s;
      }
    } else {
      ApplyStep(s, ino, r);
      var out := Apply(l, r, s.nextId);
      assert s1 == Wake(s.(lists := s.lists[ino := out.list], nextId := s.nextId + 2), ino, out.woken);
    }
  }

  lemma RemainingExclusive(l: seq<Lock>, files: nat)
    requires MutualExclusion(l)
    ensures MutualExclusion(Remaining(l, files))
  {
    forall o, p, b | o != p && WrLck in TypesAt(Remaining(l, files), o, b)
      ensures TypesAt(Remaining(l, files), p, b) == {}
    {
      RemainingTypes(l, files, o, b);
      RemainingTypes(l, files, p, b);
    }
  }

  lemma CloseKeeps(s: Sys, ino: nat, files: nat)
    requires Inv(s)
    ensures Inv(Step(s, Close(ino, files)))
  {
    var l := ListOf(s.lists, ino);
    var l1 := Remaining(l, files);
    GoodListOf(s, ino);
    RemainingIds(l, files, s.nextId);
    RemainingExclusive(l, files);
    forall x | x in l && x.id !in ClosedIds(l, files) ensures exists y :: y in l1 && Grown(x, y) {
      assert x in l1 && Grown(x, x);
    }
    EditKeeps(s, ino, l1, ClosedIds(l, files), s.nextId);
  }

  lemma SignalKeeps(s: Sys, o: Owner)
    requires Inv(s)
    ensures Inv(Interrupt(s, o))
  {
    FewerWaits(s, Interrupt(s, o));
    SubgraphAcyclic(WaitsFor(Interrupt(s, o)), WaitsFor(s));
  }

  lemma StepKeepsInv(s: Sys, e: Event)
    requires Inv(s) && Enabled(s, e)
    ensures Inv(Step(s, e))
  {
    match e
    case SetLk(ino, r, wait) => AttemptKeeps(s, ino, r, wait);
    case Retry(p) =>
      var s0 := s.(retry := s.retry - {p});
      FewerWaits(s, s0);
      SubgraphAcyclic(WaitsFor(s0), WaitsFor(s));
      AttemptKeeps(s0, p.ino, p.req, true);
    case Signal(o) => SignalKeeps(s, o);
    case Close(ino, files) => CloseKeeps(s, ino, files);
  }

  lemma {:induction false} RunKeepsInv(s: Sys, es: seq<Event>)
    requires Inv(s) && IsRun(s, es)
    ensures Inv(After(s, es))
    decreases |es|
  {
    if es != [] {
      StepKeepsInv(s, es[0]);
      RunKeepsInv(Step(s, es[0]), es[1..]);
    }
  }

  lemma ReachableInv(es: seq<Event>)
    requires IsRun(INITIAL, es)
    ensures Inv(After(INITIAL, es))
  {
    assert WaitsFor(INITIAL) == map[];
    RunKeepsInv(INITIAL, es);
  }

  // ---------------------------------------------------------------- the theorems

  /** In every state any interleaving can reach: on every inode, no byte is write-locked by
      one owner while another holds anything on it; every sleeping request is linked to a
      record that is still in the list and still conflicts with it; nobody waits in a
      circle. */
  lemma RunsAreSafe(es: seq<Event>)
    requires IsRun(INITIAL, es)
    ensures var s := After(INITIAL, es);
            && (forall ino :: MutualExclusion(ListOf(s.lists, ino)))
            && (forall w :: w in s.blocked ==> Justified(s.lists, w))
            && Acyclic(WaitsFor(s))
  {
    ReachableInv(es);
    var s := After(INITIAL, es);
    forall ino ensures MutualExclusion(ListOf(s.lists, ino)) { GoodListOf(s, ino); }
  }

  /** The request of `w` is asleep on the record it was put to sleep on, or about to scan again. */
  ghost predicate Carried(s: Sys, w: Waiter) { w in s.blocked || Pending(w.ino, w.req) in s.retry }

  lemma WakeCarries(s: Sys, ino: nat, ids: set<nat>, w: Waiter)
    requires Carried(s, w)
    ensures Carried(Wake(s, ino, ids), w)
  {
  }

  lemma AttemptCarries(s: Sys, ino: nat, r: Request, wait: bool, w: Waiter)
    requires Carried(s, w)
    ensures Carried(Attempt(s, ino, r, wait).0, w)
  {
    var l := ListOf(s.lists, ino);
    if r.typ == UnLck || Scan(l, r) == |l| {
      var out := Apply(l, r, s.nextId);
      WakeCarries(s.(lists := s.lists[ino := out.list], nextId := s.nextId + 2), ino, out.woken, w);
    }
  }

  /** A waiter leaves the blocked list only by a signal to its task, or to scan again. */
  lemma StepCarries(s: Sys, e: Event, w: Waiter)
    requires Enabled(s, e) && Carried(s, w) && e != Signal(w.req.owner) && e != Retry(Pending(w.ino, w.req))
    ensures Carried(Step(s, e), w)
  {
    match e
    case SetLk(ino, r, wait) => AttemptCarries(s, ino, r, wait, w);
    case Retry(p) => AttemptCarries(s.(retry := s.retry - {p}), p.ino, p.req, true, w);
    case Signal(o) =>
    case Close(ino, files) =>
      var l := ListOf(s.lists, ino);
      WakeCarries(s.(lists := s.lists[ino := Remaining(l, files)]), ino, ClosedIds(l, files), w);
  }

  lemma {:induction false} RunCarries(s: Sys, es: seq<Event>, w: Waiter)
    requires IsRun(s, es) && Carried(s, w)
    requires forall e :: e in es ==> e != Signal(w.req.owner) && e != Retry(Pending(w.ino, w.req))
    ensures Carried(After(s, es), w)
    decreases |es|
  {
    if es != [] {
      assert es[0] in es && forall e :: e in es[1..] ==> e in es;
      StepCarries(s, es[0], w);
      RunCarries(Step(s, es[0]), es[1..], w);
    }
  }

  /** No lost wake-up: take any request that sleeps in a reachable state, and any further run in
      which its task gets no signal and has not scanned again. Once nothing conflicts with the
      request, its task is off the blocked list and about to scan again. */
  lemma NoLostWakeUp(es: seq<Event>, fs: seq<Event>, w: Waiter)
    requires IsRun(INITIAL, es) && w in After(INITIAL, es).blocked && IsRun(After(INITIAL, es), fs)
    requires forall e :: e in fs ==> e != Signal(w.req.owner) && e != Retry(Pending(w.ino, w.req))
    requires NoConflict(ListOf(After(After(INITIAL, es), fs).lists, w.ino), w.req)
    ensures var s := After(After(INITIAL, es), fs); w !in s.blocked && Pending(w.ino, w.req) in s.retry
  {
    RunCarries(After(INITIAL, es), fs, w);
    ReachableInv(es);
    RunKeepsInv(After(INITIAL, es), fs);
  }

  /** The first record that stands in the way of the request. */
  ghost predicate FirstBar(l: seq<Lock>, r: Request, k: nat) {
    k < |l| && Bars(l[k], r) && forall i :: 0 <= i < k ==> !Bars(l[i], r)
  }

  /** In every reachable state a call that may sleep goes through exactly when the bytes of its
      range are free of what excludes it and no ghost record is in the way; and it is refused with
      EDEADLK exactly when sleeping on the first record in its way would close a cycle of waiting
      tasks. */
  lemma DeadlockExact(es: seq<Event>, ino: nat, r: Request)
    requires IsRun(INITIAL, es) && Enabled(After(INITIAL, es), SetLk(ino, r, true)) && r.typ != UnLck
    ensures var s := After(INITIAL, es);
            var l := ListOf(s.lists, ino);
            && (Attempt(s, ino, r, true).1 == Done <==> BytesFree(l, r) && !HasGhost(l, r))
            && forall k: nat :: FirstBar(l, r, k) ==>
                 (Attempt(s, ino, r, true).1 == Deadlock <==> !Acyclic(WaitsFor(s)[r.owner := l[k].owner]))
  {
    ReachableInv(es);
    var s := After(INITIAL, es);
    var l := ListOf(s.lists, ino);
    GoodListOf(s, ino);
    DeadlockIff(s, ino, r);
    NoConflictIff(l, r);
    assert forall m :: 0 <= m < |l| ==> l[m] in l;
    forall k: nat | FirstBar(l, r, k) ensures FirstConflict(l, r, k) {
      forall i | 0 <= i <= k ensures Conflict(r, l[i]) <==> Bars(l[i], r) { ConflictIff(l[i], r); }
    }
  }

  /** F_SETLK and F_SETLKW in every reachable state: granted exactly when the bytes are free and
      there is no ghost, F_UNLCK always; and without a ghost for as long as no request has met
      the wrapped end. */
  lemma GrantedIff(es: seq<Event>, ino: nat, r: Request, wait: bool)
    requires IsRun(INITIAL, es) && r.Valid()
    ensures var s := After(INITIAL, es);
            var l := ListOf(s.lists, ino);
            && (Attempt(s, ino, r, wait).1 == Done <==> r.typ == UnLck || (BytesFree(l, r) && !HasGhost(l, r)))
            && (!wait && Attempt(s, ino, r, wait).1 != Done ==> Attempt(s, ino, r, wait).1 == Again)
            && (NeverMisses(INITIAL, es) ==> !HasGhost(l, r))
  {
    ReachableInv(es);
    var s := After(INITIAL, es);
    AttemptGrants(s, ino, r, wait);
    if NeverMisses(INITIAL, es) {
      assert WaitsFor(INITIAL) == map[];
      RunTidyIff(INITIAL, es);
      CanonicalHasNoGhost(ListOf(s.lists, ino), r);
    }
  }

  lemma AttemptGrants(s: Sys, ino: nat, r: Request, wait: bool)
    requires Inv(s) && r.Valid()
    ensures var l := ListOf(s.lists, ino);
            Attempt(s, ino, r, wait).1 == Done <==> r.typ == UnLck || (BytesFree(l, r) && !HasGhost(l, r))
  {
    var l := ListOf(s.lists, ino);
    GoodListOf(s, ino);
    if r.typ != UnLck {
      ScanIsFirst(l, r);
      NoConflictIff(l, r);
    }
  }

  lemma DeadlockIff(s: Sys, ino: nat, r: Request)
    requires Inv(s) && Idle(s, r.owner) && r.typ != UnLck
    ensures var l := ListOf(s.lists, ino);
            && (Attempt(s, ino, r, true).1 == Done <==> NoConflict(l, r))
            && forall k: nat :: FirstConflict(l, r, k) ==>
                 (Attempt(s, ino, r, true).1 == Deadlock <==> !Acyclic(WaitsFor(s)[r.owner := l[k].owner]))
  {
    var l := ListOf(s.lists, ino);
    var k := Scan(l, r);
    ScanIsFirst(l, r);
    if k < |l| {
      BlockGraph(s, ino, r, l[k]);
      EdgeClosesCycle(WaitsFor(s), r.owner, l[k].owner);
    }
  }

  lemma ScanIsFirst(l: seq<Lock>, r: Request)
    ensures Scan(l, r) == |l| <==> NoConflict(l, r)
    ensures forall k: nat :: FirstConflict(l, r, k) ==> k == Scan(l, r)
    ensures Scan(l, r) < |l| ==> l[Scan(l, r)] in l
  {
    assert forall m: nat :: m < |l| ==> l[m] in l;
  }

  /** A close takes away everything the files table held on the inode and nothing else. */
  lemma CloseExact(s: Sys, ino: nat, files: nat, o: Owner, b: int)
    ensures var s1 := Step(s, Close(ino, files));
            && TypesAt(ListOf(s1.lists, ino), o, b)
               == (if o.files == files then {} else TypesAt(ListOf(s.lists, ino), o, b))
            && forall i :: i != ino ==> ListOf(s1.lists, i) == ListOf(s.lists, i)
  {
    RemainingTypes(ListOf(s.lists, ino), files, o, b);
  }

  // ---------------------------------------------------------------- refinement over runs

  lemma {:induction false} RemainingCanonical(l: seq<Lock>, files: nat)
    requires Canonical(l)
    ensures Canonical(Remaining(l, files))
  {
    if l != [] {
      var t := l[1..];
      assert forall i :: 0 <= i < |t| ==> t[i] == l[i + 1];
      forall i, k, j | Between(t, i, k, j) ensures t[k].owner == t[i].owner { assert Between(l, i + 1, k + 1, j + 1); }
      RemainingCanonical(t, files);
      if l[0].owner.files != files {
        forall x | x in Remaining(t, files) && x.owner == l[0].owner
          ensures Gap(l[0], x) && Remaining(t, files)[0].owner == l[0].owner
        {
          SurvivorAfterHead(l, files, x);
        }
        assert l[0] in l;
        PrependCanonical(l[0], Remaining(t, files));
      }
    }
  }

  lemma SurvivorAfterHead(l: seq<Lock>, files: nat, x: Lock)
    requires Canonical(l) && l != [] && l[0].owner.files != files
    requires x in Remaining(l[1..], files) && x.owner == l[0].owner
    ensures Gap(l[0], x) && Remaining(l[1..], files)[0].owner == l[0].owner
  {
    var i :| 0 <= i < |l[1..]| && l[1..][i] == x;
    assert l[i + 1] == x && l[1..][0] == l[1];
    assert i > 0 ==> Between(l, 0, 1, i + 1);
  }

  lemma PrependCanonical(h: Lock, r: seq<Lock>)
    requires WellFormed(h) && Canonical(r)
    requires forall x :: x in r && x.owner == h.owner ==> Gap(h, x) && r[0].owner == h.owner
    ensures Canonical([h] + r)
  {
    var m := [h] + r;
    forall i, k, j | Between(m, i, k, j) ensures m[k].owner == m[i].owner {
      assert m[j] == r[j - 1] && m[j] in r && m[k] == r[k - 1];
      assert i > 0 ==> Between(r, i - 1, k - 1, j - 1);
      assert i == 0 && k > 1 ==> Between(r, 0, k - 1, j - 1);
    }
    forall i, j | 0 <= i < j < |m| && m[i].owner == m[j].owner ensures Gap(m[i], m[j]) {
      assert m[j] == r[j - 1] && m[j] in r;
    }
  }

  ghost predicate Tidy(s: Sys) { forall ino :: ino in s.lists ==> Canonical(s.lists[ino]) }

  /** The request goes through, and the caller has a lock of its type that the wrapped end
      makes the loop miss. */
  ghost predicate Misses(s: Sys, ino: nat, r: Request) {
    (r.typ == UnLck || NoConflict(ListOf(s.lists, ino), r)) && TailClash(ListOf(s.lists, ino), r)
  }

  ghost predicate StepMisses(s: Sys, e: Event) {
    match e
    case SetLk(ino, r, wait) => Misses(s, ino, r)
    case Retry(p) => Misses(s, p.ino, p.req)
    case Signal(o) => false
    case Close(ino, files) => false
  }

  /** The byte map of `l1` is that of `l` with the request laid over it. */
  ghost predicate AsSpecified(l: seq<Lock>, r: Request, l1: seq<Lock>) {
    forall o, b :: TypesAt(l1, o, b) == SpecAt(l, r, o, b)
  }

  lemma AttemptTidyIff(s: Sys, ino: nat, r: Request, wait: bool)
    requires Tidy(s) && r.Valid()
    ensures Tidy(Attempt(s, ino, r, wait).0) <==> !Misses(s, ino, r)
    ensures Attempt(s, ino, r, wait).1 == Done ==>
      (AsSpecified(ListOf(s.lists, ino), r, ListOf(Attempt(s, ino, r, wait).0.lists, ino))
       <==> !MapClash(ListOf(s.lists, ino), r))
  {
    var l := ListOf(s.lists, ino);
    CanonicalIff(l, r, s.nextId);
    ByteMapIff(l, r, s.nextId);
    var s1 := Attempt(s, ino, r, wait).0;
    if r.typ == UnLck || Scan(l, r) == |l| {
      var l1 := Apply(l, r, s.nextId).list;
      assert s1.lists == s.lists[ino := l1] && ino in s1.lists && s1.lists[ino] == l1;
      assert Tidy(s1) <==> Canonical(l1);
    } else {
      assert s1.lists == s.lists;
      assert l[Scan(l, r)] in l;
    }
  }

  lemma StepTidyIff(s: Sys, e: Event)
    requires Tidy(s) && Inv(s) && Enabled(s, e)
    ensures Tidy(Step(s, e)) <==> !StepMisses(s, e)
  {
    match e
    case SetLk(ino, r, wait) => AttemptTidyIff(s, ino, r, wait);
    case Retry(p) => AttemptTidyIff(s.(retry := s.retry - {p}), p.ino, p.req, true);
    case Signal(o) =>
    case Close(ino, files) => RemainingCanonical(ListOf(s.lists, ino), files);
  }

  /** Every list is canonical before and after every step. */
  ghost predicate StaysTidy(s: Sys, es: seq<Event>)
    requires IsRun(s, es)
    decreases |es|
  {
    Tidy(s) && (es != [] ==> StaysTidy(Step(s, es[0]), es[1..]))
  }

  /** No step of the run meets the wrapped end. */
  ghost predicate NeverMisses(s: Sys, es: seq<Event>)
    requires IsRun(s, es)
    decreases |es|
  {
    es != [] ==> !StepMisses(s, es[0]) && NeverMisses(Step(s, es[0]), es[1..])
  }

  lemma {:induction false} RunTidyIff(s: Sys, es: seq<Event>)
    requires Tidy(s) && Inv(s) && IsRun(s, es)
    ensures StaysTidy(s, es) <==> NeverMisses(s, es)
    ensures NeverMisses(s, es) ==> Tidy(After(s, es))
    decreases |es|
  {
    if es != [] {
      StepTidyIff(s, es[0]);
      StepKeepsInv(s, es[0]);
      if !StepMisses(s, es[0]) { RunTidyIff(Step(s, es[0]), es[1..]); }
    }
  }

  /** Over whole runs: the lists are canonical throughout exactly when no request to the
      largest offset goes through while its caller has a lock of that type in reach of it; and
      then the next call that completes changes the byte map as fcntl() is specified to,
      exactly when no lock of the other type follows such a lock. */
  lemma RunsRefineIff(es: seq<Event>, ino: nat, r: Request, wait: bool)
    requires IsRun(INITIAL, es) && r.Valid()
    ensures StaysTidy(INITIAL, es) <==> NeverMisses(INITIAL, es)
    ensures var s := After(INITIAL, es);
            NeverMisses(INITIAL, es) && Attempt(s, ino, r, wait).1 == Done ==>
              (AsSpecified(ListOf(s.lists, ino), r, ListOf(Attempt(s, ino, r, wait).0.lists, ino))
               <==> !MapClash(ListOf(s.lists, ino), r))
  {
    assert WaitsFor(INITIAL) == map[];
    RunTidyIff(INITIAL, es);
    if NeverMisses(INITIAL, es) { AttemptTidyIff(After(INITIAL, es), ino, r, wait); }
  }

  // ---------------------------------------------------------------- F_GETLK and F_SETLK

  /** F_GETLK reports nothing exactly when F_SETLK would not say EAGAIN, and otherwise
      reports the very lock F_SETLK stumbles on; for F_UNLCK, which F_SETLK never refuses,
      it reports a lock exactly when somebody else has a write lock in the range, or a ghost. */
  lemma GetAgreesWithSet(s: Sys, ino: nat, r: Request, k: nat)
    requires Inv(s) && r.Valid()
    requires var l := ListOf(s.lists, ino);
             k <= |l| && (k < |l| ==> Bars(l[k], r)) && forall i :: 0 <= i < k ==> !Bars(l[i], r)
    ensures r.typ != UnLck ==>
      (k == |ListOf(s.lists, ino)| <==> Attempt(s, ino, r, false).1 != Again) && k == Scan(ListOf(s.lists, ino), r)
    ensures r.typ == UnLck ==> Attempt(s, ino, r, false).1 == Done
    ensures k == |ListOf(s.lists, ino)| <==> BytesFree(ListOf(s.lists, ino), r) && !HasGhost(ListOf(s.lists, ino), r)
  {
    var l := ListOf(s.lists, ino);
    GoodListOf(s, ino);
    assert forall i :: 0 <= i < |l| ==> l[i] in l;
    assert forall x :: x in l ==> exists i :: 0 <= i < |l| && l[i] == x;
    FreeIff(l, r);
    if r.typ != UnLck {
      forall i | 0 <= i < |l| ensures Conflict(r, l[i]) <==> Bars(l[i], r) { ConflictIff(l[i], r); }
    }
  }
}
