/** What one call does to the whole system (fs/locks.c:390-451, 607-614, 853-900): every answer with
    the state it leaves. */
module LockCalls {
  import opened Common
  import opened PosixLocks
  import opened LockEdit
  import opened LockSafety
  import opened WaitGraph
  import opened LockSystem
  import opened LockGrants
  import opened LockRuns

  /** Nobody else holds a byte of the range against the request, and no ghost is in the way. */
  ghost predicate MayHave(l: seq<Lock>, r: Request) { r.typ == UnLck || (BytesFree(l, r) && !HasGhost(l, r)) }

  /** The locks of other owners, and those on other files, are as they were. */
  ghost predicate OthersKept(s: Sys, s1: Sys, ino: nat, o: Owner) {
    && (forall i :: i != ino ==> ListOf(s1.lists, i) == ListOf(s.lists, i))
    && (forall p, b :: p != o ==> TypesAt(ListOf(s1.lists, ino), p, b) == TypesAt(ListOf(s.lists, ino), p, b))
  }

  lemma GrantedExact(s: Sys, ino: nat, r: Request, wait: bool)
    requires Inv(s) && r.Valid() && Idle(s, r.owner) && MayHave(ListOf(s.lists, ino), r)
    ensures var (s1, res) := Attempt(s, ino, r, wait);
            res == Done && Idle(s1, r.owner) && OthersKept(s, s1, ino, r.owner)
  {
    var l, s1 := ListOf(s.lists, ino), Attempt(s, ino, r, wait).0;
    AttemptGrants(s, ino, r, wait);
    GoodListOf(s, ino);
    forall p, b | p != r.owner ensures TypesAt(ListOf(s1.lists, ino), p, b) == TypesAt(l, p, b) {
      ApplyGrants(l, r, s.nextId, p, b);
    }
  }

  /** A request that meets its first bar at `k`: refused at once if it may not wait, with EDEADLK if
      its sleep would close a cycle, and neither changes anything; otherwise its task sleeps on
      that record, and nothing else has changed. */
  lemma RefusedExact(s: Sys, ino: nat, r: Request, wait: bool, k: nat)
    requires Inv(s) && r.Valid() && r.typ != UnLck && Idle(s, r.owner) && FirstBar(ListOf(s.lists, ino), r, k)
    ensures var (s1, res) := Attempt(s, ino, r, wait);
            var bar := ListOf(s.lists, ino)[k];
            var cycle := !Acyclic(WaitsFor(s)[r.owner := bar.owner]);
            && res == (if !wait then Again else if cycle then Deadlock else Asleep)
            && s1 == if res == Asleep then s.(blocked := [Waiter(ino, r, bar.id)] + s.blocked) else s
  {
    var l := ListOf(s.lists, ino);
    GoodListOf(s, ino);
    assert forall m :: 0 <= m < |l| ==> l[m] in l;
    forall i | 0 <= i <= k ensures Conflict(r, l[i]) <==> Bars(l[i], r) { ConflictIff(l[i], r); }
    ScanIsFirst(l, r);
    DeadlockIff(s, ino, r);
  }

  /** There is a first bar exactly when the request may not be granted. */
  lemma BarredIff(l: seq<Lock>, r: Request)
    requires r.Valid() && r.typ != UnLck
    ensures MayHave(l, r) <==> !exists k: nat :: FirstBar(l, r, k)
  {
    FreeIff(l, r);
    if exists x :: x in l && Bars(x, r) {
      var k := LeastBar(l, r);
      assert FirstBar(l, r, k);
    } else {
      assert forall k :: 0 <= k < |l| ==> l[k] in l;
    }
  }

  lemma {:induction false} LeastBar(l: seq<Lock>, r: Request) returns (k: nat)
    requires exists x :: x in l && Bars(x, r)
    ensures FirstBar(l, r, k)
  {
    if Bars(l[0], r) {
      k := 0;
    } else {
      var j := LeastBar(l[1..], r);
      k := j + 1;
    }
  }

  /** The system without a task that is to scan again. */
  lemma RetryReady(s: Sys, p: Pending) returns (s0: Sys)
    requires Inv(s) && p in s.retry
    ensures s0 == s.(retry := s.retry - {p}) && Inv(s0) && Idle(s0, p.req.owner) && WaitsFor(s0) == WaitsFor(s)
    ensures Step(s, Retry(p)) == Attempt(s0, p.ino, p.req, true).0 && p.req.Valid() && p.req.typ != UnLck
  {
    s0 := s.(retry := s.retry - {p});
    FewerWaits(s, s0);
    SubgraphAcyclic(WaitsFor(s0), WaitsFor(s));
    assert forall o :: Awaits(s0, o) == Awaits(s, o);
  }

  /** A task that scans again and may have what it asked for gets it, and is through with its call. */
  lemma RetryGranted(s: Sys, p: Pending)
    requires Inv(s) && p in s.retry && MayHave(ListOf(s.lists, p.ino), p.req)
    ensures var s1 := Step(s, Retry(p)); Idle(s1, p.req.owner) && OthersKept(s, s1, p.ino, p.req.owner)
  {
    var s0 := RetryReady(s, p);
    GrantedExact(s0, p.ino, p.req, true);
  }

  /** One that may not goes back to sleep on the first record in its way, or gives up with EDEADLK
      exactly when that would close a cycle. */
  lemma RetryRefused(s: Sys, p: Pending, k: nat)
    requires Inv(s) && p in s.retry && FirstBar(ListOf(s.lists, p.ino), p.req, k)
    ensures var s0, bar := s.(retry := s.retry - {p}), ListOf(s.lists, p.ino)[k];
            Step(s, Retry(p)) ==
              if Acyclic(WaitsFor(s)[p.req.owner := bar.owner])
              then s0.(blocked := [Waiter(p.ino, p.req, bar.id)] + s0.blocked) else s0
  {
    var s0 := RetryReady(s, p);
    RefusedExact(s0, p.ino, p.req, true, k);
  }

  /** A signal takes the task off the lists, and touches nobody else. */
  lemma SignalExact(s: Sys, o: Owner)
    ensures var s1 := Step(s, Signal(o));
            && Idle(s1, o) && s1.lists == s.lists
            && (forall w: Waiter :: w.req.owner != o ==> (w in s1.blocked <==> w in s.blocked))
            && (forall p: Pending :: p.req.owner != o ==> (p in s1.retry <==> p in s.retry))
  {
  }
}
