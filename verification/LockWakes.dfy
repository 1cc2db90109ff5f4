/** Who is woken (fs/locks.c:439-461, 903-1017): the waiters of a record are woken exactly when the
    record is gone, has another type or has lost some of its range. */
module LockWakes {
  import opened Common
  import opened PosixLocks
  import opened LockEdit
  import opened LockSafety
  import opened WaitGraph
  import opened LockSystem
  import opened LockRuns

  // ---------------------------------------------------------------- one list

  /** What the loop has not reached is still as it was in `l`, and so is the record it is going
      to cut at its upper end. */
  ghost predicate Traced(l: seq<Lock>, c: Cursor, n: nat) {
    && IdsBelow(l, n) && IdsBelow(c.done + c.rest, n)
    && (forall y :: y in c.rest ==> y in l)
    && (0 <= c.left < |c.done| ==> c.done[c.left] in l)
  }

  /** If the waiters of `x` have been woken, no record has its identity and its type. */
  ghost predicate Retyped(c: Cursor, x: Lock) {
    x.id in c.woken ==> forall y :: y in c.done + c.rest && y.id == x.id ==> y.typ != x.typ
  }

  lemma SameRecord(l: seq<Lock>, n: nat, x: Lock, y: Lock)
    requires IdsBelow(l, n) && x in l && y in l && x.id == y.id
    ensures x == y
  {
  }

  lemma AdvanceWakes(l: seq<Lock>, c: Cursor, x: Lock, n: nat)
    requires Traced(l, c, n) && Retyped(c, x) && c.rest != [] && IdsBelow(Advance(c).done + Advance(c).rest, n)
    ensures Traced(l, Advance(c), n) && Retyped(Advance(c), x)
  {
    assert Advance(c).done + Advance(c).rest == c.done + c.rest;
  }

  /** The record at the slot is deleted. */
  lemma DeleteWakes(l: seq<Lock>, c: Cursor, x: Lock, n: nat)
    requires Traced(l, c, n) && Retyped(c, x) && c.rest != [] && IdsBelow(Delete(c).done + Delete(c).rest, n)
    ensures Traced(l, Delete(c), n) && Retyped(Delete(c), x)
  {
    var c1, all := Delete(c), c.done + c.rest;
    forall y | y in c1.done + c1.rest ensures y in all && y.id != c.rest[0].id {
      var i :| 0 <= i < |c1.done + c1.rest| && (c1.done + c1.rest)[i] == y;
      var k := if i < |c.done| then i else i + 1;
      assert all[k] == y && all[|c.done|] == c.rest[0] && k != |c.done|;
    }
  }

  /** The record at the slot becomes the caller; its waiters need not be woken if it had the type. */
  lemma AdoptWakes(l: seq<Lock>, c: Cursor, t: LockType, s: int, e: int, x: Lock, n: nat, wake: bool)
    requires Traced(l, c, n) && Retyped(c, x) && c.rest != [] && x in l && (c.rest[0].typ == t ==> !wake)
    requires c.left < |c.done|
    requires var a := Adopt(c, t, s, e); IdsBelow(a.done + a.rest, n)
    ensures var a := Adopt(c, t, s, e).(woken := c.woken + if wake then {c.rest[0].id} else {});
            Traced(l, a, n) && Retyped(a, x)
  {
    var a, fl := Adopt(c, t, s, e), c.rest[0];
    assert fl in c.done + c.rest;
    forall y | y in a.done + a.rest ensures y in c.done + c.rest || y == fl.(typ := t, start := s, end := e) {}
    if x.id == fl.id {
      SameRecord(l, n, x, fl);
      forall y | y in a.done + a.rest && y.id == x.id ensures y == fl.(typ := t, start := s, end := e) {
        assert fl.(typ := t, start := s, end := e) == a.done[|c.done|];
        SameRecord(a.done + a.rest, n, y, a.done[|c.done|]);
      }
    }
  }

  /** The caller's range grows; its record keeps identity and type. */
  lemma SetCallerWakes(l: seq<Lock>, c: Cursor, s: int, e: int, x: Lock, n: nat)
    requires Traced(l, c, n) && Retyped(c, x) && c.left != c.alias
    ensures Traced(l, SetCaller(c, s, e), n) && Retyped(SetCaller(c, s, e), x)
  {
    var c1 := SetCaller(c, s, e);
    var all, all1 := c.done + c.rest, c1.done + c1.rest;
    assert |all1| == |all| && forall i :: 0 <= i < |all| ==> all1[i].id == all[i].id && all1[i].typ == all[i].typ;
    SameIds(all, all1, 0, false, n);
    forall y | y in all1 ensures exists z :: z in all && z.id == y.id && z.typ == y.typ {
      var i :| 0 <= i < |all1| && all1[i] == y;
      assert all[i] in all;
    }
  }

  lemma StepSameWakes(l: seq<Lock>, c: Cursor, o: Owner, t: LockType, x: Lock, n: nat)
    requires Coherent(c, o, t) && Traced(l, c, n) && Retyped(c, x) && x in l
    requires Next(c, o, t).Go? && c.rest[0].typ == t
    ensures Traced(l, Next(c, o, t).c, n) && Retyped(Next(c, o, t).c, x)
  {
    var fl := c.rest[0];
    var s, e := Min(fl.start, c.start), Max(fl.end, c.end);
    StepIds(c, o, t, n);
    if fl.end < c.start - 1 {
      AdvanceWakes(l, c, x, n);
    } else if c.added {
      SetCallerWakes(l, c, s, e, x, n);
      DeleteWakes(l, SetCaller(c, s, e), x, n);
    } else {
      AdoptWakes(l, c, t, s, e, x, n, false);
      assert Adopt(c, t, s, e).(woken := c.woken + {}) == Adopt(c, t, s, e);
    }
  }

  lemma StepOtherWakes(l: seq<Lock>, c: Cursor, o: Owner, t: LockType, x: Lock, n: nat)
    requires Coherent(c, o, t) && Traced(l, c, n) && Retyped(c, x) && x in l
    requires Next(c, o, t).Go? && c.rest[0].typ != t
    ensures Traced(l, Next(c, o, t).c, n) && Retyped(Next(c, o, t).c, x)
  {
    var fl := c.rest[0];
    StepIds(c, o, t, n);
    if fl.end < c.start {
      AdvanceWakes(l, c, x, n);
    } else {
      var c1 := c.(added := c.added || t == UnLck, left := if fl.start < c.start then |c.done| else c.left);
      if fl.start < c.start {
        AdvanceWakes(l, c1, x, n);
      } else if c1.added {
        DeleteWakes(l, c1, x, n);
      } else {
        AdoptWakes(l, c1, t, c.start, c.end, x, n, true);
      }
    }
  }

  lemma StepWakes(l: seq<Lock>, c: Cursor, o: Owner, t: LockType, x: Lock, n: nat)
    requires Coherent(c, o, t) && Traced(l, c, n) && Retyped(c, x) && x in l && Next(c, o, t).Go?
    ensures Coherent(Next(c, o, t).c, o, t) && Traced(l, Next(c, o, t).c, n) && Retyped(Next(c, o, t).c, x)
  {
    if c.rest[0].typ == t {
      StepSameGrants(c, o, t, o, 0);
      StepSameWakes(l, c, o, t, x, n);
    } else {
      StepOtherGrants(c, o, t, o, 0);
      StepOtherWakes(l, c, o, t, x, n);
    }
  }

  lemma StopWakes(l: seq<Lock>, c: Cursor, o: Owner, t: LockType, x: Lock, n: nat)
    requires Coherent(c, o, t) && Traced(l, c, n) && Retyped(c, x) && Next(c, o, t).Stop?
    ensures var v := Next(c, o, t); CoherentStop(v.c, v.right, o, t) && Traced(l, v.c, n) && Retyped(v.c, x)
  {
    StopCoherent(c, o, t);
  }

  /** Where a record of the outcome comes from, and which identities it can have. */
  lemma FinishMember(c: Cursor, right: bool, o: Owner, t: LockType, n: nat, y: Lock)
    requires right ==> c.rest != []
    requires y in Finish(c, right, o, t, n).list && y.id < n
    ensures y in Lower(c) || y in Upper(c, right) || y in c.done + c.rest
    ensures c.added || t != UnLck ==> y in Lower(c) || y in Upper(c, right)
  {
  }

  lemma UpperMember(c: Cursor, right: bool, y: Lock)
    requires (right ==> c.rest != []) && y in Upper(c, right)
    ensures y in c.rest || (right && y == c.rest[0].(start := Succ(c.end)))
  {
  }

  lemma OnlyAt(l: seq<Lock>, n: nat, k: nat)
    requires IdsBelow(l, n) && k < |l|
    ensures forall i :: 0 <= i < |l| && l[i].id == l[k].id ==> i == k
  {
  }

  /** The record that sticks out below is cut there, and nothing else has its identity. */
  lemma LeftCut(c: Cursor, right: bool, n: nat, y: Lock)
    requires (right ==> c.rest != []) && IdsBelow(c.done + c.rest, n) && 0 <= c.left < |c.done|
    requires (y in Lower(c) || y in Upper(c, right)) && y.id == c.done[c.left].id
    ensures y == c.done[c.left].(end := c.start - 1)
  {
    var all := c.done + c.rest;
    OnlyAt(all, n, c.left);
    forall i | 0 <= i < |c.rest| ensures Upper(c, right)[i].id != c.done[c.left].id {
      assert all[|c.done| + i].id == Upper(c, right)[i].id;
    }
    var i :| 0 <= i < |c.done| && Lower(c)[i] == y;
    assert all[i].id == y.id;
  }

  lemma RightCut(c: Cursor, n: nat, y: Lock)
    requires c.rest != [] && IdsBelow(c.done + c.rest, n)
    requires (y in Lower(c) || y in Upper(c, true)) && y.id == c.rest[0].id
    ensures y == c.rest[0].(start := Succ(c.end))
  {
    var all := c.done + c.rest;
    OnlyAt(all, n, |c.done|);
    forall i | 0 <= i < |c.done| ensures Lower(c)[i].id != c.rest[0].id {
      assert all[i].id == Lower(c)[i].id;
    }
    var i :| 0 <= i < |c.rest| && Upper(c, true)[i] == y;
    assert all[|c.done| + i].id == y.id;
  }

  /** Nobody is woken whose record is as good as before. */
  lemma FinishWakes(l: seq<Lock>, c: Cursor, right: bool, o: Owner, t: LockType, n: nat, x: Lock, y: Lock)
    requires CoherentStop(c, right, o, t) && Traced(l, c, n) && Retyped(c, x) && x in l
    requires x.id in Finish(c, right, o, t, n).woken && y in Finish(c, right, o, t, n).list
    ensures !Grown(x, y)
  {
    if y.id == x.id {
      FinishMember(c, right, o, t, n, y);
      if x.id in c.woken {
        var z := FinishSource(c, right, o, t, n, y);
      } else if right && x.id == c.rest[0].id {
        SameRecord(l, n, x, c.rest[0]);
        RightCut(c, n, y);
      } else {
        SameRecord(l, n, x, c.done[c.left]);
        LeftCut(c, right, n, y);
      }
    }
  }

  /** A record of the outcome that is not new has the type of one from before. */
  lemma FinishSource(c: Cursor, right: bool, o: Owner, t: LockType, n: nat, y: Lock) returns (z: Lock)
    requires right ==> c.rest != []
    requires y in Finish(c, right, o, t, n).list && y.id < n
    ensures z in c.done + c.rest && z.id == y.id && z.typ == y.typ
  {
    FinishMember(c, right, o, t, n, y);
    z := y;
    if c.added || t != UnLck {
      if y in Lower(c) {
        LowerMember(c, y);
        if y !in c.done { z := c.done[c.left]; }
      } else {
        UpperMember(c, right, y);
        if y !in c.rest { z := c.rest[0]; }
      }
    }
  }

  lemma {:induction false} WalkWoken(l: seq<Lock>, c: Cursor, o: Owner, t: LockType, n: nat, x: Lock, y: Lock)
    requires Coherent(c, o, t) && Traced(l, c, n) && Retyped(c, x) && x in l
    requires x.id in Walk(c, o, t, n).woken && y in Walk(c, o, t, n).list
    ensures !Grown(x, y)
    decreases |c.rest|
  {
    match Next(c, o, t)
    case Go(c1) =>
      StepWakes(l, c, o, t, x, n);
      WalkWoken(l, c1, o, t, n, x, y);
    case Stop(c1, right) =>
      StopWakes(l, c, o, t, x, n);
      FinishWakes(l, c1, right, o, t, n, x, y);
  }

  /** The waiters of a record are woken exactly when no record is left with its identity, owner
      and type, and with at least its range. */
  lemma ApplyWakesIff(l: seq<Lock>, r: Request, n: nat, x: Lock)
    requires Typed(l) && IdsBelow(l, n) && r.Valid() && x in l
    ensures x.id in Apply(l, r, n).woken <==> !exists y :: y in Apply(l, r, n).list && Grown(x, y)
  {
    var c := Start(l, r);
    assert l == c.done + c.rest;
    if x.id in Apply(l, r, n).woken {
      forall y | y in Apply(l, r, n).list ensures !Grown(x, y) { WalkWoken(l, c, r.owner, r.typ, n, x, y); }
    } else {
      var y := ApplyKeeps(l, r, n, x);
    }
  }

  // ---------------------------------------------------------------- the system

  /** The record of `x` is still in the list, with its type and at least its range. */
  ghost predicate Stands(l: seq<Lock>, x: Lock) { exists y :: y in l && Grown(x, y) }

  lemma AttemptWakesIff(s: Sys, ino: nat, r: Request, wait: bool, w: Waiter, x: Lock)
    requires Inv(s) && r.Valid() && w in s.blocked && x in ListOf(s.lists, w.ino) && x.id == w.blocker
    ensures var s1 := Attempt(s, ino, r, wait).0;
            w in s1.blocked <==> Stands(ListOf(s1.lists, w.ino), x)
  {
    var l := ListOf(s.lists, ino);
    assert Grown(x, x);
    if r.typ == UnLck || Scan(l, r) == |l| {
      GoodListOf(s, ino);
      if w.ino == ino { ApplyWakesIff(l, r, s.nextId, x); }
    }
  }

  lemma CloseWakesIff(s: Sys, ino: nat, files: nat, w: Waiter, x: Lock)
    requires Inv(s) && w in s.blocked && x in ListOf(s.lists, w.ino) && x.id == w.blocker
    ensures var s1 := Step(s, Close(ino, files));
            w in s1.blocked <==> Stands(ListOf(s1.lists, w.ino), x)
  {
    var l := ListOf(s.lists, ino);
    assert Grown(x, x);
    GoodListOf(s, ino);
    if w.ino == ino {
      forall y | y in l && y.id == x.id ensures y == x { SameRecord(l, s.nextId, x, y); }
    }
  }

  /** Whatever happens, short of a signal to its task, a waiter goes on sleeping exactly when the
      record it sleeps on stands as it was or has grown. */
  lemma WakesIff(s: Sys, e: Event, w: Waiter, x: Lock)
    requires Inv(s) && Enabled(s, e) && e != Signal(w.req.owner)
    requires w in s.blocked && x in ListOf(s.lists, w.ino) && x.id == w.blocker
    ensures w in Step(s, e).blocked <==> Stands(ListOf(Step(s, e).lists, w.ino), x)
  {
    match e
    case SetLk(ino, r, wait) => AttemptWakesIff(s, ino, r, wait, w, x);
    case Retry(p) =>
      var s0 := s.(retry := s.retry - {p});
      FewerWaits(s, s0);
      SubgraphAcyclic(WaitsFor(s0), WaitsFor(s));
      AttemptWakesIff(s0, p.ino, p.req, true, w, x);
    case Signal(o) => assert Grown(x, x);
    case Close(ino, files) => CloseWakesIff(s, ino, files, w, x);
  }
}
