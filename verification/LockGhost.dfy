/** A ghost record in a reachable list (fs/locks.c:923, 1014-1016): five requests of one owner, two
    of them to the largest offset, leave a write lock that covers no byte and still keeps another
    owner's read lock out. */
module LockGhost {
  import opened Common
  import opened PosixLocks
  import opened LockEdit
  import opened LockSafety
  import opened LockSystem
  import opened WaitGraph
  import opened LockGrants

  const A: Owner := Owner(1, 1)
  const B: Owner := Owner(2, 2)

  function Rd(id: nat, s: int, e: int): Lock { Lock(id, A, RdLck, s, e) }

  function Wr(id: nat, s: int, e: int): Lock { Lock(id, A, WrLck, s, e) }

  function Ask(t: LockType, s: int, e: int): Request { Request(A, t, s, e) }

  /** One step of the walk. */
  lemma WalkOn(c: Cursor, c1: Cursor, t: LockType, n: nat)
    requires Next(c, A, t) == Go(c1)
    ensures Walk(c, A, t, n) == Walk(c1, A, t, n)
  {
  }

  /** The loop stops, and the new record goes into its slot. */
  lemma WalkInserts(c: Cursor, t: LockType, n: nat)
    requires Next(c, A, t) == Stop(c, false) && !c.added && c.left == -1 && t != UnLck
    ensures Walk(c, A, t, n).list == c.done + [Lock(n, A, t, c.start, c.end)] + c.rest
  {
    assert Walk(c, A, t, n) == Finish(c, false, A, t, n);
    assert Lower(c) == c.done && Split(c, false, n) == [] && Upper(c, false) == c.rest;
    assert c.done + [] == c.done;
  }

  lemma First()
    ensures Apply([], Ask(RdLck, 1, 1), 0).list == [Rd(0, 1, 1)]
  {
    var c := Cursor([], [], 1, 1, false, -1, -1, {});
    assert Start([], Ask(RdLck, 1, 1)) == c && Next(c, A, RdLck) == Stop(c, false);
    WalkInserts(c, RdLck, 0);
  }

  lemma Second()
    ensures Apply([Rd(0, 1, 1)], Ask(RdLck, 1, OFFSET_MAX), 2).list == [Rd(2, 1, OFFSET_MAX), Rd(0, 1, 1)]
  {
    var l := [Rd(0, 1, 1)];
    var c := Cursor([], l, 1, OFFSET_MAX, false, -1, -1, {});
    assert FirstOwn(l, A) == 0 && l[..0] == [] && l[0..] == l;
    assert Start(l, Ask(RdLck, 1, OFFSET_MAX)) == c && Next(c, A, RdLck) == Stop(c, false);
    WalkInserts(c, RdLck, 2);
  }

  lemma Third()
    ensures Apply([Rd(2, 1, OFFSET_MAX), Rd(0, 1, 1)], Ask(WrLck, 1, 2), 4).list
         == [Wr(4, 1, 2), Rd(2, 3, OFFSET_MAX), Rd(0, 1, 1)]
  {
    var l := [Rd(2, 1, OFFSET_MAX), Rd(0, 1, 1)];
    var c := Cursor([], l, 1, 2, false, -1, -1, {});
    assert FirstOwn(l, A) == 0 && l[..0] == [] && l[0..] == l;
    assert Start(l, Ask(WrLck, 1, 2)) == c && Next(c, A, WrLck) == Stop(c, true);
    assert l[1..] == [Rd(0, 1, 1)];
  }

  lemma Fourth()
    ensures Apply([Wr(4, 1, 2), Rd(2, 3, OFFSET_MAX), Rd(0, 1, 1)], Ask(WrLck, 4, OFFSET_MAX), 6).list
         == [Wr(4, 1, 2), Rd(2, 3, 3), Rd(0, 1, 1), Wr(6, 4, OFFSET_MAX)]
  {
    var l := [Wr(4, 1, 2), Rd(2, 3, OFFSET_MAX), Rd(0, 1, 1)];
    var c := Cursor([], l, 4, OFFSET_MAX, false, -1, -1, {});
    assert FirstOwn(l, A) == 0 && l[..0] == [] && l[0..] == l;
    var c1 := c.(done := [l[0]], rest := [l[1], l[2]]);
    var c2 := c.(done := [l[0], l[1]], rest := [l[2]], left := 1);
    var c3 := c2.(done := l, rest := []);
    assert l[1..] == [l[1], l[2]] && [l[1], l[2]][1..] == [l[2]];
    assert Start(l, Ask(WrLck, 4, OFFSET_MAX)) == c && Next(c, A, WrLck) == Go(c1);
    assert Next(c1, A, WrLck) == Go(c2);
    assert Next(c2, A, WrLck) == Go(c3);
    assert Next(c3, A, WrLck) == Stop(c3, false);
    WalkOn(c, c1, WrLck, 6);
    WalkOn(c1, c2, WrLck, 6);
    WalkOn(c2, c3, WrLck, 6);
  }

  lemma Fifth()
    ensures Apply([Wr(4, 1, 2), Rd(2, 3, 3), Rd(0, 1, 1), Wr(6, 4, OFFSET_MAX)], Ask(RdLck, 2, 2), 8).list
         == [Wr(4, 1, 0), Rd(2, 1, 3), Wr(6, 4, OFFSET_MAX)]
  {
    var l := [Wr(4, 1, 2), Rd(2, 3, 3), Rd(0, 1, 1), Wr(6, 4, OFFSET_MAX)];
    var c := Cursor([], l, 2, 2, false, -1, -1, {});
    assert FirstOwn(l, A) == 0 && l[..0] == [] && l[0..] == l;
    var c1 := c.(done := [l[0]], rest := [l[1], l[2], l[3]], left := 0);
    var c2 := Cursor([l[0], Rd(2, 2, 3)], [l[2], l[3]], 2, 3, true, 1, 0, {});
    var c3 := Cursor([l[0], Rd(2, 1, 3)], [l[3]], 1, 3, true, 1, 0, {0});
    assert l[1..] == [l[1], l[2], l[3]] && l[1..][1..] == [l[2], l[3]] && [l[2], l[3]][1..] == [l[3]];
    assert Start(l, Ask(RdLck, 2, 2)) == c && Next(c, A, RdLck) == Go(c1);
    assert Next(c1, A, RdLck) == Go(c2);
    assert Next(c2, A, RdLck) == Go(c3);
    assert Next(c3, A, RdLck) == Stop(c3, false);
    WalkOn(c, c1, RdLck, 8);
    WalkOn(c1, c2, RdLck, 8);
    WalkOn(c2, c3, RdLck, 8);
  }

  /** Nobody sleeps, and one inode has locks. */
  function At(l: seq<Lock>, n: nat): Sys { Sys(map[0 := l], [], {}, n) }

  lemma OneOwnerStep(l: seq<Lock>, t: LockType, s: int, e: int, n: nat, l1: seq<Lock>)
    requires (forall x :: x in l ==> x.owner == A) && 0 <= s <= e <= OFFSET_MAX && Apply(l, Ask(t, s, e), n).list == l1
    ensures Enabled(At(l, n), SetLk(0, Ask(t, s, e), false))
    ensures Step(At(l, n), SetLk(0, Ask(t, s, e), false)) == At(l1, n + 2)
  {
    var r := Ask(t, s, e);
    if Scan(l, r) < |l| { assert l[Scan(l, r)] in l; }
    var out := Apply(l, r, n);
    assert map[0 := l][0 := l1] == map[0 := l1];
    assert Wake(Sys(map[0 := l1], [], {}, n + 2), 0, out.woken) == At(l1, n + 2);
  }

  const E1: Event := SetLk(0, Ask(RdLck, 1, 1), false)
  const E2: Event := SetLk(0, Ask(RdLck, 1, OFFSET_MAX), false)
  const E3: Event := SetLk(0, Ask(WrLck, 1, 2), false)
  const E4: Event := SetLk(0, Ask(WrLck, 4, OFFSET_MAX), false)
  const E5: Event := SetLk(0, Ask(RdLck, 2, 2), false)

  function Requests(): seq<Event> { [E1] + [E2] + [E3] + [E4] + [E5] }

  ghost predicate Leads(es: seq<Event>, l: seq<Lock>, n: nat) { IsRun(INITIAL, es) && After(INITIAL, es) == At(l, n) }

  /** One request more of the same owner. */
  lemma LeadsOn(es: seq<Event>, l: seq<Lock>, t: LockType, s: int, e: int, n: nat, l1: seq<Lock>)
    requires Leads(es, l, n) && (forall x :: x in l ==> x.owner == A) && 0 <= s <= e <= OFFSET_MAX
    requires Apply(l, Ask(t, s, e), n).list == l1
    ensures Leads(es + [SetLk(0, Ask(t, s, e), false)], l1, n + 2)
  {
    OneOwnerStep(l, t, s, e, n, l1);
    RunSnoc(INITIAL, es, SetLk(0, Ask(t, s, e), false));
  }

  lemma {:induction false} RunSnoc(s: Sys, es: seq<Event>, e: Event)
    requires IsRun(s, es) && Enabled(After(s, es), e)
    ensures IsRun(s, es + [e]) && After(s, es + [e]) == Step(After(s, es), e)
    decreases |es|
  {
    if es == [] {
      assert es + [e] == [e] && IsRun(Step(s, e), []);
    } else {
      assert (es + [e])[1..] == es[1..] + [e];
      RunSnoc(Step(s, es[0]), es[1..], e);
    }
  }

  /** The list that the five requests leave. */
  const GHOSTLY: seq<Lock> := [Wr(4, 1, 0), Rd(2, 1, 3), Wr(6, 4, OFFSET_MAX)]

  lemma FirstStep()
    ensures Step(INITIAL, SetLk(0, Ask(RdLck, 1, 1), false)) == At([Rd(0, 1, 1)], 2)
  {
    First();
    var r := Ask(RdLck, 1, 1);
    var out := Apply([], r, 0);
    assert map[][0 := out.list] == map[0 := out.list];
    assert Wake(Sys(map[0 := out.list], [], {}, 2), 0, out.woken) == At(out.list, 2);
  }

  lemma LeadsFirst()
    ensures Leads([E1], [Rd(0, 1, 1)], 2)
  {
    FirstStep();
    assert [] + [E1] == [E1];
    RunSnoc(INITIAL, [], E1);
  }

  lemma Reached()
    ensures IsRun(INITIAL, Requests()) && After(INITIAL, Requests()) == At(GHOSTLY, 10)
  {
    var l1, l2 := [Rd(0, 1, 1)], [Rd(2, 1, OFFSET_MAX), Rd(0, 1, 1)];
    var l3 := [Wr(4, 1, 2), Rd(2, 3, OFFSET_MAX), Rd(0, 1, 1)];
    var l4 := [Wr(4, 1, 2), Rd(2, 3, 3), Rd(0, 1, 1), Wr(6, 4, OFFSET_MAX)];
    LeadsFirst();
    Second();
    LeadsOn([E1], l1, RdLck, 1, OFFSET_MAX, 2, l2);
    Third();
    LeadsOn([E1] + [E2], l2, WrLck, 1, 2, 4, l3);
    Fourth();
    LeadsOn([E1] + [E2] + [E3], l3, WrLck, 4, OFFSET_MAX, 6, l4);
    Fifth();
    LeadsOn([E1] + [E2] + [E3] + [E4], l4, RdLck, 2, 2, 8, GHOSTLY);
  }

  /** Every byte that the read lock asks for is free of write locks, and it is refused. */
  lemma GhostCounterexample()
    ensures IsRun(INITIAL, Requests())
    ensures var s, r := After(INITIAL, Requests()), Request(B, RdLck, 0, 1);
            BytesFree(ListOf(s.lists, 0), r) && Attempt(s, 0, r, false).1 == Again
  {
    Reached();
    var s, r := At(GHOSTLY, 10), Request(B, RdLck, 0, 1);
    assert GHOSTLY[0] in GHOSTLY && Conflict(r, GHOSTLY[0]);
    forall p, b | p != B && 0 <= b <= 1 ensures WrLck !in TypesAt(GHOSTLY, p, b) {
      TypesMember(GHOSTLY, p, b, WrLck);
    }
  }
}
