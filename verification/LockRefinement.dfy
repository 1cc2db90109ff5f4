/** On canonical lists the edit of `posix_lock_file` is exactly the fcntl() byte map, and
    the result is canonical again. */
module LockRefinement {
  import opened Common
  import opened PosixLocks
  import opened LockEdit
  import opened LockSafety

  // ---------------------------------------------------------------- runs of one owner

  ghost predicate Below(l: seq<Lock>, y: Lock) {
    forall x :: x in l ==> Gap(x, y)
  }

  ghost predicate Above(x: Lock, l: seq<Lock>) {
    forall y :: y in l ==> Gap(x, y)
  }

  /** The well-formed locks of one owner, in order. */
  ghost predicate Run(l: seq<Lock>, o: Owner) {
    l == [] || (l[0].owner == o && WellFormed(l[0]) && Above(l[0], l[1..]) && Run(l[1..], o))
  }

  /** `c` may follow `a` in a run. */
  ghost predicate Follows(a: seq<Lock>, c: seq<Lock>) {
    c != [] ==> Below(a, c[0])
  }

  lemma {:induction false} RunConcat(a: seq<Lock>, c: seq<Lock>, o: Owner)
    requires Run(a, o) && Run(c, o) && Follows(a, c)
    ensures Run(a + c, o)
  {
    if a == [] {
      assert a + c == c;
    } else {
      assert (a + c)[1..] == a[1..] + c;
      forall x | x in a[1..] ensures x in a {}
      RunConcat(a[1..], c, o);
      if c != [] {
        assert Gap(a[0], c[0]);
        assert c == [c[0]] + c[1..];
      }
    }
  }

  lemma RunSingle(x: Lock)
    requires WellFormed(x)
    ensures Run([x], x.owner)
  {
    assert [x][1..] == [];
  }

  lemma TypesNone(l: seq<Lock>, o: Owner, b: int)
    requires forall x :: x in l ==> !Covers(x, o, b)
    ensures TypesAt(l, o, b) == {}
  {
    if l != [] {
      assert l[0] in l;
    }
  }

  // ---------------------------------------------------------------- the loop invariant

  /** The list splits into other owners' locks `pre`, own locks `low` entirely below the
      request, possibly one own lock `lft` that sticks out below it, possibly the record
      the caller has become, own locks `run` not looked at yet, and other owners' locks
      `post`. */
  datatype Parts = Parts(pre: seq<Lock>, low: seq<Lock>, lft: seq<Lock>, run: seq<Lock>, post: seq<Lock>)

  /** The caller, as a record. */
  function Caller(c: Cursor, o: Owner, t: LockType): Lock {
    Lock(0, o, t, c.start, c.end)
  }

  /** Where the parts are in the list. */
  ghost predicate Layout(c: Cursor, q: Parts, o: Owner) {
    && Foreign(q.pre, o) && Foreign(q.post, o)
    && c.rest == q.run + q.post
    && (c.alias == -1 || c.alias == |c.done| - 1 >= 0)
    && c.done == q.pre + q.low + q.lft + (if c.alias == -1 then [] else c.done[|c.done| - 1..])
    && |q.lft| <= 1 && c.left == (if q.lft == [] then -1 else |q.pre| + |q.low|)
  }

  ghost predicate Foreign(l: seq<Lock>, o: Owner) {
    forall x :: x in l ==> x.owner != o
  }

  /** How the parts are ordered. */
  ghost predicate Order(c: Cursor, q: Parts, o: Owner, t: LockType) {
    && 0 <= c.start <= c.end <= OFFSET_MAX
    && Run(q.low, o) && Run(q.lft, o) && Run(q.run, o)
    && Follows(q.low, q.lft) && Follows(q.low, q.run) && Follows(q.lft, q.run)
    && Below(q.low, Caller(c, o, t))
    && (q.lft != [] ==> q.lft[0].typ != t && q.lft[0].start < c.start <= q.lft[0].end <= c.end)
    && (c.alias != -1 && q.run != [] ==> q.run[0].start > c.start)
    && (t == UnLck && q.lft != [] ==> c.added)
    && TailFree(c, q.run, t)
  }

  /** No own lock ahead has the request's type and touches a request that ends at the
      largest offset: there, `end + 1` wraps. */
  ghost predicate TailFree(c: Cursor, run: seq<Lock>, t: LockType) {
    c.end == OFFSET_MAX ==> forall x :: x in run && x.typ == t ==> x.end < c.start - 1
  }

  ghost predicate Shape(c: Cursor, q: Parts, o: Owner, t: LockType) {
    Coherent(c, o, t) && Layout(c, q, o) && Order(c, q, o, t)
  }

  /** The byte map that results if the request overrides everything. */
  ghost function Overlay(c: Cursor, o: Owner, t: LockType, b: int): set<LockType> {
    if c.start <= b <= c.end then
      if t == UnLck then {} else {t}
    else
      TypesAt(c.done, o, b) + TypesAt(c.rest, o, b)
  }

  lemma FollowsTail(a: seq<Lock>, run: seq<Lock>, o: Owner)
    requires Run(run, o) && run != [] && Follows(a, run)
    ensures Follows(a, run[1..]) && forall y :: y in run[1..] ==> Gap(run[0], y) && y in run
    ensures run == [run[0]] + run[1..] && run[0] in run
  {
    assert run == [run[0]] + run[1..];
    if run[1..] != [] {
      assert Gap(run[0], run[1..][0]) by { assert run[1..][0] in run[1..]; }
    }
  }

  /** The order after one more own lock has been looked at. */
  lemma OrderTail(c: Cursor, q: Parts, o: Owner, t: LockType)
    requires Order(c, q, o, t) && q.run != []
    ensures Order(c, q.(run := q.run[1..]), o, t)
    ensures q.lft != [] ==> q.run[0].start > c.start
  {
    FollowsTail(q.low, q.run, o);
    FollowsTail(q.lft, q.run, o);
    if q.lft != [] {
      assert q.lft[0] in q.lft;
      assert Gap(q.lft[0], q.run[0]);
    }
    if q.run[1..] != [] {
      assert q.run[1..][0] in q.run[1..];
    }
  }

  lemma LayoutTail(c: Cursor, q: Parts, o: Owner)
    requires Layout(c, q, o) && q.run != []
    ensures c.rest != [] && c.rest[0] == q.run[0] && c.rest[1..] == q.run[1..] + q.post
  {
  }

  lemma DoneMembers(c: Cursor, q: Parts, o: Owner, t: LockType)
    requires Coherent(c, o, t) && Layout(c, q, o)
    ensures forall x :: x in c.done ==>
      x in q.pre || x in q.low || x in q.lft
      || (c.alias != -1 && x.owner == o && x.typ == t && x.start == c.start && x.end == c.end)
  {
    if c.alias != -1 {
      assert c.done[|c.done| - 1..] == [c.done[c.alias]];
    }
  }

  /** Where the lock at the slot holds a byte, no other own record does, except the
      caller's own. */
  lemma SlotAlone(c: Cursor, q: Parts, o: Owner, t: LockType, b: int)
    requires Shape(c, q, o, t) && q.run != [] && Covers(q.run[0], o, b)
    ensures c.rest != [] && TypesAt(c.rest[1..], o, b) == {}
    ensures c.alias == -1 || !(c.start <= b <= c.end) ==> TypesAt(c.done, o, b) == {}
  {
    LayoutTail(c, q, o);
    FollowsTail([], q.run, o);
    forall x | x in c.rest[1..] ensures !Covers(x, o, b) {
      assert x in q.run[1..] || x in q.post;
    }
    TypesNone(c.rest[1..], o, b);
    if c.alias == -1 || !(c.start <= b <= c.end) {
      DoneMembers(c, q, o, t);
      TypesNone(c.done, o, b);
    }
  }

  // ---------------------------------------------------------------- the iterations

  /** Passing over a lock that lies below the request. */
  lemma StepPass(c: Cursor, q: Parts, o: Owner, t: LockType) returns (q1: Parts)
    requires Shape(c, q, o, t) && q.run != []
    requires Gap(q.run[0], Caller(c, o, t))
    ensures Next(c, o, t) == Go(Advance(c))
    ensures Shape(Advance(c), q1, o, t) && q1.pre == q.pre && q1.post == q.post
  {
    var fl := q.run[0];
    q1 := Parts(q.pre, q.low + [fl], [], q.run[1..], q.post);
    LayoutTail(c, q, o);
    OrderTail(c, q, o, t);
    assert q.lft == [] && c.alias == -1;
    AdvanceGrants(c, o, t, o, 0);
    assert Order(Advance(c), q1, o, t) by { OrderPass(c, q, o, t); }
  }

  lemma OrderPass(c: Cursor, q: Parts, o: Owner, t: LockType)
    requires Order(c, q, o, t) && q.run != [] && q.lft == [] && c.alias == -1
    requires Gap(q.run[0], Caller(c, o, t))
    ensures Order(c, Parts(q.pre, q.low + [q.run[0]], [], q.run[1..], q.post), o, t)
  {
    OrderTail(c, q, o, t);
    RunSingle(q.run[0]);
    RunConcat(q.low, [q.run[0]], o);
    FollowsTail(q.low, q.run, o);
    if q.run[1..] != [] {
      assert q.run[1..][0] in q.run[1..];
    }
  }

  /** A lock of another type that sticks out below the request becomes `left`. */
  lemma StepLeft(c: Cursor, q: Parts, o: Owner, t: LockType) returns (q1: Parts)
    requires Shape(c, q, o, t) && q.run != []
    requires q.run[0].typ != t && q.run[0].start < c.start <= q.run[0].end <= c.end
    ensures Next(c, o, t) == Go(Advance(c.(added := c.added || t == UnLck, left := |c.done|)))
    ensures Shape(Next(c, o, t).c, q1, o, t) && q1.pre == q.pre && q1.post == q.post
  {
    q1 := Parts(q.pre, q.low, [q.run[0]], q.run[1..], q.post);
    LayoutTail(c, q, o);
    OrderLeft(c, q, o, t);
    AdvanceGrants(c.(added := c.added || t == UnLck, left := -1), o, t, o, 0);
    LayoutLeft(c, q, o);
  }

  lemma OrderLeft(c: Cursor, q: Parts, o: Owner, t: LockType)
    requires Order(c, q, o, t) && q.run != []
    requires q.run[0].typ != t && q.run[0].start < c.start <= q.run[0].end <= c.end
    ensures q.lft == [] && c.alias == -1
    ensures Order(c.(added := c.added || t == UnLck), Parts(q.pre, q.low, [q.run[0]], q.run[1..], q.post), o, t)
  {
    OrderTail(c, q, o, t);
    RunSingle(q.run[0]);
    FollowsTail(q.low, q.run, o);
    if q.run[1..] != [] { assert q.run[1..][0] in q.run[1..]; }
  }

  lemma LayoutLeft(c: Cursor, q: Parts, o: Owner)
    requires Layout(c, q, o) && q.run != [] && q.lft == [] && c.alias == -1
    ensures c.rest != []
    ensures Layout(Advance(c.(left := |c.done|)), Parts(q.pre, q.low, [q.run[0]], q.run[1..], q.post), o)
  {
    assert c.done == q.pre + q.low;
  }

  /** The caller becomes the record at the slot. */
  lemma AdoptShape(c: Cursor, q: Parts, o: Owner, t: LockType, s: int, e: int)
    requires Shape(c, q, o, t) && q.run != [] && !c.added && t != UnLck
    requires 0 <= s <= c.start && c.end <= e <= OFFSET_MAX && s <= q.run[0].start
    requires q.lft != [] ==> s == c.start
    requires Below(q.low, Lock(0, o, t, s, e))
    requires e == OFFSET_MAX ==> forall x :: x in q.run[1..] && x.typ == t ==> x.end < s - 1
    ensures c.rest != [] && Shape(Adopt(c, t, s, e), q.(run := q.run[1..]), o, t)
  {
    LayoutTail(c, q, o);
    var c1 := Adopt(c, t, s, e);
    assert Coherent(c1, o, t) by { assert q.run[0].owner == o; AdoptGrants(c, o, t, s, e, o, 0); }
    assert Order(c1, q.(run := q.run[1..]), o, t) by {
      OrderTail(c, q, o, t);
      if q.run[1..] != [] { assert q.run[1..][0] in q.run[1..]; }
    }
    assert c1.done == c.done + c1.done[|c1.done| - 1..];
  }

  /** The lock at the slot is deleted, the caller having possibly grown over it. */
  lemma DeleteShape(c: Cursor, q: Parts, o: Owner, t: LockType, e: int)
    requires Shape(c, q, o, t) && q.run != []
    requires c.end <= e <= OFFSET_MAX
    requires e == OFFSET_MAX ==> forall x :: x in q.run[1..] && x.typ == t ==> x.end < c.start - 1
    ensures c.rest != [] && Shape(Delete(SetCaller(c, c.start, e)), q.(run := q.run[1..]), o, t)
  {
    LayoutTail(c, q, o);
    var c0 := SetCaller(c, c.start, e);
    assert Coherent(c0, o, t) by { SetCallerGrants(c, c.start, e, o, t, o, 0); }
    assert Order(c0, q.(run := q.run[1..]), o, t) by { OrderTail(c, q, o, t); }
    LayoutGrow(c, q, o, e);
  }

  lemma LayoutGrow(c: Cursor, q: Parts, o: Owner, e: int)
    requires Layout(c, q, o)
    ensures Layout(SetCaller(c, c.start, e), q, o)
  {
    var c0 := SetCaller(c, c.start, e);
    if c.alias != -1 {
      assert c.done[..c.alias] == q.pre + q.low + q.lft;
      assert c0.done == c.done[..c.alias] + c0.done[c.alias..];
    }
  }

  ghost predicate Touches(c: Cursor, run: seq<Lock>, t: LockType) {
    run != [] && run[0].typ == t && run[0].end >= c.start - 1 && run[0].start <= c.end + 1 && c.end < OFFSET_MAX
  }

  /** Merging with a lock of the same type that touches the request. */
  lemma StepMerge(c: Cursor, q: Parts, o: Owner, t: LockType)
    requires Shape(c, q, o, t) && Touches(c, q.run, t)
    ensures Next(c, o, t).Go? && Shape(Next(c, o, t).c, q.(run := q.run[1..]), o, t)
  {
    var s, e := Min(q.run[0].start, c.start), Max(q.run[0].end, c.end);
    LayoutTail(c, q, o);
    OrderTail(c, q, o, t);
    FollowsTail([], q.run, o);
    if q.run[1..] != [] {
      assert q.run[1] in q.run[1..];
    }
    if c.added {
      DeleteShape(c, q, o, t, e);
    } else {
      AdoptShape(c, q, o, t, s, e);
    }
  }

  lemma MergeOverlay(c: Cursor, q: Parts, o: Owner, t: LockType, b: int)
    requires Shape(c, q, o, t) && Touches(c, q.run, t)
    ensures Next(c, o, t).Go? && Overlay(Next(c, o, t).c, o, t, b) == Overlay(c, o, t, b)
  {
    LayoutTail(c, q, o);
    if Covers(q.run[0], o, b) {
      SlotAlone(c, q, o, t, b);
    }
    if c.added {
      GrowOverlay(c, o, t, b);
    } else {
      TypesSnoc(c.done, q.run[0].(start := Min(q.run[0].start, c.start), end := Max(q.run[0].end, c.end)), o, b);
    }
  }

  lemma GrowOverlay(c: Cursor, o: Owner, t: LockType, b: int)
    requires Coherent(c, o, t) && c.added && t != UnLck && c.start <= c.end
    requires c.rest != [] && c.rest[0].owner == o && c.rest[0].typ == t
    requires c.rest[0].end >= c.start - 1 && c.rest[0].start <= c.end + 1
    requires Covers(c.rest[0], o, b) ==>
      TypesAt(c.rest[1..], o, b) == {} && (!(c.start <= b <= c.end) ==> TypesAt(c.done, o, b) == {})
    ensures var fl := c.rest[0];
            Overlay(Delete(SetCaller(c, Min(fl.start, c.start), Max(fl.end, c.end))), o, t, b) == Overlay(c, o, t, b)
  {
    var s, e := Min(c.rest[0].start, c.start), Max(c.rest[0].end, c.end);
    TypesUpdate(c.done, c.alias, c.done[c.alias].(start := s, end := e), o, b);
  }

  ghost predicate Covered(c: Cursor, run: seq<Lock>, t: LockType) {
    run != [] && run[0].typ != t && c.start <= run[0].start && run[0].end <= c.end
  }

  /** The request covers a lock of another type. */
  lemma StepCover(c: Cursor, q: Parts, o: Owner, t: LockType)
    requires Shape(c, q, o, t) && Covered(c, q.run, t)
    ensures Next(c, o, t).Go? && Shape(Next(c, o, t).c, q.(run := q.run[1..]), o, t)
  {
    LayoutTail(c, q, o);
    FollowsTail([], q.run, o);
    if t == UnLck || c.added {
      DropShape(c, q, o, t);
    } else {
      AdoptShape(c, q, o, t, c.start, c.end);
    }
  }

  lemma DropShape(c: Cursor, q: Parts, o: Owner, t: LockType)
    requires Shape(c, q, o, t) && q.run != [] && (t == UnLck || c.added)
    requires TailFree(c, q.run[1..], t)
    ensures c.rest != [] && Shape(Delete(c.(added := true)), q.(run := q.run[1..]), o, t)
  {
    var c1 := c.(added := true);
    SetSame(c1);
    DeleteShape(c1, q, o, t, c.end);
  }

  lemma SetSame(c: Cursor)
    requires forall i :: i == c.alias && 0 <= i < |c.done| ==> c.done[i].start == c.start && c.done[i].end == c.end
    ensures SetCaller(c, c.start, c.end) == c
  {
    if 0 <= c.alias < |c.done| { assert c.done[c.alias := c.done[c.alias]] == c.done; }
  }

  lemma CoverOverlay(c: Cursor, q: Parts, o: Owner, t: LockType, b: int)
    requires Shape(c, q, o, t) && Covered(c, q.run, t)
    ensures Next(c, o, t).Go? && Overlay(Next(c, o, t).c, o, t, b) == Overlay(c, o, t, b)
  {
    LayoutTail(c, q, o);
    TypesSnoc(c.done, q.run[0].(typ := t, start := c.start, end := c.end), o, b);
  }

  // ---------------------------------------------------------------- after the loop

  /** What holds when the loop leaves the caller's locks. */
  ghost predicate Clear(c: Cursor, right: bool, run: seq<Lock>, t: LockType) {
    if right then
      && run != [] && run[0].typ != t && c.start <= run[0].end && run[0].start <= c.end < run[0].end
    else
      run != [] ==> run[0].start > c.end && (run[0].typ == t ==> run[0].start > c.end + 1)
  }

  /** At a stop only `added` and `left` may have changed. */
  lemma StopClear(c: Cursor, q: Parts, o: Owner, t: LockType)
    requires Shape(c, q, o, t) && Next(c, o, t).Stop?
    ensures Clear(c, Next(c, o, t).right, q.run, t)
    ensures var c1, right := Next(c, o, t).c, Next(c, o, t).right;
            && c1 == c.(added := c.added || (right && t == UnLck),
                        left := if right && c.rest[0].start < c.start then |c.done| else c.left)
            && (right ==> c.rest != [] && c.rest[0] == q.run[0])
            && (right && c.rest[0].start < c.start ==> q.lft == [] && c.alias == -1)
  {
    if q.run != [] {
      LayoutTail(c, q, o);
      OrderTail(c, q, o, t);
      FollowsTail([], q.run, o);
    } else if c.rest != [] {
      assert c.rest[0] in q.post;
    }
  }

  /** The lock that sticks out below the request, cut off; from `lft` or from a split. */
  function Stub(c: Cursor, q: Parts, right: bool, newId: nat): seq<Lock> {
    if q.lft != [] then [q.lft[0].(end := c.start - 1)]
    else if right && q.run != [] && q.run[0].start < c.start then
      [q.run[0].(id := newId + 1, end := c.start - 1)]
    else []
  }

  /** The record that holds the request. */
  function Holder(c: Cursor, o: Owner, t: LockType, newId: nat): seq<Lock> {
    if t == UnLck then []
    else if 0 <= c.alias < |c.done| then [c.done[c.alias]]
    else [Lock(newId, o, t, c.start, c.end)]
  }

  function Ahead(c: Cursor, q: Parts, right: bool): seq<Lock> {
    if right && q.run != [] then [q.run[0].(start := c.end + 1)] + q.run[1..] else q.run
  }

  function NewRun(c: Cursor, q: Parts, right: bool, o: Owner, t: LockType, newId: nat): seq<Lock> {
    q.low + (Stub(c, q, right, newId) + (Holder(c, o, t, newId) + Ahead(c, q, right)))
  }

  lemma AheadRun(c: Cursor, q: Parts, right: bool, o: Owner, t: LockType)
    requires Order(c, q, o, t) && Clear(c, right, q.run, t)
    ensures Run(Ahead(c, q, right), o)
    ensures Follows(q.low, Ahead(c, q, right))
    ensures Ahead(c, q, right) != [] ==> Gap(Caller(c, o, t), Ahead(c, q, right)[0])
  {
    if right {
      var r := q.run[0].(start := c.end + 1);
      FollowsTail([], q.run, o);
      assert Ahead(c, q, right)[1..] == q.run[1..];
      forall x | x in q.low ensures Gap(x, r) { assert Gap(x, Caller(c, o, t)); }
    }
  }

  lemma StubRun(c: Cursor, q: Parts, right: bool, o: Owner, t: LockType, newId: nat)
    requires Shape(c, q, o, t) && Clear(c, right, q.run, t)
    ensures Run(Stub(c, q, right, newId), o) && Follows(q.low, Stub(c, q, right, newId))
  {
    var stub := Stub(c, q, right, newId);
    if stub != [] {
      RunSingle(stub[0]);
      var was := if q.lft != [] then q.lft[0] else q.run[0];
      assert Below(q.low, was);
    }
  }

  /** The caller's locks after the call are in order again. */
  lemma NewRunOrder(c: Cursor, q: Parts, right: bool, o: Owner, t: LockType, newId: nat)
    requires Shape(c, q, o, t) && Clear(c, right, q.run, t)
    ensures Run(NewRun(c, q, right, o, t, newId), o)
  {
    var stub, hold, ahead := Stub(c, q, right, newId), Holder(c, o, t, newId), Ahead(c, q, right);
    AheadRun(c, q, right, o, t);
    StubRun(c, q, right, o, t, newId);
    if hold != [] {
      RunSingle(hold[0]);
    }
    RunConcat(hold, ahead, o);
    RunConcat(stub, hold + ahead, o);
    assert Follows(q.low, hold + ahead);
    RunConcat(q.low, stub + (hold + ahead), o);
  }

  function Aliased(c: Cursor): seq<Lock> {
    if 0 <= c.alias < |c.done| then [c.done[c.alias]] else []
  }

  lemma DoneParts(c: Cursor, q: Parts, o: Owner)
    requires Layout(c, q, o)
    ensures c.done == q.pre + q.low + q.lft + Aliased(c)
    ensures q.lft != [] ==> TrimEnd(c.done, c.left, c.start - 1)
                            == q.pre + q.low + [q.lft[0].(end := c.start - 1)] + Aliased(c)
  {
    if c.alias != -1 {
      assert c.done[|c.done| - 1..] == [c.done[c.alias]];
    }
  }

  lemma UpperParts(c: Cursor, q: Parts, right: bool, c1: Cursor)
    requires c.rest == q.run + q.post && c1.rest == c.rest && c1.end == c.end
    requires right ==> q.run != [] && c.end < OFFSET_MAX
    ensures Upper(c1, right) == Ahead(c, q, right) + q.post
  {
    if right { assert c.rest[1..] == q.run[1..] + q.post; }
  }

  lemma LowerParts(c: Cursor, q: Parts, o: Owner, t: LockType, newId: nat)
    requires Shape(c, q, o, t) && Next(c, o, t).Stop?
    ensures var c1, right := Next(c, o, t).c, Next(c, o, t).right;
            && (right ==> c1.rest != [])
            && Lower(c1) + Split(c1, right, newId) == q.pre + q.low + Stub(c, q, right, newId) + Aliased(c)
  {
    StopClear(c, q, o, t);
    DoneParts(c, q, o);
    var c1, right := Next(c, o, t).c, Next(c, o, t).right;
    if Split(c1, right, newId) == [] {
      assert Lower(c1) + [] == Lower(c1);
    }
  }

  /** The list after the call, part by part. */
  lemma FinishParts(c: Cursor, q: Parts, o: Owner, t: LockType, newId: nat)
    requires Shape(c, q, o, t) && Next(c, o, t).Stop?
    ensures Walk(c, o, t, newId).list == q.pre + NewRun(c, q, Next(c, o, t).right, o, t, newId) + q.post
  {
    StopClear(c, q, o, t);
    var c1, right := Next(c, o, t).c, Next(c, o, t).right;
    var stub, hold, ahead := Stub(c, q, right, newId), Holder(c, o, t, newId), Ahead(c, q, right);
    var als, ins := Aliased(c), Inserted(c1, o, t, newId);
    DoneParts(c, q, o);
    if !c1.added && t == UnLck {
      Regroup(q.pre, q.low, [], [], [], q.run, q.post);
    } else {
      UpperParts(c, q, right, c1.(rest := c.rest));
      LowerParts(c, q, o, t, newId);
      assert hold == als + ins;
      Regroup(q.pre, q.low, stub, als, ins, ahead, q.post);
    }
  }

  lemma Regroup(a: seq<Lock>, c: seq<Lock>, d: seq<Lock>, e: seq<Lock>, f: seq<Lock>, g: seq<Lock>, h: seq<Lock>)
    ensures a + c + d + e + f + (g + h) == a + (c + (d + (e + f + g))) + h
  {
  }

  /** Byte by byte, the caller's locks after the call are the overlay. */
  lemma NewRunTypes(c: Cursor, q: Parts, right: bool, o: Owner, t: LockType, newId: nat, b: int)
    requires Shape(c, q, o, t) && Clear(c, right, q.run, t)
    ensures TypesAt(NewRun(c, q, right, o, t, newId), o, b) == Overlay(c, o, t, b)
  {
    var stub, hold, ahead := Stub(c, q, right, newId), Holder(c, o, t, newId), Ahead(c, q, right);
    TypesConcat(q.low, stub + (hold + ahead), o, b);
    TypesConcat(stub, hold + ahead, o, b);
    TypesConcat(hold, ahead, o, b);
    HolderTypes(c, o, t, newId, b);
    StubTypes(c, q, right, o, t, newId, b);
    AheadTypes(c, q, right, o, t, b);
    OldTypes(c, q, o, t, b);
    LowTypes(c, q, o, t, b);
  }

  lemma HolderTypes(c: Cursor, o: Owner, t: LockType, newId: nat, b: int)
    requires Coherent(c, o, t)
    ensures TypesAt(Holder(c, o, t, newId), o, b) == if t != UnLck && c.start <= b <= c.end then {t} else {}
  {
    var hold := Holder(c, o, t, newId);
    if hold != [] {
      TypesSingle(hold[0], o, b);
    }
  }

  lemma LowTypes(c: Cursor, q: Parts, o: Owner, t: LockType, b: int)
    requires Order(c, q, o, t) && |q.lft| <= 1
    ensures b >= c.start ==> TypesAt(q.low, o, b) == {}
    ensures b > c.end ==> TypesAt(q.lft, o, b) == {}
  {
    if b >= c.start {
      forall x | x in q.low ensures !Covers(x, o, b) { assert Gap(x, Caller(c, o, t)); }
      TypesNone(q.low, o, b);
    }
    if b > c.end && q.lft != [] {
      TypesSingle(q.lft[0], o, b);
      assert q.lft[1..] == [];
    }
  }

  lemma StubTypes(c: Cursor, q: Parts, right: bool, o: Owner, t: LockType, newId: nat, b: int)
    requires Order(c, q, o, t) && Clear(c, right, q.run, t) && |q.lft| <= 1
    ensures TypesAt(Stub(c, q, right, newId), o, b)
         == if b >= c.start then {} else TypesAt(q.lft, o, b) + (if right then TypeOf(q.run[0], o, b) else {})
  {
    var stub := Stub(c, q, right, newId);
    if q.run != [] { OrderTail(c, q, o, t); }
    if stub != [] { TypesSingle(stub[0], o, b); }
    if q.lft != [] {
      TypesSingle(q.lft[0], o, b);
      assert q.lft == [q.lft[0]];
    }
  }

  lemma OldTypes(c: Cursor, q: Parts, o: Owner, t: LockType, b: int)
    requires Coherent(c, o, t) && Layout(c, q, o)
    ensures !(c.start <= b <= c.end) ==>
      TypesAt(c.done, o, b) + TypesAt(c.rest, o, b) ==
        TypesAt(q.low, o, b) + TypesAt(q.lft, o, b) + TypesAt(q.run, o, b)
  {
    DoneTypes(c, q, o, b);
    TypesConcat(q.run, q.post, o, b);
    TypesNone(q.post, o, b);
    AliasTypes(c, o, t, b);
  }

  lemma DoneTypes(c: Cursor, q: Parts, o: Owner, b: int)
    requires Layout(c, q, o)
    ensures TypesAt(c.done, o, b) == TypesAt(q.low, o, b) + TypesAt(q.lft, o, b) + TypesAt(Aliased(c), o, b)
  {
    DoneParts(c, q, o);
    TypesConcat4(q.pre, q.low, q.lft, Aliased(c), o, b);
    TypesNone(q.pre, o, b);
  }

  /** The record the caller has become holds nothing outside the caller's range. */
  lemma AliasTypes(c: Cursor, o: Owner, t: LockType, b: int)
    requires Coherent(c, o, t)
    ensures !(c.start <= b <= c.end) ==> TypesAt(Aliased(c), o, b) == {}
  {
    if 0 <= c.alias < |c.done| {
      TypesSingle(c.done[c.alias], o, b);
    }
  }

  lemma AheadTypes(c: Cursor, q: Parts, right: bool, o: Owner, t: LockType, b: int)
    requires Order(c, q, o, t) && Clear(c, right, q.run, t)
    ensures b <= c.end ==> TypesAt(Ahead(c, q, right), o, b) == {}
    ensures b > c.end ==> TypesAt(Ahead(c, q, right), o, b) == TypesAt(q.run, o, b)
    ensures b < c.start ==> TypesAt(q.run, o, b) == if right then TypeOf(q.run[0], o, b) else {}
  {
    if q.run != [] {
      FollowsTail([], q.run, o);
      if b <= c.end {
        TypesNone(q.run[1..], o, b);
      }
      if right {
        assert Ahead(c, q, right)[1..] == q.run[1..];
      }
    }
  }

  // ---------------------------------------------------------------- the whole walk

  lemma {:induction false} WalkRefines(c: Cursor, q: Parts, o: Owner, t: LockType, newId: nat, b: int)
    returns (run: seq<Lock>)
    requires Shape(c, q, o, t)
    ensures Run(run, o) && Walk(c, o, t, newId).list == q.pre + run + q.post
    ensures TypesAt(run, o, b) == Overlay(c, o, t, b)
    decreases |c.rest|
  {
    if Next(c, o, t).Stop? {
      var right := Next(c, o, t).right;
      StopClear(c, q, o, t);
      run := NewRun(c, q, right, o, t, newId);
      FinishParts(c, q, o, t, newId);
      NewRunOrder(c, q, right, o, t, newId);
      NewRunTypes(c, q, right, o, t, newId, b);
    } else {
      var q1 := StepShape(c, q, o, t, b);
      run := WalkRefines(Next(c, o, t).c, q1, o, t, newId, b);
    }
  }

  lemma StepShape(c: Cursor, q: Parts, o: Owner, t: LockType, b: int) returns (q1: Parts)
    requires Shape(c, q, o, t) && Next(c, o, t).Go?
    ensures Shape(Next(c, o, t).c, q1, o, t) && q1.pre == q.pre && q1.post == q.post
    ensures Overlay(Next(c, o, t).c, o, t, b) == Overlay(c, o, t, b)
  {
    Classify(c, q, o, t);
    if Gap(q.run[0], Caller(c, o, t)) {
      q1 := StepPass(c, q, o, t);
      AdvanceGrants(c, o, t, o, b);
    } else if Touches(c, q.run, t) {
      q1 := q.(run := q.run[1..]);
      StepMerge(c, q, o, t);
      MergeOverlay(c, q, o, t, b);
    } else if Covered(c, q.run, t) {
      q1 := q.(run := q.run[1..]);
      StepCover(c, q, o, t);
      CoverOverlay(c, q, o, t, b);
    } else {
      q1 := StepLeft(c, q, o, t);
      AdvanceGrants(c, o, t, o, b);
    }
  }

  lemma Classify(c: Cursor, q: Parts, o: Owner, t: LockType)
    requires Layout(c, q, o) && Order(c, q, o, t) && Next(c, o, t).Go?
    ensures q.run != [] && c.rest != []
    ensures || Gap(q.run[0], Caller(c, o, t)) || Touches(c, q.run, t) || Covered(c, q.run, t)
            || (q.run[0].typ != t && q.run[0].start < c.start <= q.run[0].end <= c.end)
  {
    RestHead(c, q, o);
    LayoutTail(c, q, o);
    FollowsTail([], q.run, o);
  }

  lemma RestHead(c: Cursor, q: Parts, o: Owner)
    requires Layout(c, q, o) && c.rest != []
    ensures q.run == [] ==> c.rest[0].owner != o
  {
    if q.run == [] {
      assert c.rest[0] in q.post;
    }
  }
}
