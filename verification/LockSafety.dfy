/** What the list edit does to every list whatsoever, canonical or not: it never grants
    a byte outside the request, never touches another owner, never changes a record that
    still has waiters except by enlarging it. */
module LockSafety {
  import opened Common
  import opened PosixLocks
  import opened LockEdit

  ghost predicate Typed(l: seq<Lock>) {
    forall x :: x in l ==> x.typ != UnLck && x.end <= OFFSET_MAX
  }

  /** The caller variable and its list record agree; `left` still reaches the caller. */
  ghost predicate Coherent(c: Cursor, o: Owner, t: LockType) {
    && Typed(c.done) && Typed(c.rest) && c.end <= OFFSET_MAX
    && (c.alias == -1 || (0 <= c.alias < |c.done| && c.done[c.alias].owner == o && c.done[c.alias].typ == t
                          && c.done[c.alias].start == c.start && c.done[c.alias].end == c.end))
    && (c.left == -1 || (0 <= c.left < |c.done| && c.done[c.left].owner == o && c.done[c.left].end >= c.start
                         && c.left != c.alias))
    && (c.alias != -1 ==> t != UnLck && c.added)
    && (c.added && t != UnLck ==> c.alias != -1)
  }

  /** At a stop, `left` may also be the record at the slot itself. */
  ghost predicate CoherentStop(c: Cursor, right: bool, o: Owner, t: LockType) {
    && (right ==> c.rest != [] && c.rest[0].owner == o && c.rest[0].typ != t
                  && c.rest[0].start <= c.end < c.rest[0].end && c.start <= c.rest[0].end)
    && Coherent(if right && c.left == |c.done| then c.(left := -1) else c, o, t)
    && (right && c.left == |c.done| ==> c.rest[0].start < c.start)
  }

  /** Types on a byte, counting the request as if it were already in the list. */
  ghost function Granted(c: Cursor, o: Owner, t: LockType, p: Owner, b: int): set<LockType> {
    TypesAt(c.done, p, b) + TypesAt(c.rest, p, b)
    + (if p == o && c.start <= b <= c.end && t != UnLck then {t} else {})
  }

  lemma TypesSnoc(l: seq<Lock>, x: Lock, p: Owner, b: int)
    ensures TypesAt(l + [x], p, b) == TypesAt(l, p, b) + TypeOf(x, p, b)
  {
    TypesConcat(l, [x], p, b);
    assert TypesAt([x], p, b) == TypeOf(x, p, b) + TypesAt([x][1..], p, b);
  }

  lemma SetCallerGrants(c: Cursor, s: int, e: int, o: Owner, t: LockType, p: Owner, b: int)
    requires Coherent(c, o, t)
    requires s <= c.start && c.end <= e <= OFFSET_MAX
    ensures Coherent(SetCaller(c, s, e), o, t)
    ensures TypesAt(SetCaller(c, s, e).done, p, b)
         <= TypesAt(c.done, p, b) + (if p == o && s <= b <= e && t != UnLck then {t} else {})
    ensures p != o ==> TypesAt(SetCaller(c, s, e).done, p, b) == TypesAt(c.done, p, b)
  {
    var c1 := SetCaller(c, s, e);
    if c.alias != -1 {
      TypesUpdate(c.done, c.alias, c.done[c.alias].(start := s, end := e), p, b);
      assert forall x :: x in c1.done ==> x in c.done || x == c.done[c.alias].(start := s, end := e);
    }
  }

  lemma AdvanceGrants(c: Cursor, o: Owner, t: LockType, p: Owner, b: int)
    requires c.rest != []
    ensures TypesAt(Advance(c).done, p, b) + TypesAt(Advance(c).rest, p, b)
         == TypesAt(c.done, p, b) + TypesAt(c.rest, p, b)
    ensures Coherent(c, o, t) ==> Coherent(Advance(c), o, t)
  {
    TypesSnoc(c.done, c.rest[0], p, b);
  }

  lemma AdoptGrants(c: Cursor, o: Owner, t: LockType, s: int, e: int, p: Owner, b: int)
    requires Coherent(c, o, t) && c.rest != [] && !c.added && t != UnLck && c.rest[0].owner == o
    requires s <= c.start && c.end <= e <= OFFSET_MAX
    ensures Coherent(Adopt(c, t, s, e), o, t)
    ensures TypesAt(Adopt(c, t, s, e).done, p, b) + TypesAt(Adopt(c, t, s, e).rest, p, b)
         <= TypesAt(c.done, p, b) + TypesAt(c.rest, p, b) + (if p == o && s <= b <= e then {t} else {})
    ensures p != o ==>
      TypesAt(Adopt(c, t, s, e).done, p, b) + TypesAt(Adopt(c, t, s, e).rest, p, b)
      == TypesAt(c.done, p, b) + TypesAt(c.rest, p, b)
  {
    TypesSnoc(c.done, c.rest[0].(typ := t, start := s, end := e), p, b);
  }

  lemma StepSameGrants(c: Cursor, o: Owner, t: LockType, p: Owner, b: int)
    requires Coherent(c, o, t) && Next(c, o, t).Go? && c.rest[0].typ == t
    ensures Coherent(Next(c, o, t).c, o, t)
    ensures Granted(Next(c, o, t).c, o, t, p, b) <= Granted(c, o, t, p, b)
    ensures p != o ==> Granted(Next(c, o, t).c, o, t, p, b) == Granted(c, o, t, p, b)
  {
    var fl := c.rest[0];
    assert fl in c.rest;
    var s, e := Min(fl.start, c.start), Max(fl.end, c.end);
    if fl.end < c.start - 1 {
      AdvanceGrants(c, o, t, p, b);
    } else if c.added {
      SetCallerGrants(c, s, e, o, t, p, b);
    } else {
      AdoptGrants(c, o, t, s, e, p, b);
    }
  }

  lemma StepOtherGrants(c: Cursor, o: Owner, t: LockType, p: Owner, b: int)
    requires Coherent(c, o, t) && Next(c, o, t).Go? && c.rest[0].typ != t
    ensures Coherent(Next(c, o, t).c, o, t)
    ensures Granted(Next(c, o, t).c, o, t, p, b) <= Granted(c, o, t, p, b)
    ensures p != o ==> Granted(Next(c, o, t).c, o, t, p, b) == Granted(c, o, t, p, b)
  {
    var fl := c.rest[0];
    if fl.end < c.start {
      AdvanceGrants(c, o, t, p, b);
    } else {
      var c1 := c.(added := c.added || t == UnLck, left := if fl.start < c.start then |c.done| else c.left);
      if fl.start < c.start {
        AdvanceGrants(c1, o, t, p, b);
      } else if !c1.added {
        AdoptGrants(c1, o, t, c.start, c.end, p, b);
      }
    }
  }

  lemma StopCoherent(c: Cursor, o: Owner, t: LockType)
    requires Coherent(c, o, t) && Next(c, o, t).Stop?
    ensures CoherentStop(Next(c, o, t).c, Next(c, o, t).right, o, t)
    ensures forall p, b :: Granted(Next(c, o, t).c, o, t, p, b) == Granted(c, o, t, p, b)
  {
  }

  lemma TrimGrants(l: seq<Lock>, i: int, e: int, o: Owner, p: Owner, b: int)
    requires i == -1 || (0 <= i < |l| && l[i].owner == o && e <= l[i].end)
    ensures TypesAt(TrimEnd(l, i, e), p, b) <= TypesAt(l, p, b)
    ensures p != o ==> TypesAt(TrimEnd(l, i, e), p, b) == TypesAt(l, p, b)
  {
    if i != -1 {
      TypesUpdate(l, i, l[i].(end := e), p, b);
    }
  }

  lemma TypesConcat4(a: seq<Lock>, c: seq<Lock>, d: seq<Lock>, e: seq<Lock>, p: Owner, b: int)
    ensures TypesAt(a + c + d + e, p, b)
         == TypesAt(a, p, b) + TypesAt(c, p, b) + TypesAt(d, p, b) + TypesAt(e, p, b)
  {
    TypesConcat(a + c + d, e, p, b);
    TypesConcat(a + c, d, p, b);
    TypesConcat(a, c, p, b);
  }

  lemma TypesSingle(x: Lock, p: Owner, b: int)
    ensures TypesAt([x], p, b) == TypeOf(x, p, b)
  {
    assert [x][1..] == [];
  }

  lemma UpperGrants(c: Cursor, right: bool, o: Owner, t: LockType, newId: nat, p: Owner, b: int)
    requires CoherentStop(c, right, o, t)
    ensures TypesAt(Split(c, right, newId), p, b) + TypesAt(Upper(c, right), p, b) <= TypesAt(c.rest, p, b)
    ensures p != o ==> TypesAt(Split(c, right, newId), p, b) == {}
    ensures p != o ==> TypesAt(Upper(c, right), p, b) == TypesAt(c.rest, p, b)
  {
    if right {
      var r := c.rest[0];
      assert r in c.rest;
      TypesSingle(r.(id := newId + 1, end := c.start - 1), p, b);
      assert Upper(c, right)[1..] == c.rest[1..];
    }
  }

  /** Neither do the edits after the loop. */
  lemma FinishGrants(c: Cursor, right: bool, o: Owner, t: LockType, newId: nat, p: Owner, b: int)
    requires CoherentStop(c, right, o, t)
    ensures TypesAt(Finish(c, right, o, t, newId).list, p, b) <= Granted(c, o, t, p, b)
    ensures p != o ==> TypesAt(Finish(c, right, o, t, newId).list, p, b) == Granted(c, o, t, p, b)
  {
    if !c.added && t == UnLck {
      TypesConcat(c.done, c.rest, p, b);
    } else {
      TypesConcat4(Lower(c), Split(c, right, newId), Inserted(c, o, t, newId), Upper(c, right), p, b);
      TrimGrants(c.done, if c.left < |c.done| then c.left else -1, c.start - 1, o, p, b);
      UpperGrants(c, right, o, t, newId, p, b);
      TypesSingle(Lock(newId, o, t, c.start, c.end), p, b);
    }
  }

  lemma {:induction false} WalkGrants(c: Cursor, o: Owner, t: LockType, newId: nat, p: Owner, b: int)
    requires Coherent(c, o, t)
    ensures TypesAt(Walk(c, o, t, newId).list, p, b) <= Granted(c, o, t, p, b)
    ensures p != o ==> TypesAt(Walk(c, o, t, newId).list, p, b) == Granted(c, o, t, p, b)
    decreases |c.rest|
  {
    match Next(c, o, t)
    case Go(c1) =>
      if c.rest[0].typ == t {
        StepSameGrants(c, o, t, p, b);
      } else {
        StepOtherGrants(c, o, t, p, b);
      }
      WalkGrants(c1, o, t, newId, p, b);
    case Stop(c1, right) =>
      StopCoherent(c, o, t);
      FinishGrants(c1, right, o, t, newId, p, b);
  }

  /** On any list, a request adds at most its own type inside its own range, and no
      other owner's bytes change. */
  lemma ApplyGrants(l: seq<Lock>, r: Request, newId: nat, p: Owner, b: int)
    requires Typed(l) && r.Valid()
    ensures TypesAt(Apply(l, r, newId).list, p, b)
         <= TypesAt(l, p, b) + (if p == r.owner && r.start <= b <= r.end && r.typ != UnLck then {r.typ} else {})
    ensures p != r.owner ==> TypesAt(Apply(l, r, newId).list, p, b) == TypesAt(l, p, b)
  {
    var c := Start(l, r);
    assert l == c.done + c.rest;
    TypesConcat(c.done, c.rest, p, b);
    WalkGrants(c, r.owner, r.typ, newId, p, b);
  }

  // ---------------------------------------------------------------- records and waiters

  /** `y` is the same record as `x`, with a range at least as large. */
  predicate Grown(x: Lock, y: Lock) {
    y.id == x.id && y.owner == x.owner && y.typ == x.typ && y.start <= x.start && x.end <= y.end
  }

  lemma StepKeeps(c: Cursor, o: Owner, t: LockType, x: Lock) returns (y: Lock)
    requires Coherent(c, o, t) && Next(c, o, t).Go?
    requires x in c.done || x in c.rest
    requires x.id !in Next(c, o, t).c.woken
    ensures c.woken <= Next(c, o, t).c.woken
    ensures y in Next(c, o, t).c.done || y in Next(c, o, t).c.rest
    ensures Grown(x, y)
  {
    var c1 := Next(c, o, t).c;
    var fl := c.rest[0];
    if x in c.done {
      var i :| 0 <= i < |c.done| && c.done[i] == x;
      y := c1.done[i];
    } else if x == fl {
      y := c1.done[|c1.done| - 1];
    } else {
      y := x;
    }
  }

  lemma FinishKeeps(c: Cursor, right: bool, o: Owner, t: LockType, newId: nat, x: Lock)
    requires CoherentStop(c, right, o, t)
    requires x in c.done || x in c.rest
    requires x.id !in Finish(c, right, o, t, newId).woken
    ensures c.woken <= Finish(c, right, o, t, newId).woken
    ensures x in Finish(c, right, o, t, newId).list
  {
    if x in c.done && (c.added || t != UnLck) {
      var i :| 0 <= i < |c.done| && c.done[i] == x;
      assert TrimEnd(c.done, c.left, c.start - 1)[i] == x;
    }
  }

  /** A record whose waiters were not woken is still in the list, unchanged or larger. */
  lemma {:induction false} WalkKeeps(c: Cursor, o: Owner, t: LockType, newId: nat, x: Lock) returns (y: Lock)
    requires Coherent(c, o, t)
    requires x in c.done || x in c.rest
    requires x.id !in Walk(c, o, t, newId).woken
    ensures c.woken <= Walk(c, o, t, newId).woken
    ensures y in Walk(c, o, t, newId).list && Grown(x, y)
    decreases |c.rest|
  {
    WalkWakes(c, o, t, newId);
    match Next(c, o, t)
    case Go(c1) =>
      WalkWakes(c1, o, t, newId);
      if c.rest[0].typ == t { StepSameGrants(c, o, t, o, 0); } else { StepOtherGrants(c, o, t, o, 0); }
      var z := StepKeeps(c, o, t, x);
      y := WalkKeeps(c1, o, t, newId, z);
    case Stop(c1, right) =>
      StopCoherent(c, o, t);
      FinishKeeps(c1, right, o, t, newId, x);
      y := x;
  }

  lemma {:induction false} WalkWakes(c: Cursor, o: Owner, t: LockType, newId: nat)
    ensures c.woken <= Walk(c, o, t, newId).woken
    decreases |c.rest|
  {
    match Next(c, o, t)
    case Go(c1) => WalkWakes(c1, o, t, newId);
    case Stop(c1, right) =>
  }

  lemma ApplyKeeps(l: seq<Lock>, r: Request, newId: nat, x: Lock) returns (y: Lock)
    requires Typed(l) && r.Valid() && x in l
    requires x.id !in Apply(l, r, newId).woken
    ensures y in Apply(l, r, newId).list && Grown(x, y)
  {
    var c := Start(l, r);
    assert l == c.done + c.rest;
    y := WalkKeeps(c, r.owner, r.typ, newId, x);
  }

  // ---------------------------------------------------------------- identities

  ghost predicate IdsBelow(l: seq<Lock>, n: nat) {
    UniqueIds(l) && forall x :: x in l ==> x.id < n
  }

  /** `m` lists the identities of `l`, with the one at `k` left out if `drop`. */
  lemma SameIds(l: seq<Lock>, m: seq<Lock>, k: nat, drop: bool, n: nat)
    requires IdsBelow(l, n) && |m| == |l| - (if drop then 1 else 0)
    requires forall i :: 0 <= i < |m| ==> m[i].id == l[if drop && i >= k then i + 1 else i].id
    ensures IdsBelow(m, n)
  {
    forall x | x in m ensures x.id < n {
      var i :| 0 <= i < |m| && m[i] == x;
      assert l[if drop && i >= k then i + 1 else i] in l;
    }
  }

  lemma StepIds(c: Cursor, o: Owner, t: LockType, n: nat)
    requires IdsBelow(c.done + c.rest, n) && Next(c, o, t).Go?
    ensures IdsBelow(Next(c, o, t).c.done + Next(c, o, t).c.rest, n)
  {
    var c1 := Next(c, o, t).c;
    SameIds(c.done + c.rest, c1.done + c1.rest, |c.done|, |c1.done| == |c.done|, n);
  }

  lemma InsertId(a: seq<Lock>, x: Lock, d: seq<Lock>, n: nat)
    requires IdsBelow(a + d, n) && n <= x.id
    ensures IdsBelow(a + [x] + d, x.id + 1)
  {
    var l, m, k := a + d, a + [x] + d, |a|;
    forall i | 0 <= i < |m| && i != k ensures m[i] == l[if i > k then i - 1 else i] && m[i].id < n {
      assert l[if i > k then i - 1 else i] in l;
    }
  }

  lemma FinishIds(c: Cursor, right: bool, o: Owner, t: LockType, newId: nat)
    requires right ==> c.rest != []
    requires IdsBelow(c.done + c.rest, newId)
    ensures IdsBelow(Finish(c, right, o, t, newId).list, newId + 2)
  {
    if c.added || t != UnLck {
      var lower, split, inserted, upper :=
        Lower(c), Split(c, right, newId), Inserted(c, o, t, newId), Upper(c, right);
      SameIds(c.done + c.rest, lower + upper, 0, false, newId);
      if inserted != [] {
        InsertId(lower, inserted[0], upper, newId);
      } else {
        assert lower + inserted == lower;
      }
      assert lower + inserted + upper == lower + (inserted + upper);
      if split != [] {
        InsertId(lower, split[0], inserted + upper, newId + 1);
      } else {
        assert lower + split == lower;
      }
      assert lower + split + inserted + upper == lower + split + (inserted + upper);
    }
  }

  /** Records keep distinct identities; the edit uses at most two new ones. */
  lemma {:induction false} WalkIds(c: Cursor, o: Owner, t: LockType, newId: nat)
    requires IdsBelow(c.done + c.rest, newId)
    ensures IdsBelow(Walk(c, o, t, newId).list, newId + 2)
    decreases |c.rest|
  {
    match Next(c, o, t)
    case Go(c1) =>
      StepIds(c, o, t, newId);
      WalkIds(c1, o, t, newId);
    case Stop(c1, right) =>
      FinishIds(c1, right, o, t, newId);
  }

  lemma ApplyIds(l: seq<Lock>, r: Request, newId: nat)
    requires IdsBelow(l, newId)
    ensures IdsBelow(Apply(l, r, newId).list, newId + 2)
  {
    var c := Start(l, r);
    assert l == c.done + c.rest;
    WalkIds(c, r.owner, r.typ, newId);
  }

  // ---------------------------------------------------------------- types

  lemma FinishTyped(c: Cursor, right: bool, o: Owner, t: LockType, newId: nat)
    requires CoherentStop(c, right, o, t)
    ensures Typed(Finish(c, right, o, t, newId).list)
  {
    forall x | x in Finish(c, right, o, t, newId).list ensures x.typ != UnLck && x.end <= OFFSET_MAX {
      if c.added || t != UnLck {
        assert x in Lower(c) || x in Split(c, right, newId) || x in Inserted(c, o, t, newId) || x in Upper(c, right);
        if x in Lower(c) { LowerMember(c, x); }
        assert right ==> c.rest[0] in c.rest;
      }
    }
  }

  lemma LowerMember(c: Cursor, x: Lock)
    requires x in Lower(c)
    ensures x in c.done || (0 <= c.left < |c.done| && x == c.done[c.left].(end := c.start - 1))
  {
  }

  /** No record is ever left with the type F_UNLCK. */
  lemma {:induction false} WalkTyped(c: Cursor, o: Owner, t: LockType, newId: nat)
    requires Coherent(c, o, t)
    ensures Typed(Walk(c, o, t, newId).list)
    decreases |c.rest|
  {
    match Next(c, o, t)
    case Go(c1) =>
      if c.rest[0].typ == t { StepSameGrants(c, o, t, o, 0); } else { StepOtherGrants(c, o, t, o, 0); }
      WalkTyped(c1, o, t, newId);
    case Stop(c1, right) =>
      StopCoherent(c, o, t);
      FinishTyped(c1, right, o, t, newId);
  }

  lemma ApplyTyped(l: seq<Lock>, r: Request, newId: nat)
    requires Typed(l) && r.Valid()
    ensures Typed(Apply(l, r, newId).list)
  {
    var c := Start(l, r);
    assert l == c.done + c.rest;
    WalkTyped(c, r.owner, r.typ, newId);
  }
}
