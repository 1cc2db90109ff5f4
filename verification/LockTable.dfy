/** fs/locks.c as it is written: loops that edit the lists in place. Every method is proved
    equal to the step of the system it implements. */
module LockTable {
  import opened Common
  import opened PosixLocks
  import opened LockEdit
  import opened LockSafety
  import opened WaitGraph
  import opened LockSystem
  import opened LockGrants
  import opened LockRuns

  lemma {:induction false} KeepTwice(b: seq<Waiter>, ino: nat, a: set<nat>, c: set<nat>)
    ensures Keep(Keep(b, ino, a), ino, c) == Keep(b, ino, a + c)
  {
    if b != [] {
      KeepTwice(b[1..], ino, a, c);
      if !Hit(b[0], ino, a) {
        assert ([b[0]] + Keep(b[1..], ino, a))[1..] == Keep(b[1..], ino, a);
      }
    }
  }

  lemma WakeTwice(s: Sys, ino: nat, a: set<nat>, c: set<nat>)
    ensures Wake(Wake(s, ino, a), ino, c) == Wake(s, ino, a + c)
  {
    KeepTwice(s.blocked, ino, a, c);
  }

  lemma {:induction false} KeepSplit(x: seq<Waiter>, y: seq<Waiter>, ino: nat, ids: set<nat>)
    ensures Keep(x + y, ino, ids) == Keep(x, ino, ids) + Keep(y, ino, ids)
  {
    if x == [] {
      assert x + y == y;
    } else {
      assert (x + y)[1..] == x[1..] + y;
      KeepSplit(x[1..], y, ino, ids);
    }
  }

  lemma {:induction false} KeepAll(b: seq<Waiter>, ino: nat, ids: set<nat>)
    requires forall w :: w in b ==> !Hit(w, ino, ids)
    ensures Keep(b, ino, ids) == b
  {
    if b != [] {
      assert b[0] in b;
      KeepAll(b[1..], ino, ids);
    }
  }

  lemma KeepWithout(b: seq<Waiter>, i: nat, ino: nat, ids: set<nat>)
    requires i < |b| && Hit(b[i], ino, ids)
    ensures Keep(b[..i] + b[i + 1..], ino, ids) == Keep(b, ino, ids)
    ensures forall v :: v in b <==> v == b[i] || v in b[..i] + b[i + 1..]
  {
    var x, y := b[..i], b[i + 1..];
    assert b == x + ([b[i]] + y);
    KeepSplit(x, [b[i]] + y, ino, ids);
    KeepSplit(x, y, ino, ids);
    assert ([b[i]] + y)[1..] == y;
  }

  /** Taking one waiter off the list by hand does not change what waking all of them does. */
  lemma WakeOne(s: Sys, i: nat, ino: nat, ids: set<nat>)
    requires i < |s.blocked| && Hit(s.blocked[i], ino, ids)
    ensures var w, rest := s.blocked[i], s.blocked[..i] + s.blocked[i + 1..];
            Wake(s.(blocked := rest, retry := s.retry + {Pending(w.ino, w.req)}), ino, ids) == Wake(s, ino, ids)
  {
    KeepWithout(s.blocked, i, ino, ids);
  }

  /** The edge the detector reads off the blocked list. */
  lemma EdgeOf(s: Sys, w: Waiter)
    requires Inv(s) && w in s.blocked
    ensures w.req.owner in WaitsFor(s)
    ensures OwnerOf(ListOf(s.lists, w.ino), w.blocker) == Some(WaitsFor(s)[w.req.owner])
  {
    WaitOfMember(s.blocked, w);
    var l := ListOf(s.lists, w.ino);
    var x :| x in l && x.id == w.blocker && Conflict(w.req, x);
    GoodListOf(s, w.ino);
    OwnerOfMember(l, x);
  }

  /** The cursor stands at the slot `before` of the list. */
  ghost predicate Stands(list: seq<Lock>, before: nat, c: Cursor) {
    before <= |list| && c.done == list[..before] && c.rest == list[before..]
  }

  lemma StandsAfter(list: seq<Lock>, before: nat, c: Cursor, x: Lock, k: nat)
    requires Stands(list, before, c) && before < |list|
    ensures c.rest != [] && c.rest[0] == list[before] && |c.done| == before
    ensures Stands(list, before + 1, Advance(c))
    ensures Stands(list[..before] + list[before + 1..], before, c.(rest := c.rest[1..]))
    ensures Stands(list[before := x], before + 1, c.(done := c.done + [x], rest := c.rest[1..]))
    ensures k < before ==> list[k] == c.done[k] && Stands(list[k := x], before, c.(done := c.done[k := x]))
  {
  }

  /** The variables of `posix_lock_file`: the slot `before`; the positions of the records
      `caller`, `left` and `right` point to, -1 for NULL and, for `caller`, for the request
      itself; and the caller's range, which the record it has become shares. */
  datatype Vars = Vars(list: seq<Lock>, before: nat, start: int, end: int, added: bool,
                       caller: int, left: int, right: int)

  ghost predicate Tracks(v: Vars, c: Cursor) {
    && Stands(v.list, v.before, c)
    && v.start == c.start && v.end == c.end && v.added == c.added && v.caller == c.alias && v.left == c.left
    && -1 <= v.caller < v.before && (v.right == -1 ==> -1 <= v.left < v.before)
    && (v.right != -1 ==> v.right == v.before < |v.list| && -1 <= v.left <= v.before)
  }

  ghost function Waiting(b: seq<Waiter>): set<Owner> {
    set w | w in b :: w.req.owner
  }

  class LockTable {
    var lists: map<nat, seq<Lock>>
    var blocked: seq<Waiter>
    var retry: set<Pending>
    var nextId: nat

    ghost function State(): Sys
      reads this
    {
      Sys(lists, blocked, retry, nextId)
    }

    constructor ()
      ensures State() == INITIAL && Inv(State())
    {
      lists, blocked, retry, nextId := map[], [], {}, 0;
      new;
      assert WaitsFor(INITIAL) == map[];
    }

    method FirstWaiter(ino: nat, id: nat) returns (i: nat)
      ensures i <= |blocked| && (i < |blocked| ==> Hit(blocked[i], ino, {id}))
      ensures forall w :: w in blocked[..i] ==> !Hit(w, ino, {id})
    {
      i := 0;
      while i < |blocked| && !(blocked[i].ino == ino && blocked[i].blocker == id)
        invariant i <= |blocked| && forall w :: w in blocked[..i] ==> !Hit(w, ino, {id})
      {
        i := i + 1;
      }
    }

    /** `locks_wake_up_blocks(fl, 0)`: waiters leave the list before they run. */
    method WakeUpBlocks(ino: nat, id: nat)
      modifies this`blocked, this`retry
      ensures State() == Wake(old(State()), ino, {id})
    {
      var i: nat := FirstWaiter(ino, id);
      while i < |blocked|
        invariant i <= |blocked| && (i < |blocked| ==> Hit(blocked[i], ino, {id}))
        invariant forall w :: w in blocked[..i] ==> !Hit(w, ino, {id})
        invariant Wake(State(), ino, {id}) == Wake(old(State()), ino, {id})
        decreases |blocked|
      {
        WakeOne(State(), i, ino, {id});
        var waiter := blocked[i];
        blocked := blocked[..i] + blocked[i + 1..];
        retry := retry + {Pending(waiter.ino, waiter.req)};
        i := FirstWaiter(ino, id);
      }
      assert blocked[..i] == blocked;
      KeepAll(blocked, ino, {id});
    }

    method FindBlocked(task: Owner) returns (i: nat)
      ensures i <= |blocked| && (i < |blocked| ==> blocked[i].req.owner == task)
      ensures i == |blocked| ==> forall w :: w in blocked ==> w.req.owner != task
    {
      i := 0;
      while i < |blocked| && blocked[i].req.owner != task
        invariant i <= |blocked| && forall w :: w in blocked[..i] ==> w.req.owner != task
      {
        i := i + 1;
      }
      assert blocked[..|blocked|] == blocked;
    }

    /** `g` is what the blocked list and the records' owners spell out. */
    ghost predicate Spells(g: Graph<Owner>)
      reads this
    {
      && (forall w :: w in blocked ==>
            w.req.owner in g && OwnerOf(ListOf(lists, w.ino), w.blocker) == Some(g[w.req.owner]))
      && g.Keys == Waiting(blocked)
    }

    method NextHolder(task: Owner, ghost g: Graph<Owner>) returns (next: Option<Owner>)
      requires Spells(g)
      ensures next == if task in g then Some(g[task]) else None
    {
      var i := FindBlocked(task);
      if i == |blocked| {
        return None;
      }
      var w := blocked[i];
      assert w in blocked;
      return OwnerOf(ListOf(lists, w.ino), w.blocker);
    }

    /** The walk of `posix_locks_deadlock` along the blocked list, from task to task. */
    method WalkBlocked(caller: Owner, holder: Owner, ghost g: Graph<Owner>) returns (deadlock: bool)
      requires Acyclic(g) && Spells(g)
      ensures deadlock <==> Reaches(g, holder, caller)
    {
      ghost var visited: set<Owner> := {};
      var task := holder;
      while task != caller
        invariant Reaches(g, task, caller) <==> Reaches(g, holder, caller)
        invariant visited <= g.Keys && AllLeadTo(g, visited, task)
        decreases |g.Keys - visited|
      {
        ReachStep(g, task, caller);
        var next := NextHolder(task, g);
        if next.None? {
          return false;
        }
        LeadOn(g, visited, task);
        assert g.Keys - visited == (g.Keys - (visited + {task})) + {task};
        visited := visited + {task};
        task := next.value;
      }
      ReachStep(g, task, caller);
      return true;
    }

    /** `posix_locks_deadlock`. */
    method PosixLocksDeadlock(caller: Owner, holder: Owner) returns (deadlock: bool)
      requires Inv(State())
      ensures deadlock <==> Reaches(WaitsFor(State()), holder, caller)
    {
      forall w | w in blocked
        ensures w.req.owner in WaitsFor(State())
        ensures OwnerOf(ListOf(lists, w.ino), w.blocker) == Some(WaitsFor(State())[w.req.owner])
      {
        EdgeOf(State(), w);
      }
      deadlock := WalkBlocked(caller, holder, WaitsFor(State()));
    }

    /** A lock of the requested type at the slot. */
    method SameType(ino: nat, v: Vars, r: Request, ghost c: Cursor, ghost s0: Sys) returns (v1: Vars, stop: bool)
      requires Tracks(v, c) && v.right == -1 && State() == Wake(s0, ino, c.woken)
      requires v.before < |v.list| && v.list[v.before].owner == r.owner && v.list[v.before].typ == r.typ
      modifies this`blocked, this`retry
      ensures stop == Next(c, r.owner, r.typ).Stop? && v1.right == -1
      ensures Tracks(v1, Next(c, r.owner, r.typ).c)
      ensures stop ==> !Next(c, r.owner, r.typ).right
      ensures State() == Wake(s0, ino, Next(c, r.owner, r.typ).c.woken)
    {
      var fl := v.list[v.before];
      StandsAfter(v.list, v.before, c, fl, 0);
      if fl.end < v.start - 1 {
        return v.(before := v.before + 1), false;
      }
      if fl.start > Succ(v.end) {
        return v, true;
      }
      var start := if fl.start > v.start then v.start else fl.start;
      var end := if fl.end < v.end then v.end else fl.end;
      if v.added {
        v1 := MergeInto(v, start, end, c);
        WakeTwice(s0, ino, c.woken, {fl.id});
        WakeUpBlocks(ino, fl.id);
        return v1, false;
      }
      StandsAfter(v.list, v.before, c, fl.(start := start, end := end), 0);
      return Vars(v.list[v.before := fl.(start := start, end := end)], v.before + 1, start, end,
                  true, v.before, v.left, -1), false;
    }

    /** A lock of another type at the slot. */
    method OtherType(ino: nat, v: Vars, r: Request, ghost c: Cursor, ghost s0: Sys) returns (v1: Vars, stop: bool)
      requires Tracks(v, c) && v.right == -1 && State() == Wake(s0, ino, c.woken)
      requires v.before < |v.list| && v.list[v.before].owner == r.owner && v.list[v.before].typ != r.typ
      modifies this`blocked, this`retry
      ensures stop == Next(c, r.owner, r.typ).Stop? && (v1.right != -1 ==> stop)
      ensures Tracks(v1, Next(c, r.owner, r.typ).c)
      ensures stop ==> Next(c, r.owner, r.typ).right == (v1.right != -1)
      ensures State() == Wake(s0, ino, Next(c, r.owner, r.typ).c.woken)
    {
      var fl := v.list[v.before];
      StandsAfter(v.list, v.before, c, fl.(typ := r.typ, start := v.start, end := v.end), 0);
      if fl.end < v.start {
        return v.(before := v.before + 1), false;
      }
      if fl.start > v.end {
        return v, true;
      }
      var added := v.added || r.typ == UnLck;
      var left := if fl.start < v.start then v.before else v.left;
      if fl.end > v.end {
        return v.(added := added, left := left, right := v.before), true;
      }
      if fl.start < v.start {
        return v.(added := added, left := left, before := v.before + 1), false;
      }
      WakeTwice(s0, ino, c.woken, {fl.id});
      WakeUpBlocks(ino, fl.id);
      if added {
        return v.(list := v.list[..v.before] + v.list[v.before + 1..], added := added), false;
      }
      return Vars(v.list[v.before := fl.(typ := r.typ, start := v.start, end := v.end)], v.before + 1,
                  v.start, v.end, true, v.before, left, -1), false;
    }

    /** The loop of `posix_lock_file` over the caller's own locks. */
    method WalkOwnLocks(ino: nat, list: seq<Lock>, k: nat, r: Request) returns (v: Vars, ghost c: Cursor)
      requires k <= |list|
      modifies this`blocked, this`retry
      ensures Tracks(v, c) && State() == Wake(old(State()), ino, c.woken)
      ensures Walk(Cursor(list[..k], list[k..], r.start, r.end, false, -1, -1, {}), r.owner, r.typ, nextId)
           == Finish(c, v.right != -1, r.owner, r.typ, nextId)
    {
      ghost var c0, s0 := Cursor(list[..k], list[k..], r.start, r.end, false, -1, -1, {}), State();
      WakeNone(s0, ino);
      v := Vars(list, k, r.start, r.end, false, -1, -1, -1);
      c := c0;
      var stop := false;
      while !stop && v.before < |v.list| && v.list[v.before].owner == r.owner
        invariant Tracks(v, c) && (!stop ==> v.right == -1)
        invariant State() == Wake(s0, ino, c.woken)
        invariant !stop ==> Walk(c, r.owner, r.typ, nextId) == Walk(c0, r.owner, r.typ, nextId)
        invariant stop ==> Walk(c0, r.owner, r.typ, nextId) == Finish(c, v.right != -1, r.owner, r.typ, nextId)
        decreases !stop, |v.list| - v.before
      {
        if r.typ == v.list[v.before].typ {
          v, stop := SameType(ino, v, r, c, s0);
        } else {
          v, stop := OtherType(ino, v, r, c, s0);
        }
        c := Next(c, r.owner, r.typ).c;
      }
    }

    method WakeMaybe(ino: nat, id: Option<nat>, ghost s: Sys, ghost woken: set<nat>)
      requires State() == Wake(s, ino, woken)
      modifies this`blocked, this`retry
      ensures State() == Wake(s, ino, woken + if id.Some? then {id.value} else {})
    {
      if id.Some? {
        WakeTwice(s, ino, woken, {id.value});
        WakeUpBlocks(ino, id.value);
      } else {
        assert woken + {} == woken;
      }
    }

    /** The edit of `posix_lock_file`. */
    method EditList(ino: nat, r: Request)
      modifies this
      ensures State() == Applied(old(State()), ino, r)
    {
      var list := ListOf(lists, ino);
      var before := FindOwn(list, r.owner);
      var v, c := WalkOwnLocks(ino, list, before, r);
      var list1, rightId, leftId := FinishList(v, r, nextId, c);
      lists := lists[ino := list1];
      nextId := nextId + 2;
      ghost var s1 := Sys(lists, old(blocked), old(retry), nextId);
      WakeMaybe(ino, rightId, s1, c.woken);
      WakeMaybe(ino, leftId, s1, c.woken + if rightId.Some? then {rightId.value} else {});
    }

    /** `posix_lock_file` up to its return or its sleep. A task that is woken up calls it
        again with the request it slept on. */
    method PosixLockFile(ino: nat, r: Request, wait: bool) returns (result: Result)
      requires Inv(State()) && r.Valid() && Idle(State(), r.owner)
      modifies this
      ensures (State(), result) == Attempt(old(State()), ino, r, wait)
      ensures result == Done <==>
        || r.typ == UnLck
        || (BytesFree(ListOf(old(lists), ino), r) && !HasGhost(ListOf(old(lists), ino), r))
      ensures Inv(State())
    {
      ghost var s := State();
      AttemptGrants(s, ino, r, wait);
      result := TryLock(ino, r, wait);
      AttemptKeeps(s, ino, r, wait);
    }

    /** Scan, then refuse, sleep or edit. */
    method TryLock(ino: nat, r: Request, wait: bool) returns (result: Result)
      requires Inv(State())
      modifies this
      ensures (State(), result) == Attempt(old(State()), ino, r, wait)
    {
      if r.typ != UnLck {
        var list := ListOf(lists, ino);
        var k := FindConflict(list, r);
        if k < |list| {
          if !wait {
            return Again;
          }
          var deadlock := PosixLocksDeadlock(r.owner, list[k].owner);
          if deadlock {
            return Deadlock;
          }
          blocked := [Waiter(ino, r, list[k].id)] + blocked;
          return Asleep;
        }
      }
      EditList(ino, r);
      return Done;
    }

    /** The loop of `locks_remove_posix`: after every deletion the search starts over. */
    method RemoveOwned(ino: nat, list0: seq<Lock>, files: nat) returns (list: seq<Lock>)
      modifies this`blocked, this`retry
      ensures list == Remaining(list0, files)
      ensures State() == Wake(old(State()), ino, ClosedIds(list0, files))
    {
      ghost var s0, woken: set<nat> := State(), {};
      list := list0;
      var before := 0;
      WakeNone(s0, ino);
      while before < |list|
        invariant before <= |list| && forall x :: x in list[..before] ==> x.owner.files != files
        invariant Remaining(list, files) == Remaining(list0, files)
        invariant woken + ClosedIds(list, files) == ClosedIds(list0, files)
        invariant State() == Wake(s0, ino, woken)
        decreases |list|, |list| - before
      {
        var fl := list[before];
        if fl.owner.files == files {
          RemoveOne(list, before, files);
          list := list[..before] + list[before + 1..];
          WakeTwice(s0, ino, woken, {fl.id});
          WakeUpBlocks(ino, fl.id);
          woken := woken + {fl.id};
          before := 0;
        } else {
          before := before + 1;
        }
      }
      assert list[..before] == list;
      RemainingAll(list, files);
    }

    /** `locks_remove_posix`. */
    method LocksRemovePosix(ino: nat, files: nat)
      requires Inv(State())
      modifies this
      ensures State() == Step(old(State()), Close(ino, files))
      ensures Inv(State())
    {
      CloseKeeps(State(), ino, files);
      var list := RemoveOwned(ino, ListOf(lists, ino), files);
      lists := lists[ino := list];
    }
  }

  lemma {:induction false} RemainingSplit(a: seq<Lock>, c: seq<Lock>, files: nat)
    ensures Remaining(a + c, files) == Remaining(a, files) + Remaining(c, files)
  {
    if a == [] {
      assert a + c == c;
    } else {
      assert (a + c)[1..] == a[1..] + c;
      RemainingSplit(a[1..], c, files);
    }
  }

  lemma {:induction false} RemainingAll(l: seq<Lock>, files: nat)
    requires forall x :: x in l ==> x.owner.files != files
    ensures Remaining(l, files) == l && ClosedIds(l, files) == {}
  {
    if l != [] {
      assert l[0] in l;
      RemainingAll(l[1..], files);
    }
  }

  lemma RemoveOne(l: seq<Lock>, k: nat, files: nat)
    requires k < |l| && l[k].owner.files == files
    ensures Remaining(l[..k] + l[k + 1..], files) == Remaining(l, files)
    ensures {l[k].id} + ClosedIds(l[..k] + l[k + 1..], files) == ClosedIds(l, files)
  {
    assert l == l[..k] + ([l[k]] + l[k + 1..]);
    RemainingWithout(l[..k], l[k], l[k + 1..], files);
    ClosedIdsOf(l[..k], l[k], l[k + 1..], files);
  }

  lemma RemainingWithout(a: seq<Lock>, x: Lock, d: seq<Lock>, files: nat)
    requires x.owner.files == files
    ensures Remaining(a + d, files) == Remaining(a + ([x] + d), files)
  {
    RemainingSplit(a, d, files);
    RemainingSplit(a, [x] + d, files);
    assert ([x] + d)[1..] == d;
  }

  lemma ClosedIdsOf(a: seq<Lock>, x: Lock, d: seq<Lock>, files: nat)
    requires x.owner.files == files
    ensures {x.id} + ClosedIds(a + d, files) == ClosedIds(a + ([x] + d), files)
  {
    assert forall y :: y in a + ([x] + d) <==> y == x || y in a + d;
  }

  /** The caller grows to the given range, and the record at the slot goes. */
  method MergeInto(v: Vars, start: int, end: int, ghost c: Cursor) returns (v1: Vars)
    requires Tracks(v, c) && v.right == -1 && v.before < |v.list|
    ensures c.rest != [] && v1.right == -1 && Tracks(v1, Delete(SetCaller(c, start, end)))
  {
    var list, fl := v.list, v.list[v.before];
    if v.caller != -1 {
      StandsAfter(list, v.before, c, list[v.caller].(start := start, end := end), v.caller);
      list := list[v.caller := list[v.caller].(start := start, end := end)];
    }
    StandsAfter(list, v.before, SetCaller(c, start, end), fl, 0);
    return v.(list := list[..v.before] + list[v.before + 1..], start := start, end := end);
  }

  /** The scan at `repeat:`. */
  method FindConflict(list: seq<Lock>, r: Request) returns (k: nat)
    ensures k == Scan(list, r)
  {
    k := 0;
    while k < |list| && !Conflict(r, list[k])
      invariant k <= |list| && forall i :: 0 <= i < k ==> !Conflict(r, list[i])
    {
      k := k + 1;
    }
    var j := Scan(list, r);
    assert j == |list| ==> forall i :: 0 <= i < |list| ==> list[i] in list;
  }

  method FindOwn(list: seq<Lock>, o: Owner) returns (k: nat)
    ensures k == FirstOwn(list, o)
  {
    k := 0;
    while k < |list| && list[k].owner != o
      invariant k <= |list| && forall i :: 0 <= i < k ==> list[i].owner != o
    {
      k := k + 1;
    }
    FirstOwnIs(list, o, k);
  }

  /** The edits after the loop. An insertion at the slot moves the records from the slot on
      up by one place. Also returns the records whose waiters have to be woken. */
  method FinishList(v: Vars, r: Request, newId: nat, ghost c: Cursor)
    returns (list: seq<Lock>, rightId: Option<nat>, leftId: Option<nat>)
    requires Tracks(v, c)
    ensures list == Finish(c, v.right != -1, r.owner, r.typ, newId).list
    ensures Finish(c, v.right != -1, r.owner, r.typ, newId).woken
         == c.woken + (if rightId.Some? then {rightId.value} else {}) + (if leftId.Some? then {leftId.value} else {})
  {
    list, rightId, leftId := v.list, None, None;
    if !v.added && r.typ == UnLck {
      assert list == c.done + c.rest;
      return;
    }
    ghost var ins := Inserted(c, r.owner, r.typ, newId);
    var up := 0;
    list, up := InsertNew(v, r, newId, c);
    if v.right == -1 {
      list, leftId := FinishLeft(list, v, c, ins);
      assert list == Lower(c) + Split(c, false, newId) + ins + Upper(c, false);
    } else {
      var left := if v.left == v.before then v.left + up else v.left;
      list, rightId, leftId := FinishRight(list, left, v.right + up, v, newId, c, ins);
    }
  }

  method InsertNew(v: Vars, r: Request, newId: nat, ghost c: Cursor) returns (list: seq<Lock>, up: nat)
    requires Tracks(v, c)
    ensures list == c.done + Inserted(c, r.owner, r.typ, newId) + c.rest && up == |Inserted(c, r.owner, r.typ, newId)|
  {
    list, up := v.list, 0;
    if !v.added {
      list := Insert(list, v.before, Lock(newId, r.owner, r.typ, v.start, v.end));
      up := 1;
    } else {
      assert list == c.done + [] + c.rest;
    }
  }

  /** `right` is not set: only the record in front of the request may have to shrink. */
  method FinishLeft(list0: seq<Lock>, v: Vars, ghost c: Cursor, ghost ins: seq<Lock>)
    returns (list: seq<Lock>, leftId: Option<nat>)
    requires Tracks(v, c) && v.right == -1 && list0 == c.done + ins + c.rest
    ensures list == Lower(c) + [] + ins + c.rest
    ensures leftId == if v.left == -1 then None else Some(c.done[v.left].id)
  {
    list, leftId := list0, None;
    assert list == c.done + (ins + c.rest);
    if v.left != -1 {
      leftId := Some(list[v.left].id);
      list := list[v.left := list[v.left].(end := v.start - 1)];
      TrimFront(c, v.left, v.start - 1, ins + c.rest);
    }
    assert list == Lower(c) + (ins + c.rest);
  }

  /** `right` is set: split it if it is also `left`, and move its start up. */
  method FinishRight(list0: seq<Lock>, left0: int, right0: nat, v: Vars, newId: nat, ghost c: Cursor,
                     ghost ins: seq<Lock>)
    returns (list: seq<Lock>, rightId: Option<nat>, leftId: Option<nat>)
    requires Tracks(v, c) && v.right != -1 && list0 == c.done + ins + c.rest
    requires right0 == |c.done| + |ins| && left0 == if v.left == v.before then right0 else v.left
    ensures list == Lower(c) + Split(c, true, newId) + ins + Upper(c, true)
    ensures rightId == Some(c.rest[0].id)
    ensures v.left == v.before ==> leftId == Some(newId + 1)
    ensures v.left != v.before ==> leftId == if v.left == -1 then None else Some(c.done[v.left].id)
  {
    leftId := None;
    rightId := Some(list0[right0].id);
    list := list0[right0 := list0[right0].(start := Succ(v.end))];
    assert list == c.done + ins + Upper(c, true);
    if left0 == right0 {
      list := Insert(list, v.before, list0[right0].(id := newId + 1, end := v.start - 1));
      leftId := Some(newId + 1);
      assert list == c.done + Split(c, true, newId) + ins + Upper(c, true);
    } else if left0 != -1 {
      leftId := Some(list[left0].id);
      list := list[left0 := list[left0].(end := v.start - 1)];
      TrimFront(c, left0, v.start - 1, ins + Upper(c, true));
      assert list == Lower(c) + [] + ins + Upper(c, true);
    } else {
      assert list == Lower(c) + [] + ins + Upper(c, true);
    }
  }

  function Insert(l: seq<Lock>, k: nat, x: Lock): seq<Lock>
    requires k <= |l|
  {
    l[..k] + [x] + l[k..]
  }

  lemma TrimFront(c: Cursor, left: nat, e: int, tail: seq<Lock>)
    requires left < |c.done|
    ensures (c.done + tail)[left := c.done[left].(end := e)] == TrimEnd(c.done, left, e) + tail
  {
  }

  ghost function Applied(s: Sys, ino: nat, r: Request): Sys {
    var out := Apply(ListOf(s.lists, ino), r, s.nextId);
    Wake(s.(lists := s.lists[ino := out.list], nextId := s.nextId + 2), ino, out.woken)
  }

  lemma WakeNone(s: Sys, ino: nat)
    ensures Wake(s, ino, {}) == s
  {
    KeepAll(s.blocked, ino, {});
  }

  lemma {:induction false} FirstOwnIs(l: seq<Lock>, o: Owner, k: nat)
    requires k <= |l| && (k < |l| ==> l[k].owner == o) && forall i :: 0 <= i < k ==> l[i].owner != o
    ensures FirstOwn(l, o) == k
  {
  }
}
