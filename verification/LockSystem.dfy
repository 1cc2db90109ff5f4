/** All tasks together: sets, unlocks, blocking, retries, signals and closes, each a step
    that runs under the big kernel lock. */
module LockSystem {
  import opened Common
  import opened PosixLocks
  import opened LockEdit
  import opened LockSafety
  import opened PosixLockFile
  import opened WaitGraph

  /** A request asleep on `blocked_list`; `blocker` is the record its `fl_next` points to. */
  datatype Waiter = Waiter(ino: nat, req: Request, blocker: nat)

  /** A request whose task has been taken off the list and will scan again. */
  datatype Pending = Pending(ino: nat, req: Request)

  datatype Sys = Sys(lists: map<nat, seq<Lock>>, blocked: seq<Waiter>, retry: set<Pending>, nextId: nat)

  datatype Event =
    | SetLk(ino: nat, req: Request, wait: bool)
    | Retry(p: Pending)
    | Signal(task: Owner)
    | Close(ino: nat, files: nat)

  datatype Result = Done | Again | Deadlock | Asleep

  function ListOf(lists: map<nat, seq<Lock>>, ino: nat): seq<Lock> {
    if ino in lists then lists[ino] else []
  }

  // ---------------------------------------------------------------- waking up

  predicate Hit(w: Waiter, ino: nat, ids: set<nat>) {
    w.ino == ino && w.blocker in ids
  }

  /** `locks_wake_up_blocks` on the records `ids`: what stays on the blocked list. */
  function Keep(b: seq<Waiter>, ino: nat, ids: set<nat>): (r: seq<Waiter>)
    ensures forall w :: w in r <==> w in b && !Hit(w, ino, ids)
    ensures OneWaitEach(b) ==> OneWaitEach(r)
  {
    if b == [] then []
    else
      assert b == [b[0]] + b[1..];
      if Hit(b[0], ino, ids) then Keep(b[1..], ino, ids)
      else [b[0]] + Keep(b[1..], ino, ids)
  }

  /** A task waits for one lock at a time. */
  ghost predicate OneWaitEach(b: seq<Waiter>) {
    b == [] || ((forall w :: w in b[1..] ==> w.req.owner != b[0].req.owner) && OneWaitEach(b[1..]))
  }

  function Wake(s: Sys, ino: nat, ids: set<nat>): Sys {
    s.(blocked := Keep(s.blocked, ino, ids),
       retry := s.retry + set w | w in s.blocked && Hit(w, ino, ids) :: Pending(w.ino, w.req))
  }

  // ---------------------------------------------------------------- waits-for

  function OwnerOf(l: seq<Lock>, id: nat): Option<Owner> {
    if l == [] then None else if l[0].id == id then Some(l[0].owner) else OwnerOf(l[1..], id)
  }

  /** The entry `list_for_each` finds first. */
  function WaitOf(b: seq<Waiter>, o: Owner): (r: Option<Waiter>)
    ensures r.Some? ==> r.value in b && r.value.req.owner == o
    ensures r.None? ==> forall w :: w in b ==> w.req.owner != o
  {
    if b == [] then None else if b[0].req.owner == o then Some(b[0]) else WaitOf(b[1..], o)
  }

  /** Who a task waits for: the owner of the record its request sleeps on. */
  function Awaits(s: Sys, o: Owner): Option<Owner> {
    match WaitOf(s.blocked, o)
    case None => None
    case Some(w) => OwnerOf(ListOf(s.lists, w.ino), w.blocker)
  }

  ghost function WaitsFor(s: Sys): Graph<Owner> {
    map o | o in (set w | w in s.blocked :: w.req.owner) && Awaits(s, o).Some? :: Awaits(s, o).value
  }

  // ---------------------------------------------------------------- the steps

  function Scan(l: seq<Lock>, r: Request): (k: nat)
    ensures k <= |l|
    ensures k < |l| ==> FirstConflict(l, r, k)
    ensures k == |l| ==> NoConflict(l, r)
  {
    if l == [] then 0
    else
      assert l == [l[0]] + l[1..];
      if Conflict(r, l[0]) then 0 else 1 + Scan(l[1..], r)
  }

  /** `posix_lock_file` from the conflict scan to the next sleep or the return. */
  ghost function Attempt(s: Sys, ino: nat, r: Request, wait: bool): (Sys, Result) {
    var l := ListOf(s.lists, ino);
    var k := Scan(l, r);
    if r.typ != UnLck && k < |l| then
      if !wait then (s, Again)
      else if Reaches(WaitsFor(s), l[k].owner, r.owner) then (s, Deadlock)
      else (s.(blocked := [Waiter(ino, r, l[k].id)] + s.blocked), Asleep)
    else
      var out := Apply(l, r, s.nextId);
      (Wake(s.(lists := s.lists[ino := out.list], nextId := s.nextId + 2), ino, out.woken), Done)
  }

  /** `locks_remove_posix`: every lock of the files table goes, whatever its pid. */
  function Remaining(l: seq<Lock>, files: nat): (r: seq<Lock>)
    ensures forall x :: x in r <==> x in l && x.owner.files != files
  {
    if l == [] then []
    else
      assert l == [l[0]] + l[1..];
      if l[0].owner.files == files then Remaining(l[1..], files) else [l[0]] + Remaining(l[1..], files)
  }

  function ClosedIds(l: seq<Lock>, files: nat): set<nat> {
    set x | x in l && x.owner.files == files :: x.id
  }

  ghost predicate Idle(s: Sys, o: Owner) {
    && (forall w :: w in s.blocked ==> w.req.owner != o)
    && (forall p :: p in s.retry ==> p.req.owner != o)
  }

  function Interrupt(s: Sys, o: Owner): Sys {
    s.(blocked := Drop(s.blocked, o), retry := set p | p in s.retry && p.req.owner != o)
  }

  function Drop(b: seq<Waiter>, o: Owner): (r: seq<Waiter>)
    ensures forall w :: w in r <==> w in b && w.req.owner != o
    ensures OneWaitEach(b) ==> OneWaitEach(r)
  {
    if b == [] then []
    else
      assert b == [b[0]] + b[1..];
      if b[0].req.owner == o then Drop(b[1..], o) else [b[0]] + Drop(b[1..], o)
  }

  /** A task in the middle of a call cannot start another one. */
  ghost predicate Enabled(s: Sys, e: Event) {
    match e
    case SetLk(ino, r, wait) => r.Valid() && Idle(s, r.owner)
    case Retry(p) => p in s.retry
    case Signal(o) => true
    case Close(ino, files) => true
  }

  ghost function Step(s: Sys, e: Event): Sys
    requires Enabled(s, e)
  {
    match e
    case SetLk(ino, r, wait) => Attempt(s, ino, r, wait).0
    case Retry(p) => Attempt(s.(retry := s.retry - {p}), p.ino, p.req, true).0
    case Signal(o) => Interrupt(s, o)
    case Close(ino, files) =>
      var l := ListOf(s.lists, ino);
      Wake(s.(lists := s.lists[ino := Remaining(l, files)]), ino, ClosedIds(l, files))
  }

  ghost predicate IsRun(s: Sys, es: seq<Event>)
    decreases |es|
  {
    es == [] || (Enabled(s, es[0]) && IsRun(Step(s, es[0]), es[1..]))
  }

  ghost function After(s: Sys, es: seq<Event>): Sys
    requires IsRun(s, es)
    decreases |es|
  {
    if es == [] then s else After(Step(s, es[0]), es[1..])
  }

  const INITIAL: Sys := Sys(map[], [], {}, 0)

  // ---------------------------------------------------------------- the invariant

  ghost predicate GoodList(l: seq<Lock>, n: nat) {
    Typed(l) && IdsBelow(l, n) && MutualExclusion(l)
  }

  /** Asleep for a reason: the record the request sleeps on is still in its inode's list
      and still conflicts with the request as it is now. */
  ghost predicate Justified(lists: map<nat, seq<Lock>>, w: Waiter) {
    && w.req.Valid() && w.req.typ != UnLck
    && exists x :: x in ListOf(lists, w.ino) && x.id == w.blocker && Conflict(w.req, x)
  }

  ghost predicate OneCallEach(s: Sys) {
    && OneWaitEach(s.blocked)
    && (forall w, p :: w in s.blocked && p in s.retry ==> w.req.owner != p.req.owner)
    && (forall p, q :: p in s.retry && q in s.retry && p.req.owner == q.req.owner ==> p == q)
  }

  ghost predicate Inv(s: Sys) {
    && (forall ino :: ino in s.lists ==> GoodList(s.lists[ino], s.nextId))
    && (forall w :: w in s.blocked ==> Justified(s.lists, w))
    && (forall p :: p in s.retry ==> p.req.Valid() && p.req.typ != UnLck)
    && OneCallEach(s)
    && Acyclic(WaitsFor(s))
  }
}
