/** POSIX record locks as kept on one inode's `i_flock` list (fs/locks.c): the lock
    record, what a list grants byte by byte, the canonical shape the code aims to keep,
    and the conflict tests behind F_SETLK and F_GETLK.

    The linked list is a sequence of records; a record's `id` stands for its address,
    which never changes while its range and type do. Offsets are `loff_t`, so the one
    place where the code can step past the largest offset wraps (`Succ`). */
module PosixLocks {

  const OFFSET_MAX: int := 0x7fff_ffff_ffff_ffff
  const OFFSET_MIN: int := -0x8000_0000_0000_0000

  /** `x + 1` on a signed 64-bit offset. */
  function Succ(x: int): int {
    if x == OFFSET_MAX then OFFSET_MIN else x + 1
  }

  datatype LockType = RdLck | WrLck | UnLck

  /** `locks_same_owner` compares the files table and the pid. */
  datatype Owner = Owner(files: nat, pid: nat)

  datatype Lock = Lock(id: nat, owner: Owner, typ: LockType, start: int, end: int)

  /** A request as `flock_to_posix_lock` builds it. */
  datatype Request = Request(owner: Owner, typ: LockType, start: int, end: int) {
    ghost predicate Valid() { 0 <= start <= end <= OFFSET_MAX }
  }

  // ---------------------------------------------------------------- the byte map

  predicate Covers(l: Lock, o: Owner, b: int) {
    l.owner == o && l.start <= b <= l.end
  }

  function TypeOf(l: Lock, o: Owner, b: int): set<LockType> {
    if Covers(l, o, b) then {l.typ} else {}
  }

  /** Every lock type that owner `o` holds on byte `b`. */
  function TypesAt(l: seq<Lock>, o: Owner, b: int): set<LockType> {
    if l == [] then {} else TypeOf(l[0], o, b) + TypesAt(l[1..], o, b)
  }

  /** What fcntl() is specified to leave on byte `b` of owner `o`. */
  ghost function SpecAt(l: seq<Lock>, r: Request, o: Owner, b: int): set<LockType> {
    if o == r.owner && r.start <= b <= r.end then
      if r.typ == UnLck then {} else {r.typ}
    else
      TypesAt(l, o, b)
  }

  lemma {:induction false} TypesConcat(a: seq<Lock>, c: seq<Lock>, o: Owner, b: int)
    ensures TypesAt(a + c, o, b) == TypesAt(a, o, b) + TypesAt(c, o, b)
  {
    if a == [] {
      assert a + c == c;
    } else {
      assert (a + c)[1..] == a[1..] + c;
      TypesConcat(a[1..], c, o, b);
    }
  }

  lemma {:induction false} TypesUpdate(a: seq<Lock>, i: nat, x: Lock, o: Owner, b: int)
    requires i < |a|
    ensures TypesAt(a[i := x], o, b) == TypesAt(a[..i], o, b) + TypeOf(x, o, b) + TypesAt(a[i + 1..], o, b)
    ensures TypesAt(a, o, b) == TypesAt(a[..i], o, b) + TypeOf(a[i], o, b) + TypesAt(a[i + 1..], o, b)
  {
    assert a[i := x] == a[..i] + ([x] + a[i + 1..]);
    assert a == a[..i] + ([a[i]] + a[i + 1..]);
    TypesConcat(a[..i], [x] + a[i + 1..], o, b);
    TypesConcat(a[..i], [a[i]] + a[i + 1..], o, b);
    assert ([x] + a[i + 1..])[1..] == a[i + 1..];
    assert ([a[i]] + a[i + 1..])[1..] == a[i + 1..];
  }

  /** A type is held exactly when some record grants it. */
  lemma {:induction false} TypesMember(l: seq<Lock>, o: Owner, b: int, t: LockType)
    ensures t in TypesAt(l, o, b) <==> exists x :: x in l && Covers(x, o, b) && x.typ == t
  {
    if l != [] {
      TypesMember(l[1..], o, b, t);
      assert l == [l[0]] + l[1..];
      assert forall x :: x in l <==> x == l[0] || x in l[1..];
      if t in TypesAt(l, o, b) {
        if t in TypeOf(l[0], o, b) {
          assert l[0] in l && Covers(l[0], o, b) && l[0].typ == t;
        } else {
          var x :| x in l[1..] && Covers(x, o, b) && x.typ == t;
          assert x in l;
        }
      }
    }
  }

  // ---------------------------------------------------------------- canonical lists

  predicate WellFormed(l: Lock) {
    0 <= l.start <= l.end <= OFFSET_MAX && l.typ != UnLck
  }

  /** `a` lies strictly below `c`, and does not even touch it when the types agree. */
  predicate Gap(a: Lock, c: Lock) {
    a.end < c.start && (a.typ == c.typ ==> a.end + 1 < c.start)
  }

  ghost predicate UniqueIds(l: seq<Lock>) {
    forall i, j :: 0 <= i < j < |l| ==> l[i].id != l[j].id
  }

  predicate Between(l: seq<Lock>, i: int, k: int, j: int) {
    0 <= i < k < j < |l| && l[i].owner == l[j].owner
  }

  /** Each owner's locks are contiguous in the list. */
  ghost predicate Contiguous(l: seq<Lock>) {
    forall i, k, j :: Between(l, i, k, j) ==> l[k].owner == l[i].owner
  }

  /** Locks of one owner are in increasing order, disjoint and maximal. */
  ghost predicate Sorted(l: seq<Lock>) {
    forall i, j :: 0 <= i < j < |l| && l[i].owner == l[j].owner ==> Gap(l[i], l[j])
  }

  ghost predicate Canonical(l: seq<Lock>) {
    (forall x :: x in l ==> WellFormed(x)) && Contiguous(l) && Sorted(l)
  }

  // ---------------------------------------------------------------- conflicts

  predicate Overlap(s1: int, e1: int, s2: int, e2: int) {
    e1 >= s2 && e2 >= s1
  }

  /** `locks_conflict`: the switch is on the caller's type. */
  predicate TypesClash(callerType: LockType, sysType: LockType) {
    match callerType
    case RdLck => sysType == WrLck
    case WrLck => true
    case UnLck => false
  }

  /** `posix_locks_conflict(caller, sys)`. */
  predicate Conflict(caller: Request, sys: Lock) {
    && caller.owner != sys.owner
    && Overlap(caller.start, caller.end, sys.start, sys.end)
    && TypesClash(caller.typ, sys.typ)
  }

  /** The same test with the arguments the other way round, as `posix_test_lock` makes it. */
  predicate ReverseConflict(sys: Lock, caller: Request) {
    && sys.owner != caller.owner
    && Overlap(sys.start, sys.end, caller.start, caller.end)
    && TypesClash(sys.typ, caller.typ)
  }

  /** `x` is the first position of `l` that satisfies nothing before it does. */
  ghost predicate FirstConflict(l: seq<Lock>, r: Request, k: nat) {
    && k < |l| && Conflict(r, l[k])
    && forall i :: 0 <= i < k ==> !Conflict(r, l[i])
  }

  ghost predicate NoConflict(l: seq<Lock>, r: Request) {
    forall x :: x in l ==> !Conflict(r, x)
  }

  /** No byte is write-locked by one owner while another owner holds any lock on it. */
  ghost predicate MutualExclusion(l: seq<Lock>) {
    forall o, p, b :: o != p && WrLck in TypesAt(l, o, b) ==> TypesAt(l, p, b) == {}
  }
}
