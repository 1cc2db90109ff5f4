/** The cache of dquots (fs/dquot.c:333-360, 394-541, 973-1014, 1136-1218): reference counts,
    the hash, the free list and invalidation, with every operation cut at the points where it
    may sleep.

    A task has six local references: the spare dquot and the found dquot of `dqget`, and the
    arrays `transfer_to` (also the array of `dquot_initialize`) and `transfer_from`. */
module DquotCache {
  import opened Common
  import opened Lists

  datatype Key = Key(sb: nat, typ: nat, id: nat)

  /** `key` is None as long as `dq_sb` is NULL; a dquot with a key is on its hash chain. `live`
      says that it is on the in-use list, that is, that it has not been freed. */
  datatype Dquot = Dquot(key: Option<Key>, count: nat, dirty: bool, locked: bool, inval: bool, live: bool)

  const MAXQUOTAS: nat := 2
  const SPARE: nat := 0
  const FOUND: nat := 1
  const TO: nat := 2
  const FROM: nat := 4
  const LOCALS: nat := 6

  type Refs = seq<Option<nat>>

  /** Where a task is. */
  datatype Pc =
    | Idle
    | Getting(key: Key, into: nat)
    | Allocating(key: Key, into: nat)
    | Reading(into: nat)
    | Waiting(into: nat)
    | Putting(k: nat)
    | Writing(k: nat)
    | Syncing
    | Scanning(sb: nat, typ: nat)
    | Unusing(sb: nat, typ: nat, x: nat)

  datatype State = State(objs: seq<Dquot>, free: seq<nat>, nrFree: int, slots: seq<Refs>, hands: seq<Refs>,
                         pcs: seq<Pc>, on: set<(nat, nat)>)

  // ---------------------------------------------------------------- references

  function Count(h: Refs, x: nat): nat {
    if h == [] then 0 else Count(h[1..], x) + if h[0] == Some(x) then 1 else 0
  }

  function CountAll(hs: seq<Refs>, x: nat): nat {
    if hs == [] then 0 else Count(hs[0], x) + CountAll(hs[1..], x)
  }

  function Is(v: Option<nat>, x: nat): nat { if v == Some(x) then 1 else 0 }

  lemma {:induction false} CountUpdate(h: Refs, k: nat, v: Option<nat>, x: nat)
    requires k < |h|
    ensures Count(h[k := v], x) == Count(h, x) - Is(h[k], x) + Is(v, x) && Count(h, x) >= Is(h[k], x)
  {
    if k == 0 {
      assert h[0 := v][1..] == h[1..];
    } else {
      assert h[k := v][1..] == h[1..][k - 1 := v];
      CountUpdate(h[1..], k - 1, v, x);
    }
  }

  lemma {:induction false} CountAllUpdate(hs: seq<Refs>, i: nat, h: Refs, x: nat)
    requires i < |hs|
    ensures CountAll(hs[i := h], x) == CountAll(hs, x) - Count(hs[i], x) + Count(h, x)
    ensures CountAll(hs, x) >= Count(hs[i], x)
  {
    if i == 0 {
      assert hs[0 := h][1..] == hs[1..];
    } else {
      assert hs[i := h][1..] == hs[1..][i - 1 := h];
      CountAllUpdate(hs[1..], i - 1, h, x);
    }
  }

  /** Inode references plus in-flight holders. */
  function Held(s: State, x: nat): nat { CountAll(s.slots, x) + CountAll(s.hands, x) }

  // ---------------------------------------------------------------- the invariant

  ghost predicate Shape(s: State) {
    && |s.pcs| == |s.hands|
    && (forall i :: 0 <= i < |s.hands| ==> |s.hands[i]| == LOCALS)
    && (forall n :: 0 <= n < |s.slots| ==> |s.slots[n]| == MAXQUOTAS)
  }

  /** A reference that a caller may have: to a dquot with an identity, read in. */
  predicate Settled(objs: seq<Dquot>, v: Option<nat>) {
    v.Some? ==> v.value < |objs| && objs[v.value].key.Some? && !objs[v.value].locked
  }

  predicate Known(objs: seq<Dquot>, v: Option<nat>) {
    v.Some? && v.value < |objs| && objs[v.value].key.Some?
  }

  /** A spare dquot is known to nobody else. */
  predicate Blank(objs: seq<Dquot>, v: Option<nat>) {
    v.Some? ==> v.value < |objs| && objs[v.value].key.None? && objs[v.value].count == 1
  }

  /** What a task has in hand at each of its sleeping points. */
  predicate TaskOk(objs: seq<Dquot>, h: Refs, pc: Pc)
    requires |h| == LOCALS
  {
    && (forall k :: TO <= k < LOCALS ==> Settled(objs, h[k]))
    && match pc
       case Idle => h[SPARE] == None && h[FOUND] == None
       case Getting(_, into) => TO <= into < LOCALS && h[into] == None && h[FOUND] == None && Blank(objs, h[SPARE])
       case Allocating(_, into) => TO <= into < LOCALS && h[into] == None && h[FOUND] == None && h[SPARE] == None
       case Reading(into) => TO <= into < LOCALS && h[into] == None && Known(objs, h[FOUND]) && h[SPARE] == None
       case Waiting(into) => TO <= into < LOCALS && h[into] == None && Known(objs, h[FOUND]) && Blank(objs, h[SPARE])
       case Putting(k) => PuttingOk(objs, h, k)
       case Writing(k) => PuttingOk(objs, h, k)
       case Syncing => Known(objs, h[FOUND]) && h[SPARE] == None
       case Scanning(_, _) => h[SPARE] == None && h[FOUND] == None
       case Unusing(sb, typ, x) =>
         && h[SPARE] == None && h[FOUND] == None && x < |objs| && objs[x].live && objs[x].inval
         && objs[x].key.Some? && objs[x].key.value.sb == sb && objs[x].key.value.typ == typ
  }

  predicate PuttingOk(objs: seq<Dquot>, h: Refs, k: nat)
    requires |h| == LOCALS
  {
    && k < LOCALS && h[k].Some? && h[k].value < |objs|
    && (k != SPARE ==> h[SPARE] == None) && (k != FOUND ==> h[FOUND] == None)
    && (k == FOUND ==> Known(objs, h[k]))
  }

  predicate Tasks(s: State)
    requires |s.pcs| == |s.hands| && forall i :: 0 <= i < |s.hands| ==> |s.hands[i]| == LOCALS
  {
    forall i :: 0 <= i < |s.hands| ==> TaskOk(s.objs, s.hands[i], s.pcs[i])
  }

  predicate Slots(s: State) {
    forall n, t :: 0 <= n < |s.slots| && 0 <= t < |s.slots[n]| ==> Settled(s.objs, s.slots[n][t])
  }

  predicate Counts(s: State) { forall x :: 0 <= x < |s.objs| ==> CountOk(s, x) }

  predicate CountOk(s: State, x: nat)
    requires x < |s.objs|
  {
    s.objs[x].count == Held(s, x)
  }

  /** The free list holds exactly the dquots nobody uses and nobody is about to free. */
  predicate FreeOk(s: State) {
    && NoDup(s.free) && s.nrFree == |s.free|
    && (forall x :: x in s.free ==> x < |s.objs|)
    && (forall x :: 0 <= x < |s.objs| ==> IsFree(s, x))
  }

  predicate IsFree(s: State, x: nat)
    requires x < |s.objs|
  {
    x in s.free <==> s.objs[x].live && s.objs[x].count == 0 && !s.objs[x].inval
  }

  /** One dquot at most for a user or group of a file system. */
  predicate Keys(s: State) {
    forall x, y :: 0 <= x < |s.objs| && 0 <= y < |s.objs| && SameKey(s.objs, x, y) ==> x == y
  }

  predicate SameKey(objs: seq<Dquot>, x: nat, y: nat)
    requires x < |objs| && y < |objs|
  {
    objs[x].key.Some? && objs[x].key == objs[y].key
  }

  /** A dquot that is being read in has its reader. */
  ghost predicate HasReader(s: State, x: nat)
    requires Shape(s)
  {
    exists i :: 0 <= i < |s.hands| && s.pcs[i].Reading? && s.hands[i][FOUND] == Some(x)
  }

  ghost predicate HasUndertaker(s: State, x: nat) {
    exists i :: 0 <= i < |s.pcs| && s.pcs[i].Unusing? && s.pcs[i].x == x
  }

  ghost predicate FlagsOk(s: State, x: nat)
    requires Shape(s) && x < |s.objs|
  {
    var o := s.objs[x];
    && (!o.live ==> o.count == 0 && o.key.None? && !o.inval)
    && (o.dirty ==> o.count > 0)
    && (o.locked ==> HasReader(s, x))
    && (o.inval ==> HasUndertaker(s, x))
  }

  ghost predicate Flags(s: State)
    requires Shape(s)
  {
    forall x :: 0 <= x < |s.objs| ==> FlagsOk(s, x)
  }

  /** `dqoff_sem`: one invalidation at a time for a quota. */
  predicate Alone(pcs: seq<Pc>) {
    forall i, j :: 0 <= i < |pcs| && 0 <= j < |pcs| && SameScan(pcs[i], pcs[j]) ==> i == j
  }

  predicate SameScan(a: Pc, b: Pc) {
    (a.Scanning? || a.Unusing?) && (b.Scanning? || b.Unusing?) && a.sb == b.sb && a.typ == b.typ
  }

  ghost predicate Inv(s: State) {
    Shape(s) && Tasks(s) && Slots(s) && Counts(s) && FreeOk(s) && Keys(s) && Flags(s) && Alone(s.pcs)
  }

  // ---------------------------------------------------------------- what most steps are

  /** Task `i` goes on with locals `h` at `pc`, and dquot `x` becomes `o`. */
  function Updated(s: State, i: nat, h: Refs, pc: Pc, x: nat, o: Dquot, free: seq<nat>): State
    requires i < |s.hands| && i < |s.pcs| && x < |s.objs|
  {
    s.(objs := s.objs[x := o], hands := s.hands[i := h], pcs := s.pcs[i := pc], free := free,
       nrFree := s.nrFree + |free| - |s.free|)
  }

  /** The identity of a dquot stays, and it is not locked again. */
  predicate Milder(o: Dquot, o1: Dquot) {
    o1.key == o.key && o1.live == o.live && o1.inval == o.inval && (o1.locked ==> o.locked)
  }

  lemma MilderTask(objs: seq<Dquot>, x: nat, o: Dquot, h: Refs, pc: Pc)
    requires x < |objs| && Milder(objs[x], o) && |h| == LOCALS && TaskOk(objs, h, pc)
    requires objs[x].key.None? && objs[x].count == 1 ==> h[SPARE] != Some(x)
    ensures TaskOk(objs[x := o], h, pc)
  {
    forall k | TO <= k < LOCALS ensures Settled(objs[x := o], h[k]) {
      assert Settled(objs, h[k]);
    }
  }

  lemma MilderSlots(s: State, x: nat, o: Dquot)
    requires x < |s.objs| && Milder(s.objs[x], o) && Slots(s)
    ensures Slots(s.(objs := s.objs[x := o]))
  {
    forall n, t | 0 <= n < |s.slots| && 0 <= t < |s.slots[n]| ensures Settled(s.objs[x := o], s.slots[n][t]) {
      assert Settled(s.objs, s.slots[n][t]);
    }
  }

  ghost predicate SameBut(h: Refs, h1: Refs, x: nat) { forall y: nat :: y != x ==> Count(h1, y) == Count(h, y) }

  lemma UpdatedCounts(s: State, i: nat, h: Refs, pc: Pc, x: nat, o: Dquot, free: seq<nat>)
    requires Shape(s) && Counts(s) && i < |s.hands| && x < |s.objs|
    requires o.count - s.objs[x].count == Count(h, x) - Count(s.hands[i], x) && SameBut(s.hands[i], h, x)
    ensures Counts(Updated(s, i, h, pc, x, o, free))
  {
    var s1 := Updated(s, i, h, pc, x, o, free);
    forall y | 0 <= y < |s1.objs| ensures CountOk(s1, y) {
      assert CountOk(s, y);
      CountAllUpdate(s.hands, i, h, y);
    }
  }

  ghost predicate FreeFits(s: State, x: nat, o: Dquot, free: seq<nat>) {
    && NoDup(free) && (forall y: nat :: y != x ==> (y in free <==> y in s.free))
    && (x in free <==> o.live && o.count == 0 && !o.inval)
  }

  lemma UpdatedFree(s: State, i: nat, h: Refs, pc: Pc, x: nat, o: Dquot, free: seq<nat>)
    requires Shape(s) && FreeOk(s) && i < |s.hands| && x < |s.objs| && FreeFits(s, x, o, free)
    ensures FreeOk(Updated(s, i, h, pc, x, o, free))
  {
    var s1 := Updated(s, i, h, pc, x, o, free);
    forall y | 0 <= y < |s1.objs| ensures IsFree(s1, y) {
      assert IsFree(s, y);
    }
  }

  lemma UpdatedKeys(s: State, x: nat, o: Dquot)
    requires Keys(s) && x < |s.objs| && o.key == s.objs[x].key
    ensures Keys(s.(objs := s.objs[x := o]))
  {
    var objs := s.objs[x := o];
    forall y, z | 0 <= y < |objs| && 0 <= z < |objs| && SameKey(objs, y, z) ensures y == z {
      assert SameKey(s.objs, y, z);
    }
  }

  /** Only a reader that has just unlocked its dquot stops being one, and nobody here is an
      invalidator. */
  predicate Relieved(s: State, i: nat, pc: Pc, x: nat, o: Dquot)
    requires Shape(s) && i < |s.hands| && x < |s.objs|
  {
    && (s.pcs[i].Reading? ==> s.hands[i][FOUND] == Some(x) && !o.locked)
    && !s.pcs[i].Unusing? && !s.pcs[i].Scanning? && !pc.Unusing? && !pc.Scanning?
  }

  lemma UpdatedFlags(s: State, i: nat, h: Refs, pc: Pc, x: nat, o: Dquot, free: seq<nat>)
    requires Shape(s) && Flags(s) && i < |s.hands| && x < |s.objs| && |h| == LOCALS
    requires Milder(s.objs[x], o) && s.objs[x].live && (o.dirty ==> o.count > 0) && Relieved(s, i, pc, x, o)
    ensures Flags(Updated(s, i, h, pc, x, o, free))
  {
    var s1 := Updated(s, i, h, pc, x, o, free);
    forall y | 0 <= y < |s1.objs| ensures FlagsOk(s1, y) {
      assert FlagsOk(s, y);
      if s1.objs[y].locked {
        var j :| 0 <= j < |s.hands| && s.pcs[j].Reading? && s.hands[j][FOUND] == Some(y);
        assert j != i && s1.pcs[j].Reading? && s1.hands[j][FOUND] == Some(y);
      }
      if s1.objs[y].inval {
        var j :| 0 <= j < |s.pcs| && s.pcs[j].Unusing? && s.pcs[j].x == y;
        assert j != i && s1.pcs[j].Unusing? && s1.pcs[j].x == y;
      }
    }
  }

  lemma UpdatedAlone(pcs: seq<Pc>, i: nat, pc: Pc)
    requires Alone(pcs) && i < |pcs| && !pc.Unusing? && !pc.Scanning?
    ensures Alone(pcs[i := pc])
  {
    var pcs1 := pcs[i := pc];
    forall a, b | 0 <= a < |pcs1| && 0 <= b < |pcs1| && SameScan(pcs1[a], pcs1[b]) ensures a == b {
      assert SameScan(pcs[a], pcs[b]);
    }
  }

  predicate Has(h: Refs, x: nat) { exists k :: 0 <= k < |h| && h[k] == Some(x) }

  /** Two holders make two references. */
  lemma TwoHolders(s: State, i: nat, j: nat, x: nat)
    requires Counts(s) && i < |s.hands| && j < |s.hands| && i != j && Has(s.hands[i], x) && Has(s.hands[j], x)
    requires x < |s.objs|
    ensures s.objs[x].count >= 2
  {
    assert CountOk(s, x);
    var k :| 0 <= k < |s.hands[i]| && s.hands[i][k] == Some(x);
    var l :| 0 <= l < |s.hands[j]| && s.hands[j][l] == Some(x);
    CountUpdate(s.hands[i], k, None, x);
    CountUpdate(s.hands[j], l, None, x);
    CountAllUpdate(s.hands, i, [], x);
    CountAllUpdate(s.hands[i := []], j, [], x);
  }

  lemma UpdatedTasks(s: State, i: nat, h: Refs, pc: Pc, x: nat, o: Dquot, free: seq<nat>)
    requires Shape(s) && Tasks(s) && Counts(s) && i < |s.hands| && x < |s.objs| && |h| == LOCALS && Milder(s.objs[x], o)
    requires TaskOk(s.objs[x := o], h, pc) && (s.objs[x].key.Some? || Has(s.hands[i], x))
    ensures Shape(Updated(s, i, h, pc, x, o, free)) && Tasks(Updated(s, i, h, pc, x, o, free))
  {
    var s1 := Updated(s, i, h, pc, x, o, free);
    forall j | 0 <= j < |s1.hands| ensures TaskOk(s1.objs, s1.hands[j], s1.pcs[j]) {
      if j != i {
        if s.objs[x].key.None? && s.hands[j][SPARE] == Some(x) { TwoHolders(s, i, j, x); }
        MilderTask(s.objs, x, o, s.hands[j], s.pcs[j]);
      }
    }
  }

  /** One task, one dquot. */
  lemma UpdatedKeeps(s: State, i: nat, h: Refs, pc: Pc, x: nat, o: Dquot, free: seq<nat>)
    requires Inv(s) && i < |s.hands| && x < |s.objs| && |h| == LOCALS
    requires Milder(s.objs[x], o) && s.objs[x].live && (o.dirty ==> o.count > 0) && Relieved(s, i, pc, x, o)
    requires o.count - s.objs[x].count == Count(h, x) - Count(s.hands[i], x) && SameBut(s.hands[i], h, x)
    requires FreeFits(s, x, o, free) && TaskOk(s.objs[x := o], h, pc) && (s.objs[x].key.Some? || Has(s.hands[i], x))
    ensures Inv(Updated(s, i, h, pc, x, o, free))
  {
    UpdatedTasks(s, i, h, pc, x, o, free);
    UpdatedCounts(s, i, h, pc, x, o, free);
    UpdatedFree(s, i, h, pc, x, o, free);
    UpdatedFlags(s, i, h, pc, x, o, free);
    UpdatedAlone(s.pcs, i, pc);
    MilderSlots(s, x, o);
    UpdatedKeys(s, x, o);
  }

  /** A reference in hand counts, so its dquot is alive. */
  lemma InHand(s: State, i: nat, k: nat)
    requires Inv(s) && i < |s.hands| && k < LOCALS && s.hands[i][k].Some? && s.hands[i][k].value < |s.objs|
    ensures var o := s.objs[s.hands[i][k].value]; o.count > 0 && o.live && s.hands[i][k].value !in s.free
  {
    var x := s.hands[i][k].value;
    assert CountOk(s, x) && FlagsOk(s, x) && IsFree(s, x);
    CountUpdate(s.hands[i], k, None, x);
    CountAllUpdate(s.hands, i, s.hands[i], x);
  }

  lemma InSlot(s: State, n: nat, t: nat)
    requires Inv(s) && n < |s.slots| && t < MAXQUOTAS && s.slots[n][t].Some?
    ensures s.slots[n][t].value < |s.objs|
    ensures var o := s.objs[s.slots[n][t].value]; o.count > 0 && o.live && o.key.Some? && !o.locked
  {
    var x := s.slots[n][t].value;
    assert Settled(s.objs, s.slots[n][t]);
    assert CountOk(s, x) && FlagsOk(s, x);
    CountUpdate(s.slots[n], t, None, x);
    CountAllUpdate(s.slots, n, s.slots[n], x);
  }
}
