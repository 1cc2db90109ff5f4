/** The sections of `dqget`, `dqput`, `dqduplicate`, `sync_dquots`, `prune_dqcache`,
    `invalidate_dquots` and `dquot_transfer` between two sleeps (fs/dquot.c:333-541,
    1136-1218), and what every one of them keeps. */
module DquotSteps {
  import opened Common
  import opened Lists
  import opened DquotCache

  predicate IsTask(s: State, i: nat) { i < |s.hands| && i < |s.pcs| && |s.hands[i]| == LOCALS }

  function Go(s: State, i: nat, pc: Pc): State
    requires i < |s.pcs|
  {
    s.(pcs := s.pcs[i := pc])
  }

  /** The dquot in local variable `k`. */
  predicate HasLocal(s: State, i: nat, k: nat) {
    IsTask(s, i) && k < LOCALS && s.hands[i][k].Some? && s.hands[i][k].value < |s.objs|
  }

  // ---------------------------------------------------------------- dqput

  function PutSection(s: State, i: nat, k: nat): State
    requires HasLocal(s, i, k)
  {
    var h, x := s.hands[i], s.hands[i][k].value;
    var o := s.objs[x];
    if o.count == 0 then Updated(s, i, h[k := None], Idle, x, o, s.free)
    else if o.count > 1 then Updated(s, i, h[k := None], Idle, x, o.(count := o.count - 1), s.free)
    else if o.dirty then Updated(s, i, h, Writing(k), x, o, s.free)
    else if x in s.free then Updated(s, i, h[k := None], Idle, x, o.(count := 0), s.free)
    else Updated(s, i, h[k := None], Idle, x, o.(count := 0), if o.inval then s.free else s.free + [x])
  }

  /** `write_dquot`, up to the write that sleeps; then the count is looked at again. */
  function WriteSection(s: State, i: nat, k: nat): State
    requires HasLocal(s, i, k)
  {
    var x := s.hands[i][k].value;
    Updated(s, i, s.hands[i], Putting(k), x, s.objs[x].(dirty := false), s.free)
  }

  // ---------------------------------------------------------------- dqget

  /** `find_dquot`. */
  function Find(objs: seq<Dquot>, key: Key, x: nat): Option<nat>
    decreases |objs| - x
  {
    if x >= |objs| then None else if objs[x].key == Some(key) then Some(x) else Find(objs, key, x + 1)
  }

  lemma {:induction false} FindIff(objs: seq<Dquot>, key: Key, x: nat)
    ensures match Find(objs, key, x)
            case Some(y) => x <= y < |objs| && objs[y].key == Some(key)
            case None => forall y :: x <= y < |objs| ==> objs[y].key != Some(key)
    decreases |objs| - x
  {
    if x < |objs| && objs[x].key != Some(key) { FindIff(objs, key, x + 1); }
  }

  function More(o: Dquot): Dquot { o.(count := o.count + 1) }

  function FreeWithout(s: State, x: nat): seq<nat>
    requires x < |s.objs|
  {
    if s.objs[x].count == 0 then Without(s.free, x) else s.free
  }

  /** One more reference, kept in local variable `k`. */
  function Take(s: State, i: nat, k: nat, x: nat, pc: Pc): State
    requires IsTask(s, i) && k < LOCALS && x < |s.objs|
  {
    Updated(s, i, s.hands[i][k := Some(x)], pc, x, More(s.objs[x]), FreeWithout(s, x))
  }

  /** The spare dquot gets its identity, is hashed and locked for reading. */
  function HashIn(s: State, i: nat, key: Key, into: nat): State
    requires HasLocal(s, i, SPARE)
  {
    var e := s.hands[i][SPARE].value;
    s.(objs := s.objs[e := s.objs[e].(key := Some(key), locked := true)],
       hands := s.hands[i := s.hands[i][FOUND := Some(e)][SPARE := None]], pcs := s.pcs[i := Reading(into)])
  }

  function GetSection(s: State, i: nat, key: Key, into: nat): State
    requires IsTask(s, i) && (s.hands[i][SPARE].Some? ==> HasLocal(s, i, SPARE))
  {
    var spare := s.hands[i][SPARE];
    if (key.sb, key.typ) !in s.on then Go(s, i, if spare.Some? then Putting(SPARE) else Idle)
    else
      FindIff(s.objs, key, 0);
      match Find(s.objs, key, 0)
      case Some(x) => Take(s, i, FOUND, x, Waiting(into))
      case None => if spare.None? then Go(s, i, Allocating(key, into)) else HashIn(s, i, key, into)
  }

  /** `get_empty_dquot`. */
  function AllocSection(s: State, i: nat, key: Key, into: nat, memory: bool): State
    requires IsTask(s, i)
  {
    if !memory then Go(s, i, Getting(key, into))
    else
      s.(objs := s.objs + [Dquot(None, 1, false, false, false, true)],
         hands := s.hands[i := s.hands[i][SPARE := Some(|s.objs|)]], pcs := s.pcs[i := Getting(key, into)])
  }

  function Got(h: Refs, into: nat): Refs
    requires |h| == LOCALS && into < LOCALS
  {
    h[into := h[FOUND]][FOUND := None]
  }

  /** The end of `read_dquot`. */
  function ReadSection(s: State, i: nat, into: nat): State
    requires HasLocal(s, i, FOUND) && into < LOCALS
  {
    var x := s.hands[i][FOUND].value;
    Updated(s, i, Got(s.hands[i], into), Idle, x, s.objs[x].(locked := false), s.free)
  }

  /** `wait_on_dquot` after a cache hit. */
  function WaitSection(s: State, i: nat, into: nat): State
    requires HasLocal(s, i, FOUND) && into < LOCALS
  {
    var x := s.hands[i][FOUND].value;
    var pc := if s.hands[i][SPARE].Some? then Putting(SPARE) else Idle;
    if s.objs[x].locked then s else Updated(s, i, Got(s.hands[i], into), pc, x, s.objs[x], s.free)
  }

  // ---------------------------------------------------------------- sync_dquots

  predicate MaySync(s: State, x: nat) {
    x < |s.objs| && s.objs[x].live && s.objs[x].key.Some? && (s.objs[x].dirty || s.objs[x].locked)
  }

  function SyncSection(s: State, i: nat): State
    requires HasLocal(s, i, FOUND)
  {
    var o := s.objs[s.hands[i][FOUND].value];
    if o.locked then s else Go(s, i, if o.dirty then Writing(FOUND) else Putting(FOUND))
  }

  // ---------------------------------------------------------------- freeing

  /** Unhashed, off the free list and the in-use list, and given back. */
  function Freed(s: State, x: nat): State
    requires x < |s.objs|
  {
    var free := Without(s.free, x);
    s.(objs := s.objs[x := s.objs[x].(key := None, live := false, inval := false)], free := free,
       nrFree := s.nrFree + |free| - |s.free|)
  }

  /** `prune_dqcache`: from the tail of the free list. */
  function Prune(s: State, n: nat): State
    requires forall x :: x in s.free ==> x < |s.objs|
    decreases n
  {
    if n == 0 || s.free == [] then s
    else
      var x := s.free[|s.free| - 1];
      assert x in s.free;
      WithoutAll(s.free, x);
      Prune(Freed(s, x), n - 1)
  }

  lemma WithoutAll(s: seq<nat>, x: nat)
    ensures forall y :: y in Without(s, x) <==> y in s && y != x
  {
    forall y: nat ensures y in Without(s, x) <==> y in s && y != x { WithoutMember(s, x, y); }
  }

  predicate Matches(s: State, x: nat, sb: nat, typ: nat) {
    && x < |s.objs| && s.objs[x].live && s.objs[x].key.Some?
    && s.objs[x].key.value.sb == sb && s.objs[x].key.value.typ == typ
  }

  /** A dquot that `invalidate_dquots` meets on the in-use list. */
  function ScanSection(s: State, i: nat, sb: nat, typ: nat, x: nat): State
    requires IsTask(s, i) && Matches(s, x, sb, typ)
  {
    if s.objs[x].count > 0
    then s.(objs := s.objs[x := s.objs[x].(inval := true)], pcs := s.pcs[i := Unusing(sb, typ, x)])
    else Freed(s, x)
  }

  /** After `__wait_dquot_unused`. */
  function UnuseSection(s: State, i: nat, sb: nat, typ: nat, x: nat): State
    requires IsTask(s, i) && x < |s.objs|
  {
    if s.objs[x].count > 0 then s else Go(Freed(s, x), i, Scanning(sb, typ))
  }

  // ---------------------------------------------------------------- inodes

  predicate Bounded(h: Refs, n: nat) { forall k :: 0 <= k < |h| ==> (h[k].Some? ==> h[k].value < n) }

  predicate IsInode(s: State, n: nat) { n < |s.slots| && |s.slots[n]| == MAXQUOTAS && Bounded(s.slots[n], |s.objs|) }

  /** `dqduplicate` of the reference in an inode; a dquot without identity is refused. */
  function Duplicate(s: State, i: nat, n: nat, t: nat, k: nat): State
    requires IsTask(s, i) && IsInode(s, n) && t < MAXQUOTAS && k < LOCALS
  {
    match s.slots[n][t]
    case None => s
    case Some(x) => if s.objs[x].key.None? then s else Take(s, i, k, x, Idle)
  }

  /** A reference moves between an inode and a local variable: attaching, dropping and the
      exchange in `dquot_transfer` are all of this kind. */
  function Swap(s: State, i: nat, n: nat, t: nat, k: nat): State
    requires IsTask(s, i) && IsInode(s, n) && t < MAXQUOTAS && k < LOCALS
  {
    s.(slots := s.slots[n := s.slots[n][t := s.hands[i][k]]], hands := s.hands[i := s.hands[i][k := s.slots[n][t]]])
  }

  /** The second loop of `dquot_transfer`: duplicates what the inode has, as long as the checks
      say yes. */
  function BuildFrom(s: State, i: nat, n: nat, t: nat, use: seq<bool>, ok: seq<bool>): (r: (State, bool))
    requires IsTask(s, i) && IsInode(s, n) && Bounded(s.hands[i], |s.objs|)
    requires |use| == |ok| == MAXQUOTAS && t <= MAXQUOTAS
    ensures var (s1, _) := r; IsTask(s1, i) && IsInode(s1, n) && Bounded(s1.hands[i], |s1.objs|)
    decreases MAXQUOTAS - t
  {
    if t == MAXQUOTAS then (s, true)
    else if s.hands[i][TO + t].None? || !use[t] then BuildFrom(s, i, n, t + 1, use, ok)
    else
      var s1 := Duplicate(s, i, n, t, FROM + t);
      if s1.hands[i][FROM + t].Some? && !ok[t] then (s1, false) else BuildFrom(s1, i, n, t + 1, use, ok)
  }

  /** The third loop: the inode gets `transfer_to`, and the old reference goes there, to be
      released once for the inode and once for the duplicate. */
  function MoveFrom(s: State, i: nat, n: nat, t: nat): State
    requires IsTask(s, i) && IsInode(s, n) && Bounded(s.hands[i], |s.objs|) && t <= MAXQUOTAS
    decreases MAXQUOTAS - t
  {
    if t == MAXQUOTAS then s
    else if s.hands[i][FROM + t].None? || s.hands[i][TO + t].None? then MoveFrom(s, i, n, t + 1)
    else MoveFrom(Swap(s, i, n, t, TO + t), i, n, t + 1)
  }

  function Transfer(s: State, i: nat, n: nat, use: seq<bool>, ok: seq<bool>): State
    requires IsTask(s, i) && IsInode(s, n) && Bounded(s.hands[i], |s.objs|) && |use| == |ok| == MAXQUOTAS
  {
    var (s1, all) := BuildFrom(s, i, n, 0, use, ok);
    if all then MoveFrom(s1, i, n, 0) else s1
  }

  // ---------------------------------------------------------------- steps of one task and one dquot

  /** One local variable changes from or to a reference to `x`. */
  lemma ChangeOne(h: Refs, k: nat, v: Option<nat>, x: nat)
    requires k < |h| && (h[k] == None || h[k] == Some(x)) && (v == None || v == Some(x))
    ensures SameBut(h, h[k := v], x) && Count(h[k := v], x) == Count(h, x) - Is(h[k], x) + Is(v, x)
  {
    forall y: nat ensures Count(h[k := v], y) == Count(h, y) - Is(h[k], y) + Is(v, y) { CountUpdate(h, k, v, y); }
  }

  lemma GotSame(h: Refs, into: nat, x: nat)
    requires |h| == LOCALS && TO <= into < LOCALS && h[into] == None && h[FOUND] == Some(x)
    ensures SameBut(h, Got(h, into), x) && Count(Got(h, into), x) == Count(h, x)
  {
    ChangeOne(h, into, Some(x), x);
    ChangeOne(h[into := Some(x)], FOUND, None, x);
  }

  lemma FreeSame(s: State, x: nat, o: Dquot)
    requires FreeOk(s) && x < |s.objs| && o.live == s.objs[x].live && o.inval == s.objs[x].inval
    requires o.count == 0 <==> s.objs[x].count == 0
    ensures FreeFits(s, x, o, s.free)
  {
    assert IsFree(s, x);
  }

  lemma PutKeeps(s: State, i: nat, k: nat)
    requires Inv(s) && i < |s.hands| && s.pcs[i] == Putting(k)
    ensures HasLocal(s, i, k) && Inv(PutSection(s, i, k))
  {
    var h := s.hands[i];
    assert TaskOk(s.objs, h, s.pcs[i]);
    var x := h[k].value;
    var o := s.objs[x];
    InHand(s, i, k);
    assert FlagsOk(s, x) && Has(h, x);
    ChangeOne(h, k, None, x);
    if o.count > 1 {
      FreeSame(s, x, o.(count := o.count - 1));
      UpdatedKeeps(s, i, h[k := None], Idle, x, o.(count := o.count - 1), s.free);
    } else if o.dirty {
      FreeSame(s, x, o);
      assert s.objs[x := o] == s.objs;
      UpdatedKeeps(s, i, h, Writing(k), x, o, s.free);
    } else {
      NoDupSnoc(s.free, x);
      if o.locked { PutterIsNotReader(s, i, k, x); }
      UpdatedKeeps(s, i, h[k := None], Idle, x, o.(count := 0), if o.inval then s.free else s.free + [x]);
    }
  }

  /** A dquot that is being read in has a holder besides the one who puts it. */
  lemma PutterIsNotReader(s: State, i: nat, k: nat, x: nat)
    requires Inv(s) && i < |s.hands| && !s.pcs[i].Reading? && k < LOCALS && s.hands[i][k] == Some(x) && x < |s.objs|
    requires s.objs[x].locked
    ensures s.objs[x].count >= 2
  {
    assert FlagsOk(s, x);
    var j :| 0 <= j < |s.hands| && s.pcs[j].Reading? && s.hands[j][FOUND] == Some(x);
    TwoHolders(s, i, j, x);
  }

  lemma WriteKeeps(s: State, i: nat, k: nat)
    requires Inv(s) && i < |s.hands| && s.pcs[i] == Writing(k)
    ensures HasLocal(s, i, k) && Inv(WriteSection(s, i, k))
  {
    var h := s.hands[i];
    assert TaskOk(s.objs, h, s.pcs[i]);
    var x := h[k].value;
    var o := s.objs[x].(dirty := false);
    InHand(s, i, k);
    FreeSame(s, x, o);
    assert Has(h, x);
    assert forall k :: TO <= k < LOCALS ==> Settled(s.objs, h[k]);
    UpdatedKeeps(s, i, h, Putting(k), x, o, s.free);
  }

  /** A new reference to a dquot with an identity. */
  lemma TakeKeeps(s: State, i: nat, k: nat, x: nat, pc: Pc)
    requires Inv(s) && i < |s.hands| && k < LOCALS && s.hands[i][k] == None && x < |s.objs| && s.objs[x].key.Some?
    requires !s.pcs[i].Reading? && !s.pcs[i].Unusing? && !s.pcs[i].Scanning? && !pc.Unusing? && !pc.Scanning?
    requires TaskOk(s.objs[x := More(s.objs[x])], s.hands[i][k := Some(x)], pc)
    ensures Inv(Take(s, i, k, x, pc))
  {
    assert FlagsOk(s, x);
    TakeReady(s, i, k, x, pc);
    UpdatedKeeps(s, i, s.hands[i][k := Some(x)], pc, x, More(s.objs[x]), FreeWithout(s, x));
  }

  lemma TakeReady(s: State, i: nat, k: nat, x: nat, pc: Pc)
    requires Shape(s) && FreeOk(s) && i < |s.hands| && k < LOCALS && s.hands[i][k] == None && x < |s.objs|
    requires !s.pcs[i].Reading? && !s.pcs[i].Unusing? && !s.pcs[i].Scanning? && !pc.Unusing? && !pc.Scanning?
    ensures var o, h := s.objs[x], s.hands[i][k := Some(x)];
            && Milder(o, More(o)) && Relieved(s, i, pc, x, More(o)) && FreeFits(s, x, More(o), FreeWithout(s, x))
            && More(o).count - o.count == Count(h, x) - Count(s.hands[i], x) && SameBut(s.hands[i], h, x)
  {
    ChangeOne(s.hands[i], k, Some(x), x);
    TakeFits(s, x);
  }

  lemma TakeFits(s: State, x: nat)
    requires FreeOk(s) && x < |s.objs|
    ensures FreeFits(s, x, More(s.objs[x]), FreeWithout(s, x))
  {
    assert IsFree(s, x);
    WithoutAll(s.free, x);
    WithoutNoDup(s.free, x);
  }

  lemma ReadKeeps(s: State, i: nat, into: nat)
    requires Inv(s) && i < |s.hands| && s.pcs[i] == Reading(into)
    ensures HasLocal(s, i, FOUND) && into < LOCALS && Inv(ReadSection(s, i, into))
  {
    var h := s.hands[i];
    assert TaskOk(s.objs, h, s.pcs[i]);
    var x := h[FOUND].value;
    var o := s.objs[x].(locked := false);
    InHand(s, i, FOUND);
    FreeSame(s, x, o);
    GotSame(h, into, x);
    assert FlagsOk(s, x);
    MilderTask(s.objs, x, o, h, s.pcs[i]);
    UpdatedKeeps(s, i, Got(h, into), Idle, x, o, s.free);
  }

  lemma WaitKeeps(s: State, i: nat, into: nat)
    requires Inv(s) && i < |s.hands| && s.pcs[i] == Waiting(into)
    ensures HasLocal(s, i, FOUND) && into < LOCALS && Inv(WaitSection(s, i, into))
  {
    var h := s.hands[i];
    assert TaskOk(s.objs, h, s.pcs[i]);
    var x := h[FOUND].value;
    if !s.objs[x].locked {
      InHand(s, i, FOUND);
      FreeSame(s, x, s.objs[x]);
      GotSame(h, into, x);
      assert FlagsOk(s, x) && s.objs[x := s.objs[x]] == s.objs;
      UpdatedKeeps(s, i, Got(h, into), if h[SPARE].Some? then Putting(SPARE) else Idle, x, s.objs[x], s.free);
    }
  }

  // ---------------------------------------------------------------- steps that change no dquot

  lemma GoKeeps(s: State, i: nat, pc: Pc)
    requires Inv(s) && i < |s.hands| && TaskOk(s.objs, s.hands[i], pc)
    requires !s.pcs[i].Reading? && !s.pcs[i].Unusing? && !pc.Unusing?
    requires pc.Scanning? ==> forall j :: 0 <= j < |s.pcs| && j != i ==> !SameScan(s.pcs[j], pc)
    ensures Inv(Go(s, i, pc))
  {
    var s1 := Go(s, i, pc);
    forall x | 0 <= x < |s1.objs| ensures FlagsOk(s1, x) && CountOk(s1, x) && IsFree(s1, x) {
      assert FlagsOk(s, x) && CountOk(s, x) && IsFree(s, x);
      GoHolders(s, i, pc, x);
    }
    forall a, b | 0 <= a < |s1.pcs| && 0 <= b < |s1.pcs| && SameScan(s1.pcs[a], s1.pcs[b]) ensures a == b {
      if a != i && b != i { assert SameScan(s.pcs[a], s.pcs[b]); }
    }
  }

  lemma GoHolders(s: State, i: nat, pc: Pc, x: nat)
    requires Shape(s) && i < |s.hands| && !s.pcs[i].Reading? && !s.pcs[i].Unusing?
    ensures HasReader(s, x) ==> HasReader(Go(s, i, pc), x)
    ensures HasUndertaker(s, x) ==> HasUndertaker(Go(s, i, pc), x)
  {
    var s1 := Go(s, i, pc);
    if HasReader(s, x) {
      var j :| 0 <= j < |s.hands| && s.pcs[j].Reading? && s.hands[j][FOUND] == Some(x);
      assert s1.pcs[j].Reading? && s1.hands[j][FOUND] == Some(x);
    }
    if HasUndertaker(s, x) {
      var j :| 0 <= j < |s.pcs| && s.pcs[j].Unusing? && s.pcs[j].x == x;
      assert s1.pcs[j].Unusing? && s1.pcs[j].x == x;
    }
  }

  lemma SyncStarts(s: State, i: nat, x: nat)
    requires Inv(s) && i < |s.hands| && s.pcs[i] == Idle && MaySync(s, x)
    ensures Inv(Take(s, i, FOUND, x, Syncing)) && s.objs[x].count > 0
  {
    assert TaskOk(s.objs, s.hands[i], s.pcs[i]) && FlagsOk(s, x);
    if s.objs[x].locked {
      var j :| 0 <= j < |s.hands| && s.pcs[j].Reading? && s.hands[j][FOUND] == Some(x);
      InHand(s, j, FOUND);
    }
    MilderTask(s.objs, x, More(s.objs[x]), s.hands[i], Idle);
    TakeKeeps(s, i, FOUND, x, Syncing);
  }

  lemma SyncKeeps(s: State, i: nat)
    requires Inv(s) && i < |s.hands| && s.pcs[i] == Syncing
    ensures HasLocal(s, i, FOUND) && Inv(SyncSection(s, i))
  {
    assert TaskOk(s.objs, s.hands[i], s.pcs[i]);
    var o := s.objs[s.hands[i][FOUND].value];
    if !o.locked { GoKeeps(s, i, if o.dirty then Writing(FOUND) else Putting(FOUND)); }
  }

  // ---------------------------------------------------------------- a new identity

  /** A spare dquot is known to its holder alone. */
  lemma OnlyMine(s: State, i: nat, j: nat, e: nat)
    requires Inv(s) && i < |s.hands| && j < |s.hands| && i != j && s.hands[i][SPARE] == Some(e)
    requires e < |s.objs| && s.objs[e].count == 1
    ensures !Has(s.hands[j], e)
  {
    if Has(s.hands[j], e) {
      assert Has(s.hands[i], e);
      TwoHolders(s, i, j, e);
    }
  }

  lemma HashTask(s: State, i: nat, j: nat, e: nat, key: Key)
    requires Inv(s) && i < |s.hands| && j < |s.hands| && i != j && s.hands[i][SPARE] == Some(e)
    requires e < |s.objs| && s.objs[e].count == 1 && s.objs[e].key.None?
    ensures TaskOk(s.objs[e := s.objs[e].(key := Some(key), locked := true)], s.hands[j], s.pcs[j])
  {
    OnlyMine(s, i, j, e);
    var h := s.hands[j];
    assert TaskOk(s.objs, h, s.pcs[j]);
    forall k | 0 <= k < LOCALS ensures h[k] != Some(e) { assert !Has(h, e); }
    var objs1 := s.objs[e := s.objs[e].(key := Some(key), locked := true)];
    forall k | TO <= k < LOCALS ensures Settled(objs1, h[k]) { assert Settled(s.objs, h[k]); }
  }

  lemma HashFlags(s: State, i: nat, key: Key, into: nat, x: nat)
    requires Inv(s) && i < |s.hands| && s.pcs[i].Getting? && HasLocal(s, i, SPARE) && x < |s.objs|
    requires s.objs[s.hands[i][SPARE].value].live
    ensures Shape(HashIn(s, i, key, into)) && FlagsOk(HashIn(s, i, key, into), x)
  {
    var s1 := HashIn(s, i, key, into);
    assert FlagsOk(s, x);
    var e := s.hands[i][SPARE].value;
    assert s1.pcs[i].Reading? && s1.hands[i][FOUND] == Some(e);
    if x != e && s.objs[x].locked {
      var j :| 0 <= j < |s.hands| && s.pcs[j].Reading? && s.hands[j][FOUND] == Some(x);
      assert s1.pcs[j].Reading? && s1.hands[j][FOUND] == Some(x);
    }
    if s.objs[x].inval {
      var j :| 0 <= j < |s.pcs| && s.pcs[j].Unusing? && s.pcs[j].x == x;
      assert s1.pcs[j].Unusing? && s1.pcs[j].x == x;
    }
  }

  lemma HashKeys(s: State, e: nat, key: Key)
    requires Keys(s) && e < |s.objs| && s.objs[e].key.None?
    requires forall y :: 0 <= y < |s.objs| ==> s.objs[y].key != Some(key)
    ensures Keys(s.(objs := s.objs[e := s.objs[e].(key := Some(key), locked := true)]))
  {
    var objs := s.objs[e := s.objs[e].(key := Some(key), locked := true)];
    forall y, z | 0 <= y < |objs| && 0 <= z < |objs| && SameKey(objs, y, z) ensures y == z {
      if y != e && z != e { assert SameKey(s.objs, y, z); }
    }
  }

  lemma HashCounts(s: State, i: nat, key: Key, into: nat)
    requires Inv(s) && i < |s.hands| && HasLocal(s, i, SPARE) && s.hands[i][FOUND] == None
    ensures Counts(HashIn(s, i, key, into)) && FreeOk(HashIn(s, i, key, into))
  {
    var s1, h := HashIn(s, i, key, into), s.hands[i];
    var e := h[SPARE].value;
    ChangeOne(h, FOUND, Some(e), e);
    ChangeOne(h[FOUND := Some(e)], SPARE, None, e);
    forall x | 0 <= x < |s1.objs| ensures CountOk(s1, x) && IsFree(s1, x) {
      assert CountOk(s, x) && IsFree(s, x);
      CountAllUpdate(s.hands, i, s1.hands[i], x);
    }
  }

  lemma HashKeeps(s: State, i: nat, key: Key, into: nat)
    requires Inv(s) && i < |s.hands| && s.pcs[i] == Getting(key, into) && s.hands[i][SPARE].Some?
    requires forall y :: 0 <= y < |s.objs| ==> s.objs[y].key != Some(key)
    ensures HasLocal(s, i, SPARE) && Inv(HashIn(s, i, key, into))
  {
    var h := s.hands[i];
    assert TaskOk(s.objs, h, s.pcs[i]);
    var e, s1 := h[SPARE].value, HashIn(s, i, key, into);
    InHand(s, i, SPARE);
    HashCounts(s, i, key, into);
    HashKeys(s, e, key);
    forall x | 0 <= x < |s1.objs| ensures FlagsOk(s1, x) { HashFlags(s, i, key, into, x); }
    forall j | 0 <= j < |s1.hands| ensures TaskOk(s1.objs, s1.hands[j], s1.pcs[j]) {
      if j != i { HashTask(s, i, j, e, key); }
    }
    forall n, t | 0 <= n < |s1.slots| && 0 <= t < |s1.slots[n]| ensures Settled(s1.objs, s1.slots[n][t]) {
      assert Settled(s.objs, s.slots[n][t]);
    }
    UpdatedAlone(s.pcs, i, Reading(into));
  }

  lemma GetKeeps(s: State, i: nat, key: Key, into: nat)
    requires Inv(s) && i < |s.hands| && s.pcs[i] == Getting(key, into)
    ensures IsTask(s, i) && (s.hands[i][SPARE].Some? ==> HasLocal(s, i, SPARE)) && Inv(GetSection(s, i, key, into))
  {
    var h := s.hands[i];
    assert TaskOk(s.objs, h, s.pcs[i]);
    if (key.sb, key.typ) !in s.on {
      GoKeeps(s, i, if h[SPARE].Some? then Putting(SPARE) else Idle);
    } else {
      FindIff(s.objs, key, 0);
      var f := Find(s.objs, key, 0);
      if f.Some? {
        MilderTask(s.objs, f.value, More(s.objs[f.value]), h, s.pcs[i]);
        TakeKeeps(s, i, FOUND, f.value, Waiting(into));
      } else if h[SPARE].None? {
        GoKeeps(s, i, Allocating(key, into));
      } else {
        HashKeeps(s, i, key, into);
      }
    }
  }

  // ---------------------------------------------------------------- a new dquot

  lemma {:induction false} CountNone(h: Refs, x: nat)
    requires !Has(h, x)
    ensures Count(h, x) == 0
  {
    if h != [] {
      assert h[0] != Some(x);
      forall k | 0 <= k < |h[1..]| ensures h[1..][k] != Some(x) { assert h[1..][k] == h[k + 1]; }
      CountNone(h[1..], x);
    }
  }

  lemma {:induction false} CountAllNone(hs: seq<Refs>, x: nat)
    requires forall i :: 0 <= i < |hs| ==> !Has(hs[i], x)
    ensures CountAll(hs, x) == 0
  {
    if hs != [] {
      CountNone(hs[0], x);
      CountAllNone(hs[1..], x);
    }
  }

  lemma TaskBounded(objs: seq<Dquot>, h: Refs, pc: Pc)
    requires |h| == LOCALS && TaskOk(objs, h, pc)
    ensures Bounded(h, |objs|)
  {
    forall k | 0 <= k < LOCALS ensures h[k].Some? ==> h[k].value < |objs| {
      if k >= TO { assert Settled(objs, h[k]); }
    }
  }

  /** Nobody has a reference to a dquot that does not exist yet. */
  lemma NotYetHeld(s: State)
    requires Inv(s)
    ensures Held(s, |s.objs|) == 0
  {
    var x := |s.objs|;
    forall i | 0 <= i < |s.hands| ensures !Has(s.hands[i], x) {
      assert TaskOk(s.objs, s.hands[i], s.pcs[i]);
      TaskBounded(s.objs, s.hands[i], s.pcs[i]);
    }
    forall n | 0 <= n < |s.slots| ensures !Has(s.slots[n], x) {
      forall t | 0 <= t < |s.slots[n]| ensures s.slots[n][t] != Some(x) { assert Settled(s.objs, s.slots[n][t]); }
    }
    CountAllNone(s.hands, x);
    CountAllNone(s.slots, x);
  }

  lemma MoreTask(objs: seq<Dquot>, o: Dquot, h: Refs, pc: Pc)
    requires |h| == LOCALS && TaskOk(objs, h, pc)
    ensures TaskOk(objs + [o], h, pc)
  {
    forall k | TO <= k < LOCALS ensures Settled(objs + [o], h[k]) { assert Settled(objs, h[k]); }
  }

  lemma AllocCounts(s: State, i: nat, key: Key, into: nat)
    requires Inv(s) && i < |s.hands| && s.hands[i][SPARE] == None
    ensures Counts(AllocSection(s, i, key, into, true)) && FreeOk(AllocSection(s, i, key, into, true))
  {
    var s1, h, e := AllocSection(s, i, key, into, true), s.hands[i], |s.objs|;
    NotYetHeld(s);
    ChangeOne(h, SPARE, Some(e), e);
    forall x | 0 <= x < |s1.objs| ensures CountOk(s1, x) && IsFree(s1, x) {
      if x < e { assert CountOk(s, x) && IsFree(s, x); }
      CountAllUpdate(s.hands, i, h[SPARE := Some(e)], x);
    }
  }

  lemma AllocKeeps(s: State, i: nat, key: Key, into: nat, memory: bool)
    requires Inv(s) && i < |s.hands| && s.pcs[i] == Allocating(key, into)
    ensures Inv(AllocSection(s, i, key, into, memory))
  {
    var h := s.hands[i];
    assert TaskOk(s.objs, h, s.pcs[i]);
    GoKeeps(s, i, Getting(key, into));
    if memory {
      var s1, g := AllocSection(s, i, key, into, true), Go(s, i, Getting(key, into));
      var o := Dquot(None, 1, false, false, false, true);
      AllocCounts(s, i, key, into);
      forall j | 0 <= j < |s1.hands| ensures TaskOk(s1.objs, s1.hands[j], s1.pcs[j]) {
        assert TaskOk(g.objs, g.hands[j], g.pcs[j]);
        MoreTask(s.objs, o, s.hands[j], g.pcs[j]);
      }
      forall n, t | 0 <= n < |s1.slots| && 0 <= t < |s1.slots[n]| ensures Settled(s1.objs, s1.slots[n][t]) {
        assert Settled(s.objs, s.slots[n][t]);
      }
      forall x | 0 <= x < |s1.objs| ensures FlagsOk(s1, x) {
        if x < |s.objs| {
          assert FlagsOk(g, x);
          AllocHolders(s, i, key, into, x);
        }
      }
      forall y, z | 0 <= y < |s1.objs| && 0 <= z < |s1.objs| && SameKey(s1.objs, y, z) ensures y == z {
        assert SameKey(s.objs, y, z);
      }
    }
  }

  lemma AllocHolders(s: State, i: nat, key: Key, into: nat, x: nat)
    requires Shape(s) && i < |s.hands| && s.pcs[i].Allocating?
    ensures var s1 := AllocSection(s, i, key, into, true);
            Shape(s1) && (HasReader(s, x) ==> HasReader(s1, x)) && (HasUndertaker(s, x) ==> HasUndertaker(s1, x))
  {
    var s1 := AllocSection(s, i, key, into, true);
    if HasReader(s, x) {
      var j :| 0 <= j < |s.hands| && s.pcs[j].Reading? && s.hands[j][FOUND] == Some(x);
      assert s1.pcs[j].Reading? && s1.hands[j][FOUND] == Some(x);
    }
    if HasUndertaker(s, x) {
      var j :| 0 <= j < |s.pcs| && s.pcs[j].Unusing? && s.pcs[j].x == x;
      assert s1.pcs[j].Unusing? && s1.pcs[j].x == x;
    }
  }

  // ---------------------------------------------------------------- freeing

  /** Nobody refers to a dquot with count 0. */
  lemma Unheld(s: State, x: nat)
    requires Inv(s) && x < |s.objs| && s.objs[x].count == 0
    ensures forall i :: 0 <= i < |s.hands| ==> !Has(s.hands[i], x)
    ensures forall n :: 0 <= n < |s.slots| ==> !Has(s.slots[n], x)
  {
    assert CountOk(s, x);
    forall i | 0 <= i < |s.hands| ensures !Has(s.hands[i], x) {
      CountAllUpdate(s.hands, i, [], x);
      HasCount(s.hands[i], x);
    }
    forall n | 0 <= n < |s.slots| ensures !Has(s.slots[n], x) {
      CountAllUpdate(s.slots, n, [], x);
      HasCount(s.slots[n], x);
    }
  }

  lemma HasCount(h: Refs, x: nat)
    ensures Has(h, x) ==> Count(h, x) > 0
  {
    if Has(h, x) {
      var k :| 0 <= k < |h| && h[k] == Some(x);
      CountUpdate(h, k, None, x);
    }
  }

  /** Every task but the one that waited for `x` stays where it is. */
  predicate Mourned(pcs: seq<Pc>, pcs1: seq<Pc>, x: nat) {
    |pcs1| == |pcs| && forall j :: 0 <= j < |pcs| ==>
      if pcs[j].Unusing? && pcs[j].x == x then pcs1[j] == Scanning(pcs[j].sb, pcs[j].typ) else pcs1[j] == pcs[j]
  }

  lemma FreedTask(s: State, x: nat, h: Refs, pc: Pc, pc1: Pc)
    requires x < |s.objs| && |h| == LOCALS && !Has(h, x) && TaskOk(s.objs, h, pc)
    requires if pc.Unusing? && pc.x == x then pc1 == Scanning(pc.sb, pc.typ) else pc1 == pc
    ensures TaskOk(Freed(s, x).objs, h, pc1)
  {
    forall k | 0 <= k < LOCALS ensures h[k] != Some(x) { assert !Has(h, x); }
    forall k | TO <= k < LOCALS ensures Settled(Freed(s, x).objs, h[k]) { assert Settled(s.objs, h[k]); }
  }

  lemma FreedFlags(s: State, x: nat, pcs1: seq<Pc>, y: nat)
    requires Shape(s) && x < |s.objs| && y < |s.objs| && FlagsOk(s, y) && FlagsOk(s, x) && Mourned(s.pcs, pcs1, x)
    requires s.objs[x].count == 0 && !s.objs[x].locked
    ensures var s1 := Freed(s, x).(pcs := pcs1); Shape(s1) && FlagsOk(s1, y)
  {
    var s1 := Freed(s, x).(pcs := pcs1);
    if y != x && HasReader(s, y) {
      var j :| 0 <= j < |s.hands| && s.pcs[j].Reading? && s.hands[j][FOUND] == Some(y);
      assert s1.pcs[j].Reading? && s1.hands[j][FOUND] == Some(y);
    }
    if y != x && HasUndertaker(s, y) {
      var j :| 0 <= j < |s.pcs| && s.pcs[j].Unusing? && s.pcs[j].x == y;
      assert s1.pcs[j].Unusing? && s1.pcs[j].x == y;
    }
  }

  lemma FreedLists(s: State, x: nat)
    requires Counts(s) && FreeOk(s) && x < |s.objs| && s.objs[x].count == 0
    ensures Counts(Freed(s, x)) && FreeOk(Freed(s, x))
  {
    var s1 := Freed(s, x);
    WithoutAll(s.free, x);
    WithoutNoDup(s.free, x);
    forall y | 0 <= y < |s1.objs| ensures CountOk(s1, y) && IsFree(s1, y) {
      assert CountOk(s, y) && IsFree(s, y);
    }
  }

  lemma FreedKeys(s: State, x: nat)
    requires Keys(s) && x < |s.objs|
    ensures Keys(Freed(s, x))
  {
    var objs := Freed(s, x).objs;
    forall y, z | 0 <= y < |objs| && 0 <= z < |objs| && SameKey(objs, y, z) ensures y == z {
      assert SameKey(s.objs, y, z);
    }
  }

  lemma MournedAlone(pcs: seq<Pc>, pcs1: seq<Pc>, x: nat)
    requires Alone(pcs) && Mourned(pcs, pcs1, x)
    ensures Alone(pcs1)
  {
    forall a, b | 0 <= a < |pcs1| && 0 <= b < |pcs1| && SameScan(pcs1[a], pcs1[b]) ensures a == b {
      assert SameScan(pcs[a], pcs[b]);
    }
  }

  lemma LockedIsHeld(s: State, x: nat)
    requires Shape(s) && x < |s.objs| && FlagsOk(s, x)
    ensures s.objs[x].locked ==> exists j :: 0 <= j < |s.hands| && Has(s.hands[j], x)
  {
    if s.objs[x].locked {
      var j :| 0 <= j < |s.hands| && s.pcs[j].Reading? && s.hands[j][FOUND] == Some(x);
      assert Has(s.hands[j], x);
    }
  }

  /** A dquot that nobody uses can go. */
  lemma FreedKeeps(s: State, x: nat, pcs1: seq<Pc>)
    requires Inv(s) && x < |s.objs| && s.objs[x].count == 0 && Mourned(s.pcs, pcs1, x)
    ensures Inv(Freed(s, x).(pcs := pcs1))
  {
    var s1 := Freed(s, x).(pcs := pcs1);
    Unheld(s, x);
    assert FlagsOk(s, x);
    LockedIsHeld(s, x);
    FreedLists(s, x);
    FreedKeys(s, x);
    MournedAlone(s.pcs, pcs1, x);
    forall y | 0 <= y < |s1.objs| ensures FlagsOk(s1, y) && CountOk(s1, y) && IsFree(s1, y) {
      assert FlagsOk(s, y) && CountOk(Freed(s, x), y) && IsFree(Freed(s, x), y);
      FreedFlags(s, x, pcs1, y);
    }
    forall j | 0 <= j < |s1.hands| ensures TaskOk(s1.objs, s1.hands[j], s1.pcs[j]) {
      FreedTask(s, x, s.hands[j], s.pcs[j], pcs1[j]);
    }
    forall n, t | 0 <= n < |s1.slots| && 0 <= t < |s1.slots[n]| ensures Settled(s1.objs, s1.slots[n][t]) {
      assert Settled(s.objs, s.slots[n][t]) && !Has(s.slots[n], x);
    }
  }

  /** Nobody waits for a dquot that is not marked. */
  lemma NotMarked(s: State, x: nat)
    requires Inv(s) && x < |s.objs| && !s.objs[x].inval
    ensures Mourned(s.pcs, s.pcs, x)
  {
    forall j | 0 <= j < |s.pcs| ensures !(s.pcs[j].Unusing? && s.pcs[j].x == x) {
      assert TaskOk(s.objs, s.hands[j], s.pcs[j]);
    }
  }

  lemma {:induction false} PruneKeeps(s: State, n: nat)
    requires Inv(s)
    ensures Inv(Prune(s, n)) && Prune(s, n).slots == s.slots && Prune(s, n).hands == s.hands && Prune(s, n).pcs == s.pcs
    decreases n
  {
    if n > 0 && s.free != [] {
      var x := s.free[|s.free| - 1];
      assert x in s.free && IsFree(s, x);
      NotMarked(s, x);
      FreedKeeps(s, x, s.pcs);
      PruneKeeps(Freed(s, x), n - 1);
    }
  }

  /** What is met here is marked by no other invalidation. */
  lemma ScanFresh(s: State, i: nat, sb: nat, typ: nat, x: nat)
    requires Inv(s) && i < |s.hands| && s.pcs[i] == Scanning(sb, typ) && Matches(s, x, sb, typ)
    ensures !s.objs[x].inval
  {
    if s.objs[x].inval {
      assert FlagsOk(s, x);
      var j :| 0 <= j < |s.pcs| && s.pcs[j].Unusing? && s.pcs[j].x == x;
      assert TaskOk(s.objs, s.hands[j], s.pcs[j]);
      assert SameScan(s.pcs[i], s.pcs[j]);
    }
  }

  lemma ScanKeeps(s: State, i: nat, sb: nat, typ: nat, x: nat)
    requires Inv(s) && i < |s.hands| && s.pcs[i] == Scanning(sb, typ) && Matches(s, x, sb, typ)
    ensures Inv(ScanSection(s, i, sb, typ, x))
  {
    ScanFresh(s, i, sb, typ, x);
    if s.objs[x].count == 0 {
      NotMarked(s, x);
      FreedKeeps(s, x, s.pcs);
    } else {
      MarkKeeps(s, i, sb, typ, x);
    }
  }

  lemma MarkKeeps(s: State, i: nat, sb: nat, typ: nat, x: nat)
    requires Inv(s) && i < |s.hands| && s.pcs[i] == Scanning(sb, typ) && Matches(s, x, sb, typ)
    requires s.objs[x].count > 0 && !s.objs[x].inval
    ensures Inv(ScanSection(s, i, sb, typ, x))
  {
    var s1 := ScanSection(s, i, sb, typ, x);
    assert s1.pcs[i].Unusing? && s1.pcs[i].x == x;
    forall y | 0 <= y < |s1.objs| ensures FlagsOk(s1, y) && CountOk(s1, y) && IsFree(s1, y) {
      assert FlagsOk(s, y) && CountOk(s, y) && IsFree(s, y);
      GoHolders(s, i, Unusing(sb, typ, x), y);
      MarkHolders(s, s1, i, sb, typ, x, y);
    }
    forall j | 0 <= j < |s1.hands| ensures TaskOk(s1.objs, s1.hands[j], s1.pcs[j]) {
      assert TaskOk(s.objs, s.hands[j], s.pcs[j]);
      MarkTask(s.objs, x, s.hands[j], s.pcs[j]);
    }
    forall n, t | 0 <= n < |s1.slots| && 0 <= t < |s1.slots[n]| ensures Settled(s1.objs, s1.slots[n][t]) {
      assert Settled(s.objs, s.slots[n][t]);
    }
    UpdatedKeys(s, x, s1.objs[x]);
    forall a, b | 0 <= a < |s1.pcs| && 0 <= b < |s1.pcs| && SameScan(s1.pcs[a], s1.pcs[b]) ensures a == b {
      assert SameScan(s.pcs[a], s.pcs[b]);
    }
  }

  lemma MarkHolders(s: State, s1: State, i: nat, sb: nat, typ: nat, x: nat, y: nat)
    requires Shape(s) && i < |s.hands| && Matches(s, x, sb, typ) && s.objs[x].count > 0
    requires s1 == ScanSection(s, i, sb, typ, x)
    ensures Shape(s1)
    ensures HasReader(Go(s, i, Unusing(sb, typ, x)), y) <==> HasReader(s1, y)
    ensures HasUndertaker(Go(s, i, Unusing(sb, typ, x)), y) <==> HasUndertaker(s1, y)
  {
  }

  lemma MarkTask(objs: seq<Dquot>, x: nat, h: Refs, pc: Pc)
    requires x < |objs| && |h| == LOCALS && TaskOk(objs, h, pc)
    ensures TaskOk(objs[x := objs[x].(inval := true)], h, pc)
  {
    var objs1 := objs[x := objs[x].(inval := true)];
    forall k | TO <= k < LOCALS ensures Settled(objs1, h[k]) { assert Settled(objs, h[k]); }
  }

  lemma OneUndertaker(s: State, i: nat, j: nat)
    requires Inv(s) && i < |s.pcs| && j < |s.pcs| && s.pcs[i].Unusing? && s.pcs[j].Unusing? && s.pcs[i].x == s.pcs[j].x
    ensures i == j
  {
    assert TaskOk(s.objs, s.hands[i], s.pcs[i]) && TaskOk(s.objs, s.hands[j], s.pcs[j]);
    assert SameScan(s.pcs[i], s.pcs[j]);
  }

  lemma UnuseKeeps(s: State, i: nat, sb: nat, typ: nat, x: nat)
    requires Inv(s) && i < |s.hands| && s.pcs[i] == Unusing(sb, typ, x)
    ensures x < |s.objs| && Inv(UnuseSection(s, i, sb, typ, x))
  {
    assert TaskOk(s.objs, s.hands[i], s.pcs[i]);
    if s.objs[x].count == 0 {
      var pcs1 := s.pcs[i := Scanning(sb, typ)];
      forall j | 0 <= j < |s.pcs| && j != i ensures !(s.pcs[j].Unusing? && s.pcs[j].x == x) {
        if s.pcs[j].Unusing? && s.pcs[j].x == x { OneUndertaker(s, i, j); }
      }
      FreedKeeps(s, x, pcs1);
    }
  }

  // ---------------------------------------------------------------- inodes

  lemma InodeFits(s: State, i: nat, n: nat)
    requires Inv(s) && i < |s.hands| && n < |s.slots|
    ensures IsTask(s, i) && IsInode(s, n) && Bounded(s.hands[i], |s.objs|)
  {
    assert TaskOk(s.objs, s.hands[i], s.pcs[i]);
    TaskBounded(s.objs, s.hands[i], s.pcs[i]);
    forall t | 0 <= t < |s.slots[n]| ensures s.slots[n][t].Some? ==> s.slots[n][t].value < |s.objs| {
      assert Settled(s.objs, s.slots[n][t]);
    }
  }

  /** A duplicate is never refused: what an inode has is known and read in. */
  lemma DuplicateKeeps(s: State, i: nat, n: nat, t: nat, k: nat)
    requires Inv(s) && i < |s.hands| && n < |s.slots| && t < MAXQUOTAS && s.pcs[i] == Idle
    requires TO <= k < LOCALS && s.hands[i][k] == None
    ensures IsTask(s, i) && IsInode(s, n) && Inv(Duplicate(s, i, n, t, k))
    ensures Duplicate(s, i, n, t, k).hands[i] == s.hands[i][k := s.slots[n][t]]
    ensures Duplicate(s, i, n, t, k).slots == s.slots && Duplicate(s, i, n, t, k).pcs == s.pcs
  {
    InodeFits(s, i, n);
    var v := s.slots[n][t];
    if v.Some? {
      var x := v.value;
      InSlot(s, n, t);
      assert TaskOk(s.objs, s.hands[i], s.pcs[i]);
      MilderTask(s.objs, x, More(s.objs[x]), s.hands[i], Idle);
      TakeKeeps(s, i, k, x, Idle);
      assert s.pcs[i := Idle] == s.pcs;
    }
  }

  lemma SwapCounts(s: State, i: nat, n: nat, t: nat, k: nat)
    requires Inv(s) && i < |s.hands| && n < |s.slots| && t < MAXQUOTAS && TO <= k < LOCALS && IsInode(s, n)
    ensures Counts(Swap(s, i, n, t, k)) && FreeOk(Swap(s, i, n, t, k))
  {
    var s1, v, w := Swap(s, i, n, t, k), s.slots[n][t], s.hands[i][k];
    forall x | 0 <= x < |s1.objs| ensures CountOk(s1, x) && IsFree(s1, x) {
      assert CountOk(s, x) && IsFree(s, x);
      CountUpdate(s.slots[n], t, w, x);
      CountUpdate(s.hands[i], k, v, x);
      CountAllUpdate(s.slots, n, s.slots[n][t := w], x);
      CountAllUpdate(s.hands, i, s.hands[i][k := v], x);
    }
  }

  lemma SwapHolders(s: State, i: nat, n: nat, t: nat, k: nat, x: nat)
    requires Shape(s) && i < |s.hands| && t < MAXQUOTAS && TO <= k < LOCALS && IsInode(s, n)
    ensures var s1 := Swap(s, i, n, t, k);
            Shape(s1) && (HasReader(s, x) ==> HasReader(s1, x)) && (HasUndertaker(s, x) ==> HasUndertaker(s1, x))
  {
    var s1 := Swap(s, i, n, t, k);
    if HasReader(s, x) {
      var j :| 0 <= j < |s.hands| && s.pcs[j].Reading? && s.hands[j][FOUND] == Some(x);
      assert s1.pcs[j].Reading? && s1.hands[j][FOUND] == Some(x);
    }
  }

  lemma SwapKeeps(s: State, i: nat, n: nat, t: nat, k: nat)
    requires Inv(s) && i < |s.hands| && n < |s.slots| && t < MAXQUOTAS && s.pcs[i] == Idle && TO <= k < LOCALS
    ensures IsInode(s, n) && Inv(Swap(s, i, n, t, k))
  {
    InodeFits(s, i, n);
    var s1 := Swap(s, i, n, t, k);
    SwapCounts(s, i, n, t, k);
    assert Settled(s.objs, s.slots[n][t]);
    assert TaskOk(s.objs, s.hands[i], s.pcs[i]);
    forall j | 0 <= j < |s1.hands| ensures TaskOk(s1.objs, s1.hands[j], s1.pcs[j]) {
      assert TaskOk(s.objs, s.hands[j], s.pcs[j]);
    }
    forall m, u | 0 <= m < |s1.slots| && 0 <= u < |s1.slots[m]| ensures Settled(s1.objs, s1.slots[m][u]) {
      if m != n || u != t { assert Settled(s.objs, s.slots[m][u]); }
    }
    forall x | 0 <= x < |s1.objs| ensures FlagsOk(s1, x) {
      assert FlagsOk(s, x);
      SwapHolders(s, i, n, t, k, x);
    }
  }

  /** Task `i` may work on inode `n`. */
  ghost predicate Ready(s: State, i: nat, n: nat) { Inv(s) && i < |s.hands| && n < |s.slots| && s.pcs[i] == Idle }

  ghost function Built(s: State, i: nat, n: nat, t: nat, use: seq<bool>, ok: seq<bool>): (State, bool)
    requires Ready(s, i, n) && |use| == |ok| == MAXQUOTAS && t <= MAXQUOTAS
  {
    InodeFits(s, i, n);
    BuildFrom(s, i, n, t, use, ok)
  }

  ghost function Moved(s: State, i: nat, n: nat, t: nat): State
    requires Ready(s, i, n) && t <= MAXQUOTAS
  {
    InodeFits(s, i, n);
    MoveFrom(s, i, n, t)
  }

  /** One round of the second loop of `dquot_transfer`. */
  lemma BuildOne(s: State, i: nat, n: nat, t: nat, use: seq<bool>, ok: seq<bool>)
    requires Ready(s, i, n) && |use| == |ok| == MAXQUOTAS && t < MAXQUOTAS && NoFrom(s.hands[i], t)
    ensures IsTask(s, i) && IsInode(s, n)
    ensures var s1 := if s.hands[i][TO + t].Some? && use[t] then Duplicate(s, i, n, t, FROM + t) else s;
            var h, refused := s.hands[i], s1.hands[i][FROM + t].Some? && !ok[t];
            && Ready(s1, i, n) && NoFrom(s1.hands[i], t + 1)
            && s1.slots == s.slots && s1.pcs == s.pcs && |s1.hands| == |s.hands|
            && s1.hands[i] == (if h[TO + t].Some? && use[t] then h[FROM + t := s.slots[n][t]] else h)
            && Built(s, i, n, t, use, ok) == if refused then (s1, false) else Built(s1, i, n, t + 1, use, ok)
  {
    InodeFits(s, i, n);
    if s.hands[i][TO + t].Some? && use[t] {
      DuplicateKeeps(s, i, n, t, FROM + t);
    }
  }

  lemma MoveOne(s: State, i: nat, n: nat, t: nat)
    requires Ready(s, i, n) && t < MAXQUOTAS && s.hands[i][FROM + t].Some? && s.hands[i][TO + t].Some?
    ensures IsInode(s, n) && Ready(Swap(s, i, n, t, TO + t), i, n)
    ensures Moved(s, i, n, t) == Moved(Swap(s, i, n, t, TO + t), i, n, t + 1)
  {
    InodeFits(s, i, n);
    SwapKeeps(s, i, n, t, TO + t);
  }

  /** Variables that `dquot_transfer` has not filled yet. */
  predicate NoFrom(h: Refs, t: nat)
    requires |h| == LOCALS
  {
    forall u :: FROM + t <= u < LOCALS ==> h[u] == None
  }

  lemma {:induction false} BuildKeeps(s: State, i: nat, n: nat, t: nat, use: seq<bool>, ok: seq<bool>)
    requires Inv(s) && i < |s.hands| && n < |s.slots| && s.pcs[i] == Idle && NoFrom(s.hands[i], t)
    requires |use| == |ok| == MAXQUOTAS && t <= MAXQUOTAS
    ensures IsTask(s, i) && IsInode(s, n) && Bounded(s.hands[i], |s.objs|)
    ensures var s1 := BuildFrom(s, i, n, t, use, ok).0; Inv(s1) && s1.pcs == s.pcs && s1.slots == s.slots
    decreases MAXQUOTAS - t
  {
    InodeFits(s, i, n);
    if t < MAXQUOTAS {
      if s.hands[i][TO + t].None? || !use[t] {
        BuildKeeps(s, i, n, t + 1, use, ok);
      } else {
        DuplicateKeeps(s, i, n, t, FROM + t);
        var s1 := Duplicate(s, i, n, t, FROM + t);
        BuildKeeps(s1, i, n, t + 1, use, ok);
      }
    }
  }

  lemma {:induction false} MoveKeeps(s: State, i: nat, n: nat, t: nat)
    requires Inv(s) && i < |s.hands| && n < |s.slots| && s.pcs[i] == Idle && t <= MAXQUOTAS
    ensures IsTask(s, i) && IsInode(s, n) && Bounded(s.hands[i], |s.objs|)
    ensures Inv(MoveFrom(s, i, n, t)) && MoveFrom(s, i, n, t).pcs == s.pcs && MoveFrom(s, i, n, t).objs == s.objs
    decreases MAXQUOTAS - t
  {
    InodeFits(s, i, n);
    if t < MAXQUOTAS {
      if s.hands[i][FROM + t].None? || s.hands[i][TO + t].None? {
        MoveKeeps(s, i, n, t + 1);
      } else {
        SwapKeeps(s, i, n, t, TO + t);
        MoveKeeps(Swap(s, i, n, t, TO + t), i, n, t + 1);
      }
    }
  }

  /** The whole section of `dquot_transfer` that must not sleep. */
  lemma TransferKeeps(s: State, i: nat, n: nat, use: seq<bool>, ok: seq<bool>)
    requires Inv(s) && i < |s.hands| && n < |s.slots| && s.pcs[i] == Idle && NoFrom(s.hands[i], 0)
    requires |use| == |ok| == MAXQUOTAS
    ensures IsTask(s, i) && IsInode(s, n) && Bounded(s.hands[i], |s.objs|) && Inv(Transfer(s, i, n, use, ok))
  {
    InodeFits(s, i, n);
    BuildKeeps(s, i, n, 0, use, ok);
    var s1 := BuildFrom(s, i, n, 0, use, ok).0;
    MoveKeeps(s1, i, n, 0);
  }

  lemma DirtyKeeps(s: State, i: nat, k: nat)
    requires Inv(s) && i < |s.hands| && s.pcs[i] == Idle && TO <= k < LOCALS && s.hands[i][k].Some?
    ensures HasLocal(s, i, k) && Inv(Dirty(s, i, k))
  {
    var h := s.hands[i];
    assert TaskOk(s.objs, h, s.pcs[i]) && Settled(s.objs, h[k]);
    var x := h[k].value;
    var o := s.objs[x].(dirty := true);
    InHand(s, i, k);
    FreeSame(s, x, o);
    MilderTask(s.objs, x, o, h, Idle);
    UpdatedKeeps(s, i, h, Idle, x, o, s.free);
  }

  /** `mark_dquot_dirty`, by a task that has a reference. */
  function Dirty(s: State, i: nat, k: nat): State
    requires HasLocal(s, i, k)
  {
    var x := s.hands[i][k].value;
    Updated(s, i, s.hands[i], Idle, x, s.objs[x].(dirty := true), s.free)
  }
}
