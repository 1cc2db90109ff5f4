/** Disk quota accounting (fs/dquot.c:637-671, 746-816, 1021-1218): the usage counters of
    user and group quotas against the inodes they are attached to. */
module Quota {
  import opened Common

  const MAXQUOTAS: nat := 2

  /** The part of a dquot that accounting looks at; `fake` is DQ_FAKE. */
  datatype Dquot = Dquot(typ: nat, curBlocks: nat, curInodes: nat, bHard: nat, bSoft: nat, iHard: nat, iSoft: nat,
                         bTime: nat, iTime: nat, fake: bool)

  /** `blocks` is `i_blocks`, in units of 512 bytes; a quota block is two of them. `units`
      is the number of inodes charged for this one. `slots[t]` is `i_dquot[t]`. */
  datatype Inode = Inode(blocks: nat, units: int, slots: seq<Option<nat>>)

  datatype State = State(dquots: seq<Dquot>, inodes: seq<Inode>)

  /** What a call meets: the clock, the grace periods, and the quota types whose limits its
      caller may pass, being capable of CAP_SYS_RESOURCE where the type is not squashed
      (`ignore_hardlimit`). */
  datatype Env = Env(now: nat, bExpire: nat, iExpire: nat, exempt: set<nat>)

  // ---------------------------------------------------------------- limit checks

  /** `check_idq`: whether `n` more inodes are allowed; the first step over the soft limit
      starts the grace period. */
  function CheckInodes(d: Dquot, n: nat, env: Env): (Dquot, bool) {
    if n == 0 || d.fake then (d, true)
    else if d.iHard != 0 && d.curInodes + n > d.iHard && d.typ !in env.exempt then (d, false)
    else if d.iSoft != 0 && d.curInodes + n > d.iSoft && d.iTime != 0 && env.now >= d.iTime && d.typ !in env.exempt
    then (d, false)
    else if d.iSoft != 0 && d.curInodes + n > d.iSoft && d.iTime == 0 then (d.(iTime := env.now + env.iExpire), true)
    else (d, true)
  }

  /** `check_bdq`: a preallocation may not even cross the soft limit. */
  function CheckBlocks(d: Dquot, n: nat, prealloc: bool, env: Env): (Dquot, bool) {
    if n == 0 || d.fake then (d, true)
    else if d.bHard != 0 && d.curBlocks + n > d.bHard && d.typ !in env.exempt then (d, false)
    else if d.bSoft != 0 && d.curBlocks + n > d.bSoft && d.bTime != 0 && env.now >= d.bTime && d.typ !in env.exempt
    then (d, false)
    else if d.bSoft != 0 && d.curBlocks + n > d.bSoft && d.bTime == 0 then
      if prealloc then (d, false) else (d.(bTime := env.now + env.bExpire), true)
    else (d, true)
  }

  // ---------------------------------------------------------------- counters

  function AddBlocks(d: Dquot, n: nat): Dquot { d.(curBlocks := d.curBlocks + n) }

  function AddInodes(d: Dquot, n: nat): Dquot { d.(curInodes := d.curInodes + n) }

  /** `dquot_decr_blocks`: the counter sticks at zero. */
  function SubBlocks(d: Dquot, n: nat): Dquot {
    var left := if d.curBlocks > n then d.curBlocks - n else 0;
    d.(curBlocks := left, bTime := if left < d.bSoft then 0 else d.bTime)
  }

  function SubInodes(d: Dquot, n: nat): Dquot {
    var left := if d.curInodes > n then d.curInodes - n else 0;
    d.(curInodes := left, iTime := if left < d.iSoft then 0 else d.iTime)
  }

  // ---------------------------------------------------------------- all quotas of an inode

  datatype Demand = Blocks(n: nat, prealloc: bool) | Inodes(n: nat)

  function Check(d: Dquot, m: Demand, env: Env): (Dquot, bool) {
    match m
    case Blocks(n, prealloc) => CheckBlocks(d, n, prealloc, env)
    case Inodes(n) => CheckInodes(d, n, env)
  }

  function Charge(d: Dquot, m: Demand): Dquot {
    match m case Blocks(n, _) => AddBlocks(d, n) case Inodes(n) => AddInodes(d, n)
  }

  function Release(d: Dquot, m: Demand): Dquot {
    match m case Blocks(n, _) => SubBlocks(d, n) case Inodes(n) => SubInodes(d, n)
  }

  ghost predicate SlotsOk(d: seq<Dquot>, slots: seq<Option<nat>>) {
    && |slots| == MAXQUOTAS
    && forall t :: 0 <= t < MAXQUOTAS && slots[t].Some? ==> slots[t].value < |d| && d[slots[t].value].typ == t
  }

  /** The checking loop: stops at the first quota that says no. */
  function CheckFrom(d: seq<Dquot>, slots: seq<Option<nat>>, t: nat, m: Demand, env: Env): (seq<Dquot>, bool)
    requires SlotsOk(d, slots) && t <= MAXQUOTAS
    decreases MAXQUOTAS - t
  {
    if t == MAXQUOTAS then (d, true)
    else if slots[t].None? then CheckFrom(d, slots, t + 1, m, env)
    else
      var q := slots[t].value;
      var (d1, ok) := Check(d[q], m, env);
      if ok then CheckFrom(d[q := d1], slots, t + 1, m, env) else (d[q := d1], false)
  }

  function ChargeFrom(d: seq<Dquot>, slots: seq<Option<nat>>, t: nat, m: Demand): (r: seq<Dquot>)
    requires SlotsOk(d, slots) && t <= MAXQUOTAS
    decreases MAXQUOTAS - t
  {
    if t == MAXQUOTAS then d
    else if slots[t].None? then ChargeFrom(d, slots, t + 1, m)
    else ChargeFrom(d[slots[t].value := Charge(d[slots[t].value], m)], slots, t + 1, m)
  }

  function ReleaseFrom(d: seq<Dquot>, slots: seq<Option<nat>>, t: nat, m: Demand): (r: seq<Dquot>)
    requires SlotsOk(d, slots) && t <= MAXQUOTAS
    decreases MAXQUOTAS - t
  {
    if t == MAXQUOTAS then d
    else if slots[t].None? then ReleaseFrom(d, slots, t + 1, m)
    else ReleaseFrom(d[slots[t].value := Release(d[slots[t].value], m)], slots, t + 1, m)
  }

  // ---------------------------------------------------------------- what it means

  /** Same quota type and same usage. */
  predicate SameUse(a: Dquot, b: Dquot) {
    a.typ == b.typ && a.curBlocks == b.curBlocks && a.curInodes == b.curInodes
  }

  ghost predicate SameUses(a: seq<Dquot>, b: seq<Dquot>) {
    |a| == |b| && forall q :: 0 <= q < |a| ==> SameUse(a[q], b[q])
  }

  /** Whatever the answer, the check touches no usage counter. */
  lemma {:induction false} CheckKeepsUse(d: seq<Dquot>, slots: seq<Option<nat>>, t: nat, m: Demand, env: Env)
    requires SlotsOk(d, slots) && t <= MAXQUOTAS
    ensures SameUses(d, CheckFrom(d, slots, t, m, env).0)
    decreases MAXQUOTAS - t
  {
    if t < MAXQUOTAS {
      if slots[t].None? {
        CheckKeepsUse(d, slots, t + 1, m, env);
      } else {
        var q := slots[t].value;
        CheckKeepsUse(d[q := Check(d[q], m, env).0], slots, t + 1, m, env);
      }
    }
  }

  predicate Attached(slots: seq<Option<nat>>, from: nat, q: nat) {
    exists t :: from <= t < |slots| && slots[t] == Some(q)
  }

  /** A charge goes to exactly the quotas attached to the inode, once each. */
  lemma {:induction false} ChargeExact(d: seq<Dquot>, slots: seq<Option<nat>>, t: nat, m: Demand)
    requires SlotsOk(d, slots) && t <= MAXQUOTAS
    ensures var r := ChargeFrom(d, slots, t, m);
            |r| == |d| && forall q :: 0 <= q < |d| ==> r[q] == if Attached(slots, t, q) then Charge(d[q], m) else d[q]
    decreases MAXQUOTAS - t
  {
    if t < MAXQUOTAS {
      if slots[t].None? {
        ChargeExact(d, slots, t + 1, m);
      } else {
        var q := slots[t].value;
        ChargeExact(d[q := Charge(d[q], m)], slots, t + 1, m);
        assert !Attached(slots, t + 1, q);
      }
    }
  }

  lemma {:induction false} ReleaseExact(d: seq<Dquot>, slots: seq<Option<nat>>, t: nat, m: Demand)
    requires SlotsOk(d, slots) && t <= MAXQUOTAS
    ensures var r := ReleaseFrom(d, slots, t, m);
            |r| == |d| && forall q :: 0 <= q < |d| ==> r[q] == if Attached(slots, t, q) then Release(d[q], m) else d[q]
    decreases MAXQUOTAS - t
  {
    if t < MAXQUOTAS {
      if slots[t].None? {
        ReleaseExact(d, slots, t + 1, m);
      } else {
        var q := slots[t].value;
        ReleaseExact(d[q := Release(d[q], m)], slots, t + 1, m);
        assert !Attached(slots, t + 1, q);
      }
    }
  }

  /** The loop says yes exactly when every quota of the inode, asked on its own, does; then each
      of them has been asked, and no other has been touched. */
  lemma {:induction false} CheckIff(d: seq<Dquot>, slots: seq<Option<nat>>, t: nat, m: Demand, env: Env)
    requires SlotsOk(d, slots) && t <= MAXQUOTAS
    ensures var (r, ok) := CheckFrom(d, slots, t, m, env);
            && |r| == |d|
            && (ok <==> forall q :: 0 <= q < |d| && Attached(slots, t, q) ==> Check(d[q], m, env).1)
            && (forall q :: 0 <= q < |d| && !Attached(slots, t, q) ==> r[q] == d[q])
            && (forall q :: 0 <= q < |d| ==> r[q] == d[q] || r[q] == Check(d[q], m, env).0)
            && (ok ==> forall q :: 0 <= q < |d| && Attached(slots, t, q) ==> r[q] == Check(d[q], m, env).0)
    decreases MAXQUOTAS - t
  {
    if t < MAXQUOTAS {
      if slots[t].None? {
        CheckIff(d, slots, t + 1, m, env);
        SameAttached(slots, t);
      } else {
        var q := slots[t].value;
        var (x, fits) := Check(d[q], m, env);
        assert Attached(slots, t, q);
        CheckIff(d[q := x], slots, t + 1, m, env);
        NotAgain(d, slots, t);
      }
    }
  }

  lemma SameAttached(slots: seq<Option<nat>>, t: nat)
    requires t < |slots| && slots[t].None?
    ensures forall q :: Attached(slots, t, q) <==> Attached(slots, t + 1, q)
  {
  }

  lemma NotAgain(d: seq<Dquot>, slots: seq<Option<nat>>, t: nat)
    requires SlotsOk(d, slots) && t < MAXQUOTAS && slots[t].Some?
    ensures forall q :: Attached(slots, t, q) <==> q == slots[t].value || Attached(slots, t + 1, q)
    ensures !Attached(slots, t + 1, slots[t].value)
  {
  }

  // ---------------------------------------------------------------- transfer

  /** The checks of `dquot_transfer`: one inode and its blocks must fit under every quota that
      changes. */
  function CanMove(d: Dquot, blocks: nat, env: Env): (Dquot, bool) {
    var (d1, ok1) := CheckInodes(d, 1, env);
    if !ok1 then (d1, false) else CheckBlocks(d1, blocks, false, env)
  }

  function MoveCheckFrom(d: seq<Dquot>, slots: seq<Option<nat>>, to: seq<Option<nat>>, t: nat, blocks: nat, env: Env)
    : (seq<Dquot>, bool)
    requires SlotsOk(d, slots) && SlotsOk(d, to) && t <= MAXQUOTAS
    decreases MAXQUOTAS - t
  {
    if t == MAXQUOTAS then (d, true)
    else if to[t].None? || slots[t].None? then MoveCheckFrom(d, slots, to, t + 1, blocks, env)
    else
      var q := to[t].value;
      var (d1, ok) := CanMove(d[q], blocks, env);
      if ok then MoveCheckFrom(d[q := d1], slots, to, t + 1, blocks, env) else (d[q := d1], false)
  }

  function Give(d: Dquot, blocks: nat): Dquot { AddBlocks(AddInodes(d, 1), blocks) }

  function Take(d: Dquot, blocks: nat): Dquot { SubBlocks(SubInodes(d, 1), blocks) }

  /** The moving loop: take from the old quota first, then give to the new one. */
  function MoveFrom(d: seq<Dquot>, slots: seq<Option<nat>>, to: seq<Option<nat>>, t: nat, blocks: nat): (r: seq<Dquot>)
    requires SlotsOk(d, slots) && SlotsOk(d, to) && t <= MAXQUOTAS
    decreases MAXQUOTAS - t
  {
    if t == MAXQUOTAS then d
    else if to[t].None? || slots[t].None? then MoveFrom(d, slots, to, t + 1, blocks)
    else
      var d1 := d[slots[t].value := Take(d[slots[t].value], blocks)];
      var d2 := d1[to[t].value := Give(d1[to[t].value], blocks)];
      MoveFrom(d2, slots, to, t + 1, blocks)
  }

  function NewSlots(slots: seq<Option<nat>>, to: seq<Option<nat>>): (r: seq<Option<nat>>)
    requires |slots| == |to| == MAXQUOTAS
    ensures |r| == MAXQUOTAS
    ensures forall t :: 0 <= t < MAXQUOTAS ==> r[t] == if to[t].Some? && slots[t].Some? then to[t] else slots[t]
  {
    seq(MAXQUOTAS, t requires 0 <= t < MAXQUOTAS => if to[t].Some? && slots[t].Some? then to[t] else slots[t])
  }

  /** Quota `q` of type `k` is on the giving, or on the receiving side. */
  predicate Gives(slots: seq<Option<nat>>, to: seq<Option<nat>>, k: nat, q: nat)
    requires |slots| == |to| == MAXQUOTAS
  {
    k < MAXQUOTAS && to[k].Some? && slots[k] == Some(q)
  }

  predicate Gets(slots: seq<Option<nat>>, to: seq<Option<nat>>, k: nat, q: nat)
    requires |slots| == |to| == MAXQUOTAS
  {
    k < MAXQUOTAS && slots[k].Some? && to[k] == Some(q)
  }

  predicate GetsFrom(d: seq<Dquot>, slots: seq<Option<nat>>, to: seq<Option<nat>>, t: nat, q: nat)
    requires |slots| == |to| == MAXQUOTAS && q < |d|
  {
    d[q].typ >= t && Gets(slots, to, d[q].typ, q)
  }

  /** What the checking loop does to one quota. */
  lemma {:induction false} MoveCheckAt(d: seq<Dquot>, slots: seq<Option<nat>>, to: seq<Option<nat>>, t: nat,
                                       blocks: nat, env: Env, q: nat)
    requires SlotsOk(d, slots) && SlotsOk(d, to) && t <= MAXQUOTAS && q < |d|
    ensures var r := MoveCheckFrom(d, slots, to, t, blocks, env);
            && |r.0| == |d| && SameUse(d[q], r.0[q])
            && (r.0[q] == d[q] || r.0[q] == CanMove(d[q], blocks, env).0)
            && (!GetsFrom(d, slots, to, t, q) ==> r.0[q] == d[q])
            && (GetsFrom(d, slots, to, t, q) && r.1 ==>
                  CanMove(d[q], blocks, env).1 && r.0[q] == CanMove(d[q], blocks, env).0)
    decreases MAXQUOTAS - t
  {
    if t < MAXQUOTAS {
      if to[t].None? || slots[t].None? {
        MoveCheckAt(d, slots, to, t + 1, blocks, env, q);
      } else {
        var c := to[t].value;
        MoveCheckAt(d[c := CanMove(d[c], blocks, env).0], slots, to, t + 1, blocks, env, q);
      }
    }
  }

  /** A refusal has its reason. */
  lemma {:induction false} MoveRefuser(d: seq<Dquot>, slots: seq<Option<nat>>, to: seq<Option<nat>>, t: nat,
                                       blocks: nat, env: Env) returns (q: nat)
    requires SlotsOk(d, slots) && SlotsOk(d, to) && t <= MAXQUOTAS && !MoveCheckFrom(d, slots, to, t, blocks, env).1
    ensures q < |d| && GetsFrom(d, slots, to, t, q) && !CanMove(d[q], blocks, env).1
    decreases MAXQUOTAS - t
  {
    if to[t].None? || slots[t].None? {
      q := MoveRefuser(d, slots, to, t + 1, blocks, env);
    } else {
      q := to[t].value;
      var (x, ok) := CanMove(d[q], blocks, env);
      if ok { q := MoveRefuser(d[q := x], slots, to, t + 1, blocks, env); }
    }
  }

  /** The checking loop of a transfer says yes exactly when every quota that gets the inode,
      asked on its own, does; and it moves no usage. */
  lemma MoveCheckIff(d: seq<Dquot>, slots: seq<Option<nat>>, to: seq<Option<nat>>, blocks: nat, env: Env)
    requires SlotsOk(d, slots) && SlotsOk(d, to)
    ensures var r := MoveCheckFrom(d, slots, to, 0, blocks, env);
            && SameUses(d, r.0)
            && (r.1 <==> forall q :: 0 <= q < |d| && GetsFrom(d, slots, to, 0, q) ==> CanMove(d[q], blocks, env).1)
  {
    var r := MoveCheckFrom(d, slots, to, 0, blocks, env);
    if |d| == 0 { MoveCheckLength(d, slots, to, 0, blocks, env); }
    forall q | 0 <= q < |d|
      ensures |r.0| == |d| && SameUse(d[q], r.0[q])
      ensures r.1 && GetsFrom(d, slots, to, 0, q) ==> CanMove(d[q], blocks, env).1
    {
      MoveCheckAt(d, slots, to, 0, blocks, env, q);
    }
    if !r.1 { var q := MoveRefuser(d, slots, to, 0, blocks, env); }
  }

  lemma {:induction false} MoveCheckLength(d: seq<Dquot>, slots: seq<Option<nat>>, to: seq<Option<nat>>, t: nat,
                                           blocks: nat, env: Env)
    requires SlotsOk(d, slots) && SlotsOk(d, to) && t <= MAXQUOTAS
    ensures |MoveCheckFrom(d, slots, to, t, blocks, env).0| == |d|
    decreases MAXQUOTAS - t
  {
    if t < MAXQUOTAS {
      if to[t].None? || slots[t].None? {
        MoveCheckLength(d, slots, to, t + 1, blocks, env);
      } else {
        var c := to[t].value;
        MoveCheckLength(d[c := CanMove(d[c], blocks, env).0], slots, to, t + 1, blocks, env);
      }
    }
  }

  predicate GivesFrom(d: seq<Dquot>, slots: seq<Option<nat>>, to: seq<Option<nat>>, t: nat, q: nat)
    requires |slots| == |to| == MAXQUOTAS && q < |d|
  {
    d[q].typ >= t && Gives(slots, to, d[q].typ, q)
  }

  function Moved(d: Dquot, gives: bool, gets: bool, blocks: nat): Dquot {
    var d1 := if gives then Take(d, blocks) else d;
    if gets then Give(d1, blocks) else d1
  }

  /** A quota loses and gains in the round of its own type only, and loses first. */
  lemma {:induction false} MoveExact(d: seq<Dquot>, slots: seq<Option<nat>>, to: seq<Option<nat>>, t: nat, blocks: nat,
                                     q: nat)
    requires SlotsOk(d, slots) && SlotsOk(d, to) && t <= MAXQUOTAS && q < |d|
    ensures var r := MoveFrom(d, slots, to, t, blocks);
            |r| == |d| && r[q] == Moved(d[q], GivesFrom(d, slots, to, t, q), GetsFrom(d, slots, to, t, q), blocks)
    decreases MAXQUOTAS - t
  {
    if t < MAXQUOTAS {
      if to[t].None? || slots[t].None? {
        MoveExact(d, slots, to, t + 1, blocks, q);
      } else {
        var a, c := slots[t].value, to[t].value;
        var d1 := d[a := Take(d[a], blocks)];
        var d2 := d1[c := Give(d1[c], blocks)];
        MoveExact(d2, slots, to, t + 1, blocks, q);
      }
    }
  }

  // ---------------------------------------------------------------- the operations

  ghost predicate Valid(s: State) {
    forall i :: 0 <= i < |s.inodes| ==> SlotsOk(s.dquots, s.inodes[i].slots)
  }

  datatype Event =
    | AllocBlock(i: nat, n: nat, prealloc: bool, env: Env)
    | AllocInode(i: nat, n: nat, env: Env)
    | FreeBlock(i: nat, n: nat)
    | FreeInode(i: nat, n: nat)
    | Transfer(i: nat, to: seq<Option<nat>>, env: Env)

  /** One more than the largest value of `i_blocks`, an unsigned long of 32 bits. */
  const WORD: nat := 0x1_0000_0000

  /** `i_blocks -= n << 1`. */
  function BlocksLess(blocks: nat, n: nat): nat
    requires 2 * n < WORD
  {
    if 2 * n <= blocks then blocks - 2 * n else blocks - 2 * n + WORD
  }

  /** The references are to quotas of their types, and a block count survives its shift. */
  ghost predicate Enabled(s: State, e: Event) {
    && e.i < |s.inodes| && Valid(s)
    && (e.FreeBlock? ==> 2 * e.n < WORD)
    && (e.Transfer? ==> SlotsOk(s.dquots, e.to))
  }

  /** The second component is false for NO_QUOTA. */
  function Step(s: State, e: Event): (State, bool)
    requires Enabled(s, e)
  {
    var ino := s.inodes[e.i];
    match e
    case AllocBlock(i, n, prealloc, env) =>
      var (d, ok) := CheckFrom(s.dquots, ino.slots, 0, Blocks(n, prealloc), env);
      CheckKeepsUse(s.dquots, ino.slots, 0, Blocks(n, prealloc), env);
      if !ok then (s.(dquots := d), false)
      else
        var d1 := ChargeFrom(d, ino.slots, 0, Blocks(n, prealloc));
        (State(d1, s.inodes[i := ino.(blocks := ino.blocks + 2 * n)]), true)
    case AllocInode(i, n, env) =>
      var (d, ok) := CheckFrom(s.dquots, ino.slots, 0, Inodes(n), env);
      CheckKeepsUse(s.dquots, ino.slots, 0, Inodes(n), env);
      if !ok then (s.(dquots := d), false)
      else (State(ChargeFrom(d, ino.slots, 0, Inodes(n)), s.inodes[i := ino.(units := ino.units + n)]), true)
    case FreeBlock(i, n) =>
      var d := ReleaseFrom(s.dquots, ino.slots, 0, Blocks(n, false));
      (State(d, s.inodes[i := ino.(blocks := BlocksLess(ino.blocks, n))]), true)
    case FreeInode(i, n) =>
      (State(ReleaseFrom(s.dquots, ino.slots, 0, Inodes(n)), s.inodes[i := ino.(units := ino.units - n)]), true)
    case Transfer(i, to, env) =>
      var (d, ok) := MoveCheckFrom(s.dquots, ino.slots, to, 0, ino.blocks / 2, env);
      MoveCheckIff(s.dquots, ino.slots, to, ino.blocks / 2, env);
      if !ok then (s.(dquots := d), false)
      else
        var d1 := MoveFrom(d, ino.slots, to, 0, ino.blocks / 2);
        (State(d1, s.inodes[i := ino.(slots := NewSlots(ino.slots, to))]), true)
  }

  /** A refusal may start a grace period, but moves no counter and no inode. */
  lemma RefusalChangesNothing(s: State, e: Event)
    requires Enabled(s, e) && !Step(s, e).1
    ensures SameUses(s.dquots, Step(s, e).0.dquots) && Step(s, e).0.inodes == s.inodes
  {
    var ino := s.inodes[e.i];
    match e
    case AllocBlock(i, n, prealloc, env) => CheckKeepsUse(s.dquots, ino.slots, 0, Blocks(n, prealloc), env);
    case AllocInode(i, n, env) => CheckKeepsUse(s.dquots, ino.slots, 0, Inodes(n), env);
    case FreeBlock(i, n) =>
    case FreeInode(i, n) =>
    case Transfer(i, to, env) => MoveCheckIff(s.dquots, ino.slots, to, ino.blocks / 2, env);
  }

  // ---------------------------------------------------------------- what a step does to one quota

  predicate Has(ino: Inode, q: nat) { Attached(ino.slots, 0, q) }

  predicate IsGiver(s: State, e: Event, q: nat)
    requires e.i < |s.inodes| && q < |s.dquots|
  {
    e.Transfer? && |s.inodes[e.i].slots| == |e.to| == MAXQUOTAS && GivesFrom(s.dquots, s.inodes[e.i].slots, e.to, 0, q)
  }

  predicate IsGetter(s: State, e: Event, q: nat)
    requires e.i < |s.inodes| && q < |s.dquots|
  {
    e.Transfer? && |s.inodes[e.i].slots| == |e.to| == MAXQUOTAS && GetsFrom(s.dquots, s.inodes[e.i].slots, e.to, 0, q)
  }

  /** An allocation that is granted. */
  lemma AllocAt(s: State, e: Event, q: nat)
    requires Enabled(s, e) && (e.AllocBlock? || e.AllocInode?) && q < |s.dquots|
    ensures var m := if e.AllocBlock? then Blocks(e.n, e.prealloc) else Inodes(e.n);
            var d, r := s.dquots[q], Step(s, e);
            && |r.0.dquots| == |s.dquots|
            && (!r.1 ==> r.0.dquots[q] == d || r.0.dquots[q] == Check(d, m, e.env).0)
            && (r.1 && !Has(s.inodes[e.i], q) ==> r.0.dquots[q] == d)
            && (r.1 && Has(s.inodes[e.i], q) ==>
                  Check(d, m, e.env).1 && r.0.dquots[q] == Charge(Check(d, m, e.env).0, m))
  {
    var slots := s.inodes[e.i].slots;
    var m := if e.AllocBlock? then Blocks(e.n, e.prealloc) else Inodes(e.n);
    CheckKeepsUse(s.dquots, slots, 0, m, e.env);
    CheckIff(s.dquots, slots, 0, m, e.env);
    var (d, ok) := CheckFrom(s.dquots, slots, 0, m, e.env);
    if ok { ChargeExact(d, slots, 0, m); }
  }

  lemma FreeAt(s: State, e: Event, q: nat)
    requires Enabled(s, e) && (e.FreeBlock? || e.FreeInode?) && q < |s.dquots|
    ensures var m := if e.FreeBlock? then Blocks(e.n, false) else Inodes(e.n);
            var d, r := s.dquots[q], Step(s, e);
            |r.0.dquots| == |s.dquots| && r.0.dquots[q] == if Has(s.inodes[e.i], q) then Release(d, m) else d
  {
    ReleaseExact(s.dquots, s.inodes[e.i].slots, 0, if e.FreeBlock? then Blocks(e.n, false) else Inodes(e.n));
  }

  lemma TransferAt(s: State, e: Event, q: nat)
    requires Enabled(s, e) && e.Transfer? && q < |s.dquots|
    ensures var d, r, b := s.dquots[q], Step(s, e), s.inodes[e.i].blocks / 2;
            var x := if IsGetter(s, e, q) then CanMove(d, b, e.env).0 else d;
            && |r.0.dquots| == |s.dquots|
            && (!r.1 ==> r.0.dquots[q] == d || r.0.dquots[q] == CanMove(d, b, e.env).0)
            && (r.1 ==> r.0.dquots[q] == Moved(x, IsGiver(s, e, q), IsGetter(s, e, q), b))
            && (r.1 && IsGetter(s, e, q) ==> CanMove(d, b, e.env).1)
  {
    var slots, b := s.inodes[e.i].slots, s.inodes[e.i].blocks / 2;
    MoveCheckIff(s.dquots, slots, e.to, b, e.env);
    MoveCheckAt(s.dquots, slots, e.to, 0, b, e.env, q);
    var (d, ok) := MoveCheckFrom(s.dquots, slots, e.to, 0, b, e.env);
    assert SameUse(s.dquots[q], d[q]);
    if ok { MoveExact(d, slots, e.to, 0, b, q); }
  }

  /** The usage counters after a granted allocation. */
  lemma AllocUse(s: State, e: Event, q: nat)
    requires Enabled(s, e) && (e.AllocBlock? || e.AllocInode?) && q < |s.dquots| && Step(s, e).1
    ensures var d, r := s.dquots[q], Step(s, e).0.dquots;
            && |r| == |s.dquots|
            && r[q].curBlocks == d.curBlocks + (if e.AllocBlock? && Has(s.inodes[e.i], q) then e.n else 0)
            && r[q].curInodes == d.curInodes + (if e.AllocInode? && Has(s.inodes[e.i], q) then e.n else 0)
  {
    AllocAt(s, e, q);
  }

  function Monus(a: nat, b: nat): nat { if a > b then a - b else 0 }

  /** The usage counters after a granted transfer. */
  lemma TransferUse(s: State, e: Event, q: nat)
    requires Enabled(s, e) && e.Transfer? && q < |s.dquots| && Step(s, e).1
    ensures var d, r, b := s.dquots[q], Step(s, e).0.dquots, s.inodes[e.i].blocks / 2;
            && |r| == |s.dquots|
            && r[q].curBlocks == (if IsGiver(s, e, q) then Monus(d.curBlocks, b) else d.curBlocks)
                                 + (if IsGetter(s, e, q) then b else 0)
            && r[q].curInodes == (if IsGiver(s, e, q) then Monus(d.curInodes, 1) else d.curInodes)
                                 + (if IsGetter(s, e, q) then 1 else 0)
  {
    TransferAt(s, e, q);
  }

  /** The usage counters after a refusal. */
  lemma RefusedUse(s: State, e: Event, q: nat)
    requires Enabled(s, e) && q < |s.dquots| && !Step(s, e).1
    ensures |Step(s, e).0.dquots| == |s.dquots| && SameUse(s.dquots[q], Step(s, e).0.dquots[q])
    ensures Step(s, e).0.inodes == s.inodes
  {
    RefusalChangesNothing(s, e);
  }

  lemma StepTypes(s: State, e: Event)
    requires Enabled(s, e)
    ensures var s1 := Step(s, e).0;
            |s1.dquots| == |s.dquots| && forall q :: 0 <= q < |s.dquots| ==> s1.dquots[q].typ == s.dquots[q].typ
  {
    if |s.dquots| == 0 {
      SameLength(s, e);
    }
    forall q | 0 <= q < |s.dquots|
      ensures |Step(s, e).0.dquots| == |s.dquots| && Step(s, e).0.dquots[q].typ == s.dquots[q].typ
    {
      if e.AllocBlock? || e.AllocInode? {
        AllocAt(s, e, q);
      } else if e.Transfer? {
        TransferAt(s, e, q);
      } else {
        FreeAt(s, e, q);
      }
    }
  }

  lemma SameLength(s: State, e: Event)
    requires Enabled(s, e) && |s.dquots| == 0
    ensures |Step(s, e).0.dquots| == 0
  {
    var slots := s.inodes[e.i].slots;
    match e
    case AllocBlock(i, n, prealloc, env) =>
      CheckKeepsUse(s.dquots, slots, 0, Blocks(n, prealloc), env);
      ChargeExact(CheckFrom(s.dquots, slots, 0, Blocks(n, prealloc), env).0, slots, 0, Blocks(n, prealloc));
    case AllocInode(i, n, env) =>
      CheckKeepsUse(s.dquots, slots, 0, Inodes(n), env);
      ChargeExact(CheckFrom(s.dquots, slots, 0, Inodes(n), env).0, slots, 0, Inodes(n));
    case FreeBlock(i, n) => ReleaseExact(s.dquots, slots, 0, Blocks(n, false));
    case FreeInode(i, n) => ReleaseExact(s.dquots, slots, 0, Inodes(n));
    case Transfer(i, to, env) =>
      MoveCheckIff(s.dquots, slots, to, s.inodes[i].blocks / 2, env);
      var b := s.inodes[i].blocks / 2;
      MoveLength(MoveCheckFrom(s.dquots, slots, to, 0, b, env).0, slots, to, 0, b);
  }

  lemma {:induction false} MoveLength(d: seq<Dquot>, slots: seq<Option<nat>>, to: seq<Option<nat>>, t: nat, blocks: nat)
    requires SlotsOk(d, slots) && SlotsOk(d, to) && t <= MAXQUOTAS
    ensures |MoveFrom(d, slots, to, t, blocks)| == |d|
    decreases MAXQUOTAS - t
  {
    if t < MAXQUOTAS {
      if to[t].None? || slots[t].None? {
        MoveLength(d, slots, to, t + 1, blocks);
      } else {
        var d1 := d[slots[t].value := Take(d[slots[t].value], blocks)];
        MoveLength(d1[to[t].value := Give(d1[to[t].value], blocks)], slots, to, t + 1, blocks);
      }
    }
  }

  /** The references stay right, so that a run can go on. */
  lemma StepValid(s: State, e: Event)
    requires Enabled(s, e)
    ensures Valid(Step(s, e).0) && |Step(s, e).0.inodes| == |s.inodes|
  {
    StepTypes(s, e);
    var s1 := Step(s, e).0;
    forall i | 0 <= i < |s1.inodes| ensures SlotsOk(s1.dquots, s1.inodes[i].slots) {
      assert SlotsOk(s.dquots, s.inodes[i].slots);
      assert SlotsOk(s.dquots, s1.inodes[i].slots);
    }
  }
}
