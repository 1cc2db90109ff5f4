/** When an allocation or a transfer is granted (fs/dquot.c:746-816, 1021-1218), said over the
    fields of the quotas, and what it leaves in every one of them. */
module QuotaGrants {
  import opened Common
  import opened Quota

  // ---------------------------------------------------------------- room under the limits

  predicate HardAllows(limit: nat, total: nat, exempt: bool) { limit == 0 || total <= limit || exempt }

  predicate OverSoft(limit: nat, total: nat) { limit != 0 && total > limit }

  /** Above the soft limit only as long as the grace period has not begun or is not over. */
  predicate SoftAllows(limit: nat, total: nat, deadline: nat, now: nat, exempt: bool) {
    !OverSoft(limit, total) || deadline == 0 || now < deadline || exempt
  }

  predicate RoomForInodes(d: Dquot, n: nat, env: Env) {
    || n == 0 || d.fake
    || (&& HardAllows(d.iHard, d.curInodes + n, d.typ in env.exempt)
        && SoftAllows(d.iSoft, d.curInodes + n, d.iTime, env.now, d.typ in env.exempt))
  }

  /** A preallocation may not be the one that starts the grace period, whoever asks for it. */
  predicate RoomForBlocks(d: Dquot, n: nat, prealloc: bool, env: Env) {
    || n == 0 || d.fake
    || (&& HardAllows(d.bHard, d.curBlocks + n, d.typ in env.exempt)
        && SoftAllows(d.bSoft, d.curBlocks + n, d.bTime, env.now, d.typ in env.exempt)
        && !(prealloc && OverSoft(d.bSoft, d.curBlocks + n) && d.bTime == 0))
  }

  predicate Room(d: Dquot, m: Demand, env: Env) {
    match m case Blocks(n, prealloc) => RoomForBlocks(d, n, prealloc, env) case Inodes(n) => RoomForInodes(d, n, env)
  }

  /** The end of the grace period: a first step over the soft limit sets it. */
  function Deadline(soft: nat, total: nat, time: nat, now: nat, expire: nat): nat {
    if OverSoft(soft, total) && time == 0 then now + expire else time
  }

  function InodeDeadline(d: Dquot, n: nat, env: Env): nat {
    if n == 0 || d.fake then d.iTime else Deadline(d.iSoft, d.curInodes + n, d.iTime, env.now, env.iExpire)
  }

  function BlockDeadline(d: Dquot, n: nat, env: Env): nat {
    if n == 0 || d.fake then d.bTime else Deadline(d.bSoft, d.curBlocks + n, d.bTime, env.now, env.bExpire)
  }

  /** The grace period as a demand that has room leaves it. */
  function Clocked(d: Dquot, m: Demand, env: Env): Dquot {
    match m
    case Blocks(n, _) => d.(bTime := BlockDeadline(d, n, env))
    case Inodes(n) => d.(iTime := InodeDeadline(d, n, env))
  }

  lemma CheckMeans(d: Dquot, m: Demand, env: Env)
    ensures Check(d, m, env).1 <==> Room(d, m, env)
    ensures Check(d, m, env).0 == if Room(d, m, env) then Clocked(d, m, env) else d
  {
  }

  lemma CanMoveMeans(d: Dquot, blocks: nat, env: Env)
    ensures CanMove(d, blocks, env).1 <==> RoomForInodes(d, 1, env) && RoomForBlocks(d, blocks, false, env)
    ensures RoomForInodes(d, 1, env) && RoomForBlocks(d, blocks, false, env) ==>
      CanMove(d, blocks, env).0 == d.(iTime := InodeDeadline(d, 1, env), bTime := BlockDeadline(d, blocks, env))
  {
  }

  // ---------------------------------------------------------------- allocations

  function DemandOf(e: Event): Demand
    requires e.AllocBlock? || e.AllocInode?
  {
    if e.AllocBlock? then Blocks(e.n, e.prealloc) else Inodes(e.n)
  }

  /** An allocation is granted exactly when every quota attached to the inode has room for it. */
  lemma AllocGrantedIff(s: State, e: Event)
    requires Enabled(s, e) && (e.AllocBlock? || e.AllocInode?)
    ensures Step(s, e).1 <==>
      forall q :: 0 <= q < |s.dquots| && Has(s.inodes[e.i], q) ==> Room(s.dquots[q], DemandOf(e), e.env)
  {
    CheckIff(s.dquots, s.inodes[e.i].slots, 0, DemandOf(e), e.env);
    forall q | 0 <= q < |s.dquots|
      ensures Check(s.dquots[q], DemandOf(e), e.env).1 <==> Room(s.dquots[q], DemandOf(e), e.env)
    {
      CheckMeans(s.dquots[q], DemandOf(e), e.env);
    }
  }

  /** Quota `q`, and every one the loop asks before it, has room. */
  predicate Reached(d: seq<Dquot>, slots: seq<Option<nat>>, t: nat, m: Demand, env: Env, q: nat)
    requires q < |d|
  {
    && Attached(slots, t, q)
    && forall u :: t <= u < |slots| && u <= d[q].typ && slots[u].Some? && slots[u].value < |d| ==>
         Room(d[slots[u].value], m, env)
  }

  /** The loop starts the grace periods of the quotas it has asked, up to the first that says no. */
  lemma {:induction false} CheckedAt(d: seq<Dquot>, slots: seq<Option<nat>>, t: nat, m: Demand, env: Env, q: nat)
    requires SlotsOk(d, slots) && t <= MAXQUOTAS && q < |d|
    ensures var r := CheckFrom(d, slots, t, m, env).0;
            |r| == |d| && r[q] == if Reached(d, slots, t, m, env, q) then Clocked(d[q], m, env) else d[q]
    decreases MAXQUOTAS - t
  {
    if t < MAXQUOTAS {
      if slots[t].None? {
        CheckedAt(d, slots, t + 1, m, env, q);
        SkipReached(d, slots, t, m, env, q);
      } else {
        var c := slots[t].value;
        CheckMeans(d[c], m, env);
        if Room(d[c], m, env) {
          var d1 := d[c := Clocked(d[c], m, env)];
          CheckedAt(d1, slots, t + 1, m, env, q);
          ReachedNext(d, d1, slots, t, m, env, q);
        } else {
          NoneReached(d, slots, t, m, env, q);
          assert d[c := d[c]] == d;
        }
      }
    }
  }

  lemma SkipReached(d: seq<Dquot>, slots: seq<Option<nat>>, t: nat, m: Demand, env: Env, q: nat)
    requires SlotsOk(d, slots) && t < MAXQUOTAS && q < |d| && slots[t].None?
    ensures Reached(d, slots, t, m, env, q) <==> Reached(d, slots, t + 1, m, env, q)
  {
    SameAttached(slots, t);
  }

  lemma NoneReached(d: seq<Dquot>, slots: seq<Option<nat>>, t: nat, m: Demand, env: Env, q: nat)
    requires SlotsOk(d, slots) && t < MAXQUOTAS && q < |d| && slots[t].Some? && !Room(d[slots[t].value], m, env)
    ensures !Reached(d, slots, t, m, env, q)
  {
  }

  lemma ReachedNext(d: seq<Dquot>, d1: seq<Dquot>, slots: seq<Option<nat>>, t: nat, m: Demand, env: Env, q: nat)
    requires SlotsOk(d, slots) && t < MAXQUOTAS && q < |d| && slots[t].Some? && Room(d[slots[t].value], m, env)
    requires d1 == d[slots[t].value := Clocked(d[slots[t].value], m, env)]
    ensures Reached(d, slots, t, m, env, q) <==> q == slots[t].value || Reached(d1, slots, t + 1, m, env, q)
  {
    NotAgain(d, slots, t);
    forall u | t < u < |slots| && slots[u].Some? && slots[u].value < |d| ensures slots[u].value != slots[t].value {
      assert d[slots[u].value].typ == u;
    }
  }

  /** What an allocation leaves. Granted, it charges every attached quota, and a first step over
      the soft limit ends its grace period at `now` plus the period. Refused, it starts the grace
      periods of the quotas asked before the one that said no, and changes nothing else. */
  lemma AllocExact(s: State, e: Event, q: nat)
    requires Enabled(s, e) && (e.AllocBlock? || e.AllocInode?) && q < |s.dquots|
    ensures var d, r, ino := s.dquots[q], Step(s, e), s.inodes[e.i];
            && |r.0.dquots| == |s.dquots|
            && (r.1 && e.AllocBlock? && Has(ino, q) ==>
                  r.0.dquots[q] == d.(curBlocks := d.curBlocks + e.n, bTime := BlockDeadline(d, e.n, e.env)))
            && (r.1 && e.AllocInode? && Has(ino, q) ==>
                  r.0.dquots[q] == d.(curInodes := d.curInodes + e.n, iTime := InodeDeadline(d, e.n, e.env)))
            && (r.1 && !Has(ino, q) ==> r.0.dquots[q] == d)
            && (!r.1 && !Reached(s.dquots, ino.slots, 0, DemandOf(e), e.env, q) ==> r.0.dquots[q] == d)
            && (!r.1 && Reached(s.dquots, ino.slots, 0, DemandOf(e), e.env, q) ==>
                  r.0.dquots[q] == Clocked(d, DemandOf(e), e.env))
  {
    var slots, m := s.inodes[e.i].slots, DemandOf(e);
    AllocAt(s, e, q);
    CheckMeans(s.dquots[q], m, e.env);
    CheckedAt(s.dquots, slots, 0, m, e.env, q);
  }

  /** A release lowers the counter of every attached quota, not below zero, and ends its grace
      period as soon as it is back under the soft limit. */
  lemma FreeExact(s: State, e: Event, q: nat)
    requires Enabled(s, e) && (e.FreeBlock? || e.FreeInode?) && q < |s.dquots|
    ensures var d, r := s.dquots[q], Step(s, e).0.dquots;
            && |r| == |s.dquots|
            && (!Has(s.inodes[e.i], q) ==> r[q] == d)
            && (Has(s.inodes[e.i], q) && e.FreeBlock? ==>
                  var left := Monus(d.curBlocks, e.n);
                  r[q] == d.(curBlocks := left, bTime := if left < d.bSoft then 0 else d.bTime))
            && (Has(s.inodes[e.i], q) && e.FreeInode? ==>
                  var left := Monus(d.curInodes, e.n);
                  r[q] == d.(curInodes := left, iTime := if left < d.iSoft then 0 else d.iTime))
  {
    FreeAt(s, e, q);
  }

  // ---------------------------------------------------------------- transfers

  /** A transfer is granted exactly when every quota that gets the inode has room for one more
      inode and for its blocks. */
  lemma TransferGrantedIff(s: State, e: Event)
    requires Enabled(s, e) && e.Transfer?
    ensures var b := s.inodes[e.i].blocks / 2;
            Step(s, e).1 <==>
              forall q :: 0 <= q < |s.dquots| && IsGetter(s, e, q) ==>
                RoomForInodes(s.dquots[q], 1, e.env) && RoomForBlocks(s.dquots[q], b, false, e.env)
  {
    var b := s.inodes[e.i].blocks / 2;
    MoveCheckIff(s.dquots, s.inodes[e.i].slots, e.to, b, e.env);
    forall q | 0 <= q < |s.dquots|
      ensures CanMove(s.dquots[q], b, e.env).1 <==>
        RoomForInodes(s.dquots[q], 1, e.env) && RoomForBlocks(s.dquots[q], b, false, e.env)
    {
      CanMoveMeans(s.dquots[q], b, e.env);
    }
  }

  /** The time left in a quota that may have started its grace period, and may then have fallen
      below the soft limit. */
  function TimeLeft(gives: bool, left: nat, soft: nat, time: nat): nat { if gives && left < soft then 0 else time }

  /** What a granted transfer leaves in a quota: it loses what it gives, not below zero, and then
      gains what it gets; getting starts a grace period that has to start, and giving ends one
      that is over. */
  lemma TransferExact(s: State, e: Event, q: nat)
    requires Enabled(s, e) && e.Transfer? && q < |s.dquots| && Step(s, e).1
    ensures var d, r, b := s.dquots[q], Step(s, e).0.dquots, s.inodes[e.i].blocks / 2;
            var gives, gets := IsGiver(s, e, q), IsGetter(s, e, q);
            var blocks := if gives then Monus(d.curBlocks, b) else d.curBlocks;
            var inodes := if gives then Monus(d.curInodes, 1) else d.curInodes;
            var bTime := if gets then BlockDeadline(d, b, e.env) else d.bTime;
            var iTime := if gets then InodeDeadline(d, 1, e.env) else d.iTime;
            && |r| == |s.dquots|
            && r[q] == d.(curBlocks := blocks + (if gets then b else 0), curInodes := inodes + (if gets then 1 else 0),
                          bTime := TimeLeft(gives, blocks, d.bSoft, bTime),
                          iTime := TimeLeft(gives, inodes, d.iSoft, iTime))
  {
    TransferAt(s, e, q);
    CanMoveMeans(s.dquots[q], s.inodes[e.i].blocks / 2, e.env);
  }
}
