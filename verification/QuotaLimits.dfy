/** What the checks of `check_idq` and `check_bdq` are for (fs/dquot.c:741-816): hard limits and
    grace periods, over runs in which callers that may pass the limits and callers that may not
    charge the same quotas. */
module QuotaLimits {
  import opened Common
  import opened Quota
  import opened QuotaConservation

  // ---------------------------------------------------------------- hard limits

  predicate AboveBlocks(d: Dquot) { !d.fake && d.bHard != 0 && d.curBlocks > d.bHard }

  predicate AboveInodes(d: Dquot) { !d.fake && d.iHard != 0 && d.curInodes > d.iHard }

  /** What a granted operation adds to the counters of a quota. A transfer from a quota to itself
      adds only what the quota had not got. */
  function AddedBlocks(s: State, e: Event, q: nat): nat
    requires e.i < |s.inodes| && q < |s.dquots|
  {
    var ino, d := s.inodes[e.i], s.dquots[q];
    if e.AllocBlock? && Has(ino, q) then e.n
    else if !IsGetter(s, e, q) then 0
    else if IsGiver(s, e, q) then Lack(d.curBlocks, ino.blocks / 2)
    else ino.blocks / 2
  }

  function AddedInodes(s: State, e: Event, q: nat): nat
    requires e.i < |s.inodes| && q < |s.dquots|
  {
    if e.AllocInode? && Has(s.inodes[e.i], q) then e.n
    else if !IsGetter(s, e, q) then 0
    else if IsGiver(s, e, q) then Lack(s.dquots[q].curInodes, 1)
    else 1
  }

  /** The caller may pass the limits of quota type `t`. */
  predicate Exempt(e: Event, t: nat) {
    match e
    case AllocBlock(_, _, _, env) => t in env.exempt
    case AllocInode(_, _, env) => t in env.exempt
    case FreeBlock(_, _) => false
    case FreeInode(_, _) => false
    case Transfer(_, _, env) => t in env.exempt
  }

  /** An exempt caller takes `q` above its hard limit on blocks, or on inodes. */
  predicate OverridesBlocks(s: State, e: Event, q: nat)
    requires e.i < |s.inodes| && q < |s.dquots|
  {
    var d := s.dquots[q];
    && Exempt(e, d.typ) && AddedBlocks(s, e, q) > 0
    && !d.fake && d.bHard != 0 && d.curBlocks + AddedBlocks(s, e, q) > d.bHard
  }

  predicate OverridesInodes(s: State, e: Event, q: nat)
    requires e.i < |s.inodes| && q < |s.dquots|
  {
    var d := s.dquots[q];
    && Exempt(e, d.typ) && AddedInodes(s, e, q) > 0
    && !d.fake && d.iHard != 0 && d.curInodes + AddedInodes(s, e, q) > d.iHard
  }

  /** The same limits, and the counters moved up by at most what was added. */
  ghost predicate Grew(d: Dquot, d1: Dquot, blocks: nat, inodes: nat) {
    && d1.fake == d.fake && d1.bHard == d.bHard && d1.iHard == d.iHard
    && (if blocks > 0 then d1.curBlocks == d.curBlocks + blocks else d1.curBlocks <= d.curBlocks)
    && (if inodes > 0 then d1.curInodes == d.curInodes + inodes else d1.curInodes <= d.curInodes)
  }

  /** A caller that is not exempt adds nothing that would not fit. */
  ghost predicate Fitted(d: Dquot, blocks: nat, inodes: nat) {
    && (blocks > 0 && !d.fake && d.bHard != 0 ==> d.curBlocks + blocks <= d.bHard)
    && (inodes > 0 && !d.fake && d.iHard != 0 ==> d.curInodes + inodes <= d.iHard)
  }

  lemma AllocGrows(s: State, e: Event, q: nat)
    requires Enabled(s, e) && (e.AllocBlock? || e.AllocInode?) && q < |s.dquots| && Step(s, e).1
    ensures |Step(s, e).0.dquots| == |s.dquots|
    ensures Grew(s.dquots[q], Step(s, e).0.dquots[q], AddedBlocks(s, e, q), AddedInodes(s, e, q))
    ensures !Exempt(e, s.dquots[q].typ) ==> Fitted(s.dquots[q], AddedBlocks(s, e, q), AddedInodes(s, e, q))
  {
    AllocAt(s, e, q);
  }

  lemma TransferGrows(s: State, e: Event, q: nat)
    requires Enabled(s, e) && e.Transfer? && q < |s.dquots| && Step(s, e).1
    ensures |Step(s, e).0.dquots| == |s.dquots|
    ensures Grew(s.dquots[q], Step(s, e).0.dquots[q], AddedBlocks(s, e, q), AddedInodes(s, e, q))
    ensures !Exempt(e, s.dquots[q].typ) ==> Fitted(s.dquots[q], AddedBlocks(s, e, q), AddedInodes(s, e, q))
  {
    TransferAt(s, e, q);
    TransferUse(s, e, q);
  }

  /** Every step either leaves the counters no higher, or adds what a granted call adds. */
  lemma StepGrows(s: State, e: Event, q: nat)
    requires Enabled(s, e) && q < |s.dquots|
    ensures |Step(s, e).0.dquots| == |s.dquots|
    ensures var b, n := AddedBlocks(s, e, q), AddedInodes(s, e, q);
            && (Step(s, e).1 ==> Grew(s.dquots[q], Step(s, e).0.dquots[q], b, n))
            && (!Step(s, e).1 ==> Grew(s.dquots[q], Step(s, e).0.dquots[q], 0, 0))
            && (Step(s, e).1 && !Exempt(e, s.dquots[q].typ) ==> Fitted(s.dquots[q], b, n))
  {
    if !Step(s, e).1 {
      RefusedLimits(s, e, q);
    } else if e.AllocBlock? || e.AllocInode? {
      AllocGrows(s, e, q);
    } else if e.Transfer? {
      TransferGrows(s, e, q);
    } else {
      FreeAt(s, e, q);
    }
  }

  lemma RefusedLimits(s: State, e: Event, q: nat)
    requires Enabled(s, e) && q < |s.dquots| && !Step(s, e).1
    ensures |Step(s, e).0.dquots| == |s.dquots| && Grew(s.dquots[q], Step(s, e).0.dquots[q], 0, 0)
  {
    RefusedUse(s, e, q);
    if e.Transfer? { TransferAt(s, e, q); } else if e.AllocBlock? || e.AllocInode? { AllocAt(s, e, q); }
  }

  /** A caller that is not exempt never leaves a quota it has charged above its hard limit, even
      if somebody else had taken it there; and a quota passes its limit exactly when an exempt
      caller takes it there. */
  lemma StepHardIff(s: State, e: Event, q: nat)
    requires Enabled(s, e) && q < |s.dquots|
    ensures |Step(s, e).0.dquots| == |s.dquots|
    ensures var d, d1, ok := s.dquots[q], Step(s, e).0.dquots[q], Step(s, e).1;
            && (ok && !Exempt(e, d.typ) && AddedBlocks(s, e, q) > 0 ==> !AboveBlocks(d1))
            && (ok && !Exempt(e, d.typ) && AddedInodes(s, e, q) > 0 ==> !AboveInodes(d1))
            && (!AboveBlocks(d) ==> (AboveBlocks(d1) <==> ok && OverridesBlocks(s, e, q)))
            && (!AboveInodes(d) ==> (AboveInodes(d1) <==> ok && OverridesInodes(s, e, q)))
  {
    StepGrows(s, e, q);
  }

  predicate Above(d: Dquot) { AboveBlocks(d) || AboveInodes(d) }

  ghost predicate Overrides(s: State, e: Event, q: nat)
    requires Enabled(s, e) && q < |s.dquots|
  {
    Step(s, e).1 && (OverridesBlocks(s, e, q) || OverridesInodes(s, e, q))
  }

  /** `q` is under its hard limits before and after every step. */
  ghost predicate StaysUnder(s: State, es: seq<Event>, q: nat)
    requires IsRun(s, es)
    decreases |es|
  {
    q < |s.dquots| && !Above(s.dquots[q]) && (es != [] ==> StaysUnder(Step(s, es[0]).0, es[1..], q))
  }

  ghost predicate NeverOverridden(s: State, es: seq<Event>, q: nat)
    requires IsRun(s, es) && q < |s.dquots|
    decreases |es|
  {
    es != [] ==>
      (StepTypes(s, es[0]);
       !Overrides(s, es[0], q) && NeverOverridden(Step(s, es[0]).0, es[1..], q))
  }

  /** Over any run, whoever calls: a quota stays under its hard limits exactly when no exempt
      caller charges it above one of them. */
  lemma {:induction false} RunsKeepLimitsIff(s: State, es: seq<Event>, q: nat)
    requires IsRun(s, es) && q < |s.dquots| && !Above(s.dquots[q])
    ensures StaysUnder(s, es, q) <==> NeverOverridden(s, es, q)
    decreases |es|
  {
    if es != [] {
      StepHardIff(s, es[0], q);
      if !Overrides(s, es[0], q) { RunsKeepLimitsIff(Step(s, es[0]).0, es[1..], q); }
    }
  }

  /** One user, a limit of ten blocks and nine in use: the user is refused two more, a privileged
      caller gets them and passes the limit, and then the user is refused even one. */
  lemma MixedCallers(now: nat)
    ensures var d := Dquot(0, 9, 1, 10, 0, 0, 0, 0, 0, false);
            var s := State([d], [Inode(18, 1, [Some(0), None])]);
            var user, root := Env(now, 0, 0, {}), Env(now, 0, 0, {0});
            && Enabled(s, AllocBlock(0, 2, false, user)) && !Step(s, AllocBlock(0, 2, false, user)).1
            && Enabled(s, AllocBlock(0, 2, false, root)) && Step(s, AllocBlock(0, 2, false, root)).1
            && var s1 := Step(s, AllocBlock(0, 2, false, root)).0;
            && s1.dquots == [d.(curBlocks := 11)] && Above(s1.dquots[0])
            && Enabled(s1, AllocBlock(0, 1, false, user)) && !Step(s1, AllocBlock(0, 1, false, user)).1
  {
    var d := Dquot(0, 9, 1, 10, 0, 0, 0, 0, 0, false);
    var s := State([d], [Inode(18, 1, [Some(0), None])]);
    var user, root := Env(now, 0, 0, {}), Env(now, 0, 0, {0});
    assert Has(s.inodes[0], 0) by { assert s.inodes[0].slots[0] == Some(0); }
    AllocAt(s, AllocBlock(0, 2, false, user), 0);
    CheckIff(s.dquots, s.inodes[0].slots, 0, Blocks(2, false), root);
    AllocAt(s, AllocBlock(0, 2, false, root), 0);
    var s1 := Step(s, AllocBlock(0, 2, false, root)).0;
    assert s1.inodes == [Inode(22, 1, [Some(0), None])];
    assert Has(s1.inodes[0], 0) by { assert s1.inodes[0].slots[0] == Some(0); }
    AllocAt(s1, AllocBlock(0, 1, false, user), 0);
  }

  // ---------------------------------------------------------------- grace periods

  predicate TimedBlocks(d: Dquot) { d.bSoft == 0 || d.curBlocks <= d.bSoft || d.bTime != 0 }

  predicate TimedInodes(d: Dquot) { d.iSoft == 0 || d.curInodes <= d.iSoft || d.iTime != 0 }

  /** Above a soft limit only with the grace period running. */
  predicate Timed(d: Dquot) { d.fake || (TimedBlocks(d) && TimedInodes(d)) }

  /** Giving `n` back takes the counter below the soft limit, and getting it again above. */
  predicate Crosses(cur: nat, soft: nat, n: nat) {
    soft != 0 && Monus(cur, n) < soft && Monus(cur, n) + n > soft
  }

  /** A transfer from a quota to itself that stops the clock: taking resets the grace period,
      and giving does not start it again. */
  predicate StopsClock(s: State, e: Event, q: nat)
    requires e.i < |s.inodes| && q < |s.dquots|
  {
    var d := s.dquots[q];
    && IsGiver(s, e, q) && IsGetter(s, e, q) && !d.fake
    && (Crosses(d.curBlocks, d.bSoft, s.inodes[e.i].blocks / 2) || Crosses(d.curInodes, d.iSoft, 1))
  }

  /** The clock is past zero, as a time in seconds since 1970 is. */
  predicate Ticking(e: Event) {
    (e.AllocBlock? || e.AllocInode? || e.Transfer?) ==> e.env.now > 0
  }

  lemma CheckTimed(d: Dquot, m: Demand, env: Env)
    requires Timed(d) && env.now > 0
    ensures Timed(Check(d, m, env).0)
    ensures Check(d, m, env).1 ==> Timed(Charge(Check(d, m, env).0, m))
  {
  }

  lemma CanMoveTimed(d: Dquot, blocks: nat, env: Env)
    requires Timed(d) && env.now > 0
    ensures Timed(CanMove(d, blocks, env).0)
    ensures CanMove(d, blocks, env).1 ==> Timed(Give(CanMove(d, blocks, env).0, blocks))
  {
  }

  lemma SelfMoveTimedIff(d: Dquot, blocks: nat, env: Env)
    requires Timed(d) && env.now > 0 && CanMove(d, blocks, env).1
    ensures Timed(Moved(CanMove(d, blocks, env).0, true, true, blocks)) <==>
      d.fake || !(Crosses(d.curBlocks, d.bSoft, blocks) || Crosses(d.curInodes, d.iSoft, 1))
  {
  }

  lemma TransferTimedIff(s: State, e: Event, q: nat)
    requires Enabled(s, e) && e.Transfer? && q < |s.dquots| && Timed(s.dquots[q]) && e.env.now > 0
    ensures |Step(s, e).0.dquots| == |s.dquots|
    ensures Timed(Step(s, e).0.dquots[q]) <==> !Step(s, e).1 || !StopsClock(s, e, q)
  {
    var d, b := s.dquots[q], s.inodes[e.i].blocks / 2;
    TransferAt(s, e, q);
    CanMoveTimed(d, b, e.env);
    if Step(s, e).1 && IsGiver(s, e, q) && IsGetter(s, e, q) { SelfMoveTimedIff(d, b, e.env); }
  }

  /** No step leaves a quota above a soft limit without its grace period running, except a granted
      transfer from it to itself that crosses the limit, which always does. */
  lemma StepTimedIff(s: State, e: Event, q: nat)
    requires Enabled(s, e) && q < |s.dquots| && Timed(s.dquots[q]) && Ticking(e)
    ensures |Step(s, e).0.dquots| == |s.dquots|
    ensures Timed(Step(s, e).0.dquots[q]) <==> !Step(s, e).1 || !StopsClock(s, e, q)
  {
    if e.Transfer? {
      TransferTimedIff(s, e, q);
    } else if e.AllocBlock? || e.AllocInode? {
      AllocAt(s, e, q);
      CheckTimed(s.dquots[q], if e.AllocBlock? then Blocks(e.n, e.prealloc) else Inodes(e.n), e.env);
    } else {
      FreeAt(s, e, q);
    }
  }

  ghost predicate StaysTimed(s: State, es: seq<Event>, q: nat)
    requires IsRun(s, es)
    decreases |es|
  {
    q < |s.dquots| && Timed(s.dquots[q]) && (es != [] ==> StaysTimed(Step(s, es[0]).0, es[1..], q))
  }

  ghost predicate NeverStopped(s: State, es: seq<Event>, q: nat)
    requires IsRun(s, es) && q < |s.dquots|
    decreases |es|
  {
    es != [] ==>
      (StepTypes(s, es[0]);
       (!Step(s, es[0]).1 || !StopsClock(s, es[0], q)) && NeverStopped(Step(s, es[0]).0, es[1..], q))
  }

  /** Over any run a quota above its soft limit has its grace period running throughout, exactly
      when no transfer from it to itself crosses the limit. */
  lemma {:induction false} RunsKeepGraceIff(s: State, es: seq<Event>, q: nat)
    requires IsRun(s, es) && q < |s.dquots| && Timed(s.dquots[q]) && forall e :: e in es ==> Ticking(e)
    ensures StaysTimed(s, es, q) <==> NeverStopped(s, es, q)
    decreases |es|
  {
    if es != [] {
      assert es[0] in es;
      StepTimedIff(s, es[0], q);
      if Timed(Step(s, es[0]).0.dquots[q]) { RunsKeepGraceIff(Step(s, es[0]).0, es[1..], q); }
    }
  }

  /** Nothing more is granted above the soft limit of an attached quota once its grace period is
      over, unless the caller is exempt. */
  lemma GraceIsOver(s: State, i: nat, n: nat, prealloc: bool, env: Env, q: nat)
    requires Enabled(s, AllocBlock(i, n, prealloc, env)) && n > 0 && q < |s.dquots| && Has(s.inodes[i], q)
    requires var d := s.dquots[q];
             && !d.fake && d.typ !in env.exempt && d.bSoft != 0 && d.curBlocks + n > d.bSoft
             && d.bTime != 0 && env.now >= d.bTime
    ensures !Step(s, AllocBlock(i, n, prealloc, env)).1
  {
    CheckIff(s.dquots, s.inodes[i].slots, 0, Blocks(n, prealloc), env);
  }
}
