/** Switching quota off (fs/dquot.c:333-360, 479-524): `invalidate_dquots` frees every dquot of the
    quota, and nothing brings one back as long as the quota stays off. */
module DquotOff {
  import opened Common
  import opened Lists
  import opened DquotCache
  import opened DquotSteps
  import opened DquotRuns
  import opened DquotGets

  /** The dquots of one kind of quota on a file system. */
  ghost function Matching(s: State, sb: nat, typ: nat): set<nat> { set x | 0 <= x < |s.objs| && Matches(s, x, sb, typ) }

  lemma RunKeysFrom(s: State, i: nat, memory: bool, x: nat, key: Key)
    requires Inv(s) && i < |s.hands| && (key.sb, key.typ) !in s.on
    requires x < |RunTask(s, i, memory).objs| && RunTask(s, i, memory).objs[x].key == Some(key)
    ensures x < |s.objs| && s.objs[x].key == Some(key)
  {
    assert TaskOk(s.objs, s.hands[i], s.pcs[i]);
    if s.pcs[i].Getting? { FindIff(s.objs, s.pcs[i].key, 0); }
  }

  /** A dquot gets its identity only while its quota is on. */
  lemma KeysFrom(s: State, e: Event, x: nat, key: Key)
    requires Inv(s) && Enabled(s, e) && (key.sb, key.typ) !in s.on
    requires x < |Step(s, e).objs| && Step(s, e).objs[x].key == Some(key)
    ensures x < |s.objs| && s.objs[x].key == Some(key)
  {
    match e
    case Run(i, memory) => RunKeysFrom(s, i, memory, x, key);
    case DoTransfer(i, n, use, ok) => TransferOnlyBy(s, i, n, use, ok);
    case DoPrune(n) => PruneExact(s, n);
    case _ =>
  }

  /** While a quota is off, no step adds a dquot to it. */
  lemma OffShrinks(s: State, e: Event, sb: nat, typ: nat)
    requires Inv(s) && Enabled(s, e) && (sb, typ) !in s.on
    ensures Matching(Step(s, e), sb, typ) <= Matching(s, sb, typ)
  {
    forall x | x in Matching(Step(s, e), sb, typ) ensures x in Matching(s, sb, typ) {
      KeysFrom(s, e, x, Step(s, e).objs[x].key.value);
      assert FlagsOk(s, x);
    }
  }

  /** What the scan meets goes at once if nobody uses it; otherwise the task waits for it, and it
      goes when the last user has gone. */
  lemma ScanFrees(s: State, i: nat, x: nat)
    requires Inv(s) && i < |s.pcs| && s.pcs[i].Scanning? && Enabled(s, Meet(i, x))
    ensures var s1, sb, typ := Step(s, Meet(i, x)), s.pcs[i].sb, s.pcs[i].typ;
            && |s1.pcs| == |s.pcs|
            && if s.objs[x].count == 0 then s1.pcs == s.pcs && Matching(s1, sb, typ) == Matching(s, sb, typ) - {x}
               else s1.pcs[i] == Unusing(sb, typ, x) && Matching(s1, sb, typ) == Matching(s, sb, typ)
  {
  }

  lemma UnuseFrees(s: State, i: nat, memory: bool)
    requires Inv(s) && i < |s.hands| && s.pcs[i].Unusing?
    ensures var s1, sb, typ, x := Step(s, Run(i, memory)), s.pcs[i].sb, s.pcs[i].typ, s.pcs[i].x;
            && x < |s.objs|
            && if s.objs[x].count == 0
               then |s1.pcs| == |s.pcs| && s1.pcs[i] == Scanning(sb, typ) && x in Matching(s, sb, typ)
                    && Matching(s1, sb, typ) == Matching(s, sb, typ) - {x}
               else s1 == s
  {
    assert TaskOk(s.objs, s.hands[i], s.pcs[i]);
  }

  /** The quota is off before and after every step of the run. */
  ghost predicate StaysOff(s: State, es: seq<Event>, q: (nat, nat))
    requires Inv(s) && IsRun(s, es)
    decreases |es|
  {
    q !in s.on && (es != [] ==> (StepKeeps(s, es[0]); StaysOff(Step(s, es[0]), es[1..], q)))
  }

  lemma {:induction false} OffRuns(s: State, es: seq<Event>, sb: nat, typ: nat)
    requires Inv(s) && IsRun(s, es) && StaysOff(s, es, (sb, typ))
    ensures Matching(After(s, es), sb, typ) <= Matching(s, sb, typ)
    decreases |es|
  {
    if es != [] {
      StepKeeps(s, es[0]);
      OffShrinks(s, es[0], sb, typ);
      OffRuns(Step(s, es[0]), es[1..], sb, typ);
    }
  }

  /** Once `invalidate_dquots` has come to its end there is no dquot of the quota, and there is none
      in any later state as long as the quota stays off. */
  lemma InvalidatedForGood(s: State, i: nat, es: seq<Event>)
    requires Inv(s) && Enabled(s, ScanDone(i)) && Inv(Step(s, ScanDone(i))) && IsRun(Step(s, ScanDone(i)), es)
    requires StaysOff(Step(s, ScanDone(i)), es, (s.pcs[i].sb, s.pcs[i].typ))
    ensures Matching(After(Step(s, ScanDone(i)), es), s.pcs[i].sb, s.pcs[i].typ) == {}
  {
    var s1, sb, typ := Step(s, ScanDone(i)), s.pcs[i].sb, s.pcs[i].typ;
    forall x | 0 <= x < |s1.objs| ensures !Matches(s1, x, sb, typ) { assert !Matches(s, x, sb, typ); }
    OffRuns(s1, es, sb, typ);
  }

  // ---------------------------------------------------------------- dqget while quota is off

  /** Nothing found and nothing allocated. */
  predicate Fruitless(s: State, i: nat, key: Key, into: nat) {
    && IsTask(s, i) && into < LOCALS && s.hands[i][into] == None && s.hands[i][SPARE] == None
    && (s.pcs[i] == Idle || s.pcs[i] == Getting(key, into))
  }

  lemma {:induction false} FruitlessRuns(s: State, es: seq<Event>, i: nat, key: Key, into: nat)
    requires Inv(s) && IsRun(s, es) && Fruitless(s, i, key, into) && Busy(s, es, i)
    requires StaysOff(s, es, (key.sb, key.typ))
    ensures Fruitless(After(s, es), i, key, into)
    decreases |es|
  {
    if es != [] {
      StepKeeps(s, es[0]);
      if !IsBy(es[0], i) { OthersLeaveAlone(s, es[0], i); }
      FruitlessRuns(Step(s, es[0]), es[1..], i, key, into);
    }
  }

  /** With quota off throughout, `dqget` comes back with nothing. */
  lemma DqgetWhileOff(s: State, i: nat, key: Key, into: nat, es: seq<Event>)
    requires Inv(s) && Enabled(s, StartGet(i, key, into))
    requires var s0 := Step(s, StartGet(i, key, into));
             && Inv(s0) && IsRun(s0, es) && Busy(s0, es, i) && StaysOff(s0, es, (key.sb, key.typ))
             && IsIdle(After(s0, es), i)
    ensures After(Step(s, StartGet(i, key, into)), es).hands[i][into] == None
  {
    assert TaskOk(s.objs, s.hands[i], s.pcs[i]);
    FruitlessRuns(Step(s, StartGet(i, key, into)), es, i, key, into);
  }
}
