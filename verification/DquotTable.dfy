/** The dquot cache as the code changes it (fs/dquot.c:156-167, 394-541, 1136-1218), proved
    against the sections of DquotSteps. */
module DquotTable {
  import opened Common
  import opened Lists
  import opened DquotCache
  import opened DquotSteps

  /** The lists and dquots, the references of inodes, and the local variables of tasks. */
  class DquotTable {
    var objs: seq<Dquot>
    var free: seq<nat>
    var nrFree: int
    var slots: seq<Refs>
    var hands: seq<Refs>
    var pcs: seq<Pc>
    var on: set<(nat, nat)>

    ghost function Model(): State
      reads this
    {
      State(objs, free, nrFree, slots, hands, pcs, on)
    }

    /** `find_dquot`. */
    method FindDquot(key: Key) returns (r: Option<nat>)
      ensures r == Find(objs, key, 0)
    {
      var x := 0;
      while x < |objs|
        invariant 0 <= x <= |objs| && Find(objs, key, x) == Find(objs, key, 0)
      {
        if objs[x].key == Some(key) {
          return Some(x);
        }
        x := x + 1;
      }
      return None;
    }

    /** `remove_free_dquot`. */
    method RemoveFreeDquot(x: nat)
      requires NoDup(free)
      modifies this`free, this`nrFree
      ensures free == Without(old(free), x) && nrFree == old(nrFree) + |free| - |old(free)|
    {
      if x !in free {
        WithoutNone(free, x);
        return;
      }
      WithoutLength(free, x);
      free := Without(free, x);
      nrFree := nrFree - 1;
    }

    /** `dqput`, from `we_slept` to the write that sleeps or to its end. */
    method DqPut(i: nat, k: nat)
      requires Inv(Model()) && i < |hands| && pcs[i] == Putting(k)
      modifies this
      ensures HasLocal(old(Model()), i, k) && Model() == PutSection(old(Model()), i, k) && Inv(Model())
    {
      PutKeeps(Model(), i, k);
      var x := hands[i][k].value;
      if objs[x].count == 0 {
        hands, pcs := hands[i := hands[i][k := None]], pcs[i := Idle];
        assert objs == objs[x := objs[x]];
        return;
      }
      if objs[x].count > 1 {
        objs := objs[x := objs[x].(count := objs[x].count - 1)];
        hands, pcs := hands[i := hands[i][k := None]], pcs[i := Idle];
        return;
      }
      if objs[x].dirty {
        pcs := pcs[i := Writing(k)];
        assert objs == objs[x := objs[x]] && hands == hands[i := hands[i]];
        return;
      }
      if x in free {
        objs := objs[x := objs[x].(count := objs[x].count - 1)];
        hands, pcs := hands[i := hands[i][k := None]], pcs[i := Idle];
        return;
      }
      objs := objs[x := objs[x].(count := objs[x].count - 1)];
      if !objs[x].inval {
        free := free + [x];
        nrFree := nrFree + 1;
      }
      hands, pcs := hands[i := hands[i][k := None]], pcs[i := Idle];
    }

    /** `dqget`, from `we_slept` to its next sleep or to its end. */
    method DqGet(i: nat, key: Key, into: nat)
      requires Inv(Model()) && i < |hands| && pcs[i] == Getting(key, into)
      modifies this
      ensures IsTask(old(Model()), i) && (old(hands)[i][SPARE].Some? ==> HasLocal(old(Model()), i, SPARE))
      ensures Model() == GetSection(old(Model()), i, key, into) && Inv(Model())
    {
      GetKeeps(Model(), i, key, into);
      var spare := hands[i][SPARE];
      if (key.sb, key.typ) !in on {
        pcs := pcs[i := if spare.Some? then Putting(SPARE) else Idle];
        return;
      }
      FindIff(objs, key, 0);
      var found := FindDquot(key);
      if found.None? {
        if spare.None? {
          pcs := pcs[i := Allocating(key, into)];
          return;
        }
        var e := spare.value;
        objs := objs[e := objs[e].(key := Some(key), locked := true)];
        hands := hands[i := hands[i][FOUND := Some(e)][SPARE := None]];
        pcs := pcs[i := Reading(into)];
      } else {
        AddReference(i, FOUND, found.value, Waiting(into));
      }
    }

    /** `dq_count++`, off the free list if it was the first reference. */
    method AddReference(i: nat, k: nat, x: nat, pc: Pc)
      requires IsTask(Model(), i) && k < LOCALS && x < |objs| && NoDup(free)
      modifies this
      ensures Model() == Take(old(Model()), i, k, x, pc)
    {
      var first := objs[x].count == 0;
      objs := objs[x := objs[x].(count := objs[x].count + 1)];
      if first {
        RemoveFreeDquot(x);
      }
      hands, pcs := hands[i := hands[i][k := Some(x)]], pcs[i := pc];
    }

    /** `prune_dqcache`. */
    method PruneDqcache(n: nat)
      requires Inv(Model())
      modifies this
      ensures Model() == Prune(old(Model()), n) && Inv(Model())
    {
      var left := n;
      while left > 0 && free != []
        invariant Inv(Model()) && 0 <= left <= n
        invariant Prune(Model(), left) == Prune(old(Model()), n)
        decreases left
      {
        ghost var s := Model();
        var x := free[|free| - 1];
        assert x in free && IsFree(s, x);
        NotMarked(s, x);
        FreedKeeps(s, x, s.pcs);
        objs := objs[x := objs[x].(key := None, live := false, inval := false)];
        RemoveFreeDquot(x);
        left := left - 1;
      }
    }

    /** The second loop of `dquot_transfer`; false is NO_QUOTA. */
    method BuildTransferFrom(i: nat, n: nat, use: seq<bool>, ok: seq<bool>) returns (all: bool)
      requires Ready(Model(), i, n) && NoFrom(hands[i], 0) && |use| == |ok| == MAXQUOTAS
      modifies this
      ensures Ready(Model(), i, n) && slots == old(slots)
      ensures (Model(), all) == Built(old(Model()), i, n, 0, use, ok)
    {
      var t := 0;
      while t < MAXQUOTAS
        invariant 0 <= t <= MAXQUOTAS && Ready(Model(), i, n) && slots == old(slots) && NoFrom(hands[i], t)
        invariant Built(Model(), i, n, t, use, ok) == Built(old(Model()), i, n, 0, use, ok)
      {
        var refused := BuildRound(i, n, t, use, ok);
        if refused {
          return false;
        }
        t := t + 1;
      }
      return true;
    }

    /** One kind of quota in that loop. */
    method BuildRound(i: nat, n: nat, t: nat, use: seq<bool>, ok: seq<bool>) returns (refused: bool)
      requires Ready(Model(), i, n) && |use| == |ok| == MAXQUOTAS && t < MAXQUOTAS && NoFrom(hands[i], t)
      modifies this
      ensures Ready(Model(), i, n) && slots == old(slots) && NoFrom(hands[i], t + 1)
      ensures refused ==> Built(old(Model()), i, n, t, use, ok) == (Model(), false)
      ensures !refused ==> Built(old(Model()), i, n, t, use, ok) == Built(Model(), i, n, t + 1, use, ok)
    {
      BuildOne(Model(), i, n, t, use, ok);
      if hands[i][TO + t].Some? && use[t] {
        DqDuplicate(i, n, t, FROM + t);
      }
      refused := hands[i][FROM + t].Some? && !ok[t];
    }

    /** `dqduplicate` of the reference of an inode. */
    method DqDuplicate(i: nat, n: nat, t: nat, k: nat)
      requires Inv(Model()) && IsTask(Model(), i) && IsInode(Model(), n) && t < MAXQUOTAS && k < LOCALS
      requires pcs[i] == Idle
      modifies this
      ensures Model() == Duplicate(old(Model()), i, n, t, k)
    {
      if slots[n][t].None? || objs[slots[n][t].value].key.None? {
        return;
      }
      InSlot(Model(), n, t);
      AddReference(i, k, slots[n][t].value, Idle);
    }

    /** The third loop of `dquot_transfer`. */
    method MoveDquots(i: nat, n: nat)
      requires Ready(Model(), i, n)
      modifies this`slots, this`hands
      ensures Ready(Model(), i, n) && Model() == Moved(old(Model()), i, n, 0)
    {
      var t := 0;
      while t < MAXQUOTAS
        invariant 0 <= t <= MAXQUOTAS && Ready(Model(), i, n)
        invariant Moved(Model(), i, n, t) == Moved(old(Model()), i, n, 0)
      {
        if hands[i][FROM + t].Some? && hands[i][TO + t].Some? {
          MoveOne(Model(), i, n, t);
          var was := slots[n][t];
          slots := slots[n := slots[n][t := hands[i][TO + t]]];
          hands := hands[i := hands[i][TO + t := was]];
        }
        t := t + 1;
      }
    }

    /** The part of `dquot_transfer` that must not sleep. */
    method DquotTransfer(i: nat, n: nat, use: seq<bool>, ok: seq<bool>) returns (all: bool)
      requires Ready(Model(), i, n) && NoFrom(hands[i], 0) && |use| == |ok| == MAXQUOTAS
      modifies this
      ensures IsTask(old(Model()), i) && IsInode(old(Model()), n) && Bounded(old(hands)[i], |old(objs)|)
      ensures Model() == Transfer(old(Model()), i, n, use, ok) && Inv(Model())
      ensures !all ==> slots == old(slots)
    {
      InodeFits(Model(), i, n);
      all := BuildTransferFrom(i, n, use, ok);
      if all {
        MoveDquots(i, n);
      }
    }
  }

  /** Deleting one element of a list without repetition. */
  lemma {:induction false} WithoutLength(s: seq<nat>, x: nat)
    requires NoDup(s) && x in s
    ensures |Without(s, x)| == |s| - 1
  {
    if s[0] == x { WithoutNone(s[1..], x); } else { WithoutLength(s[1..], x); }
  }
}
