/** The accounting operations as loops over the quotas of an inode (fs/dquot.c:1021-1218),
    proved against the steps of Quota. */
module QuotaTable {
  import opened Common
  import opened Quota
  import opened QuotaGrants

  /** The references of the inode after the first `t` rounds of the moving loop. */
  predicate Switched(slots: seq<Option<nat>>, to: seq<Option<nat>>, done: seq<Option<nat>>, t: nat)
    requires |slots| == |to| == MAXQUOTAS
  {
    && |done| == MAXQUOTAS
    && forall u :: 0 <= u < MAXQUOTAS ==> done[u] == if u < t then NewSlots(slots, to)[u] else slots[u]
  }

  class QuotaTable {
    var dquots: seq<Dquot>
    var inodes: seq<Inode>

    ghost function Model(): State
      reads this
    {
      State(dquots, inodes)
    }

    /** The checking loop of the two allocations. */
    method CheckAll(slots: seq<Option<nat>>, m: Demand, env: Env) returns (ok: bool)
      requires SlotsOk(dquots, slots)
      modifies this`dquots
      ensures (dquots, ok) == CheckFrom(old(dquots), slots, 0, m, env) && SameUses(old(dquots), dquots)
    {
      CheckKeepsUse(dquots, slots, 0, m, env);
      var t := 0;
      while t < MAXQUOTAS
        invariant 0 <= t <= MAXQUOTAS && SlotsOk(dquots, slots)
        invariant CheckFrom(dquots, slots, t, m, env) == CheckFrom(old(dquots), slots, 0, m, env)
      {
        if slots[t].Some? {
          var q := slots[t].value;
          var (d, fits) := Check(dquots[q], m, env);
          dquots := dquots[q := d];
          if !fits {
            return false;
          }
        }
        t := t + 1;
      }
      return true;
    }

    /** The charging loop. */
    method ChargeAll(slots: seq<Option<nat>>, m: Demand)
      requires SlotsOk(dquots, slots)
      modifies this`dquots
      ensures dquots == ChargeFrom(old(dquots), slots, 0, m)
    {
      var t := 0;
      while t < MAXQUOTAS
        invariant 0 <= t <= MAXQUOTAS && SlotsOk(dquots, slots)
        invariant ChargeFrom(dquots, slots, t, m) == ChargeFrom(old(dquots), slots, 0, m)
      {
        if slots[t].Some? {
          var q := slots[t].value;
          dquots := dquots[q := Charge(dquots[q], m)];
        }
        t := t + 1;
      }
    }

    /** The loop of the two operations that free. */
    method ReleaseAll(slots: seq<Option<nat>>, m: Demand)
      requires SlotsOk(dquots, slots)
      modifies this`dquots
      ensures dquots == ReleaseFrom(old(dquots), slots, 0, m)
    {
      var t := 0;
      while t < MAXQUOTAS
        invariant 0 <= t <= MAXQUOTAS && SlotsOk(dquots, slots)
        invariant ReleaseFrom(dquots, slots, t, m) == ReleaseFrom(old(dquots), slots, 0, m)
      {
        if slots[t].Some? {
          var q := slots[t].value;
          dquots := dquots[q := Release(dquots[q], m)];
        }
        t := t + 1;
      }
    }

    /** The checking loop of `dquot_transfer`. */
    method MoveCheckAll(slots: seq<Option<nat>>, to: seq<Option<nat>>, blocks: nat, env: Env) returns (ok: bool)
      requires SlotsOk(dquots, slots) && SlotsOk(dquots, to)
      modifies this`dquots
      ensures (dquots, ok) == MoveCheckFrom(old(dquots), slots, to, 0, blocks, env) && SameUses(old(dquots), dquots)
    {
      MoveCheckIff(dquots, slots, to, blocks, env);
      var t := 0;
      while t < MAXQUOTAS
        invariant 0 <= t <= MAXQUOTAS && SlotsOk(dquots, slots) && SlotsOk(dquots, to)
        invariant MoveCheckFrom(dquots, slots, to, t, blocks, env) ==
          MoveCheckFrom(old(dquots), slots, to, 0, blocks, env)
      {
        if to[t].Some? && slots[t].Some? {
          var fits := MayGet(slots, to, t, blocks, env);
          if !fits {
            return false;
          }
        }
        t := t + 1;
      }
      return true;
    }

    /** One quota in that loop: `check_idq` and then `check_bdq`. */
    method MayGet(slots: seq<Option<nat>>, to: seq<Option<nat>>, t: nat, blocks: nat, env: Env) returns (fits: bool)
      requires SlotsOk(dquots, slots) && SlotsOk(dquots, to) && t < MAXQUOTAS && to[t].Some? && slots[t].Some?
      modifies this`dquots
      ensures SlotsOk(dquots, slots) && SlotsOk(dquots, to)
      ensures !fits ==> MoveCheckFrom(old(dquots), slots, to, t, blocks, env) == (dquots, false)
      ensures fits ==> MoveCheckFrom(old(dquots), slots, to, t, blocks, env)
                       == MoveCheckFrom(dquots, slots, to, t + 1, blocks, env)
    {
      var q := to[t].value;
      var d := CheckInodes(dquots[q], 1, env);
      if d.1 {
        d := CheckBlocks(d.0, blocks, false, env);
      }
      dquots := dquots[q := d.0];
      fits := d.1;
    }

    /** One inode and its blocks change hands. */
    method MoveUse(a: nat, c: nat, blocks: nat)
      requires a < |dquots| && c < |dquots|
      modifies this`dquots
      ensures var d1 := old(dquots)[a := Take(old(dquots)[a], blocks)]; dquots == d1[c := Give(d1[c], blocks)]
    {
      dquots := dquots[a := SubBlocks(SubInodes(dquots[a], 1), blocks)];
      dquots := dquots[c := AddBlocks(AddInodes(dquots[c], 1), blocks)];
    }

    /** The moving loop of `dquot_transfer`: usage and the references of the inode. */
    method MoveAll(slots: seq<Option<nat>>, to: seq<Option<nat>>, blocks: nat) returns (done: seq<Option<nat>>)
      requires SlotsOk(dquots, slots) && SlotsOk(dquots, to)
      modifies this`dquots
      ensures dquots == MoveFrom(old(dquots), slots, to, 0, blocks) && done == NewSlots(slots, to)
    {
      done := slots;
      var t := 0;
      while t < MAXQUOTAS
        invariant 0 <= t <= MAXQUOTAS && SlotsOk(dquots, slots) && SlotsOk(dquots, to)
        invariant MoveFrom(dquots, slots, to, t, blocks) == MoveFrom(old(dquots), slots, to, 0, blocks)
        invariant Switched(slots, to, done, t)
      {
        if to[t].Some? && slots[t].Some? {
          MoveUse(slots[t].value, to[t].value, blocks);
          done := done[t := to[t]];
        }
        t := t + 1;
      }
    }

    /** `dquot_alloc_block`; false is NO_QUOTA. */
    method DquotAllocBlock(i: nat, n: nat, prealloc: bool, env: Env) returns (ok: bool)
      requires Valid(Model()) && i < |inodes|
      modifies this
      ensures (Model(), ok) == Step(old(Model()), AllocBlock(i, n, prealloc, env)) && Valid(Model())
      ensures ok <==> forall q :: 0 <= q < |old(dquots)| && Has(old(inodes)[i], q) ==>
        RoomForBlocks(old(dquots)[q], n, prealloc, env)
    {
      StepValid(Model(), AllocBlock(i, n, prealloc, env));
      AllocGrantedIff(Model(), AllocBlock(i, n, prealloc, env));
      ok := CheckAll(inodes[i].slots, Blocks(n, prealloc), env);
      if ok {
        ChargeAll(inodes[i].slots, Blocks(n, prealloc));
        inodes := inodes[i := inodes[i].(blocks := inodes[i].blocks + 2 * n)];
      }
    }

    /** `dquot_alloc_inode`. */
    method DquotAllocInode(i: nat, n: nat, env: Env) returns (ok: bool)
      requires Valid(Model()) && i < |inodes|
      modifies this
      ensures (Model(), ok) == Step(old(Model()), AllocInode(i, n, env)) && Valid(Model())
      ensures ok <==> forall q :: 0 <= q < |old(dquots)| && Has(old(inodes)[i], q) ==>
        RoomForInodes(old(dquots)[q], n, env)
    {
      StepValid(Model(), AllocInode(i, n, env));
      AllocGrantedIff(Model(), AllocInode(i, n, env));
      ok := CheckAll(inodes[i].slots, Inodes(n), env);
      if ok {
        ChargeAll(inodes[i].slots, Inodes(n));
        inodes := inodes[i := inodes[i].(units := inodes[i].units + n)];
      }
    }

    /** `dquot_free_block`. */
    method DquotFreeBlock(i: nat, n: nat)
      requires Enabled(Model(), FreeBlock(i, n))
      modifies this
      ensures Model() == Step(old(Model()), FreeBlock(i, n)).0 && Valid(Model())
    {
      StepValid(Model(), FreeBlock(i, n));
      ReleaseAll(inodes[i].slots, Blocks(n, false));
      inodes := inodes[i := inodes[i].(blocks := BlocksLess(inodes[i].blocks, n))];
    }

    /** `dquot_free_inode`. */
    method DquotFreeInode(i: nat, n: nat)
      requires Enabled(Model(), FreeInode(i, n))
      modifies this
      ensures Model() == Step(old(Model()), FreeInode(i, n)).0 && Valid(Model())
    {
      StepValid(Model(), FreeInode(i, n));
      ReleaseAll(inodes[i].slots, Inodes(n));
      inodes := inodes[i := inodes[i].(units := inodes[i].units - n)];
    }

    /** `dquot_transfer`; `to[t]` is None for a quota that does not change. */
    method DquotTransfer(i: nat, to: seq<Option<nat>>, env: Env) returns (ok: bool)
      requires Enabled(Model(), Transfer(i, to, env))
      modifies this
      ensures (Model(), ok) == Step(old(Model()), Transfer(i, to, env)) && Valid(Model())
      ensures ok <==> forall q :: 0 <= q < |old(dquots)| && IsGetter(old(Model()), Transfer(i, to, env), q) ==>
        && RoomForInodes(old(dquots)[q], 1, env)
        && RoomForBlocks(old(dquots)[q], old(inodes)[i].blocks / 2, false, env)
    {
      StepValid(Model(), Transfer(i, to, env));
      TransferGrantedIff(Model(), Transfer(i, to, env));
      var blocks := inodes[i].blocks / 2;
      ok := MoveCheckAll(inodes[i].slots, to, blocks, env);
      if ok {
        var slots := MoveAll(inodes[i].slots, to, blocks);
        inodes := inodes[i := inodes[i].(slots := slots)];
      }
    }
  }
}
