/** Conservation of quota usage (fs/dquot.c:637-671, 1021-1218): each counter against the sum over
    the inodes attached to it, for one operation, for whole runs, and exactly when. */
module QuotaConservation {
  import opened Common
  import opened Quota

  /** The quota blocks of all inodes attached to `q`. */
  function BlocksOf(inodes: seq<Inode>, q: nat): nat {
    if inodes == [] then 0
    else (if Has(inodes[0], q) then inodes[0].blocks / 2 else 0) + BlocksOf(inodes[1..], q)
  }

  function UnitsOf(inodes: seq<Inode>, q: nat): int {
    if inodes == [] then 0
    else (if Has(inodes[0], q) then inodes[0].units else 0) + UnitsOf(inodes[1..], q)
  }

  lemma {:induction false} SumsUpdate(inodes: seq<Inode>, i: nat, x: Inode, q: nat)
    requires i < |inodes|
    ensures BlocksOf(inodes[i := x], q) == BlocksOf(inodes, q)
      - (if Has(inodes[i], q) then inodes[i].blocks / 2 else 0) + (if Has(x, q) then x.blocks / 2 else 0)
    ensures UnitsOf(inodes[i := x], q) == UnitsOf(inodes, q)
      - (if Has(inodes[i], q) then inodes[i].units else 0) + (if Has(x, q) then x.units else 0)
  {
    if i == 0 {
      assert inodes[0 := x][1..] == inodes[1..];
    } else {
      assert inodes[i := x][1..] == inodes[1..][i - 1 := x];
      SumsUpdate(inodes[1..], i - 1, x, q);
    }
  }

  /** Usage that does not come from an inode in memory. */
  function BlocksBeyond(s: State, q: nat): int
    requires q < |s.dquots|
  {
    s.dquots[q].curBlocks - BlocksOf(s.inodes, q)
  }

  function UnitsBeyond(s: State, q: nat): int
    requires q < |s.dquots|
  {
    s.dquots[q].curInodes - UnitsOf(s.inodes, q)
  }

  /** Quota `q` moved exactly with the inodes attached to it. */
  ghost predicate Conserved(s: State, s1: State, q: nat) {
    && q < |s.dquots| == |s1.dquots|
    && BlocksBeyond(s1, q) == BlocksBeyond(s, q) && UnitsBeyond(s1, q) == UnitsBeyond(s, q)
  }

  // ---------------------------------------------------------------- exactly when

  /** A release of more than the counter, or the inode, has. */
  predicate FreeShort(d: Dquot, ino: Inode, e: Event) {
    (e.FreeBlock? && (e.n > d.curBlocks || 2 * e.n > ino.blocks)) || (e.FreeInode? && e.n > d.curInodes)
  }

  /** A transfer from a counter that has not got the blocks or the inode, or of an inode for
      which not exactly one has been charged. */
  predicate MoveShort(d: Dquot, ino: Inode, gives: bool, gets: bool) {
    || (gives && d.curBlocks < ino.blocks / 2)
    || (gives && gets && d.curInodes == 0)
    || (gives && !gets && ino.units != if d.curInodes == 0 then 0 else 1)
    || (gets && !gives && ino.units != 1)
  }

  predicate Short(s: State, e: Event, q: nat)
    requires e.i < |s.inodes| && q < |s.dquots|
  {
    var ino, d := s.inodes[e.i], s.dquots[q];
    (Has(ino, q) && FreeShort(d, ino, e)) || MoveShort(d, ino, IsGiver(s, e, q), IsGetter(s, e, q))
  }

  /** How a granted allocation changes the sums behind `q`. */
  lemma AllocSums(s: State, e: Event, q: nat)
    requires Enabled(s, e) && (e.AllocBlock? || e.AllocInode?) && Step(s, e).1
    ensures var s1, has := Step(s, e).0, Has(s.inodes[e.i], q);
            && BlocksOf(s1.inodes, q) == BlocksOf(s.inodes, q) + (if e.AllocBlock? && has then e.n else 0)
            && UnitsOf(s1.inodes, q) == UnitsOf(s.inodes, q) + (if e.AllocInode? && has then e.n else 0)
  {
    var ino := s.inodes[e.i];
    var ino1 := if e.AllocBlock? then ino.(blocks := ino.blocks + 2 * e.n) else ino.(units := ino.units + e.n);
    SumsUpdate(s.inodes, e.i, ino1, q);
    assert Has(ino1, q) == Has(ino, q);
  }

  lemma AllocConserves(s: State, e: Event, q: nat)
    requires Enabled(s, e) && (e.AllocBlock? || e.AllocInode?) && q < |s.dquots|
    ensures Conserved(s, Step(s, e).0, q)
  {
    if Step(s, e).1 {
      AllocUse(s, e, q);
      AllocSums(s, e, q);
    } else {
      RefusedUse(s, e, q);
    }
  }

  lemma FreeConservesIff(s: State, e: Event, q: nat)
    requires Enabled(s, e) && (e.FreeBlock? || e.FreeInode?) && q < |s.dquots|
    ensures Conserved(s, Step(s, e).0, q) <==> !Short(s, e, q)
  {
    FreeAt(s, e, q);
    var ino, ino1 := s.inodes[e.i], Step(s, e).0.inodes[e.i];
    SumsUpdate(s.inodes, e.i, ino1, q);
    assert Has(ino1, q) == Has(ino, q);
  }

  lemma AttachedAtType(d: seq<Dquot>, slots: seq<Option<nat>>, q: nat)
    requires SlotsOk(d, slots) && q < |d|
    ensures Attached(slots, 0, q) <==> d[q].typ < MAXQUOTAS && slots[d[q].typ] == Some(q)
  {
  }

  /** How a granted transfer changes the sums behind `q`. */
  lemma TransferSums(s: State, e: Event, q: nat)
    requires Enabled(s, e) && e.Transfer? && q < |s.dquots| && Step(s, e).1
    ensures var ino, s1 := s.inodes[e.i], Step(s, e).0;
            var gives, gets := IsGiver(s, e, q), IsGetter(s, e, q);
            && BlocksOf(s1.inodes, q) == BlocksOf(s.inodes, q)
                 - (if gives then ino.blocks / 2 else 0) + (if gets then ino.blocks / 2 else 0)
            && UnitsOf(s1.inodes, q) ==
                 UnitsOf(s.inodes, q) - (if gives then ino.units else 0) + (if gets then ino.units else 0)
  {
    var ino := s.inodes[e.i];
    var ino1 := ino.(slots := NewSlots(ino.slots, e.to));
    AttachedAtType(s.dquots, ino.slots, q);
    AttachedAtType(s.dquots, ino1.slots, q);
    SumsUpdate(s.inodes, e.i, ino1, q);
  }

  lemma TransferConservesIff(s: State, e: Event, q: nat)
    requires Enabled(s, e) && e.Transfer? && q < |s.dquots|
    ensures Step(s, e).1 ==> (Conserved(s, Step(s, e).0, q) <==> !Short(s, e, q))
    ensures !Step(s, e).1 ==> Conserved(s, Step(s, e).0, q)
  {
    if Step(s, e).1 {
      TransferUse(s, e, q);
      TransferSums(s, e, q);
    } else {
      RefusedUse(s, e, q);
    }
  }

  /** Every operation moves a counter exactly as it moves the inodes behind it, exactly when it
      is refused or the counter is not short. */
  lemma StepConservesIff(s: State, e: Event, q: nat)
    requires Enabled(s, e) && q < |s.dquots|
    ensures Conserved(s, Step(s, e).0, q) <==> !Step(s, e).1 || !Short(s, e, q)
  {
    if e.AllocBlock? || e.AllocInode? {
      AllocConserves(s, e, q);
    } else if e.Transfer? {
      TransferConservesIff(s, e, q);
    } else {
      FreeConservesIff(s, e, q);
    }
  }

  /** A counter that has lost track: an inode gives back its one block, and the counter, at zero
      already, does not move with it. */
  lemma ShortCounterexample()
    ensures var s := State([Dquot(0, 0, 1, 0, 0, 0, 0, 0, 0, false)], [Inode(2, 1, [Some(0), None])]);
            Enabled(s, FreeBlock(0, 1)) && Step(s, FreeBlock(0, 1)).1 && !Conserved(s, Step(s, FreeBlock(0, 1)).0, 0)
  {
    var s := State([Dquot(0, 0, 1, 0, 0, 0, 0, 0, 0, false)], [Inode(2, 1, [Some(0), None])]);
    assert Has(s.inodes[0], 0) by { assert s.inodes[0].slots[0] == Some(0); }
    StepConservesIff(s, FreeBlock(0, 1), 0);
  }

  // ---------------------------------------------------------------- whole runs

  ghost predicate IsRun(s: State, es: seq<Event>)
    decreases |es|
  {
    es == [] || (Enabled(s, es[0]) && IsRun(Step(s, es[0]).0, es[1..]))
  }

  ghost function After(s: State, es: seq<Event>): State
    requires IsRun(s, es)
    decreases |es|
  {
    if es == [] then s else After(Step(s, es[0]).0, es[1..])
  }

  /** Every step of the run conserves `q`. */
  ghost predicate StaysConserved(s: State, es: seq<Event>, q: nat)
    requires IsRun(s, es)
    decreases |es|
  {
    es == [] || (Conserved(s, Step(s, es[0]).0, q) && StaysConserved(Step(s, es[0]).0, es[1..], q))
  }

  ghost predicate NeverShort(s: State, es: seq<Event>, q: nat)
    requires IsRun(s, es) && q < |s.dquots|
    decreases |es|
  {
    es == [] ||
    (StepTypes(s, es[0]);
     (!Step(s, es[0]).1 || !Short(s, es[0], q)) && NeverShort(Step(s, es[0]).0, es[1..], q))
  }

  /** Over any run, the counter moves with its inodes throughout exactly when no completed release
      or transfer finds it short; and then its change over the run is theirs. */
  lemma {:induction false} RunConservesIff(s: State, es: seq<Event>, q: nat)
    requires IsRun(s, es) && q < |s.dquots|
    ensures StaysConserved(s, es, q) <==> NeverShort(s, es, q)
    ensures NeverShort(s, es, q) ==> Conserved(s, After(s, es), q)
    decreases |es|
  {
    if es != [] {
      StepTypes(s, es[0]);
      StepConservesIff(s, es[0], q);
      RunConservesIff(Step(s, es[0]).0, es[1..], q);
    }
  }

  // ---------------------------------------------------------------- counters that cover their inodes

  /** No quota counts less than its inodes use. */
  ghost predicate Covered(s: State) {
    && Valid(s) && (forall i :: 0 <= i < |s.inodes| ==> s.inodes[i].units >= 0)
    && forall q :: 0 <= q < |s.dquots| ==> BlocksBeyond(s, q) >= 0 && UnitsBeyond(s, q) >= 0
  }

  /** An inode gives back no more than it has, and is one inode when it changes hands. */
  predicate Sober(s: State, e: Event)
    requires e.i < |s.inodes|
  {
    && (e.FreeBlock? ==> 2 * e.n <= s.inodes[e.i].blocks)
    && (e.FreeInode? ==> e.n <= s.inodes[e.i].units)
    && (e.Transfer? ==> s.inodes[e.i].units == 1)
  }

  lemma {:induction false} SumsCover(inodes: seq<Inode>, i: nat, q: nat)
    requires i < |inodes| && Has(inodes[i], q) && forall k :: 0 <= k < |inodes| ==> inodes[k].units >= 0
    ensures BlocksOf(inodes, q) >= inodes[i].blocks / 2 && UnitsOf(inodes, q) >= inodes[i].units
  {
    if i == 0 {
      UnitsNatural(inodes[1..], q);
    } else {
      SumsCover(inodes[1..], i - 1, q);
    }
  }

  lemma {:induction false} UnitsNatural(inodes: seq<Inode>, q: nat)
    requires forall k :: 0 <= k < |inodes| ==> inodes[k].units >= 0
    ensures UnitsOf(inodes, q) >= 0
  {
    if inodes != [] { UnitsNatural(inodes[1..], q); }
  }

  lemma CoveredIsNotShort(s: State, e: Event, q: nat)
    requires Covered(s) && Enabled(s, e) && Sober(s, e) && q < |s.dquots|
    ensures !Short(s, e, q)
  {
    var ino := s.inodes[e.i];
    AttachedAtType(s.dquots, ino.slots, q);
    if Has(ino, q) {
      SumsCover(s.inodes, e.i, q);
      assert BlocksBeyond(s, q) >= 0 && UnitsBeyond(s, q) >= 0;
    }
  }

  /** With counters that cover their inodes and sober callers, every operation conserves every
      counter, and they still cover them. */
  lemma StepConserves(s: State, e: Event)
    requires Covered(s) && Enabled(s, e) && Sober(s, e)
    ensures Covered(Step(s, e).0) && |Step(s, e).0.dquots| == |s.dquots|
    ensures forall q :: 0 <= q < |s.dquots| ==> Conserved(s, Step(s, e).0, q)
  {
    var s1 := Step(s, e).0;
    StepTypes(s, e);
    StepValid(s, e);
    forall q | 0 <= q < |s.dquots| ensures Conserved(s, s1, q) {
      CoveredIsNotShort(s, e, q);
      StepConservesIff(s, e, q);
    }
    forall q | 0 <= q < |s1.dquots| ensures BlocksBeyond(s1, q) >= 0 && UnitsBeyond(s1, q) >= 0 {
      assert Conserved(s, s1, q);
    }
  }

  ghost predicate SoberRun(s: State, es: seq<Event>)
    requires IsRun(s, es)
    decreases |es|
  {
    es == [] || (Sober(s, es[0]) && SoberRun(Step(s, es[0]).0, es[1..]))
  }

  lemma {:induction false} RunConserves(s: State, es: seq<Event>, q: nat)
    requires Covered(s) && IsRun(s, es) && SoberRun(s, es) && q < |s.dquots|
    ensures Covered(After(s, es)) && Conserved(s, After(s, es), q)
    decreases |es|
  {
    if es != [] {
      StepConserves(s, es[0]);
      RunConserves(Step(s, es[0]).0, es[1..], q);
      assert Conserved(s, Step(s, es[0]).0, q);
    }
  }

  // ---------------------------------------------------------------- totals

  function TotalBlocks(d: seq<Dquot>, t: nat): nat {
    if d == [] then 0 else (if d[0].typ == t then d[0].curBlocks else 0) + TotalBlocks(d[1..], t)
  }

  function TotalInodes(d: seq<Dquot>, t: nat): nat {
    if d == [] then 0 else (if d[0].typ == t then d[0].curInodes else 0) + TotalInodes(d[1..], t)
  }

  lemma {:induction false} TotalsUpdate(d: seq<Dquot>, q: nat, x: Dquot, t: nat)
    requires q < |d| && x.typ == d[q].typ
    ensures TotalBlocks(d[q := x], t) == TotalBlocks(d, t) + if d[q].typ == t then x.curBlocks - d[q].curBlocks else 0
    ensures TotalInodes(d[q := x], t) == TotalInodes(d, t) + if d[q].typ == t then x.curInodes - d[q].curInodes else 0
  {
    if q == 0 {
      assert d[0 := x][1..] == d[1..];
    } else {
      assert d[q := x][1..] == d[1..][q - 1 := x];
      TotalsUpdate(d[1..], q - 1, x, t);
    }
  }

  lemma {:induction false} TotalsSame(a: seq<Dquot>, b: seq<Dquot>, t: nat)
    requires SameUses(a, b)
    ensures TotalBlocks(a, t) == TotalBlocks(b, t) && TotalInodes(a, t) == TotalInodes(b, t)
  {
    if a != [] {
      assert SameUse(a[0], b[0]);
      TotalsSame(a[1..], b[1..], t);
    }
  }

  function Lack(have: nat, need: nat): nat { if have < need then need - have else 0 }

  /** The quota of type `k` that gives, if the transfer moves that type. */
  function Giver(slots: seq<Option<nat>>, to: seq<Option<nat>>, k: nat): Option<nat>
    requires |slots| == |to| == MAXQUOTAS
  {
    if k < MAXQUOTAS && to[k].Some? then slots[k] else None
  }

  /** One round of the loop. */
  lemma RoundTotals(d: seq<Dquot>, slots: seq<Option<nat>>, to: seq<Option<nat>>, t: nat, blocks: nat, k: nat)
    returns (d2: seq<Dquot>)
    requires SlotsOk(d, slots) && SlotsOk(d, to) && t < MAXQUOTAS && to[t].Some? && slots[t].Some?
    ensures SlotsOk(d2, slots) && SlotsOk(d2, to) && |d2| == |d|
    ensures MoveFrom(d, slots, to, t, blocks) == MoveFrom(d2, slots, to, t + 1, blocks)
    ensures forall q :: 0 <= q < |d| && d[q].typ != t ==> d2[q] == d[q]
    ensures var x := d[slots[t].value];
            && TotalBlocks(d2, k) == TotalBlocks(d, k) + (if k == t then Lack(x.curBlocks, blocks) else 0)
            && TotalInodes(d2, k) == TotalInodes(d, k) + (if k == t then Lack(x.curInodes, 1) else 0)
  {
    var a, c := slots[t].value, to[t].value;
    var d1 := d[a := Take(d[a], blocks)];
    d2 := d1[c := Give(d1[c], blocks)];
    TotalsUpdate(d, a, d1[a], k);
    TotalsUpdate(d1, c, d2[c], k);
  }

  /** What the loop makes out of nothing: what the giver lacks. */
  lemma {:induction false} MoveTotals(d: seq<Dquot>, slots: seq<Option<nat>>, to: seq<Option<nat>>, t: nat,
                                      blocks: nat, k: nat)
    requires SlotsOk(d, slots) && SlotsOk(d, to) && t <= MAXQUOTAS
    ensures var r, g := MoveFrom(d, slots, to, t, blocks), Giver(slots, to, k);
            && TotalBlocks(r, k) == TotalBlocks(d, k) +
                 (if k >= t && g.Some? then Lack(d[g.value].curBlocks, blocks) else 0)
            && TotalInodes(r, k) == TotalInodes(d, k) + (if k >= t && g.Some? then Lack(d[g.value].curInodes, 1) else 0)
    decreases MAXQUOTAS - t
  {
    if t < MAXQUOTAS {
      if to[t].None? || slots[t].None? {
        MoveTotals(d, slots, to, t + 1, blocks, k);
      } else {
        var d2 := RoundTotals(d, slots, to, t, blocks, k);
        MoveTotals(d2, slots, to, t + 1, blocks, k);
      }
    }
  }

  /** A change of owner keeps the totals of a quota type exactly when it is refused or the quota
      that gives has what it gives. */
  lemma TransferKeepsTotalsIff(s: State, e: Event, k: nat)
    requires Enabled(s, e) && e.Transfer?
    ensures var g, b := Giver(s.inodes[e.i].slots, e.to, k), s.inodes[e.i].blocks / 2;
            var s1, ok := Step(s, e).0, Step(s, e).1;
            && (g.Some? ==> g.value < |s.dquots|)
            && (TotalBlocks(s1.dquots, k) == TotalBlocks(s.dquots, k) <==>
                 !ok || g.None? || b <= s.dquots[g.value].curBlocks)
            && (TotalInodes(s1.dquots, k) == TotalInodes(s.dquots, k) <==>
                 !ok || g.None? || 1 <= s.dquots[g.value].curInodes)
  {
    var ino, to := s.inodes[e.i], e.to;
    MoveCheckIff(s.dquots, ino.slots, to, ino.blocks / 2, e.env);
    var (d, ok) := MoveCheckFrom(s.dquots, ino.slots, to, 0, ino.blocks / 2, e.env);
    TotalsSame(s.dquots, d, k);
    if ok {
      MoveTotals(d, ino.slots, to, 0, ino.blocks / 2, k);
      var g := Giver(ino.slots, to, k);
      if g.Some? { assert SameUse(s.dquots[g.value], d[g.value]); }
    }
  }
}
