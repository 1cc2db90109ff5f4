/** The directory cache as the code changes it (fs/dcache.c:644-695, 763-803, 898-991,
    1140-1157), proved against the functions of DentryTree. */
module Dcache {
  import opened Common
  import opened WaitGraph
  import opened DentryTree
  import opened Lists

  /** Lists that hold neither entry are not touched by a move. */
  lemma ElsewhereSame(s: seq<nat>, d: nat, t: nat)
    requires d !in s && t !in s
    ensures MovedChain(s, d, t) == s
    ensures Without(Without(s, d), t) == s
  {
    WithoutNone(s, d);
    WithoutNone(s, t);
    NothingBehind(s, t, d);
  }

  lemma {:induction false} NothingBehind(s: seq<nat>, t: nat, x: nat)
    requires t !in s
    ensures AddBehind(s, t, x) == s
  {
    if s != [] { NothingBehind(s[1..], t, x); }
  }

  /** The two lists that do change. */
  lemma MovedHomes(s: seq<nat>, u: seq<nat>, dp: nat, tp: nat, d: nat, t: nat)
    requires if dp == tp then s == u else t !in s && d !in u
    ensures dp == tp ==> MovedList(s, dp, dp, tp, d, t) == [d] + ([t] + Without(Without(s, d), t))
    ensures dp != tp ==> MovedList(s, dp, dp, tp, d, t) == [t] + Without(s, d)
    ensures dp != tp ==> MovedList(u, tp, dp, tp, d, t) == [d] + Without(u, t)
  {
    if dp != tp {
      WithoutMember(s, d, t);
      WithoutNone(Without(s, d), t);
      WithoutNone(u, d);
    }
  }

  class Dcache {
    var all: seq<Dentry>
    var table: seq<seq<nat>>
    const bucket: (nat, nat) -> nat

    ghost function Model(): Cache
      reads this
    {
      Cache(all, table, bucket)
    }

    constructor (buckets: nat, b: (nat, nat) -> nat)
      requires forall p, h :: b(p, h) < buckets
      ensures Inv(Model()) && all == []
    {
      all, table, bucket := [], seq(buckets, _ => []), b;
      new;
      assert forall x: nat, n: nat :: n > 0 ==> Follow(Parents(all), x, n) != Some(x);
    }

    /** `d_alloc`. */
    method DAlloc(parent: Option<nat>, name: string, hash: nat) returns (x: nat)
      requires Inv(Model()) && (parent.Some? ==> parent.value < |all|)
      modifies this`all
      ensures Inv(Model()) && Model() == Alloc(old(Model()), parent, name, hash) && x == |old(all)|
    {
      AllocKeeps(Model(), parent, name, hash);
      x := |all|;
      if parent.Some? {
        var p := parent.value;
        all := all + [Dentry(p, name, hash, false, false, [])];
        all := all[p := all[p].(subdirs := [x] + all[p].subdirs)];
        assert all == Alloc(old(Model()), parent, name, hash).all;
      } else {
        all := all + [Dentry(x, name, hash, true, false, [])];
      }
    }

    /** `d_rehash`; an entry that is hashed already is a BUG(). */
    method DRehash(x: nat)
      requires Inv(Model()) && x < |all| && !all[x].hashed
      modifies this
      ensures Inv(Model()) && Home(old(Model()), x) < |old(table)| && Model() == Rehash(old(Model()), x)
    {
      RehashKeeps(Model(), x);
      var b := bucket(all[x].parent, all[x].hash);
      table := table[b := [x] + table[b]];
      all := all[x := all[x].(hashed := true)];
    }

    /** `is_subdir`: climbs from `x` until it meets `a` or a root. */
    method IsSubdir(x: nat, a: nat) returns (r: bool)
      requires Forest(all) && x < |all|
      ensures r <==> Below(all, x, a)
    {
      ghost var g: Graph<nat> := Parents(all);
      ghost var visited: set<nat> := {};
      var at: nat := x;
      while at != a
        invariant at < |all| && (Reaches(g, at, a) <==> Reaches(g, x, a))
        invariant visited <= g.Keys && AllLeadTo(g, visited, at)
        decreases |g.Keys - visited|
      {
        ReachStep(g, at, a);
        var parent: nat := all[at].parent;
        RootIff(all, at);
        if parent == at {
          return false;
        }
        LeadOn(g, visited, at);
        assert g.Keys - visited == (g.Keys - (visited + {at})) + {at};
        visited := visited + {at};
        at := parent;
      }
      ReachStep(g, at, a);
      return true;
    }

    /** `d_lookup`. */
    method DLookup(p: nat, h: nat, n: string) returns (r: Option<nat>)
      requires Hashed(Model())
      ensures r == Lookup(Model(), p, h, n)
    {
      var chain := table[bucket(p, h)];
      var i := 0;
      while i < |chain|
        invariant 0 <= i <= |chain| && Scan(all, chain[i..], p, h, n) == Scan(all, chain, p, h, n)
      {
        var x := chain[i];
        if x < |all| && all[x].hash == h && all[x].parent == p && all[x].name == n {
          return Some(x);
        }
        i := i + 1;
      }
      return None;
    }

    /** The hash lists of `d_move`: the moved entry goes behind the target, which leaves. */
    method SwitchHash(d: nat, t: nat)
      requires Hashed(Model()) && Movable(Model(), d, t)
      modifies this`table
      ensures |table| == |old(table)| && forall b :: 0 <= b < |table| ==> table[b] == MovedChain(old(table)[b], d, t)
    {
      ghost var c := Model();
      forall b | 0 <= b < |table| && b != Home(c, d) && b != Home(c, t)
        ensures MovedChain(table[b], d, t) == table[b]
      {
        assert ChainOk(c, b);
        ElsewhereSame(table[b], d, t);
      }
      var bd, bt := bucket(all[d].parent, all[d].hash), bucket(all[t].parent, all[t].hash);
      assert Home(c, d) == bd && Home(c, t) == bt && ChainOk(c, bd) && ChainOk(c, bt);
      table := table[bd := Without(table[bd], d)];
      table := table[bt := AddBehind(table[bt], t, d)];
      table := table[bt := Without(table[bt], t)];
      if bd != bt {
        assert t !in old(table)[bd] && d !in old(table)[bt];
        DropOnly(old(table)[bd], d, t);
        WithoutNone(old(table)[bt], d);
      }
    }

    /** The child lists of `d_move`, while the parent links are still the old ones. */
    method SwitchLists(d: nat, t: nat)
      requires InStep(all) && Movable(Model(), d, t) && all[d].parent < |all| && all[t].parent < |all|
      modifies this`all
      ensures |all| == |old(all)|
      ensures forall x :: 0 <= x < |all| ==>
        var was := old(all);
        all[x] == was[x].(subdirs := MovedList(was[x].subdirs, x, was[d].parent, was[t].parent, d, t))
    {
      ghost var was := all;
      var dp, tp := all[d].parent, all[t].parent;
      forall p | 0 <= p < |was| && p != dp && p != tp
        ensures MovedList(was[p].subdirs, p, dp, tp, d, t) == was[p].subdirs
      {
        assert ListOk(was, p);
        ElsewhereSame(was[p].subdirs, d, t);
      }
      assert ListOk(was, dp) && ListOk(was, tp);
      MovedHomes(was[dp].subdirs, was[tp].subdirs, dp, tp, d, t);
      all := all[dp := all[dp].(subdirs := Without(all[dp].subdirs, d))];
      all := all[tp := all[tp].(subdirs := Without(all[tp].subdirs, t))];
      all := all[dp := all[dp].(subdirs := [t] + all[dp].subdirs)];
      all := all[tp := all[tp].(subdirs := [d] + all[tp].subdirs)];
    }

    /** `d_move`: keeps the cache in order when neither entry is below the other. */
    method DMove(d: nat, t: nat, junk: string)
      requires Inv(Model()) && Movable(Model(), d, t)
      modifies this
      ensures Model() == Move(old(Model()), d, t, junk)
      ensures Inv(Model()) <==> !Below(old(all), t, d) && !Below(old(all), d, t)
    {
      MoveKeepsIff(Model(), d, t, junk);
      SwitchHash(d, t);
      SwitchLists(d, t);
      var ed, et := all[d], all[t];
      all := all[d := ed.(parent := et.parent, name := et.name, hash := et.hash, hashed := et.hashed)];
      all := all[t := et.(parent := ed.parent, name := junk, hash := ed.hash, hashed := false)];
      assert all == Move(old(Model()), d, t, junk).all;
      assert table == Move(old(Model()), d, t, junk).table;
    }
  }

  /** A chain without the target only loses the moved entry. */
  lemma DropOnly(s: seq<nat>, d: nat, t: nat)
    requires t !in s
    ensures MovedChain(s, d, t) == Without(s, d)
  {
    WithoutMember(s, d, t);
    NothingBehind(Without(s, d), t, d);
    WithoutNone(Without(s, d), t);
  }

  /** The test `parent == dentry` recognises exactly the roots. */
  lemma RootIff(all: seq<Dentry>, x: nat)
    requires Forest(all) && x < |all|
    ensures all[x].parent == x <==> x !in Parents(all)
    ensures x in Parents(all) ==> Parents(all)[x] == all[x].parent
  {
    assert Follow(Parents(all), x, 1) != Some(x);
    if x in Parents(all) { assert Follow(Parents(all), x, 1) == Follow(Parents(all), all[x].parent, 0); }
  }
}
