/** What attaching and detaching do to the links and to `d_mounted`, and what is left after a
    whole subtree has been detached or copied (fs/namespace.c:106-115, 121-128, 142-158,
    266-290, 426-454). */
module MountEdit {
  import opened Lists
  import opened MountTree

  /** `mounted[d]` is `d_mounted` of dentry `d`. */
  datatype Table = Table(all: seq<Mount>, mounted: seq<int>)

  // ---------------------------------------------------------------- invariants

  /** The list at `p` is exactly the set of mounts whose parent is `p`. */
  predicate ListOk(all: seq<Mount>, p: nat)
    requires p < |all|
  {
    && NoDup(all[p].kids)
    && (forall x :: x in all[p].kids ==> x < |all|)
    && (forall x :: 0 <= x < |all| ==> (x in all[p].kids <==> all[x].parent == p && x != p))
  }

  predicate Linked(all: seq<Mount>) {
    && (forall x :: 0 <= x < |all| ==> all[x].parent < |all|)
    && (forall p :: 0 <= p < |all| ==> ListOk(all, p))
  }

  /** How many mounts are attached on dentry `d`. */
  function On(all: seq<Mount>, d: nat): nat {
    if all == [] then 0
    else
      var x := |all| - 1;
      On(all[..x], d) + if all[x].parent != x && all[x].point == d then 1 else 0
  }

  predicate Counted(m: Table) {
    && (forall d :: 0 <= d < |m.mounted| ==> m.mounted[d] == On(m.all, d))
    && (forall x :: 0 <= x < |m.all| && m.all[x].parent != x ==> m.all[x].point < |m.mounted|)
  }

  predicate Inv(m: Table) { Linked(m.all) && Counted(m) }

  function Weight(v: Mount, x: nat, d: nat): nat { if v.parent != x && v.point == d then 1 else 0 }

  lemma {:induction false} OnUpdate(all: seq<Mount>, x: nat, v: Mount, d: nat)
    requires x < |all|
    ensures On(all[x := v], d) == On(all, d) - Weight(all[x], x, d) + Weight(v, x, d)
  {
    var last := |all| - 1;
    if x == last {
      assert all[x := v][..last] == all[..last];
    } else {
      assert all[x := v][..last] == all[..last][x := v];
      OnUpdate(all[..last], x, v, d);
    }
  }

  lemma OnAppend(all: seq<Mount>, v: Mount, d: nat)
    ensures On(all + [v], d) == On(all, d) + Weight(v, |all|, d)
  {
    assert (all + [v])[..|all|] == all;
  }

  // ---------------------------------------------------------------- detach, attach, clone

  /** `detach_mnt`. */
  function Detach(m: Table, x: nat): Table
    requires x < |m.all| && m.all[x].parent < |m.all| && m.all[x].point < |m.mounted|
  {
    var pp, d := m.all[x].parent, m.all[x].point;
    var all1 := m.all[pp := m.all[pp].(kids := Without(m.all[pp].kids, x))];
    Table(all1[x := all1[x].(parent := x, point := all1[x].top)], m.mounted[d := m.mounted[d] - 1])
  }

  /** `attach_mnt`: at the head of the list. */
  function Attach(m: Table, x: nat, q: nat, d: nat): Table
    requires x < |m.all| && q < |m.all| && d < |m.mounted|
  {
    var all1 := m.all[x := m.all[x].(parent := q, point := d)];
    Table(all1[q := all1[q].(kids := [x] + all1[q].kids)], m.mounted[d := m.mounted[d] + 1])
  }

  /** `clone_mnt`: alone, with the mount point given. */
  function Clone(m: Table, top: nat, point: nat): Table {
    m.(all := m.all + [Mount(|m.all|, [], point, top)])
  }

  lemma DetachLinked(m: Table, x: nat)
    requires Linked(m.all) && x < |m.all| && m.all[x].parent != x && m.all[x].point < |m.mounted|
    ensures Linked(Detach(m, x).all)
  {
    var all1, pp := Detach(m, x).all, m.all[x].parent;
    forall p | 0 <= p < |all1| ensures ListOk(all1, p) {
      assert ListOk(m.all, p);
      var s := m.all[p].kids;
      WithoutNoDup(s, x);
      forall y: nat ensures y in Without(s, x) <==> y in s && y != x { WithoutMember(s, x, y); }
    }
  }

  lemma DetachKeeps(m: Table, x: nat)
    requires Inv(m) && x < |m.all| && m.all[x].parent != x
    ensures m.all[x].point < |m.mounted| && Inv(Detach(m, x))
  {
    DetachLinked(m, x);
    var m1, pp := Detach(m, x), m.all[x].parent;
    var all1 := m.all[pp := m.all[pp].(kids := Without(m.all[pp].kids, x))];
    forall d | 0 <= d < |m1.mounted| ensures m1.mounted[d] == On(m1.all, d) {
      OnUpdate(m.all, pp, all1[pp], d);
      OnUpdate(all1, x, m1.all[x], d);
    }
  }

  lemma AttachLinked(m: Table, x: nat, q: nat, d: nat)
    requires Linked(m.all) && x < |m.all| && q < |m.all| && d < |m.mounted| && x != q && m.all[x].parent == x
    ensures Linked(Attach(m, x, q, d).all)
  {
    var all1 := Attach(m, x, q, d).all;
    forall p | 0 <= p < |all1| ensures ListOk(all1, p) {
      assert ListOk(m.all, p);
      assert ([x] + m.all[p].kids)[1..] == m.all[p].kids;
    }
  }

  lemma AttachKeeps(m: Table, x: nat, q: nat, d: nat)
    requires Inv(m) && x < |m.all| && q < |m.all| && d < |m.mounted| && x != q && m.all[x].parent == x
    ensures Inv(Attach(m, x, q, d))
  {
    AttachLinked(m, x, q, d);
    var m1 := Attach(m, x, q, d);
    var all1 := m.all[x := m.all[x].(parent := q, point := d)];
    forall e | 0 <= e < |m1.mounted| ensures m1.mounted[e] == On(m1.all, e) {
      OnUpdate(m.all, x, all1[x], e);
      OnUpdate(all1, q, m1.all[q], e);
    }
  }

  lemma CloneKeeps(m: Table, top: nat, point: nat)
    requires Inv(m)
    ensures Inv(Clone(m, top, point))
  {
    var m1 := Clone(m, top, point);
    forall p | 0 <= p < |m1.all| ensures ListOk(m1.all, p) {
      if p < |m.all| { assert ListOk(m.all, p); }
    }
    forall d | 0 <= d < |m1.mounted| ensures m1.mounted[d] == On(m1.all, d) {
      OnAppend(m.all, m1.all[|m.all|], d);
    }
  }

  // ---------------------------------------------------------------- a subtree detached

  function Minus(s: seq<nat>, gone: set<nat>): seq<nat> {
    if s == [] then [] else if s[0] in gone then Minus(s[1..], gone) else [s[0]] + Minus(s[1..], gone)
  }

  lemma {:induction false} MinusMore(s: seq<nat>, gone: set<nat>, x: nat)
    ensures Minus(s, gone + {x}) == Without(Minus(s, gone), x)
  {
    if s != [] { MinusMore(s[1..], gone, x); }
  }

  lemma {:induction false} MinusNone(s: seq<nat>, gone: set<nat>)
    requires forall y :: y in s ==> y !in gone
    ensures Minus(s, gone) == s
  {
    if s != [] { MinusNone(s[1..], gone); }
  }

  lemma {:induction false} MinusAll(s: seq<nat>, gone: set<nat>)
    requires forall y :: y in s ==> y in gone
    ensures Minus(s, gone) == []
  {
    if s != [] { MinusAll(s[1..], gone); }
  }

  /** Mount `y` after the mounts in `gone` have been detached. */
  function Bare(all: seq<Mount>, gone: set<nat>, y: nat): Mount
    requires y < |all|
  {
    var kids := Minus(all[y].kids, gone);
    if y in gone && all[y].parent != y then Mount(y, kids, all[y].top, all[y].top) else all[y].(kids := kids)
  }

  predicate Stripped(all: seq<Mount>, gone: set<nat>, all1: seq<Mount>) {
    |all1| == |all| && forall y :: 0 <= y < |all| ==> all1[y] == Bare(all, gone, y)
  }

  lemma StrippedNone(all: seq<Mount>)
    ensures Stripped(all, {}, all)
  {
    forall y | 0 <= y < |all| ensures all[y] == Bare(all, {}, y) { MinusNone(all[y].kids, {}); }
  }

  /** One more detachment. */
  lemma StripOne(all: seq<Mount>, gone: set<nat>, m: Table, x: nat)
    requires Linked(all) && Stripped(all, gone, m.all) && x < |all| && x !in gone
    requires all[x].parent != x && all[x].point < |m.mounted|
    ensures m.all[x].parent == all[x].parent && m.all[x].point == all[x].point
    ensures Stripped(all, gone + {x}, Detach(m, x).all)
  {
    assert m.all[x] == Bare(all, gone, x);
    var all1, pp := Detach(m, x).all, all[x].parent;
    forall y | 0 <= y < |all| ensures all1[y] == Bare(all, gone + {x}, y) {
      assert m.all[y] == Bare(all, gone, y);
      assert ListOk(all, y);
      MinusMore(all[y].kids, gone, x);
      if y != pp {
        MinusMember(all[y].kids, gone, x);
        WithoutNone(Minus(all[y].kids, gone), x);
      }
    }
  }

  /** A mount that is not attached anywhere is in no list. */
  lemma StripRoot(all: seq<Mount>, gone: set<nat>, all1: seq<Mount>, x: nat)
    requires Linked(all) && Stripped(all, gone, all1) && x < |all| && all[x].parent == x
    ensures Stripped(all, gone + {x}, all1)
  {
    forall y | 0 <= y < |all| ensures all1[y] == Bare(all, gone + {x}, y) {
      assert ListOk(all, y);
      MinusMore(all[y].kids, gone, x);
      MinusMember(all[y].kids, gone, x);
      WithoutNone(Minus(all[y].kids, gone), x);
    }
  }

  lemma {:induction false} MinusMember(s: seq<nat>, gone: set<nat>, x: nat)
    ensures x in Minus(s, gone) <==> x in s && x !in gone
  {
    if s != [] { MinusMember(s[1..], gone, x); }
  }
}
