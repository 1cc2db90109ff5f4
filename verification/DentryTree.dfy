/** The directory cache as a tree with a hash index (fs/dcache.c:644-695, 745-803, 898-991,
    1140-1157): what a rename does to parent links, child lists and hash chains.

    `bucket(parent, hash)` is `d_hash`; nothing here depends on which function it is. */
module DentryTree {
  import opened Common
  import opened WaitGraph
  import opened Lists

  datatype Dentry = Dentry(parent: nat, name: string, hash: nat, root: bool, hashed: bool, subdirs: seq<nat>)

  datatype Cache = Cache(all: seq<Dentry>, table: seq<seq<nat>>, bucket: (nat, nat) -> nat)

  // ---------------------------------------------------------------- the invariant

  /** The parent link of everything but a root. */
  ghost function Parents(all: seq<Dentry>): Graph<nat> {
    map x: nat | x < |all| && !all[x].root :: all[x].parent
  }

  /** Every node is below a root: links stay inside, and never lead back. */
  ghost predicate Forest(all: seq<Dentry>) {
    && (forall x :: 0 <= x < |all| ==> all[x].parent < |all|)
    && (forall x :: 0 <= x < |all| && all[x].root ==> all[x].parent == x)
    && Acyclic(Parents(all))
  }

  /** The list at `p` is exactly the set of its children. */
  predicate ListOk(all: seq<Dentry>, p: nat)
    requires p < |all|
  {
    && NoDup(all[p].subdirs)
    && (forall x :: x in all[p].subdirs ==> x < |all|)
    && (forall x :: 0 <= x < |all| ==> (x in all[p].subdirs <==> !all[x].root && all[x].parent == p))
  }

  predicate InStep(all: seq<Dentry>) { forall p :: 0 <= p < |all| ==> ListOk(all, p) }

  function Home(c: Cache, x: nat): nat
    requires x < |c.all|
  {
    c.bucket(c.all[x].parent, c.all[x].hash)
  }

  /** Chain `b` is exactly the set of hashed entries that belong there. */
  predicate ChainOk(c: Cache, b: nat)
    requires b < |c.table|
  {
    && NoDup(c.table[b])
    && (forall x :: x in c.table[b] ==> x < |c.all|)
    && (forall x :: 0 <= x < |c.all| ==> (x in c.table[b] <==> c.all[x].hashed && Home(c, x) == b))
  }

  ghost predicate Hashed(c: Cache) {
    && (forall p, h :: c.bucket(p, h) < |c.table|)
    && forall b :: 0 <= b < |c.table| ==> ChainOk(c, b)
  }

  ghost predicate Inv(c: Cache) { Forest(c.all) && InStep(c.all) && Hashed(c) }

  // ---------------------------------------------------------------- d_move

  predicate Movable(c: Cache, d: nat, t: nat) {
    d < |c.all| && t < |c.all| && d != t && !c.all[d].root && !c.all[t].root
  }

  /** Both are taken off their lists and put at the head of each other's. */
  function MovedList(s: seq<nat>, p: nat, dp: nat, tp: nat, d: nat, t: nat): seq<nat> {
    var rest := Without(Without(s, d), t);
    var withT := if p == dp then [t] + rest else rest;
    if p == tp then [d] + withT else withT
  }

  /** The moved entry goes right behind the target, then the target leaves. */
  function MovedChain(s: seq<nat>, d: nat, t: nat): seq<nat> {
    Without(AddBehind(Without(s, d), t, d), t)
  }

  /** What `d_move` makes of entry `x`. The target keeps an arbitrary string as its name, since
      nobody can look it up any more. */
  function MovedDentry(all: seq<Dentry>, d: nat, t: nat, junk: string, x: nat): Dentry
    requires d < |all| && t < |all| && x < |all|
  {
    var list := MovedList(all[x].subdirs, x, all[d].parent, all[t].parent, d, t);
    if x == d then Dentry(all[t].parent, all[t].name, all[t].hash, all[d].root, all[t].hashed, list)
    else if x == t then Dentry(all[d].parent, junk, all[d].hash, all[t].root, false, list)
    else all[x].(subdirs := list)
  }

  function Move(c: Cache, d: nat, t: nat, junk: string): Cache
    requires Movable(c, d, t)
  {
    c.(all := seq(|c.all|, x requires 0 <= x < |c.all| => MovedDentry(c.all, d, t, junk, x)),
       table := seq(|c.table|, b requires 0 <= b < |c.table| => MovedChain(c.table[b], d, t)))
  }

  // ---------------------------------------------------------------- lists after a move

  lemma MovedListMember(s: seq<nat>, p: nat, dp: nat, tp: nat, d: nat, t: nat, x: nat)
    ensures x in MovedList(s, p, dp, tp, d, t) <==>
      (x == d && p == tp) || (x == t && p == dp) || (x in s && x != d && x != t)
  {
    WithoutMember(s, d, x);
    WithoutMember(Without(s, d), t, x);
  }

  lemma MovedListNoDup(s: seq<nat>, p: nat, dp: nat, tp: nat, d: nat, t: nat)
    requires NoDup(s) && d != t
    ensures NoDup(MovedList(s, p, dp, tp, d, t))
  {
    var w := Without(Without(s, d), t);
    WithoutNoDup(s, d);
    WithoutNoDup(Without(s, d), t);
    WithoutMember(s, d, d);
    WithoutMember(Without(s, d), t, d);
    WithoutMember(Without(s, d), t, t);
    assert ([t] + w)[1..] == w && ([d] + w)[1..] == w && ([d] + ([t] + w))[1..] == [t] + w;
  }

  lemma MoveInStep(c: Cache, d: nat, t: nat, junk: string)
    requires Movable(c, d, t) && InStep(c.all)
    ensures InStep(Move(c, d, t, junk).all)
  {
    var all1 := Move(c, d, t, junk).all;
    forall p | 0 <= p < |all1| ensures ListOk(all1, p) {
      assert ListOk(c.all, p);
      var s, dp, tp := c.all[p].subdirs, c.all[d].parent, c.all[t].parent;
      MovedListNoDup(s, p, dp, tp, d, t);
      forall x: nat ensures x in all1[p].subdirs <==> x < |all1| && !all1[x].root && all1[x].parent == p {
        MovedListMember(s, p, dp, tp, d, t, x);
      }
    }
  }

  lemma MovedChainMember(s: seq<nat>, d: nat, t: nat, x: nat)
    requires d != t
    ensures x in MovedChain(s, d, t) <==> (x == d && t in s) || (x in s && x != d && x != t)
  {
    var w := Without(s, d);
    WithoutMember(s, d, x);
    WithoutMember(s, d, t);
    AddBehindMember(w, t, d, x);
    WithoutMember(AddBehind(w, t, d), t, x);
  }

  lemma MovedChainNoDup(s: seq<nat>, d: nat, t: nat)
    requires NoDup(s)
    ensures NoDup(MovedChain(s, d, t))
  {
    WithoutNoDup(s, d);
    WithoutMember(s, d, d);
    AddBehindNoDup(Without(s, d), t, d);
    WithoutNoDup(AddBehind(Without(s, d), t, d), t);
  }

  lemma MoveHashed(c: Cache, d: nat, t: nat, junk: string)
    requires Movable(c, d, t) && Hashed(c)
    ensures Hashed(Move(c, d, t, junk))
  {
    var c1 := Move(c, d, t, junk);
    forall b | 0 <= b < |c1.table| ensures ChainOk(c1, b) {
      assert ChainOk(c, b);
      MovedChainNoDup(c.table[b], d, t);
      forall x: nat ensures x in c1.table[b] <==> x < |c1.all| && c1.all[x].hashed && Home(c1, x) == b {
        MovedChainMember(c.table[b], d, t, x);
      }
    }
  }

  // ---------------------------------------------------------------- links after a move

  /** What `is_subdir` computes. */
  ghost predicate Below(all: seq<Dentry>, x: nat, a: nat) { Reaches(Parents(all), x, a) }

  /** Everything but the two links that change. */
  ghost function Kept(g: Graph<nat>, d: nat, t: nat): Graph<nat> { map x | x in g && x != d && x != t :: g[x] }

  /** A path that arrives at `y` needs no link that leaves `y`, nor one that `y` cannot reach. */
  lemma {:induction false} PathKept(g: Graph<nat>, d: nat, t: nat, x: nat, n: nat, y: nat, z: nat)
    requires Follow(g, x, n) == Some(y) && {y, z} == {d, t} && !Reaches(g, x, z)
    ensures Reaches(Kept(g, d, t), x, y)
    decreases n
  {
    ReachStep(Kept(g, d, t), x, y);
    ReachStep(g, x, z);
    if x != y {
      PathKept(g, d, t, g[x], n - 1, y, z);
    }
  }

  lemma {:induction false} PathUp(h: Graph<nat>, g: Graph<nat>, x: nat, y: nat)
    requires Subgraph(h, g) && Reaches(h, x, y)
    ensures Reaches(g, x, y)
  {
    var n: nat :| Follow(h, x, n) == Some(y);
    FollowSub(h, g, x, n);
  }

  lemma ReachesKept(g: Graph<nat>, d: nat, t: nat, x: nat, y: nat, z: nat)
    requires {y, z} == {d, t} && !Reaches(g, x, z)
    ensures Reaches(Kept(g, d, t), x, y) <==> Reaches(g, x, y)
  {
    if Reaches(g, x, y) {
      var n: nat :| Follow(g, x, n) == Some(y);
      PathKept(g, d, t, x, n, y, z);
    }
    if Reaches(Kept(g, d, t), x, y) { PathUp(Kept(g, d, t), g, x, y); }
  }

  /** A node cannot be reached from where it points. */
  lemma NotBack(g: Graph<nat>, x: nat)
    requires Acyclic(g) && x in g
    ensures !Reaches(g, g[x], x)
  {
    forall n: nat ensures Follow(g, g[x], n) != Some(x) {
      assert Follow(g, x, n + 1) == Follow(g, g[x], n);
    }
  }

  ghost function Swapped(g: Graph<nat>, d: nat, t: nat): Graph<nat>
    requires d in g && t in g
  {
    map x | x in g :: if x == d then g[t] else if x == t then g[d] else g[x]
  }

  /** Swapping two links keeps the forest exactly when neither node is below the other. */
  lemma SwapIff(g: Graph<nat>, d: nat, t: nat)
    requires Acyclic(g) && d in g && t in g && d != t
    ensures Acyclic(Swapped(g, d, t)) <==> !Reaches(g, t, d) && !Reaches(g, d, t)
  {
    var g0 := Kept(g, d, t);
    SubgraphAcyclic(g0, g);
    NotBack(g, d);
    NotBack(g, t);
    ReachStep(g, t, d);
    ReachStep(g, d, t);
    var g1: Graph<nat> := g0[d := g[t]];
    var g2: Graph<nat> := g1[t := g[d]];
    assert g2 == Swapped(g, d, t);
    EdgeClosesCycle(g0, d, g[t]);
    ReachesKept(g, d, t, g[t], d, t);
    if Acyclic(g1) {
      EdgeClosesCycle(g1, t, g[d]);
      ReachesKept(g, d, t, g[d], t, d);
      assert !Reaches(g0, g[d], d) by {
        if Reaches(g0, g[d], d) { PathUp(g0, g, g[d], d); }
      }
      SameReach(g0, g1, d, g[d], t);
    } else if Acyclic(g2) {
      SubgraphAcyclic(g1, g2);
    }
  }

  /** A new link out of `d` matters only to nodes that reach `d`. */
  lemma SameReach(g0: Graph<nat>, g1: Graph<nat>, d: nat, x: nat, y: nat)
    requires d !in g0 && d in g1 && g1 == g0[d := g1[d]] && !Reaches(g0, x, d)
    ensures Reaches(g1, x, y) <==> Reaches(g0, x, y)
  {
    if Reaches(g0, x, y) { PathUp(g0, g1, x, y); }
    if Reaches(g1, x, y) {
      var n: nat :| Follow(g1, x, n) == Some(y);
      StaysIn(g0, g1, d, x, n);
    }
  }

  lemma {:induction false} StaysIn(g0: Graph<nat>, g1: Graph<nat>, d: nat, x: nat, n: nat)
    requires d !in g0 && d in g1 && g1 == g0[d := g1[d]] && !Reaches(g0, x, d)
    ensures Follow(g1, x, n) == Follow(g0, x, n)
    decreases n
  {
    ReachStep(g0, x, d);
    if n > 0 && x in g0 { StaysIn(g0, g1, d, g0[x], n - 1); }
  }

  /** A rename keeps the whole cache in order exactly when neither entry is below the other;
      `is_subdir` tests one half of that. */
  lemma MoveKeepsIff(c: Cache, d: nat, t: nat, junk: string)
    requires Inv(c) && Movable(c, d, t)
    ensures Inv(Move(c, d, t, junk)) <==> !Below(c.all, t, d) && !Below(c.all, d, t)
  {
    var g: Graph<nat> := Parents(c.all);
    var all1 := Move(c, d, t, junk).all;
    MoveInStep(c, d, t, junk);
    MoveHashed(c, d, t, junk);
    SwapIff(g, d, t);
    assert Parents(all1) == Swapped(g, d, t);
    assert Forest(all1) <==> Acyclic(Parents(all1));
  }

  // ---------------------------------------------------------------- d_lookup

  /** Entry `x` answers to this name under this parent. */
  predicate Answers(all: seq<Dentry>, x: nat, p: nat, h: nat, n: string) {
    x < |all| && all[x].hash == h && all[x].parent == p && all[x].name == n
  }

  function Scan(all: seq<Dentry>, chain: seq<nat>, p: nat, h: nat, n: string): Option<nat> {
    if chain == [] then None
    else if Answers(all, chain[0], p, h, n) then Some(chain[0])
    else Scan(all, chain[1..], p, h, n)
  }

  /** `d_lookup`. */
  function Lookup(c: Cache, p: nat, h: nat, n: string): Option<nat> {
    var b := c.bucket(p, h);
    if b < |c.table| then Scan(c.all, c.table[b], p, h, n) else None
  }

  lemma {:induction false} ScanIff(all: seq<Dentry>, chain: seq<nat>, p: nat, h: nat, n: string)
    ensures match Scan(all, chain, p, h, n)
            case Some(x) => x in chain && Answers(all, x, p, h, n)
            case None => forall x :: x in chain ==> !Answers(all, x, p, h, n)
  {
    if chain != [] && !Answers(all, chain[0], p, h, n) { ScanIff(all, chain[1..], p, h, n); }
  }

  /** One chain is enough: the lookup finds a hashed entry of that name if there is one at all. */
  lemma LookupIff(c: Cache, p: nat, h: nat, n: string)
    requires Hashed(c)
    ensures match Lookup(c, p, h, n)
            case Some(x) => Answers(c.all, x, p, h, n) && c.all[x].hashed
            case None => forall x :: 0 <= x < |c.all| && c.all[x].hashed ==> !Answers(c.all, x, p, h, n)
  {
    var b := c.bucket(p, h);
    assert ChainOk(c, b);
    ScanIff(c.all, c.table[b], p, h, n);
    forall x | 0 <= x < |c.all| && c.all[x].hashed && Answers(c.all, x, p, h, n) ensures x in c.table[b] {
      assert Home(c, x) == b;
    }
  }

  predicate SameName(all: seq<Dentry>, x: nat, y: nat)
    requires x < |all| && y < |all|
  {
    all[x].hashed && Answers(all, y, all[x].parent, all[x].hash, all[x].name)
  }

  /** No name is taken twice. */
  predicate Unique(all: seq<Dentry>) {
    forall x, y :: 0 <= x < |all| && 0 <= y < |all| && all[y].hashed && SameName(all, x, y) ==> x == y
  }

  lemma UniqueLookup(c: Cache, x: nat)
    requires Hashed(c) && Unique(c.all) && x < |c.all| && c.all[x].hashed
    ensures Lookup(c, c.all[x].parent, c.all[x].hash, c.all[x].name) == Some(x)
  {
    var e := c.all[x];
    LookupIff(c, e.parent, e.hash, e.name);
    assert SameName(c.all, x, x);
    var r := Lookup(c, e.parent, e.hash, e.name);
    if r.Some? { assert SameName(c.all, x, r.value); }
  }

  /** What a rename means: the target's name now leads to the moved entry, the moved entry's
      old name leads nowhere, and every other name leads where it did. */
  lemma MoveRenames(c: Cache, d: nat, t: nat, junk: string, p: nat, h: nat, n: string)
    requires Hashed(c) && Unique(c.all) && Movable(c, d, t) && c.all[t].hashed
    ensures Lookup(Move(c, d, t, junk), p, h, n) ==
      if Answers(c.all, t, p, h, n) then Some(d)
      else if Lookup(c, p, h, n) == Some(d) then None
      else Lookup(c, p, h, n)
    ensures Unique(Move(c, d, t, junk).all)
  {
    var c1 := Move(c, d, t, junk);
    MoveHashed(c, d, t, junk);
    LookupIff(c, p, h, n);
    LookupIff(c1, p, h, n);
    MoveUnique(c, d, t, junk);
    var r, r1 := Lookup(c, p, h, n), Lookup(c1, p, h, n);
    if Answers(c.all, t, p, h, n) {
      UniqueLookup(c1, d);
    } else {
      if r.Some? && r.value != d { UniqueLookup(c1, r.value); }
      if r1.Some? { UniqueLookup(c, r1.value); }
    }
  }

  lemma MoveUnique(c: Cache, d: nat, t: nat, junk: string)
    requires Unique(c.all) && Movable(c, d, t) && c.all[t].hashed
    ensures Unique(Move(c, d, t, junk).all)
  {
    var all, all1 := c.all, Move(c, d, t, junk).all;
    forall x, y | 0 <= x < |all1| && 0 <= y < |all1| && all1[y].hashed && SameName(all1, x, y) ensures x == y {
      var x0, y0 := if x == d then t else x, if y == d then t else y;
      assert SameName(all, x0, y0);
    }
  }

  // ---------------------------------------------------------------- d_alloc and d_rehash

  /** `d_alloc`, or `d_alloc_root` when there is no parent. */
  function Alloc(c: Cache, parent: Option<nat>, name: string, hash: nat): Cache
    requires parent.Some? ==> parent.value < |c.all|
  {
    var x := |c.all|;
    match parent
    case None => c.(all := c.all + [Dentry(x, name, hash, true, false, [])])
    case Some(p) =>
      c.(all := c.all[p := c.all[p].(subdirs := [x] + c.all[p].subdirs)] + [Dentry(p, name, hash, false, false, [])])
  }

  /** `d_rehash`. */
  function Rehash(c: Cache, x: nat): Cache
    requires x < |c.all| && Home(c, x) < |c.table|
  {
    var b := Home(c, x);
    c.(all := c.all[x := c.all[x].(hashed := true)], table := c.table[b := [x] + c.table[b]])
  }

  lemma {:induction false} LinksInside(all: seq<Dentry>, x: nat, n: nat)
    requires x < |all| && forall y :: 0 <= y < |all| ==> all[y].parent < |all|
    ensures var y: Option<nat> := Follow(Parents(all), x, n); y.Some? ==> y.value < |all|
    decreases n
  {
    if n > 0 && x in Parents(all) { LinksInside(all, all[x].parent, n - 1); }
  }

  lemma AllocForest(c: Cache, parent: Option<nat>, name: string, hash: nat)
    requires Forest(c.all) && (parent.Some? ==> parent.value < |c.all|)
    ensures Forest(Alloc(c, parent, name, hash).all)
  {
    var g: Graph<nat>, x: nat := Parents(c.all), |c.all|;
    var all1 := Alloc(c, parent, name, hash).all;
    if parent.None? {
      assert Parents(all1) == g;
    } else {
      var g1: Graph<nat> := g[x := parent.value];
      assert Parents(all1) == g1;
      forall n: nat ensures Follow(g, parent.value, n) != Some(x) {
        LinksInside(c.all, parent.value, n);
        var y: Option<nat> := Follow(g, parent.value, n);
      }
      EdgeClosesCycle(g, x, parent.value);
    }
  }

  lemma AllocInStep(c: Cache, parent: Option<nat>, name: string, hash: nat)
    requires InStep(c.all) && (parent.Some? ==> parent.value < |c.all|)
    requires forall y :: 0 <= y < |c.all| ==> c.all[y].parent < |c.all|
    ensures InStep(Alloc(c, parent, name, hash).all)
  {
    var all1 := Alloc(c, parent, name, hash).all;
    forall p | 0 <= p < |all1| ensures ListOk(all1, p) {
      if p < |c.all| {
        assert ListOk(c.all, p);
        assert ([|c.all|] + c.all[p].subdirs)[1..] == c.all[p].subdirs;
      }
    }
  }

  lemma AllocKeeps(c: Cache, parent: Option<nat>, name: string, hash: nat)
    requires Inv(c) && (parent.Some? ==> parent.value < |c.all|)
    ensures Inv(Alloc(c, parent, name, hash))
  {
    AllocForest(c, parent, name, hash);
    AllocInStep(c, parent, name, hash);
    var c1 := Alloc(c, parent, name, hash);
    forall b | 0 <= b < |c1.table| ensures ChainOk(c1, b) {
      assert ChainOk(c, b);
    }
  }

  lemma RehashKeeps(c: Cache, x: nat)
    requires Inv(c) && x < |c.all| && !c.all[x].hashed
    ensures Home(c, x) < |c.table| && Inv(Rehash(c, x))
  {
    var c1 := Rehash(c, x);
    assert Parents(c1.all) == Parents(c.all);
    forall p | 0 <= p < |c1.all| ensures ListOk(c1.all, p) {
      assert ListOk(c.all, p);
    }
    forall b | 0 <= b < |c1.table| ensures ChainOk(c1, b) {
      assert ChainOk(c, b);
      assert ([x] + c.table[b])[1..] == c.table[b];
    }
  }

  lemma {:induction false} ScanSame(all: seq<Dentry>, all1: seq<Dentry>, chain: seq<nat>, p: nat, h: nat, n: string)
    requires forall x :: x in chain ==> (Answers(all, x, p, h, n) <==> Answers(all1, x, p, h, n))
    ensures Scan(all, chain, p, h, n) == Scan(all1, chain, p, h, n)
  {
    if chain != [] {
      assert chain[0] in chain;
      ScanSame(all, all1, chain[1..], p, h, n);
    }
  }

  /** A name that `d_alloc` and `d_rehash` have entered leads to the new entry, and every other
      name leads where it did; no name is taken twice if this one was free. */
  lemma AddedLookup(c: Cache, parent: Option<nat>, name: string, hash: nat, p: nat, h: nat, n: string)
    requires Inv(c) && (parent.Some? ==> parent.value < |c.all|)
    ensures Home(Alloc(c, parent, name, hash), |c.all|) < |c.table|
    ensures var c1 := Rehash(Alloc(c, parent, name, hash), |c.all|);
            var under := if parent.Some? then parent.value else |c.all|;
            && Lookup(c1, p, h, n) == (if (p, h, n) == (under, hash, name) then Some(|c.all|) else Lookup(c, p, h, n))
            && (Unique(c.all) && Lookup(c, under, hash, name).None? ==> Unique(c1.all))
  {
    var x, under, a := |c.all|, if parent.Some? then parent.value else |c.all|, Alloc(c, parent, name, hash);
    var c1, b := Rehash(a, x), c.bucket(p, h);
    assert ChainOk(c, b);
    forall y | y in c.table[b] ensures Answers(c.all, y, p, h, n) <==> Answers(c1.all, y, p, h, n) {}
    ScanSame(c.all, c1.all, c.table[b], p, h, n);
    assert ([x] + c.table[b])[1..] == c.table[b];
    LookupIff(c, under, hash, name);
    if Unique(c.all) && Lookup(c, under, hash, name).None? { AddedUnique(c, c1); }
  }

  lemma AddedUnique(c: Cache, c1: Cache)
    requires Unique(c.all) && |c1.all| == |c.all| + 1
    requires forall y :: 0 <= y < |c.all| ==> SameEntry(c.all[y], c1.all[y])
    requires var d := c1.all[|c.all|];
             forall y :: 0 <= y < |c.all| && c.all[y].hashed ==> !Answers(c.all, y, d.parent, d.hash, d.name)
    ensures Unique(c1.all)
  {
    forall y, z | 0 <= y < |c1.all| && 0 <= z < |c1.all| && c1.all[z].hashed && SameName(c1.all, y, z) ensures y == z {
      if y < |c.all| && z < |c.all| { assert SameEntry(c.all[y], c1.all[y]) && SameName(c.all, y, z); }
    }
  }

  /** The same entry, whatever its children are. */
  predicate SameEntry(d: Dentry, d1: Dentry) { d1 == d.(subdirs := d1.subdirs) }

  // ---------------------------------------------------------------- half a test is not enough

  /** Nothing is below a node that nothing points to. */
  lemma {:induction false} OnlyUp(g: Graph<nat>, x: nat, n: nat, y: nat)
    requires (forall z :: z in g ==> g[z] != y) && x != y
    ensures Follow(g, x, n) != Some(y)
    decreases n
  {
    if n > 0 && x in g { OnlyUp(g, g[x], n - 1, y); }
  }

  lemma EmptyInv()
    ensures Inv(Cache([], [[]], (p: nat, h: nat) => 0))
  {
    var c := Cache([], [[]], (p: nat, h: nat) => 0);
    forall x: nat, n: nat | n > 0 ensures Follow(Parents(c.all), x, n) != Some(x) {}
  }

  /** A root, `/a` below it and `/a/b` below that, each made by `d_alloc` and `d_rehash`. */
  lemma ThreeEntries() returns (c: Cache)
    ensures Inv(c) && |c.all| == 3 && Movable(c, 2, 1) && c.all[1].hashed && c.all[2].hashed
    ensures c.all[0].root && c.all[1].parent == 0 && c.all[2].parent == 1
  {
    EmptyInv();
    var c0 := Cache([], [[]], (p: nat, h: nat) => 0);
    AllocKeeps(c0, None, "/", 0);
    var c1 := Alloc(c0, None, "/", 0);
    AllocKeeps(c1, Some(0), "a", 0);
    var c2 := Alloc(c1, Some(0), "a", 0);
    AllocKeeps(c2, Some(1), "b", 0);
    var c3 := Alloc(c2, Some(1), "b", 0);
    RehashKeeps(c3, 1);
    var c4 := Rehash(c3, 1);
    RehashKeeps(c4, 2);
    c := Rehash(c4, 2);
  }

  /** Renaming `/a/b` to `/a`: the test `is_subdir(target, dentry)` lets it pass, since `/a` is
      not below `/a/b`, and the move leaves the cache out of order. */
  lemma RenameCounterexample() returns (c: Cache)
    ensures Inv(c) && Movable(c, 2, 1) && c.all[1].hashed
    ensures !Below(c.all, 1, 2) && Below(c.all, 2, 1)
    ensures !Inv(Move(c, 2, 1, ""))
  {
    c := ThreeEntries();
    var g: Graph<nat> := Parents(c.all);
    forall n: nat ensures Follow(g, 1, n) != Some(2) { OnlyUp(g, 1, n, 2); }
    assert Follow(g, 1, 0) == Some(1);
    assert Follow(g, 2, 1) == Some(1);
    MoveKeepsIff(c, 2, 1, "");
  }
}
