/** The mount tree (fs/namespace.c:106-158, 266-290, 426-454): pre-order as a function of the
    tree, and where a position in the tree stands in it. */
module MountTree {
  import opened Common
  import opened Lists

  /** One `struct vfsmount`: `parent` is `mnt_parent`, `kids` the list `mnt_mounts`, `point` and
      `top` the dentries `mnt_mountpoint` and `mnt_root`. */
  datatype Mount = Mount(parent: nat, kids: seq<nat>, point: nat, top: nat)

  /** A mount and what is mounted below it, in the order of the child lists. */
  datatype Tree = Node(id: nat, kids: seq<Tree>)

  // ---------------------------------------------------------------- pre-order

  /** The mounts of a tree, parents before children, siblings in list order. */
  function Pre(t: Tree): (r: seq<nat>)
    ensures |r| > 0 && r[0] == t.id
    decreases t, |t.kids| + 1
  {
    [t.id] + PreFrom(t, 0)
  }

  /** The subtrees of a node from number `k` on. */
  function PreFrom(t: Tree, k: nat): seq<nat>
    requires k <= |t.kids|
    decreases t, |t.kids| - k
  {
    if k == |t.kids| then [] else Pre(t.kids[k]) + PreFrom(t, k + 1)
  }

  /** The subtrees of a node before number `k`. */
  function PreUpto(t: Tree, k: nat): seq<nat>
    requires k <= |t.kids|
  {
    if k == 0 then [] else PreUpto(t, k - 1) + Pre(t.kids[k - 1])
  }

  // ---------------------------------------------------------------- positions

  /** A position is the list of child numbers on the way down. */
  type Path = seq<nat>

  function Front(p: Path): Path
    requires p != []
  {
    p[..|p| - 1]
  }

  function Last(p: Path): nat
    requires p != []
  {
    p[|p| - 1]
  }

  predicate IsPath(t: Tree, p: Path)
    decreases |p|, 0
  {
    p == [] || (IsPath(t, Front(p)) && Last(p) < |Sub(t, Front(p)).kids|)
  }

  function Sub(t: Tree, p: Path): Tree
    requires IsPath(t, p)
    decreases |p|, 1
  {
    if p == [] then t else Sub(t, Front(p)).kids[Last(p)]
  }

  /** What comes before the subtree at `p`, and what comes after it. */
  function Before(t: Tree, p: Path): seq<nat>
    requires IsPath(t, p)
    decreases |p|
  {
    if p == [] then []
    else Before(t, Front(p)) + ([Sub(t, Front(p)).id] + PreUpto(Sub(t, Front(p)), Last(p)))
  }

  function Rest(t: Tree, p: Path): seq<nat>
    requires IsPath(t, p)
    decreases |p|
  {
    if p == [] then [] else PreFrom(Sub(t, Front(p)), Last(p) + 1) + Rest(t, Front(p))
  }

  lemma {:induction false} KidsSplit(t: Tree, k: nat)
    requires k <= |t.kids|
    ensures PreFrom(t, 0) == PreUpto(t, k) + PreFrom(t, k)
  {
    if k > 0 {
      KidsSplit(t, k - 1);
      Assoc(PreUpto(t, k - 1), Pre(t.kids[k - 1]), PreFrom(t, k));
    }
  }

  lemma Assoc(a: seq<nat>, b: seq<nat>, c: seq<nat>)
    ensures a + b + c == a + (b + c)
  {
  }

  lemma {:induction false} Splits(t: Tree, p: Path)
    requires IsPath(t, p)
    ensures Pre(t) == Before(t, p) + Pre(Sub(t, p)) + Rest(t, p)
    decreases |p|
  {
    if p != [] {
      var u, k := Sub(t, Front(p)), Last(p);
      Splits(t, Front(p));
      KidsSplit(u, k);
      Regroup(Before(t, Front(p)), [u.id], PreUpto(u, k), Pre(u.kids[k]), PreFrom(u, k + 1), Rest(t, Front(p)));
    } else {
      assert [] + Pre(t) + [] == Pre(t);
    }
  }

  lemma Regroup(a: seq<nat>, b: seq<nat>, c: seq<nat>, d: seq<nat>, e: seq<nat>, f: seq<nat>)
    ensures a + (b + (c + (d + e))) + f == a + (b + c) + d + (e + f)
  {
  }

  /** One step further down. */
  lemma Down(t: Tree, p: Path, k: nat)
    requires IsPath(t, p)
    ensures IsPath(t, p + [k]) <==> k < |Sub(t, p).kids|
    ensures k < |Sub(t, p).kids| ==>
      && Sub(t, p + [k]) == Sub(t, p).kids[k]
      && Before(t, p + [k]) == Before(t, p) + ([Sub(t, p).id] + PreUpto(Sub(t, p), k))
  {
    assert Front(p + [k]) == p && Last(p + [k]) == k;
  }

  lemma NotLater(s: seq<nat>, i: nat)
    requires NoDup(s) && i < |s|
    ensures s[i] !in s[i + 1..]
  {
    forall j | i + 1 <= j < |s| ensures s[j] != s[i] { NoDupApart(s, i, j); }
  }

  /** A node stands in the pre-order right behind what comes before it. */
  lemma Stands(t: Tree, p: Path)
    requires IsPath(t, p)
    ensures |Before(t, p)| < |Pre(t)| && Pre(t)[|Before(t, p)|] == Sub(t, p).id
    ensures Pre(t)[..|Before(t, p)|] == Before(t, p)
  {
    Splits(t, p);
    var b, s := Before(t, p), Pre(Sub(t, p));
    Assoc(b, s, Rest(t, p));
    assert (b + (s + Rest(t, p)))[|b|] == s[0];
  }

  lemma {:induction false} UptoGrows(t: Tree, i: nat, j: nat)
    requires i <= j <= |t.kids|
    ensures |PreUpto(t, i)| <= |PreUpto(t, j)| && (i < j ==> |PreUpto(t, i)| < |PreUpto(t, j)|)
  {
    if i < j { UptoGrows(t, i, j - 1); }
  }

  /** Siblings are different mounts. */
  lemma SiblingsDiffer(t: Tree, p: Path, i: nat, j: nat)
    requires IsPath(t, p) && NoDup(Pre(t)) && i < j < |Sub(t, p).kids|
    ensures Sub(t, p).kids[i].id != Sub(t, p).kids[j].id
  {
    Down(t, p, i);
    Down(t, p, j);
    Stands(t, p + [i]);
    Stands(t, p + [j]);
    UptoGrows(Sub(t, p), i, j);
    NoDupApart(Pre(t), |Before(t, p + [i])|, |Before(t, p + [j])|);
  }

  /** Only the root is the root, and every node comes after its ancestors. */
  lemma {:induction false} AncestorFirst(t: Tree, p: Path, n: nat)
    requires IsPath(t, p) && n < |p|
    ensures IsPath(t, p[..n]) && |Before(t, p[..n])| < |Before(t, p)|
    decreases |p|
  {
    if n < |p| - 1 {
      AncestorFirst(t, Front(p), n);
      assert Front(p)[..n] == p[..n];
    }
  }

  lemma {:induction false} PrefixIsPath(t: Tree, p: Path, n: nat)
    requires IsPath(t, p) && n <= |p|
    ensures IsPath(t, p[..n])
    decreases |p|
  {
    if n < |p| {
      PrefixIsPath(t, Front(p), n);
      assert Front(p)[..n] == p[..n];
    } else {
      assert p[..n] == p;
    }
  }

  // ---------------------------------------------------------------- the next mount

  /** Behind the whole subtree at `p`: the next sibling of the nearest node that has one. */
  function UpNext(t: Tree, p: Path): Option<Path>
    requires IsPath(t, p)
    decreases |p|
  {
    if p == [] then None
    else if Last(p) + 1 < |Sub(t, Front(p)).kids| then Some(Front(p) + [Last(p) + 1])
    else UpNext(t, Front(p))
  }

  function NextPath(t: Tree, p: Path): Option<Path>
    requires IsPath(t, p)
  {
    if |Sub(t, p).kids| > 0 then Some(p + [0]) else UpNext(t, p)
  }

  /** `q` is a child of a node on the way to `p`. */
  predicate Hangs(p: Path, q: Path) { 0 < |q| <= |p| + 1 && Front(q) == p[..|q| - 1] }

  lemma {:induction false} UpNextExact(t: Tree, p: Path)
    requires IsPath(t, p)
    ensures match UpNext(t, p)
            case None => Before(t, p) + Pre(Sub(t, p)) == Pre(t)
            case Some(q) => IsPath(t, q) && Hangs(p, q) && Before(t, q) == Before(t, p) + Pre(Sub(t, p))
    decreases |p|
  {
    if p != [] {
      Sideways(t, p);
      if Last(p) + 1 == |Sub(t, Front(p)).kids| {
        UpNextExact(t, Front(p));
      }
    }
  }

  lemma UptoAll(u: Tree)
    ensures Pre(u) == [u.id] + PreUpto(u, |u.kids|)
  {
    KidsSplit(u, |u.kids|);
    assert PreUpto(u, |u.kids|) + [] == PreUpto(u, |u.kids|);
  }

  /** What is behind the subtree of a child: the next child, or what is behind the parent's. */
  lemma Sideways(t: Tree, p: Path)
    requires IsPath(t, p) && p != []
    ensures var f, k := Front(p), Last(p);
            && (IsPath(t, f + [k + 1]) <==> k + 1 < |Sub(t, f).kids|)
            && (k + 1 == |Sub(t, f).kids| ==> Before(t, p) + Pre(Sub(t, p)) == Before(t, f) + Pre(Sub(t, f)))
            && (k + 1 < |Sub(t, f).kids| ==> Before(t, p) + Pre(Sub(t, p)) == Before(t, f + [k + 1]))
  {
    var u, k := Sub(t, Front(p)), Last(p);
    Down(t, Front(p), k + 1);
    BeforeNext(Before(t, Front(p)), [u.id], PreUpto(u, k), Pre(u.kids[k]));
    UptoAll(u);
  }

  lemma BeforeNext(a: seq<nat>, b: seq<nat>, c: seq<nat>, d: seq<nat>)
    ensures a + (b + c) + d == a + (b + (c + d))
  {
  }

  /** The step of the walk is the step in pre-order. */
  lemma NextExact(t: Tree, p: Path)
    requires IsPath(t, p)
    ensures match NextPath(t, p)
            case None => Before(t, p) + [Sub(t, p).id] == Pre(t)
            case Some(q) => IsPath(t, q) && Hangs(p, q) && Before(t, q) == Before(t, p) + [Sub(t, p).id]
  {
    if |Sub(t, p).kids| > 0 {
      Down(t, p, 0);
      assert Front(p + [0]) == p[..|p|];
      assert [Sub(t, p).id] + [] == [Sub(t, p).id];
    } else {
      UpNextExact(t, p);
      assert Pre(Sub(t, p)) == [Sub(t, p).id];
    }
  }

  // ---------------------------------------------------------------- the links

  /** The links of `all` spell the tree `t`. */
  predicate Rep(all: seq<Mount>, t: Tree) {
    && t.id < |all| && |all[t.id].kids| == |t.kids|
    && forall k :: 0 <= k < |t.kids| ==> IsKid(all, t, k) && Rep(all, t.kids[k])
  }

  predicate IsKid(all: seq<Mount>, t: Tree, k: nat)
    requires t.id < |all| && |all[t.id].kids| == |t.kids| && k < |t.kids|
  {
    t.kids[k].id < |all| && all[t.id].kids[k] == t.kids[k].id && all[t.kids[k].id].parent == t.id
  }

  lemma {:induction false} RepSub(all: seq<Mount>, t: Tree, p: Path)
    requires Rep(all, t) && IsPath(t, p)
    ensures Rep(all, Sub(t, p))
    decreases |p|
  {
    if p != [] { RepSub(all, t, Front(p)); }
  }

  /** A node's parent link and its place in the list. */
  lemma RepKid(all: seq<Mount>, t: Tree, p: Path)
    requires Rep(all, t) && IsPath(t, p) && p != []
    ensures var u, x := Sub(t, Front(p)), Sub(t, p).id;
            && x < |all| && u.id < |all| && |all[u.id].kids| == |u.kids|
            && all[u.id].kids[Last(p)] == x && all[x].parent == u.id
  {
    RepSub(all, t, Front(p));
    assert IsKid(all, Sub(t, Front(p)), Last(p));
  }

  /** `mnt_child.next`, or the list head. */
  function NextIn(s: seq<nat>, x: nat): Option<nat> {
    if s == [] then None
    else if s[0] == x then (if |s| > 1 then Some(s[1]) else None)
    else NextIn(s[1..], x)
  }

  lemma {:induction false} NextInAt(s: seq<nat>, k: nat)
    requires k < |s| && forall i :: 0 <= i < k ==> s[i] != s[k]
    ensures NextIn(s, s[k]) == if k + 1 < |s| then Some(s[k + 1]) else None
  {
    if k > 0 { NextInAt(s[1..], k - 1); }
  }

  /** The sibling test of the walk. */
  lemma NextSibling(all: seq<Mount>, t: Tree, p: Path)
    requires Rep(all, t) && NoDup(Pre(t)) && IsPath(t, p) && p != []
    ensures var u, x, k := Sub(t, Front(p)), Sub(t, p).id, Last(p);
            && x < |all| && all[x].parent < |all|
            && NextIn(all[all[x].parent].kids, x) == if k + 1 < |u.kids| then Some(u.kids[k + 1].id) else None
  {
    RepKid(all, t, p);
    var u, k := Sub(t, Front(p)), Last(p);
    RepSub(all, t, Front(p));
    var s := all[u.id].kids;
    forall i | 0 <= i < |u.kids| ensures s[i] == u.kids[i].id { assert IsKid(all, u, i); }
    forall i | 0 <= i < k ensures s[i] != s[k] { SiblingsDiffer(t, Front(p), i, k); }
    NextInAt(s, k);
  }

  lemma RootOnly(t: Tree, p: Path)
    requires IsPath(t, p) && NoDup(Pre(t))
    ensures Sub(t, p).id == t.id <==> p == []
  {
    Stands(t, p);
    if p != [] {
      AncestorFirst(t, p, 0);
      NoDupApart(Pre(t), 0, |Before(t, p)|);
    }
  }

  // ---------------------------------------------------------------- by position

  /** Every position of the pre-order is the position of a node. */
  lemma {:induction false} PathAt(t: Tree, i: nat) returns (p: Path)
    requires i < |Pre(t)|
    ensures IsPath(t, p) && |Before(t, p)| == i && Sub(t, p).id == Pre(t)[i]
  {
    p := [];
    if i > 0 {
      var q := PathAt(t, i - 1);
      NextExact(t, q);
      p := NextPath(t, q).value;
      Stands(t, p);
    }
  }

  lemma InBounds(all: seq<Mount>, t: Tree, i: nat)
    requires Rep(all, t) && i < |Pre(t)|
    ensures Pre(t)[i] < |all|
  {
    var p := PathAt(t, i);
    RepSub(all, t, p);
  }

  /** The children of a node come after it. */
  lemma KidPosition(all: seq<Mount>, t: Tree, i: nat, k: nat) returns (j: nat)
    requires Rep(all, t) && i < |Pre(t)| && Pre(t)[i] < |all| && k < |all[Pre(t)[i]].kids|
    ensures i < j < |Pre(t)| && Pre(t)[j] == all[Pre(t)[i]].kids[k]
  {
    var p := PathAt(t, i);
    RepSub(all, t, p);
    var u := Sub(t, p);
    assert IsKid(all, u, k);
    Down(t, p, k);
    Stands(t, p + [k]);
    j := |Before(t, p + [k])|;
  }

  lemma KidsLater(all: seq<Mount>, t: Tree, i: nat, y: nat)
    requires Rep(all, t) && i < |Pre(t)| && Pre(t)[i] < |all| && y in all[Pre(t)[i]].kids
    ensures y in Pre(t)[i + 1..]
  {
    var k :| 0 <= k < |all[Pre(t)[i]].kids| && all[Pre(t)[i]].kids[k] == y;
    var j := KidPosition(all, t, i, k);
    assert Pre(t)[i + 1..][j - i - 1] == y;
  }

  /** The parent of a node other than the root comes before it. */
  lemma ParentEarlier(all: seq<Mount>, t: Tree, i: nat)
    requires Rep(all, t) && 0 < i < |Pre(t)|
    ensures Pre(t)[i] < |all| && all[Pre(t)[i]].parent in Pre(t)[..i]
  {
    var p := PathAt(t, i);
    assert p != [];
    RepKid(all, t, p);
    Stands(t, Front(p));
    assert Pre(t)[..i][|Before(t, Front(p))|] == all[Pre(t)[i]].parent;
  }

  function Reversed(s: seq<nat>): (r: seq<nat>)
    ensures |r| == |s|
  {
    if s == [] then [] else [s[|s| - 1]] + Reversed(s[..|s| - 1])
  }
}
