/** Every mount of a table whose parent links never lead back is the root of a tree: the walk
    over links and the walk over trees are about the same thing (fs/namespace.c:98-140). */
module MountForest {
  import opened Common
  import opened Lists
  import opened MountTree
  import opened MountEdit
  import opened MountCopy
  import opened WaitGraph

  ghost function Up(all: seq<Mount>): Graph<nat> {
    map x: nat | x < |all| && all[x].parent != x :: all[x].parent
  }

  ghost predicate Forest(all: seq<Mount>) { Linked(all) && Acyclic(Up(all)) }

  /** The mounts at or below `x`. */
  ghost function Under(all: seq<Mount>, x: nat): set<nat> {
    set y: nat | y < |all| && Reaches(Up(all), y, x)
  }

  lemma Back(g: Graph<nat>, x: nat)
    requires Acyclic(g) && x in g
    ensures !Reaches(g, g[x], x)
  {
    forall n: nat ensures Follow(g, g[x], n) != Some(x) {
      assert Follow(g, x, n + 1) == Follow(g, g[x], n);
    }
  }

  lemma Onwards(g: Graph<nat>, y: nat, x: nat)
    requires Reaches(g, y, x) && x in g
    ensures Reaches(g, y, g[x])
  {
    var n: nat :| Follow(g, y, n) == Some(x);
    FollowMore(g, y, n, x, 1);
    assert Follow(g, g[x], 0) == Some(g[x]);
    assert Follow(g, x, 1) == Some(g[x]);
  }

  /** What is below a child is below the parent, but the parent is not. */
  lemma UnderShrinks(all: seq<Mount>, x: nat, c: nat)
    requires Forest(all) && x < |all| && c in all[x].kids
    ensures c < |all| && Under(all, c) < Under(all, x)
  {
    assert ListOk(all, x);
    var g: Graph<nat> := Up(all);
    forall y | y in Under(all, c) ensures y in Under(all, x) { Onwards(g, y, c); }
    Back(g, c);
    ReachStep(g, x, x);
    assert x in Under(all, x) && x !in Under(all, c);
  }

  /** Of two nodes on one way up, one is above the other. */
  lemma OneWay(g: Graph<nat>, y: nat, a: nat, b: nat)
    requires Reaches(g, y, a) && Reaches(g, y, b)
    ensures Reaches(g, a, b) || Reaches(g, b, a)
  {
    var n: nat :| Follow(g, y, n) == Some(a);
    var m: nat :| Follow(g, y, m) == Some(b);
    if n <= m {
      FollowMore(g, y, n, a, m - n);
    } else {
      FollowMore(g, y, m, b, n - m);
    }
  }

  /** Nothing is below two siblings. */
  lemma SiblingsApart(all: seq<Mount>, x: nat, a: nat, b: nat, y: nat)
    requires Forest(all) && x < |all| && a in all[x].kids && b in all[x].kids && a != b
    requires y in Under(all, a)
    ensures y !in Under(all, b)
  {
    assert ListOk(all, x);
    var g: Graph<nat> := Up(all);
    if y in Under(all, b) {
      OneWay(g, y, a, b);
      ReachStep(g, a, b);
      ReachStep(g, b, a);
      Back(g, a);
      Back(g, b);
    }
  }

  // ---------------------------------------------------------------- trees without repetition

  /** Everything in the subtrees from `k` on is below one of the children from `k` on. */
  lemma {:induction false} FromUnder(all: seq<Mount>, t: Tree, k: nat, y: nat)
    requires k <= |t.kids| && forall i :: 0 <= i < |t.kids| ==> Fine(all, t.kids[i])
    requires y in PreFrom(t, k)
    ensures exists i :: k <= i < |t.kids| && y in Under(all, t.kids[i].id)
    decreases |t.kids| - k
  {
    if k < |t.kids| {
      assert Fine(all, t.kids[k]);
      if y !in Pre(t.kids[k]) { FromUnder(all, t, k + 1, y); }
    }
  }

  /** A tree that spells links and stays below its root. */
  ghost predicate Fine(all: seq<Mount>, t: Tree) {
    Rep(all, t) && NoDup(Pre(t)) && forall y :: y in Pre(t) ==> y in Under(all, t.id)
  }

  lemma {:induction false} FromNoDup(all: seq<Mount>, t: Tree, k: nat)
    requires Forest(all) && Rep(all, t) && NoDup(all[t.id].kids)
    requires k <= |t.kids| && forall i :: 0 <= i < |t.kids| ==> Fine(all, t.kids[i])
    ensures NoDup(PreFrom(t, k))
    decreases |t.kids| - k
  {
    if k < |t.kids| {
      FromNoDup(all, t, k + 1);
      assert Fine(all, t.kids[k]);
      forall y | y in Pre(t.kids[k]) ensures y !in PreFrom(t, k + 1) {
        if y in PreFrom(t, k + 1) {
          FromUnder(all, t, k + 1, y);
          var i :| k + 1 <= i < |t.kids| && y in Under(all, t.kids[i].id);
          assert IsKid(all, t, k) && IsKid(all, t, i);
          NoDupApart(all[t.id].kids, k, i);
          SiblingsApart(all, t.id, t.kids[k].id, t.kids[i].id, y);
        }
      }
      NoDupConcat(Pre(t.kids[k]), PreFrom(t, k + 1));
    }
  }

  /** The root in front of the subtrees of its children. */
  lemma NodeFine(all: seq<Mount>, x: nat, ts: seq<Tree>)
    requires Forest(all) && x < |all| && |ts| == |all[x].kids|
    requires forall k :: 0 <= k < |ts| ==> ts[k].id == all[x].kids[k] && Fine(all, ts[k])
    ensures Fine(all, Node(x, ts))
  {
    var t := Node(x, ts);
    assert ListOk(all, x);
    forall k | 0 <= k < |ts| ensures IsKid(all, t, k) && Rep(all, t.kids[k]) {
      assert Fine(all, ts[k]) && ts[k].id in all[x].kids;
    }
    FromNoDup(all, t, 0);
    forall y | y in PreFrom(t, 0) ensures y in Under(all, x) && y != x {
      FromUnder(all, t, 0, y);
      var i :| 0 <= i < |ts| && y in Under(all, ts[i].id);
      UnderShrinks(all, x, ts[i].id);
      Back(Up(all), ts[i].id);
    }
    assert NoDup([x]);
    NoDupConcat([x], PreFrom(t, 0));
    ReachStep(Up(all), x, x);
  }

  /** The links below any mount spell exactly one kind of thing: a tree without repetition. */
  lemma {:induction false} TreeExists(all: seq<Mount>, x: nat) returns (t: Tree)
    requires Forest(all) && x < |all|
    ensures t.id == x && Rep(all, t) && NoDup(Pre(t)) && forall y :: y in Pre(t) ==> y in Under(all, x)
    decreases |Under(all, x)|
  {
    var ts: seq<Tree> := [];
    while |ts| < |all[x].kids|
      invariant |ts| <= |all[x].kids|
      invariant forall k :: 0 <= k < |ts| ==> ts[k].id == all[x].kids[k] && Fine(all, ts[k])
      decreases |all[x].kids| - |ts|
    {
      var c := all[x].kids[|ts|];
      UnderShrinks(all, x, c);
      SmallerSet(Under(all, c), Under(all, x));
      var u := TreeExists(all, c);
      ts := ts + [u];
    }
    NodeFine(all, x, ts);
    t := Node(x, ts);
  }

  lemma SmallerSet(a: set<nat>, b: set<nat>)
    requires a < b
    ensures |a| < |b|
  {
    var x :| x in b && x !in a;
    assert a <= b - {x};
    SubsetSize(a, b - {x});
  }

  lemma {:induction false} SubsetSize(a: set<nat>, b: set<nat>)
    requires a <= b
    ensures |a| <= |b|
  {
    if a != {} {
      var x :| x in a;
      SubsetSize(a - {x}, b - {x});
    }
  }

  /** The walk meets every mount below its root: nothing is missed. */
  lemma WalkIsComplete(all: seq<Mount>, t: Tree, y: nat)
    requires Forest(all) && Rep(all, t) && y in Under(all, t.id)
    ensures y in Pre(t)
  {
    var n: nat :| Follow(Up(all), y, n) == Some(t.id);
    Reached(all, t, y, n);
  }

  lemma {:induction false} Reached(all: seq<Mount>, t: Tree, y: nat, n: nat)
    requires Forest(all) && Rep(all, t) && y < |all| && Follow(Up(all), y, n) == Some(t.id)
    ensures y in Pre(t)
    decreases n
  {
    if n > 0 {
      var z := all[y].parent;
      Reached(all, t, z, n - 1);
      assert ListOk(all, z);
      var i :| 0 <= i < |Pre(t)| && Pre(t)[i] == z;
      KidsLater(all, t, i, y);
    }
  }

  lemma SubtreeExact(all: seq<Mount>, t: Tree)
    requires Forest(all) && Rep(all, t) && forall y :: y in Pre(t) ==> y in Under(all, t.id)
    ensures (set y | y in Pre(t)) == Under(all, t.id)
  {
    forall y | y in Under(all, t.id) ensures y in Pre(t) { WalkIsComplete(all, t, y); }
  }

  // ---------------------------------------------------------------- still a forest

  lemma StrippedForest(all: seq<Mount>, gone: set<nat>, all1: seq<Mount>)
    requires Acyclic(Up(all)) && Stripped(all, gone, all1)
    ensures Acyclic(Up(all1))
  {
    assert forall y :: 0 <= y < |all| ==> all1[y] == Bare(all, gone, y);
    SubgraphAcyclic(Up(all1), Up(all));
  }

  /** Old mounts climb as before. */
  lemma {:induction false} OldClimb(all: seq<Mount>, all1: seq<Mount>, x: nat, n: nat)
    requires Linked(all) && |all| <= |all1| && all1[..|all|] == all && x < |all|
    ensures Follow(Up(all1), x, n) == Follow(Up(all), x, n)
    decreases n
  {
    assert all1[..|all|][x] == all1[x];
    if n > 0 && all[x].parent != x { OldClimb(all, all1, all[x].parent, n - 1); }
  }

  /** New mounts climb to earlier new mounts. */
  lemma {:induction false} NewClimb(all: seq<Mount>, t: Tree, dentry: nat, all1: seq<Mount>, x: nat, n: nat)
    requires Rep(all, t) && Isomorphic(all, Pre(t), dentry, all1) && |all| <= x < |all1| && n > 0
    ensures var z: Option<nat> := Follow(Up(all1), x, n); z.Some? ==> z.value < x
    decreases n
  {
    var i := x - |all|;
    assert Mirrors(all, Pre(t), dentry, all1, i);
    if i > 0 {
      ParentEarlier(all, t, i);
      EarlyIndex(Pre(t), all[Pre(t)[i]].parent, i);
      var y: nat := all1[x].parent;
      assert Follow(Up(all1), x, n) == Follow(Up(all1), y, n - 1);
      if n > 1 { NewClimb(all, t, dentry, all1, y, n - 1); }
    }
  }

  lemma {:induction false} EarlyIndex(s: seq<nat>, x: nat, i: nat)
    requires i <= |s| && x in s[..i]
    ensures IndexOf(s, x) < i
  {
    if s[0] != x {
      assert s[..i][1..] == s[1..][..i - 1] && x in s[..i][1..];
      EarlyIndex(s[1..], x, i - 1);
    }
  }

  lemma CopyForest(all: seq<Mount>, t: Tree, dentry: nat, all1: seq<Mount>)
    requires Forest(all) && Rep(all, t) && Isomorphic(all, Pre(t), dentry, all1)
    ensures Acyclic(Up(all1))
  {
    forall x: nat, n: nat | n > 0 ensures Follow(Up(all1), x, n) != Some(x) {
      if x < |all| {
        OldClimb(all, all1, x, n);
      } else if x < |all1| {
        NewClimb(all, t, dentry, all1, x, n);
      }
    }
  }
}
