/** The walk over mounts and what is built on it (fs/namespace.c:106-158, 266-290, 426-454),
    with the links updated in place. The tree `t` and the position `path` only say where the
    walk is; the code sees links alone. */
module MountTable {
  import opened Common
  import opened Lists
  import opened MountTree
  import opened MountEdit
  import opened MountCopy
  import opened MountForest

  function Elems(s: seq<nat>): set<nat> { set x | x in s }

  class MountTable {
    var all: seq<Mount>
    var mounted: seq<int>

    ghost function Model(): Table
      reads this
    {
      Table(all, mounted)
    }

    /** `next_mnt`: down if there are children, otherwise up to the next sibling. */
    method NextMnt(start: nat, root: nat, ghost t: Tree, ghost path: Path) returns (next: Option<nat>)
      requires Rep(all, t) && NoDup(Pre(t)) && IsPath(t, path) && start == Sub(t, path).id && root == t.id
      ensures match NextPath(t, path)
              case None => next == None
              case Some(q) => IsPath(t, q) && next == Some(Sub(t, q).id)
    {
      NextExact(t, path);
      RepSub(all, t, path);
      var p := start;
      if |all[p].kids| > 0 {
        assert IsKid(all, Sub(t, path), 0);
        Down(t, path, 0);
        return Some(all[p].kids[0]);
      }
      ghost var at := path;
      while true
        invariant IsPath(t, at) && p == Sub(t, at).id && UpNext(t, at) == UpNext(t, path)
        decreases |at|
      {
        RootOnly(t, at);
        if p == root {
          return None;
        }
        NextSibling(all, t, at);
        RepKid(all, t, at);
        next := NextIn(all[all[p].parent].kids, p);
        if next.Some? {
          Down(t, Front(at), Last(at) + 1);
          return;
        }
        p := all[p].parent;
        at := Front(at);
      }
    }

    /** The first loop of `umount_tree`: every mount of the subtree goes on the kill list once,
        the last in pre-order at its head. */
    method Collect(mnt: nat, ghost t: Tree) returns (kill: seq<nat>)
      requires Rep(all, t) && NoDup(Pre(t)) && mnt == t.id
      ensures kill == Reversed(Pre(t))
    {
      ghost var path: Path := [];
      ghost var seen: seq<nat> := [];
      var p := Some(mnt);
      kill := [];
      while p.Some?
        invariant p.Some? ==> IsPath(t, path) && p.value == Sub(t, path).id && seen == Before(t, path)
        invariant p.None? ==> seen == Pre(t)
        invariant kill == Reversed(seen)
        decreases p.Some?, |Pre(t)| - |seen|
      {
        Stands(t, path);
        NextExact(t, path);
        kill := [p.value] + kill;
        var next := NextMnt(p.value, mnt, t, path);
        assert (seen + [p.value])[..|seen|] == seen;
        seen := seen + [p.value];
        if next.Some? {
          path := NextPath(t, path).value;
        }
        p := next;
      }
    }

    /** `detach_mnt`. */
    method DetachMnt(x: nat)
      requires Inv(Model()) && x < |all| && all[x].parent != x
      modifies this
      ensures Inv(Model()) && old(all)[x].point < |old(mounted)| && Model() == Detach(old(Model()), x)
    {
      DetachKeeps(Model(), x);
      var pp, d := all[x].parent, all[x].point;
      all := all[pp := all[pp].(kids := Without(all[pp].kids, x))];
      all := all[x := all[x].(parent := x, point := all[x].top)];
      mounted := mounted[d := mounted[d] - 1];
    }

    /** `attach_mnt`. */
    method AttachMnt(x: nat, q: nat, d: nat)
      requires Inv(Model()) && x < |all| && q < |all| && d < |mounted| && x != q && all[x].parent == x
      modifies this
      ensures Inv(Model()) && Model() == Attach(old(Model()), x, q, d)
    {
      AttachKeeps(Model(), x, q, d);
      all := all[x := all[x].(parent := q, point := d)];
      all := all[q := all[q].(kids := [x] + all[q].kids)];
      mounted := mounted[d := mounted[d] + 1];
    }

    /** One round of the second loop of `umount_tree`, on mount number `j` in pre-order: a leaf
        by now. */
    method Kill(x: nat, ghost t: Tree, ghost all0: seq<Mount>, ghost j: nat)
      requires Inv(Model()) && Linked(all0) && Rep(all0, t) && NoDup(Pre(t))
      requires j < |Pre(t)| && x == Pre(t)[j] && Stripped(all0, Elems(Pre(t)[j + 1..]), all)
      modifies this
      ensures Inv(Model()) && x < |old(all)| && old(all)[x].kids == []
      ensures Stripped(all0, Elems(Pre(t)[j..]), all)
    {
      ghost var gone := Elems(Pre(t)[j + 1..]);
      assert Elems(Pre(t)[j..]) == gone + {x} by { assert Pre(t)[j..] == [x] + Pre(t)[j + 1..]; }
      InBounds(all0, t, j);
      LeafNow(all0, t, j, all);
      if all[x].parent == x {
        StripRoot(all0, gone, all, x);
      } else {
        ghost var m := Model();
        DetachMnt(x);
        StripOne(all0, gone, m, x);
      }
    }

    /** `umount_tree`: detaches exactly the subtree, children before parents, and keeps every
        `d_mounted` right. */
    method UmountTree(mnt: nat, ghost t: Tree)
      requires Inv(Model()) && Rep(all, t) && NoDup(Pre(t)) && mnt == t.id
      modifies this
      ensures Inv(Model()) && Stripped(old(all), Elems(Pre(t)), all)
      ensures forall x :: x in Pre(t) ==> x < |all| && all[x].kids == [] && all[x].parent == x
    {
      var kill := Collect(mnt, t);
      ghost var j := |Pre(t)|;
      StrippedNone(all);
      assert Pre(t)[..j] == Pre(t) && Elems(Pre(t)[j..]) == {};
      while kill != []
        invariant 0 <= j <= |Pre(t)| && kill == Reversed(Pre(t)[..j])
        invariant Inv(Model()) && Stripped(old(all), Elems(Pre(t)[j..]), all)
        decreases |kill|
      {
        j := j - 1;
        assert Pre(t)[..j + 1][..j] == Pre(t)[..j];
        var x := kill[0];
        kill := kill[1..];
        Kill(x, t, old(all), j);
      }
      assert Pre(t)[0..] == Pre(t);
      AllAlone(old(all), t, all);
    }

    /** Whatever the tree: `umount_tree` detaches exactly what is at or below `mnt`. */
    method Umount(mnt: nat)
      requires Inv(Model()) && Forest(all) && mnt < |all|
      modifies this
      ensures Inv(Model()) && Forest(all) && Stripped(old(all), Under(old(all), mnt), all)
      ensures forall x :: x in Under(old(all), mnt) ==> x < |all| && all[x].kids == [] && all[x].parent == x
    {
      ghost var t := TreeExists(all, mnt);
      SubtreeExact(all, t);
      UmountTree(mnt, t);
      assert Elems(Pre(t)) == Under(old(all), mnt);
      StrippedForest(old(all), Elems(Pre(t)), all);
    }

    /** The climb in `copy_tree`: the source and its copy go up together until the source is the
        parent of the next mount, which is `n` levels below the root. */
    method Climb(p0: nat, q0: nat, next: nat, ghost all0: seq<Mount>, ghost t: Tree, ghost dentry: nat,
                 ghost path: Path, ghost m: nat, ghost n: nat) returns (q: nat)
      requires Rep(all0, t) && NoDup(Pre(t)) && Copied(all0, Pre(t), dentry, m, all)
      requires IsPath(t, path) && |Before(t, path)| < m && p0 == Sub(t, path).id && q0 == |all0| + |Before(t, path)|
      requires next < |all0| && n <= |path| && IsPath(t, path[..n]) && all0[next].parent == Sub(t, path[..n]).id
      ensures q == |all0| + |Before(t, path[..n])|
    {
      var p := p0;
      q := q0;
      ghost var k := |path|;
      assert path[..k] == path;
      assert all[next] == all0[next] by { assert all[..|all0|][next] == all[next]; }
      while p != all[next].parent
        invariant n <= k <= |path| && IsPath(t, path[..k]) && |Before(t, path[..k])| < m
        invariant p == Sub(t, path[..k]).id && q == |all0| + |Before(t, path[..k])|
        decreases k
      {
        ClimbOne(all0, t, dentry, path, k, m, all);
        p := all[p].parent;
        q := all[q].parent;
        k := k - 1;
      }
      SameNode(t, path, n, k);
    }

    /** `clone_mnt`. */
    method CloneMnt(top: nat, point: nat) returns (x: nat)
      requires Inv(Model())
      modifies this`all
      ensures Inv(Model()) && x == |old(all)| && Model() == Clone(old(Model()), top, point)
    {
      CloneKeeps(Model(), top, point);
      x := |all|;
      all := all + [Mount(x, [], point, top)];
    }

    /** One round of the loop of `copy_tree`, on the mount `next` at position `path1`. */
    method CopyNext(p: nat, q: nat, next: nat, ghost all0: seq<Mount>, ghost t: Tree, ghost dentry: nat,
                    ghost path: Path, ghost path1: Path)
      returns (q1: nat)
      requires Inv(Model()) && Linked(all0) && Rep(all0, t) && NoDup(Pre(t))
      requires Midway(all0, t, dentry, path, p, q, all) && IsNext(t, path, path1) && next == Sub(t, path1).id
      modifies this
      ensures Inv(Model()) && Midway(all0, t, dentry, path1, next, q1, all)
    {
      ghost var m, n := |Before(t, path1)|, |path1| - 1;
      NextFacts(all0, t, path, path1);
      Unchanged(all0, all, next);
      var q2 := Climb(p, q, next, all0, t, dentry, path, m, n);
      q1 := Hang(next, q2, all0, t, dentry, m, |Before(t, path[..n])|, path1[n]);
    }

    /** Clones mount number `m` of the walk and attaches the clone to that of mount number `j`. */
    method Hang(next: nat, q: nat, ghost all0: seq<Mount>, ghost t: Tree, ghost dentry: nat, ghost m: nat,
                ghost j: nat, ghost k: nat)
      returns (q1: nat)
      requires Inv(Model()) && Walked(all0, Pre(t)) && 0 < m && ChildOf(all0, Pre(t), m, j, k)
      requires Copied(all0, Pre(t), dentry, m, all) && next == Pre(t)[m] && q == |all0| + j
      modifies this
      ensures Inv(Model()) && q1 == |all0| + m && Copied(all0, Pre(t), dentry, m + 1, all)
    {
      Unchanged(all0, all, next);
      var point, top := all[next].point, all[next].top;
      NoDupApart(Pre(t), j, m);
      assert all[next].parent != next && point < |mounted|;
      CopyStep(all0, Pre(t), dentry, m, j, k, Model());
      q1 := CloneMnt(top, top);
      AttachMnt(q1, q, point);
    }

    /** `copy_tree`: a tree of new mounts of the same shape, next to an unchanged source. */
    method CopyTree(mnt: nat, dentry: nat, ghost t: Tree) returns (res: nat)
      requires Inv(Model()) && Rep(all, t) && NoDup(Pre(t)) && mnt == t.id
      modifies this
      ensures Inv(Model()) && res == |old(all)| && Isomorphic(old(all), Pre(t), dentry, all)
    {
      ghost var all0 := all;
      res := CloneMnt(dentry, all[mnt].point);
      FirstCopied(all0, t, dentry, all);
      var p, q, more := mnt, res, true;
      ghost var path: Path := [];
      while more
        invariant Inv(Model()) && Midway(all0, t, dentry, path, p, q, all)
        invariant !more ==> |Before(t, path)| + 1 == |Pre(t)|
        decreases more, |Pre(t)| - |Before(t, path)|
      {
        RepFrame(all0, t, all);
        var next := NextMnt(p, mnt, t, path);
        NextExact(t, path);
        if next.None? {
          more := false;
        } else {
          ghost var path1 := NextPath(t, path).value;
          q := CopyNext(p, q, next.value, all0, t, dentry, path, path1);
          p := next.value;
          Stands(t, path1);
          path := path1;
        }
      }
      CopiedIsIsomorphic(all0, t, dentry, all);
    }

    /** Whatever the tree: `copy_tree` copies exactly what is at or below `mnt`. */
    method Copy(mnt: nat, dentry: nat) returns (res: nat, ghost pre: seq<nat>)
      requires Inv(Model()) && Forest(all) && mnt < |all|
      modifies this
      ensures Inv(Model()) && Forest(all) && res == |old(all)|
      ensures Elems(pre) == Under(old(all), mnt) && NoDup(pre) && Isomorphic(old(all), pre, dentry, all)
    {
      ghost var t := TreeExists(all, mnt);
      SubtreeExact(all, t);
      pre := Pre(t);
      res := CopyTree(mnt, dentry, t);
      CopyForest(old(all), t, dentry, all);
    }
  }

  /** The copy has got as far as position `path`, and `q` is the image of `p`. */
  ghost predicate Midway(all0: seq<Mount>, t: Tree, dentry: nat, path: Path, p: nat, q: nat, all: seq<Mount>) {
    && IsPath(t, path) && p == Sub(t, path).id && q == |all0| + |Before(t, path)|
    && Copied(all0, Pre(t), dentry, |Before(t, path)| + 1, all)
  }

  ghost predicate IsNext(t: Tree, path: Path, path1: Path)
    requires IsPath(t, path)
  {
    IsPath(t, path1) && Hangs(path, path1) && |Before(t, path1)| == |Before(t, path)| + 1
  }

  lemma NextFacts(all0: seq<Mount>, t: Tree, path: Path, path1: Path)
    requires Linked(all0) && Rep(all0, t) && NoDup(Pre(t)) && IsPath(t, path) && IsNext(t, path, path1)
    ensures var m, n, next := |Before(t, path1)|, |path1| - 1, Sub(t, path1).id;
            && n <= |path| && IsPath(t, path[..n]) && next < |all0| && all0[next].parent == Sub(t, path[..n]).id
            && Walked(all0, Pre(t)) && m < |Pre(t)| && Pre(t)[m] == next
            && ChildOf(all0, Pre(t), m, |Before(t, path[..n])|, path1[n])
  {
    RepKid(all0, t, path1);
    TreeWalked(all0, t);
    TreeChild(all0, t, path1);
    Stands(t, path1);
  }

  lemma Unchanged(all0: seq<Mount>, all: seq<Mount>, x: nat)
    requires |all0| <= |all| && all[..|all0|] == all0 && x < |all0|
    ensures all[x] == all0[x]
  {
    assert all[..|all0|][x] == all[x];
  }

  lemma FirstCopied(all0: seq<Mount>, t: Tree, dentry: nat, all: seq<Mount>)
    requires Rep(all0, t) && NoDup(Pre(t)) && all == all0 + [Mount(|all0|, [], all0[t.id].point, dentry)]
    ensures Copied(all0, Pre(t), dentry, 1, all)
  {
    TreeWalked(all0, t);
    assert WalkedAt(all0, Pre(t), 0);
    ImgsNone(Pre(t), 1, |all0|, all0[t.id].kids);
    assert all[..|all0|] == all0;
    forall i | 0 <= i < 1 ensures IsImage(all0, Pre(t), dentry, 1, all, i) { }
  }

  /** New mounts behind the old ones leave the tree as it is. */
  lemma {:induction false} RepFrame(all0: seq<Mount>, t: Tree, all: seq<Mount>)
    requires Rep(all0, t) && |all0| <= |all| && all[..|all0|] == all0
    ensures Rep(all, t)
  {
    assert forall i :: 0 <= i < |all0| ==> all[i] == all[..|all0|][i];
    forall k | 0 <= k < |t.kids| ensures Rep(all, t.kids[k]) && IsKid(all, t, k) {
      assert IsKid(all0, t, k);
      RepFrame(all0, t.kids[k], all);
    }
  }

  lemma AllAlone(all0: seq<Mount>, t: Tree, all: seq<Mount>)
    requires Rep(all0, t) && Stripped(all0, Elems(Pre(t)), all)
    ensures forall x :: x in Pre(t) ==> x < |all| && all[x].kids == [] && all[x].parent == x
  {
    forall x | x in Pre(t) ensures x < |all| && all[x].kids == [] && all[x].parent == x {
      var i :| 0 <= i < |Pre(t)| && Pre(t)[i] == x;
      InBounds(all0, t, i);
      AllGone(all0, t, i);
      assert all[x] == Bare(all0, Elems(Pre(t)), x);
    }
  }

  lemma AllGone(all: seq<Mount>, t: Tree, i: nat)
    requires Rep(all, t) && i < |Pre(t)| && Pre(t)[i] < |all|
    ensures Minus(all[Pre(t)[i]].kids, Elems(Pre(t)[i + 1..])) == []
    ensures Minus(all[Pre(t)[i]].kids, Elems(Pre(t))) == []
  {
    var x := Pre(t)[i];
    forall y | y in all[x].kids ensures y in Elems(Pre(t)[i + 1..]) && y in Elems(Pre(t)) { KidsLater(all, t, i, y); }
    MinusAll(all[x].kids, Elems(Pre(t)[i + 1..]));
    MinusAll(all[x].kids, Elems(Pre(t)));
  }

  /** When the turn of a mount comes, nothing is mounted below it any more, and it is still
      attached where it was. */
  lemma LeafNow(all0: seq<Mount>, t: Tree, j: nat, all: seq<Mount>)
    requires Rep(all0, t) && NoDup(Pre(t)) && j < |Pre(t)| && Pre(t)[j] < |all0|
    requires Stripped(all0, Elems(Pre(t)[j + 1..]), all)
    ensures var x := Pre(t)[j];
            all[x].kids == [] && all[x].parent == all0[x].parent && x !in Elems(Pre(t)[j + 1..])
  {
    AllGone(all0, t, j);
    NotLater(Pre(t), j);
    var x := Pre(t)[j];
    assert all[x] == Bare(all0, Elems(Pre(t)[j + 1..]), x);
  }

  /** Above the root there is nothing to climb to, and below it parent links lead to the same
      position in the source and in the copy. */
  lemma ClimbOne(all0: seq<Mount>, t: Tree, dentry: nat, path: Path, k: nat, m: nat, all: seq<Mount>)
    requires Rep(all0, t) && NoDup(Pre(t)) && Copied(all0, Pre(t), dentry, m, all)
    requires 0 < k <= |path| && IsPath(t, path[..k]) && |Before(t, path[..k])| < m
    ensures IsPath(t, path[..k - 1]) && |Before(t, path[..k - 1])| < |Before(t, path[..k])|
    ensures var p, q := Sub(t, path[..k]).id, |all0| + |Before(t, path[..k])|;
            && p < |all| && q < |all| && all[p].parent == Sub(t, path[..k - 1]).id
            && all[q].parent == |all0| + |Before(t, path[..k - 1])|
  {
    var at := path[..k];
    assert at[..k - 1] == path[..k - 1];
    RepKid(all0, t, at);
    AncestorFirst(t, at, k - 1);
    Stands(t, at);
    Stands(t, path[..k - 1]);
    var p, i := Sub(t, at).id, |Before(t, at)|;
    assert all[..|all0|][p] == all[p];
    assert IsImage(all0, Pre(t), dentry, m, all, i);
    IndexIs(Pre(t), |Before(t, path[..k - 1])|);
  }

  lemma SameNode(t: Tree, path: Path, n: nat, k: nat)
    requires NoDup(Pre(t)) && n <= k <= |path| && IsPath(t, path[..n]) && IsPath(t, path[..k])
    requires Sub(t, path[..n]).id == Sub(t, path[..k]).id
    ensures n == k
  {
    Stands(t, path[..n]);
    Stands(t, path[..k]);
    assert path[..k][..n] == path[..n];
    if n < k {
      AncestorFirst(t, path[..k], n);
      NoDupApart(Pre(t), |Before(t, path[..n])|, |Before(t, path[..k])|);
    }
  }
}
