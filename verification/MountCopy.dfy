/** What `copy_tree` builds (fs/namespace.c:426-454): mount number `i` of the walk becomes new
    mount number `base + i`, and `list_add` turns every list of children round. */
module MountCopy {
  import opened Lists
  import opened MountTree
  import opened MountEdit

  /** The position of `x`, or the length. */
  function IndexOf(s: seq<nat>, x: nat): (i: nat)
    ensures i <= |s| && (i < |s| ==> s[i] == x) && (x in s ==> i < |s|)
  {
    if s == [] then 0 else if s[0] == x then 0 else 1 + IndexOf(s[1..], x)
  }

  lemma IndexIs(s: seq<nat>, i: nat)
    requires NoDup(s) && i < |s|
    ensures IndexOf(s, s[i]) == i
  {
    var j := IndexOf(s, s[i]);
    assert s[i] in s;
    if j < i { NoDupApart(s, j, i); } else if i < j { NoDupApart(s, i, j); }
  }

  /** The images of those in `s` that the walk has reached after `m` mounts, last first. */
  function Imgs(pre: seq<nat>, m: nat, base: nat, s: seq<nat>): seq<nat> {
    if s == [] then []
    else
      var i := IndexOf(pre, s[0]);
      Imgs(pre, m, base, s[1..]) + if i < m then [base + i] else []
  }

  lemma {:induction false} ImgsSame(pre: seq<nat>, m: nat, base: nat, s: seq<nat>)
    requires forall y :: y in s ==> IndexOf(pre, y) != m
    ensures Imgs(pre, m + 1, base, s) == Imgs(pre, m, base, s)
  {
    if s != [] {
      assert s[0] in s;
      ImgsSame(pre, m, base, s[1..]);
    }
  }

  lemma {:induction false} ImgsNone(pre: seq<nat>, m: nat, base: nat, s: seq<nat>)
    requires forall y :: y in s ==> IndexOf(pre, y) >= m
    ensures Imgs(pre, m, base, s) == []
  {
    if s != [] {
      assert s[0] in s;
      ImgsNone(pre, m, base, s[1..]);
    }
  }

  /** The walk reaches the children of a node in list order. */
  predicate Ordered(pre: seq<nat>, s: seq<nat>) {
    forall a, b :: 0 <= a < b < |s| ==> IndexOf(pre, s[a]) < IndexOf(pre, s[b])
  }

  lemma {:induction false} ImgsNew(pre: seq<nat>, m: nat, base: nat, s: seq<nat>, k: nat)
    requires Ordered(pre, s) && k < |s| && IndexOf(pre, s[k]) == m
    ensures Imgs(pre, m + 1, base, s) == [base + m] + Imgs(pre, m, base, s)
  {
    if k == 0 {
      ImgsNone(pre, m + 1, base, s[1..]);
      ImgsNone(pre, m, base, s[1..]);
    } else {
      assert s[1..][k - 1] == s[k];
      ImgsNew(pre, m, base, s[1..], k - 1);
      assert IndexOf(pre, s[0]) < m;
    }
  }

  /** At the end every child has its image, in reverse order. */
  lemma {:induction false} ImgsAll(pre: seq<nat>, base: nat, s: seq<nat>)
    requires forall y :: y in s ==> y in pre
    ensures var r := Imgs(pre, |pre|, base, s);
            |r| == |s| && forall k :: 0 <= k < |s| ==> r[k] == base + IndexOf(pre, s[|s| - 1 - k])
  {
    if s != [] {
      assert s[0] in s;
      ImgsAll(pre, base, s[1..]);
    }
  }

  /** What mount number `i` of the walk has become after `m` mounts. */
  function Image(all: seq<Mount>, pre: seq<nat>, dentry: nat, m: nat, i: nat): Mount
    requires i < |pre| && pre[i] < |all|
  {
    var x, base := all[pre[i]], |all|;
    Mount(base + if i == 0 then 0 else IndexOf(pre, x.parent), Imgs(pre, m, base, x.kids), x.point,
          if i == 0 then dentry else x.top)
  }

  predicate Within(all: seq<Mount>, pre: seq<nat>) { forall i :: 0 <= i < |pre| ==> pre[i] < |all| }

  predicate Copied(all: seq<Mount>, pre: seq<nat>, dentry: nat, m: nat, all1: seq<Mount>) {
    && m <= |pre| && Within(all, pre) && |all1| == |all| + m && all1[..|all|] == all
    && forall i :: 0 <= i < m ==> IsImage(all, pre, dentry, m, all1, i)
  }

  predicate IsImage(all: seq<Mount>, pre: seq<nat>, dentry: nat, m: nat, all1: seq<Mount>, i: nat)
    requires Within(all, pre) && i < m <= |pre| && |all1| == |all| + m
  {
    all1[|all| + i] == Image(all, pre, dentry, m, i)
  }

  /** The lists of the source, as the walk meets them. */
  predicate Walked(all: seq<Mount>, pre: seq<nat>) {
    && NoDup(pre) && Within(all, pre)
    && (forall i :: 0 <= i < |pre| ==> WalkedAt(all, pre, i))
  }

  predicate WalkedAt(all: seq<Mount>, pre: seq<nat>, i: nat)
    requires Within(all, pre) && i < |pre|
  {
    Ordered(pre, all[pre[i]].kids) && Later(all, pre, i)
  }

  predicate Later(all: seq<Mount>, pre: seq<nat>, i: nat)
    requires Within(all, pre) && i < |pre|
  {
    forall y :: y in all[pre[i]].kids ==> i < IndexOf(pre, y) < |pre|
  }

  /** Mount number `m` is child `k` of mount number `j`, and of no other. */
  predicate ChildOf(all: seq<Mount>, pre: seq<nat>, m: nat, j: nat, k: nat)
    requires Within(all, pre)
  {
    && j < m < |pre| && k < |all[pre[j]].kids| && all[pre[j]].kids[k] == pre[m] && all[pre[m]].parent == pre[j]
    && forall i :: 0 <= i < |pre| && i != j ==> pre[m] !in all[pre[i]].kids
  }

  lemma OthersSame(all: seq<Mount>, pre: seq<nat>, m: nat, j: nat, k: nat, i: nat)
    requires Walked(all, pre) && ChildOf(all, pre, m, j, k) && i < |pre| && i != j
    ensures Imgs(pre, m + 1, |all|, all[pre[i]].kids) == Imgs(pre, m, |all|, all[pre[i]].kids)
  {
    forall y | y in all[pre[i]].kids ensures IndexOf(pre, y) != m {
      assert pre[m] !in all[pre[i]].kids && WalkedAt(all, pre, i);
    }
    ImgsSame(pre, m, |all|, all[pre[i]].kids);
  }

  /** Cloning a mount and attaching the clone adds one entry and changes one list. */
  lemma Hung(s: Table, x: Mount, q: nat, all2: seq<Mount>)
    requires q < |s.all| && x.point < |s.mounted|
    requires all2 == Attach(Clone(s, x.top, x.top), |s.all|, q, x.point).all
    ensures |all2| == |s.all| + 1 && all2[|s.all|] == Mount(q, [], x.point, x.top)
    ensures all2[q] == s.all[q].(kids := [|s.all|] + s.all[q].kids)
    ensures forall i :: 0 <= i < |s.all| && i != q ==> all2[i] == s.all[i]
  {
  }

  lemma ImageStep(all: seq<Mount>, pre: seq<nat>, dentry: nat, m: nat, j: nat, k: nat, i: nat)
    requires Walked(all, pre) && 0 < m && ChildOf(all, pre, m, j, k) && i <= m
    ensures var was, now := Image(all, pre, dentry, m, i), Image(all, pre, dentry, m + 1, i);
            && (i == j ==> now == was.(kids := [|all| + m] + was.kids))
            && (i != j ==> now == was)
            && (i == m ==> now == Mount(|all| + j, [], all[pre[m]].point, all[pre[m]].top))
  {
    IndexIs(pre, j);
    IndexIs(pre, m);
    if i == j {
      assert WalkedAt(all, pre, j);
      ImgsNew(pre, m, |all|, all[pre[j]].kids, k);
    } else {
      OthersSame(all, pre, m, j, k, i);
    }
    if i == m {
      assert WalkedAt(all, pre, m);
      ImgsNone(pre, m, |all|, all[pre[m]].kids);
    }
  }

  /** Cloning the next mount and attaching it to the image of its parent. */
  lemma CopyStep(all: seq<Mount>, pre: seq<nat>, dentry: nat, m: nat, j: nat, k: nat, s: Table)
    requires Walked(all, pre) && 0 < m && ChildOf(all, pre, m, j, k) && Copied(all, pre, dentry, m, s.all)
    requires all[pre[m]].point < |s.mounted|
    ensures var s1 := Clone(s, all[pre[m]].top, all[pre[m]].top);
            Copied(all, pre, dentry, m + 1, Attach(s1, |all| + m, |all| + j, all[pre[m]].point).all)
  {
    var base, m1 := |all|, m + 1;
    var all2 := Attach(Clone(s, all[pre[m]].top, all[pre[m]].top), base + m, base + j, all[pre[m]].point).all;
    Hung(s, all[pre[m]], base + j, all2);
    assert all2[..base] == s.all[..base];
    forall i | 0 <= i < m1 ensures IsImage(all, pre, dentry, m1, all2, i) {
      ImageStep(all, pre, dentry, m, j, k, i);
      if i < m { assert IsImage(all, pre, dentry, m, s.all, i); }
    }
  }

  // ---------------------------------------------------------------- the source tree

  lemma KidIndex(all: seq<Mount>, t: Tree, i: nat, p: Path, k: nat)
    requires Rep(all, t) && NoDup(Pre(t)) && IsPath(t, p) && |Before(t, p)| == i < |Pre(t)| && k < |Sub(t, p).kids|
    ensures Sub(t, p).id < |all| && k < |all[Sub(t, p).id].kids| && IsPath(t, p + [k])
    ensures IndexOf(Pre(t), all[Sub(t, p).id].kids[k]) == |Before(t, p + [k])| < |Pre(t)|
    ensures |Before(t, p + [k])| == i + 1 + |PreUpto(Sub(t, p), k)|
  {
    RepSub(all, t, p);
    assert IsKid(all, Sub(t, p), k);
    Down(t, p, k);
    Stands(t, p + [k]);
    IndexIs(Pre(t), |Before(t, p + [k])|);
  }

  lemma NodeWalked(all: seq<Mount>, t: Tree, i: nat)
    requires Rep(all, t) && NoDup(Pre(t)) && i < |Pre(t)| && Within(all, Pre(t))
    ensures WalkedAt(all, Pre(t), i)
  {
    var p := PathAt(t, i);
    RepSub(all, t, p);
    var u := Sub(t, p);
    var s := all[u.id].kids;
    forall a, b | 0 <= a < b < |s| ensures IndexOf(Pre(t), s[a]) < IndexOf(Pre(t), s[b]) {
      KidIndex(all, t, i, p, a);
      KidIndex(all, t, i, p, b);
      UptoGrows(u, a, b);
    }
    forall y | y in s ensures i < IndexOf(Pre(t), y) < |Pre(t)| {
      var k :| 0 <= k < |s| && s[k] == y;
      KidIndex(all, t, i, p, k);
    }
  }

  lemma TreeWalked(all: seq<Mount>, t: Tree)
    requires Rep(all, t) && NoDup(Pre(t))
    ensures Walked(all, Pre(t))
  {
    forall i | 0 <= i < |Pre(t)| ensures Pre(t)[i] < |all| { InBounds(all, t, i); }
    forall i | 0 <= i < |Pre(t)| ensures WalkedAt(all, Pre(t), i) {
      NodeWalked(all, t, i);
    }
  }

  /** The mount at `q` and its parent. */
  lemma TreeChild(all: seq<Mount>, t: Tree, q: Path)
    requires Rep(all, t) && Linked(all) && NoDup(Pre(t)) && IsPath(t, q) && q != []
    ensures IsPath(t, q[..|q| - 1]) && Within(all, Pre(t))
    ensures ChildOf(all, Pre(t), |Before(t, q)|, |Before(t, q[..|q| - 1])|, q[|q| - 1])
  {
    TreeWalked(all, t);
    var pre, f := Pre(t), q[..|q| - 1];
    RepKid(all, t, q);
    AncestorFirst(t, q, |q| - 1);
    Stands(t, q);
    Stands(t, f);
    var j := |Before(t, f)|;
    var x := Sub(t, q).id;
    forall i | 0 <= i < |pre| && i != j ensures x !in all[pre[i]].kids {
      assert ListOk(all, pre[i]);
      if i < j { NoDupApart(pre, i, j); } else { NoDupApart(pre, j, i); }
    }
  }

  // ---------------------------------------------------------------- the result

  /** `all1` holds, from `|all|` on, a copy of the mounts `pre` of `all`: the same shape, mount
      points and roots, with every list of children in the opposite order; the first one has
      the root `dentry` and hangs nowhere. */
  predicate Isomorphic(all: seq<Mount>, pre: seq<nat>, dentry: nat, all1: seq<Mount>) {
    && Within(all, pre) && |all1| == |all| + |pre| && all1[..|all|] == all
    && forall i :: 0 <= i < |pre| ==> Mirrors(all, pre, dentry, all1, i)
  }

  predicate Mirrors(all: seq<Mount>, pre: seq<nat>, dentry: nat, all1: seq<Mount>, i: nat)
    requires Within(all, pre) && i < |pre| && |all1| == |all| + |pre|
  {
    var x, y, base := all[pre[i]], all1[|all| + i], |all|;
    && y.point == x.point
    && (if i == 0 then y.parent == base && y.top == dentry
        else x.parent in pre && y.parent == base + IndexOf(pre, x.parent) && y.top == x.top)
    && |y.kids| == |x.kids|
    && forall k :: 0 <= k < |x.kids| ==> x.kids[k] in pre && y.kids[|x.kids| - 1 - k] == base + IndexOf(pre, x.kids[k])
  }

  lemma CopiedIsIsomorphic(all: seq<Mount>, t: Tree, dentry: nat, all1: seq<Mount>)
    requires Rep(all, t) && NoDup(Pre(t)) && Copied(all, Pre(t), dentry, |Pre(t)|, all1)
    ensures Isomorphic(all, Pre(t), dentry, all1)
  {
    var pre := Pre(t);
    TreeWalked(all, t);
    forall i | 0 <= i < |pre| ensures Mirrors(all, pre, dentry, all1, i) {
      assert IsImage(all, pre, dentry, |pre|, all1, i) && WalkedAt(all, pre, i);
      var s := all[pre[i]].kids;
      forall y | y in s ensures y in pre { assert pre[IndexOf(pre, y)] == y; }
      ImgsAll(pre, |all|, s);
      if i > 0 { ParentEarlier(all, t, i); }
      forall k | 0 <= k < |s| ensures all1[|all| + i].kids[|s| - 1 - k] == |all| + IndexOf(pre, s[k]) {
        assert |s| - 1 - (|s| - 1 - k) == k;
      }
    }
  }
}
