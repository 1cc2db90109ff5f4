/** What `posix_lock_file` guarantees of a whole list, and exactly when. */
module PosixLockFile {
  import opened PosixLocks
  import opened LockEdit
  import opened LockSafety
  import opened LockRefinement

  /** The caller already holds a lock of the requested type that touches or overlaps a
      request reaching the largest offset. There `caller->fl_end + 1` wraps and the loop
      stops as if the lock lay beyond the request (fs/locks.c:923). */
  ghost predicate TailClash(l: seq<Lock>, r: Request) {
    && r.end == OFFSET_MAX && r.typ != UnLck
    && exists x :: x in l && x.owner == r.owner && x.typ == r.typ && x.end >= r.start - 1
  }

  // ---------------------------------------------------------------- splitting a canonical list

  function RunEnd(l: seq<Lock>, k: nat, o: Owner): (e: nat)
    requires k <= |l|
    ensures k <= e <= |l| && (e < |l| ==> l[e].owner != o)
    ensures forall i :: k <= i < e ==> l[i].owner == o
    decreases |l| - k
  {
    if k == |l| || l[k].owner != o then k else RunEnd(l, k + 1, o)
  }

  function Split3(l: seq<Lock>, o: Owner): Parts {
    var k := FirstOwn(l, o);
    var e := RunEnd(l, k, o);
    Parts(l[..k], [], [], l[k..e], l[e..])
  }

  lemma {:induction false} SortedRun(l: seq<Lock>, o: Owner)
    requires Sorted(l) && forall x :: x in l ==> x.owner == o && WellFormed(x)
    ensures Run(l, o)
  {
    if l != [] {
      forall y | y in l[1..] ensures Gap(l[0], y) {
        var i :| 0 <= i < |l[1..]| && l[1..][i] == y;
        assert l[i + 1] == y;
      }
      forall x | x in l[1..] ensures x in l {}
      assert l[0] in l;
      SortedRun(l[1..], o);
    }
  }

  lemma {:induction false} RunSorted(l: seq<Lock>, o: Owner)
    requires Run(l, o)
    ensures Sorted(l) && forall x :: x in l ==> x.owner == o && WellFormed(x)
  {
    if l != [] {
      RunSorted(l[1..], o);
      forall i, j | 0 <= i < j < |l| ensures Gap(l[i], l[j]) {
        assert l[j] == l[1..][j - 1];
        if i > 0 { assert l[i] == l[1..][i - 1]; }
      }
    }
  }

  lemma SliceRun(l: seq<Lock>, k: nat, e: nat, o: Owner)
    requires Canonical(l) && k <= e <= |l|
    requires forall i :: k <= i < e ==> l[i].owner == o
    ensures Run(l[k..e], o)
  {
    var m := l[k..e];
    assert forall i :: 0 <= i < |m| ==> m[i] == l[k + i];
    forall x | x in m ensures x.owner == o && WellFormed(x) {
      assert x in l;
    }
    SortedRun(m, o);
  }

  lemma ForeignTail(l: seq<Lock>, k: nat, e: nat, o: Owner)
    requires Contiguous(l) && k <= e <= |l|
    requires e < |l| ==> k < e && l[e].owner != o && l[k].owner == o
    ensures Foreign(l[e..], o)
  {
    forall j | e < j < |l| ensures l[j].owner != o {
      assert Between(l, k, e, j) || l[k].owner != l[j].owner;
    }
  }

  /** The caller's locks are one run; nothing follows an empty one. */
  lemma SplitCanonical(l: seq<Lock>, o: Owner)
    requires Canonical(l)
    ensures var q := Split3(l, o);
            && l == q.pre + q.run + q.post && Foreign(q.pre, o) && Foreign(q.post, o) && Run(q.run, o)
            && (q.run == [] ==> q.post == [])
  {
    var k := FirstOwn(l, o);
    var e := RunEnd(l, k, o);
    SliceRun(l, k, e, o);
    ForeignTail(l, k, e, o);
    assert l == l[..k] + l[k..e] + l[e..];
    assert k < |l| ==> k < e;
  }

  /** Another run of the same owner in the same place keeps the list canonical. */
  lemma ReplaceRun(pre: seq<Lock>, run: seq<Lock>, run1: seq<Lock>, post: seq<Lock>, o: Owner)
    requires Canonical(pre + run + post) && Run(run, o) && Run(run1, o)
    requires Foreign(pre, o) && Foreign(post, o) && (run == [] ==> post == [])
    ensures Canonical(pre + run1 + post)
  {
    var l, m := pre + run + post, pre + run1 + post;
    RunSorted(run1, o);
    RunSorted(run, o);
    var a, e, d := |pre|, |pre| + |run1|, |run| - |run1|;
    forall x | x in m ensures WellFormed(x) { assert x in run1 || x in l; }
    assert forall i :: a <= i < e ==> m[i] == run1[i - a] && m[i].owner == o;
    forall i | 0 <= i < |m| && !(a <= i < e)
      ensures m[i] == l[if i < a then i else i + d] && m[i].owner != o
    {
      assert m[i] in pre || m[i] in post;
    }
    forall i, k, j | Between(m, i, k, j) ensures m[k].owner == m[i].owner {
      if m[i].owner != o {
        assert Between(l, if i < a then i else i + d, if k < a then k else if k < e then a else k + d,
                       if j < a then j else j + d);
      }
    }
    forall i, j | 0 <= i < j < |m| && m[i].owner == m[j].owner ensures Gap(m[i], m[j]) {
      if m[i].owner != o {
        assert Gap(l[if i < a then i else i + d], l[if j < a then j else j + d]);
      }
    }
  }

  // ---------------------------------------------------------------- the main results

  lemma StartShape(l: seq<Lock>, r: Request)
    requires Canonical(l) && r.Valid() && !TailClash(l, r)
    ensures Shape(Start(l, r), Split3(l, r.owner), r.owner, r.typ)
  {
    var q, c := Split3(l, r.owner), Start(l, r);
    SplitCanonical(l, r.owner);
    RunSorted(q.run, r.owner);
    assert c.rest == q.run + q.post;
    assert c.done == q.pre + q.low + q.lft + [];
    forall x | x in c.done || x in c.rest ensures WellFormed(x) {}
  }

  /** Unless the wrap bites, the new list is canonical and every byte of every owner holds
      exactly what fcntl() is specified to leave. */
  lemma ApplyRefines(l: seq<Lock>, r: Request, newId: nat)
    requires Canonical(l) && r.Valid() && !TailClash(l, r)
    ensures Canonical(Apply(l, r, newId).list)
    ensures forall o, b :: TypesAt(Apply(l, r, newId).list, o, b) == SpecAt(l, r, o, b)
  {
    var q, c, l1 := Split3(l, r.owner), Start(l, r), Apply(l, r, newId).list;
    SplitCanonical(l, r.owner);
    StartShape(l, r);
    var run := WalkRefines(c, q, r.owner, r.typ, newId, 0);
    ReplaceRun(q.pre, q.run, run, q.post, r.owner);
    forall o, b ensures TypesAt(l1, o, b) == SpecAt(l, r, o, b) {
      ApplyTypes(l, r, newId, o, b);
    }
  }

  lemma ApplyTypes(l: seq<Lock>, r: Request, newId: nat, o: Owner, b: int)
    requires Canonical(l) && r.Valid() && !TailClash(l, r)
    ensures TypesAt(Apply(l, r, newId).list, o, b) == SpecAt(l, r, o, b)
  {
    if o != r.owner {
      assert forall x :: x in l ==> WellFormed(x);
      ApplyGrants(l, r, newId, o, b);
    } else {
      SplitCanonical(l, r.owner);
      StartShape(l, r);
      WalkTypes(l, r, newId, b);
    }
  }

  lemma WalkTypes(l: seq<Lock>, r: Request, newId: nat, b: int)
    requires r.Valid() && Shape(Start(l, r), Split3(l, r.owner), r.owner, r.typ)
    ensures TypesAt(Apply(l, r, newId).list, r.owner, b) == SpecAt(l, r, r.owner, b)
  {
    var q, c := Split3(l, r.owner), Start(l, r);
    var run := WalkRefines(c, q, r.owner, r.typ, newId, b);
    OwnTypes(q.pre, run, q.post, r.owner, b);
    StartOverlay(l, r, b);
  }

  lemma StartOverlay(l: seq<Lock>, r: Request, b: int)
    ensures Overlay(Start(l, r), r.owner, r.typ, b) == SpecAt(l, r, r.owner, b)
  {
    var c := Start(l, r);
    assert l == c.done + c.rest;
    TypesConcat(c.done, c.rest, r.owner, b);
  }

  lemma OwnTypes(pre: seq<Lock>, run: seq<Lock>, post: seq<Lock>, o: Owner, b: int)
    requires Foreign(pre, o) && Foreign(post, o)
    ensures TypesAt(pre + run + post, o, b) == TypesAt(run, o, b)
  {
    TypesConcat(pre + run, post, o, b);
    TypesConcat(pre, run, o, b);
    TypesNone(pre, o, b);
    TypesNone(post, o, b);
  }

  // ---------------------------------------------------------------- exactly when

  /** The lock that stops the loop by the wrap. */
  predicate Clashes(x: Lock, r: Request) {
    x.owner == r.owner && x.typ == r.typ && x.end >= r.start - 1
  }

  /** From such a lock on, the loop looks at nothing any more. */
  lemma {:induction false} WalkTail(c: Cursor, tail: seq<Lock>, r: Request, newId: nat)
    requires r.typ != UnLck && c.start == r.start && c.end == r.end == OFFSET_MAX
    requires forall x :: x in c.rest ==> x.owner == r.owner && WellFormed(x) && !Clashes(x, r)
    requires tail != [] && Clashes(tail[0], r) && tail[0].start >= 0
    ensures Walk(c.(rest := c.rest + tail), r.owner, r.typ, newId).list == Walk(c, r.owner, r.typ, newId).list + tail
    decreases |c.rest|
  {
    var c1 := c.(rest := c.rest + tail);
    if c.rest == [] {
      assert c1.rest == tail;
      assert Next(c1, r.owner, r.typ) == Stop(c1, false);
      assert Next(c, r.owner, r.typ) == Stop(c, false);
    } else {
      assert c.rest[0] in c.rest;
      assert c1.rest[1..] == c.rest[1..] + tail;
      var d := Next(c, r.owner, r.typ).c;
      assert Next(c1, r.owner, r.typ) == Go(d.(rest := d.rest + tail));
      WalkTail(d, tail, r, newId);
    }
  }

  /** The first lock that clashes. */
  lemma FirstClash(l: seq<Lock>, r: Request) returns (n: nat)
    requires TailClash(l, r)
    ensures n < |l| && Clashes(l[n], r) && forall i :: 0 <= i < n ==> !Clashes(l[i], r)
  {
    n := 0;
    while !Clashes(l[n], r)
      invariant n < |l| && forall i :: 0 <= i < n ==> !Clashes(l[i], r)
      invariant exists i :: n <= i < |l| && Clashes(l[i], r)
      decreases |l| - n
    {
      n := n + 1;
    }
  }

  lemma CanonicalPrefix(l: seq<Lock>, n: nat)
    requires Canonical(l) && n <= |l|
    ensures Canonical(l[..n])
  {
    forall x | x in l[..n] ensures WellFormed(x) { assert x in l; }
    forall i, k, j | Between(l[..n], i, k, j) ensures l[..n][k].owner == l[..n][i].owner {
      assert Between(l, i, k, j);
    }
  }

  lemma FirstOwnPrefix(l: seq<Lock>, n: nat, o: Owner)
    requires n < |l| && l[n].owner == o
    ensures FirstOwn(l, o) == FirstOwn(l[..n], o) <= n
  {
  }

  /** When the wrap bites at position `n`, the call edits only what lies in front of it. */
  lemma ClashEdit(l: seq<Lock>, r: Request, newId: nat, n: nat)
    requires Canonical(l) && r.end == OFFSET_MAX && r.typ != UnLck
    requires n < |l| && Clashes(l[n], r) && forall i :: 0 <= i < n ==> !Clashes(l[i], r)
    ensures Apply(l, r, newId).list == Apply(l[..n], r, newId).list + l[n..]
  {
    var o, k, c := r.owner, FirstOwn(l, r.owner), Start(l[..n], r);
    FirstOwnPrefix(l, n, o);
    forall i | k <= i < n ensures l[i].owner == o && WellFormed(l[i]) {
      assert i > k ==> Between(l, k, i, n);
      assert l[i] in l;
    }
    assert c.rest == l[k..n] && l[k..] == l[k..n] + l[n..] && l[..k] == c.done;
    assert l[n] in l && l[n..][0] == l[n];
    WalkTail(c, l[n..], r, newId);
  }

  lemma ClashList(l: seq<Lock>, r: Request, newId: nat, n: nat)
    requires Canonical(l) && r.Valid() && r.end == OFFSET_MAX && r.typ != UnLck
    requires n < |l| && Clashes(l[n], r) && forall i :: 0 <= i < n ==> !Clashes(l[i], r)
    ensures Apply(l, r, newId).list == Apply(l[..n], r, newId).list + l[n..]
    ensures Canonical(l[..n]) && !TailClash(l[..n], r)
    ensures forall o, b :: TypesAt(Apply(l, r, newId).list, o, b) == SpecAt(l[..n], r, o, b) + TypesAt(l[n..], o, b)
  {
    ClashEdit(l, r, newId, n);
    CanonicalPrefix(l, n);
    assert !TailClash(l[..n], r);
    ApplyRefines(l[..n], r, newId);
    forall p, b ensures TypesAt(Apply(l, r, newId).list, p, b) == SpecAt(l[..n], r, p, b) + TypesAt(l[n..], p, b) {
      TypesConcat(Apply(l[..n], r, newId).list, l[n..], p, b);
    }
  }

  /** The list stays canonical exactly when the caller holds no lock of the requested
      type that a request up to the largest offset touches. */
  lemma CanonicalIff(l: seq<Lock>, r: Request, newId: nat)
    requires Canonical(l) && r.Valid()
    ensures Canonical(Apply(l, r, newId).list) <==> !TailClash(l, r)
  {
    if TailClash(l, r) {
      var n := FirstClash(l, r);
      ClashList(l, r, newId, n);
      var m, l1 := Apply(l[..n], r, newId).list, Apply(l, r, newId).list;
      assert r.typ in TypesAt(m, r.owner, OFFSET_MAX) by { ApplyRefines(l[..n], r, newId); }
      TypesMember(m, r.owner, OFFSET_MAX, r.typ);
      var z :| z in m && Covers(z, r.owner, OFFSET_MAX) && z.typ == r.typ;
      var i :| 0 <= i < |m| && m[i] == z;
      assert l1[i] == z && l1[|m|] == l[n];
      assert l[n] in l && !Gap(z, l[n]);
    } else {
      ApplyRefines(l, r, newId);
    }
  }

  /** The wrap leaves a lock of the other type standing inside the request. */
  ghost predicate MapClash(l: seq<Lock>, r: Request) {
    && r.end == OFFSET_MAX && r.typ != UnLck
    && exists x, y :: x in l && y in l && Clashes(x, r) && y.owner == r.owner && y.typ != r.typ && y.start > x.start
  }

  /** The byte map is the specified one exactly when no lock of the other type follows
      such a lock. */
  lemma ByteMapIff(l: seq<Lock>, r: Request, newId: nat)
    requires Canonical(l) && r.Valid()
    ensures (forall o, b :: TypesAt(Apply(l, r, newId).list, o, b) == SpecAt(l, r, o, b)) <==> !MapClash(l, r)
  {
    if !TailClash(l, r) {
      ApplyRefines(l, r, newId);
    } else {
      var n := FirstClash(l, r);
      ClashList(l, r, newId, n);
      if MapClash(l, r) {
        var y := ClashByte(l, r, newId, n);
        assert TypesAt(Apply(l, r, newId).list, r.owner, y.start) != SpecAt(l, r, r.owner, y.start);
      } else {
        forall o, b ensures TypesAt(Apply(l, r, newId).list, o, b) == SpecAt(l, r, o, b) {
          HarmlessClash(l, r, n, o, b);
        }
      }
    }
  }

  lemma ClashByte(l: seq<Lock>, r: Request, newId: nat, n: nat) returns (y: Lock)
    requires Canonical(l) && r.Valid() && n < |l| && Clashes(l[n], r) && forall i :: 0 <= i < n ==> !Clashes(l[i], r)
    requires MapClash(l, r)
    ensures TypesAt(l[n..], r.owner, y.start) != {} && y.typ in TypesAt(l[n..], r.owner, y.start)
    ensures y.typ != r.typ && SpecAt(l, r, r.owner, y.start) == {r.typ}
  {
    var x, z :| x in l && z in l && Clashes(x, r) && z.owner == r.owner && z.typ != r.typ && z.start > x.start;
    LaterLock(l, r, n, x, z);
    TypesMember(l[n..], r.owner, z.start, z.typ);
    y := z;
  }

  lemma HarmlessClash(l: seq<Lock>, r: Request, n: nat, o: Owner, b: int)
    requires Canonical(l) && n < |l| && Clashes(l[n], r) && r.end == OFFSET_MAX && r.typ != UnLck
    requires !MapClash(l, r)
    ensures SpecAt(l[..n], r, o, b) + TypesAt(l[n..], o, b) == SpecAt(l, r, o, b)
  {
    assert l == l[..n] + l[n..];
    TypesConcat(l[..n], l[n..], o, b);
    TailTypes(l, r, n, b);
  }

  lemma LaterLock(l: seq<Lock>, r: Request, n: nat, x: Lock, y: Lock)
    requires Canonical(l) && n < |l| && forall i :: 0 <= i < n ==> !Clashes(l[i], r)
    requires x in l && y in l && Clashes(x, r) && y.owner == r.owner && y.start > x.start && r.end == OFFSET_MAX
    ensures y in l[n..] && r.start <= y.start <= r.end && Covers(y, r.owner, y.start)
  {
    var i :| 0 <= i < |l| && l[i] == x;
    var j :| 0 <= j < |l| && l[j] == y;
    StartsIncrease(l);
    assert n <= i < j && Gap(l[i], l[j]);
    assert l[n..][j - n] == y;
  }

  lemma StartsIncrease(l: seq<Lock>)
    requires Canonical(l)
    ensures forall i, j :: 0 <= i < j < |l| && l[i].owner == l[j].owner ==> l[i].start < l[j].start
  {
    forall i, j | 0 <= i < j < |l| && l[i].owner == l[j].owner ensures l[i].start < l[j].start {
      assert l[i] in l && Gap(l[i], l[j]);
    }
  }

  lemma TailTypes(l: seq<Lock>, r: Request, n: nat, b: int)
    requires Canonical(l) && n < |l| && Clashes(l[n], r) && r.end == OFFSET_MAX && r.typ != UnLck
    requires !MapClash(l, r)
    ensures TypesAt(l[n..], r.owner, b) <= {r.typ}
  {
    forall t | t in TypesAt(l[n..], r.owner, b) ensures t == r.typ {
      TypesMember(l[n..], r.owner, b, t);
      var y :| y in l[n..] && Covers(y, r.owner, b) && y.typ == t;
      var j :| n <= j < |l| && l[j] == y;
      assert l[n] in l && y in l;
      assert j > n ==> Gap(l[n], l[j]);
    }
  }

  /** The failing family is real: a read lock on bytes 5 to 9, then a read lock from 0 to
      the end of file, leaves two overlapping records. */
  lemma WrapCounterexample()
    ensures var o := Owner(1, 1);
            var l := [Lock(0, o, RdLck, 5, 9)];
            var r := Request(o, RdLck, 0, OFFSET_MAX);
            && Canonical(l) && r.Valid()
            && Apply(l, r, 1).list == [Lock(1, o, RdLck, 0, OFFSET_MAX), Lock(0, o, RdLck, 5, 9)]
            && !Canonical(Apply(l, r, 1).list)
  {
    var o := Owner(1, 1);
    var l := [Lock(0, o, RdLck, 5, 9)];
    var r := Request(o, RdLck, 0, OFFSET_MAX);
    assert l[0] in l && TailClash(l, r);
    assert FirstOwn(l, o) == 0 && l[..0] == [] && l[0..] == l;
    var c := Start(l, r);
    assert Next(c, o, RdLck) == Stop(c, false);
    CanonicalIff(l, r, 1);
  }
}
