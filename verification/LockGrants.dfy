/** When a request goes through, byte by byte, and when F_GETLK finds a lock (fs/locks.c:369-385,
    534-568, 626-640): the conflict tests against what the list grants. */
module LockGrants {
  import opened Common
  import opened PosixLocks
  import opened LockSafety

  /** Nobody else holds anything in the range that excludes the request: no write lock, and for a
      write lock nothing at all. */
  ghost predicate BytesFree(l: seq<Lock>, r: Request) {
    forall p, b :: p != r.owner && r.start <= b <= r.end ==>
      WrLck !in TypesAt(l, p, b) && (r.typ == WrLck ==> TypesAt(l, p, b) == {})
  }

  /** A record of another owner whose end lies below its start, so that it covers no byte, with
      the request across both. */
  predicate IsGhost(x: Lock, r: Request) {
    && x.owner != r.owner && r.start <= x.end < x.start <= r.end
    && (x.typ == WrLck || r.typ == WrLck)
  }

  ghost predicate HasGhost(l: seq<Lock>, r: Request) { exists x :: x in l && IsGhost(x, r) }

  /** A record stands in the way: another owner, a common range, and one of the two exclusive. */
  predicate Bars(x: Lock, r: Request) {
    && x.owner != r.owner && x.start <= r.end && r.start <= x.end
    && (x.typ == WrLck || r.typ == WrLck)
  }

  /** The two tests, with their arguments either way round, ask the same question. */
  lemma ConflictIff(x: Lock, r: Request)
    requires x.typ != UnLck
    ensures r.typ != UnLck ==> (Conflict(r, x) <==> Bars(x, r))
    ensures ReverseConflict(x, r) <==> Bars(x, r)
  {
  }

  /** What bars a request holds a byte of its range against it, or is a ghost. */
  lemma BarsAt(l: seq<Lock>, x: Lock, r: Request)
    requires x in l && Bars(x, r) && r.start <= r.end
    ensures !BytesFree(l, r) || HasGhost(l, r)
  {
    if x.start <= x.end {
      var b := Max(x.start, r.start);
      TypesMember(l, x.owner, b, x.typ);
      assert Covers(x, x.owner, b);
    } else {
      assert IsGhost(x, r);
    }
  }

  lemma FreeIff(l: seq<Lock>, r: Request)
    requires r.start <= r.end
    ensures (forall x :: x in l ==> !Bars(x, r)) <==> BytesFree(l, r) && !HasGhost(l, r)
  {
    if x :| x in l && Bars(x, r) {
      BarsAt(l, x, r);
    } else {
      forall p, b | p != r.owner && r.start <= b <= r.end
        ensures WrLck !in TypesAt(l, p, b) && (r.typ == WrLck ==> TypesAt(l, p, b) == {})
      {
        forall t | t in TypesAt(l, p, b) ensures t != WrLck && r.typ != WrLck {
          TypesMember(l, p, b, t);
          var x :| x in l && Covers(x, p, b) && x.typ == t;
          assert !Bars(x, r);
        }
      }
      forall x | x in l ensures !IsGhost(x, r) { assert !Bars(x, r); }
    }
  }

  /** The conflict scan of F_SETLK finds nothing exactly when the bytes are free and no ghost is
      in the way. */
  lemma NoConflictIff(l: seq<Lock>, r: Request)
    requires Typed(l) && r.start <= r.end && r.typ != UnLck
    ensures NoConflict(l, r) <==> BytesFree(l, r) && !HasGhost(l, r)
  {
    forall x | x in l ensures Conflict(r, x) <==> Bars(x, r) { ConflictIff(x, r); }
    FreeIff(l, r);
  }

  /** Records of a canonical list cover what they say. */
  lemma CanonicalHasNoGhost(l: seq<Lock>, r: Request)
    requires Canonical(l)
    ensures !HasGhost(l, r)
  {
    forall x | x in l ensures !IsGhost(x, r) { assert WellFormed(x); }
  }

  /** `posix_test_lock`: finds nothing exactly when the bytes are free and no ghost is in the way;
      what it finds is the first record that stands in the way. */
  method PosixTestLock(l: seq<Lock>, r: Request) returns (k: nat)
    requires Typed(l) && r.Valid()
    ensures k <= |l| && (k < |l| ==> Bars(l[k], r)) && forall i :: 0 <= i < k ==> !Bars(l[i], r)
    ensures k == |l| <==> BytesFree(l, r) && !HasGhost(l, r)
  {
    k := 0;
    while k < |l| && !ReverseConflict(l[k], r)
      invariant k <= |l| && forall i :: 0 <= i < k ==> !Bars(l[i], r)
    {
      assert l[k] in l;
      ConflictIff(l[k], r);
      k := k + 1;
    }
    if k < |l| {
      assert l[k] in l;
      ConflictIff(l[k], r);
    }
    assert forall x :: x in l ==> exists i :: 0 <= i < |l| && l[i] == x;
    FreeIff(l, r);
  }
}
