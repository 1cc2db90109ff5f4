/** The list primitives of linux/list.h as operations on sequences of element numbers. */
module Lists {
  /** `list_del`. */
  function Without(s: seq<nat>, x: nat): seq<nat> {
    if s == [] then [] else if s[0] == x then Without(s[1..], x) else [s[0]] + Without(s[1..], x)
  }

  /** `list_add(x, t)` where `t` is an element: `x` comes right behind it. */
  function AddBehind(s: seq<nat>, t: nat, x: nat): seq<nat> {
    if s == [] then [] else if s[0] == t then [t, x] + s[1..] else [s[0]] + AddBehind(s[1..], t, x)
  }

  predicate NoDup(s: seq<nat>) { s == [] || (s[0] !in s[1..] && NoDup(s[1..])) }

  lemma {:induction false} WithoutMember(s: seq<nat>, x: nat, y: nat)
    ensures y in Without(s, x) <==> y in s && y != x
  {
    if s != [] { WithoutMember(s[1..], x, y); }
  }

  lemma {:induction false} WithoutNoDup(s: seq<nat>, x: nat)
    requires NoDup(s)
    ensures NoDup(Without(s, x))
  {
    if s != [] {
      WithoutNoDup(s[1..], x);
      WithoutMember(s[1..], x, s[0]);
      if s[0] != x { assert Without(s, x)[1..] == Without(s[1..], x); }
    }
  }

  lemma {:induction false} WithoutNone(s: seq<nat>, x: nat)
    requires x !in s
    ensures Without(s, x) == s
  {
    if s != [] { WithoutNone(s[1..], x); }
  }

  lemma {:induction false} AddBehindMember(s: seq<nat>, t: nat, x: nat, y: nat)
    ensures y in AddBehind(s, t, x) <==> y in s || (t in s && y == x)
  {
    if s != [] && s[0] != t { AddBehindMember(s[1..], t, x, y); }
  }

  lemma {:induction false} AddBehindNoDup(s: seq<nat>, t: nat, x: nat)
    requires NoDup(s) && x !in s
    ensures NoDup(AddBehind(s, t, x))
  {
    if s != [] {
      if s[0] == t {
        assert ([t, x] + s[1..])[1..] == [x] + s[1..];
        assert ([x] + s[1..])[1..] == s[1..];
      } else {
        AddBehindNoDup(s[1..], t, x);
        AddBehindMember(s[1..], t, x, s[0]);
        assert AddBehind(s, t, x)[1..] == AddBehind(s[1..], t, x);
      }
    }
  }

  lemma {:induction false} NoDupSnoc(s: seq<nat>, x: nat)
    requires NoDup(s) && x !in s
    ensures NoDup(s + [x])
  {
    if s != [] {
      NoDupSnoc(s[1..], x);
      assert (s + [x])[1..] == s[1..] + [x];
    }
  }

  lemma {:induction false} NoDupApart(s: seq<nat>, i: nat, j: nat)
    requires NoDup(s) && i < j < |s|
    ensures s[i] != s[j]
  {
    if i > 0 { NoDupApart(s[1..], i - 1, j - 1); } else { assert s[j] == s[1..][j - 1]; }
  }

  /** Element by element, no two are the same. */
  lemma NoDupPairs(s: seq<nat>)
    requires NoDup(s)
    ensures forall i, j :: 0 <= i < j < |s| ==> s[i] != s[j]
  {
    forall i, j | 0 <= i < j < |s| ensures s[i] != s[j] { NoDupApart(s, i, j); }
  }

  lemma {:induction false} NoDupConcat(a: seq<nat>, b: seq<nat>)
    requires NoDup(a) && NoDup(b) && forall y :: y in a ==> y !in b
    ensures NoDup(a + b)
  {
    if a == [] {
      assert a + b == b;
    } else {
      assert (a + b)[1..] == a[1..] + b;
      NoDupConcat(a[1..], b);
    }
  }
}
