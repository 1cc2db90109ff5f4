/** The waits-for graph that `posix_locks_deadlock` walks. A task waits on at most one
    lock, so every node has at most one outgoing edge. */
module WaitGraph {
  import opened Common

  type Graph<T(==)> = map<T, T>

  /** The node `n` edges after `x`, if the path is that long. */
  ghost function Follow<T(!new)>(g: Graph<T>, x: T, n: nat): Option<T> {
    if n == 0 then Some(x) else if x in g then Follow(g, g[x], n - 1) else None
  }

  ghost predicate Reaches<T(!new)>(g: Graph<T>, x: T, y: T) {
    exists n: nat :: Follow(g, x, n) == Some(y)
  }

  ghost predicate Acyclic<T(!new)>(g: Graph<T>) {
    forall x, n: nat :: n > 0 ==> Follow(g, x, n) != Some(x)
  }

  ghost predicate Subgraph<T(!new)>(h: Graph<T>, g: Graph<T>) {
    forall x :: x in h ==> x in g && h[x] == g[x]
  }

  lemma {:induction false} FollowMore<T(!new)>(g: Graph<T>, x: T, m: nat, y: T, n: nat)
    requires Follow(g, x, m) == Some(y)
    ensures Follow(g, x, m + n) == Follow(g, y, n)
  {
    if m > 0 {
      FollowMore(g, g[x], m - 1, y, n);
    }
  }

  lemma {:induction false} FollowSub<T(!new)>(h: Graph<T>, g: Graph<T>, x: T, n: nat)
    requires Subgraph(h, g) && Follow(h, x, n).Some?
    ensures Follow(g, x, n) == Follow(h, x, n)
  {
    if n > 0 {
      FollowSub(h, g, h[x], n - 1);
    }
  }

  /** Taking waiters off the blocked list cannot create a cycle. */
  lemma SubgraphAcyclic<T(!new)>(h: Graph<T>, g: Graph<T>)
    requires Subgraph(h, g) && Acyclic(g)
    ensures Acyclic(h)
  {
    forall x, n: nat | n > 0 ensures Follow(h, x, n) != Some(x) {
      if Follow(h, x, n).Some? {
        FollowSub(h, g, x, n);
      }
    }
  }

  /** With one more edge `o -> h`, a path either avoids it or passes through `o`. */
  lemma {:induction false} AvoidOrHit<T(!new)>(g: Graph<T>, o: T, h: T, x: T, n: nat) returns (i: nat)
    requires Follow(g[o := h], x, n).Some?
    ensures Follow(g, x, n) == Follow(g[o := h], x, n) || (i < n && Follow(g[o := h], x, i) == Some(o))
  {
    i := 0;
    if n > 0 && x != o {
      i := AvoidOrHit(g, o, h, g[x], n - 1);
      i := i + 1;
    }
  }

  /** The first arrival at `o` does not need the new edge. */
  lemma {:induction false} FirstArrival<T(!new)>(g: Graph<T>, o: T, h: T, x: T, n: nat) returns (m: nat)
    requires Follow(g[o := h], x, n) == Some(o)
    ensures Follow(g, x, m) == Some(o)
  {
    if x == o {
      m := 0;
    } else {
      m := FirstArrival(g, o, h, g[x], n - 1);
      m := m + 1;
    }
  }

  /** The detector's question is the right one: waiting for `h` closes a cycle exactly
      when `o` is already reachable from `h`. */
  lemma EdgeClosesCycle<T(!new)>(g: Graph<T>, o: T, h: T)
    requires Acyclic(g) && o !in g
    ensures Acyclic(g[o := h]) <==> !Reaches(g, h, o)
  {
    var g1 := g[o := h];
    if Reaches(g, h, o) {
      var n: nat :| Follow(g, h, n) == Some(o);
      FollowSub(g, g1, h, n);
      assert Follow(g1, o, n + 1) == Some(o);
    } else {
      forall x, n: nat | n > 0 ensures Follow(g1, x, n) != Some(x) {
        if Follow(g1, x, n) == Some(x) {
          CycleThrough(g, o, h, x, n);
        }
      }
    }
  }

  lemma CycleThrough<T(!new)>(g: Graph<T>, o: T, h: T, x: T, n: nat)
    requires Acyclic(g) && n > 0 && Follow(g[o := h], x, n) == Some(x)
    ensures Reaches(g, h, o)
  {
    var g1 := g[o := h];
    var i := AvoidOrHit(g, o, h, x, n);
    assert Follow(g, x, n) != Some(x);
    FollowMore(g1, x, i, o, n - i);
    FollowMore(g1, o, n - i, x, i);
    var m := FirstArrival(g, o, h, h, n - 1);
  }

  /** One step of the detector's walk. */
  lemma ReachStep<T(!new)>(g: Graph<T>, x: T, y: T)
    ensures Reaches(g, x, x)
    ensures x != y ==> (Reaches(g, x, y) <==> x in g && Reaches(g, g[x], y))
  {
    assert Follow(g, x, 0) == Some(x);
    if x != y && Reaches(g, x, y) {
      var n: nat :| Follow(g, x, n) == Some(y);
      assert Follow(g, g[x], n - 1) == Some(y);
    }
    if x in g && Reaches(g, g[x], y) {
      var n: nat :| Follow(g, g[x], n) == Some(y);
      assert Follow(g, x, n + 1) == Some(y);
    }
  }

  /** Every node of `s` leads to `x` along at least one edge. */
  ghost predicate AllLeadTo<T(!new)>(g: Graph<T>, s: set<T>, x: T) {
    forall v :: v in s ==> exists n: nat :: n > 0 && Follow(g, v, n) == Some(x)
  }

  lemma LeadOn<T(!new)>(g: Graph<T>, s: set<T>, x: T)
    requires AllLeadTo(g, s, x) && Acyclic(g) && x in g
    ensures x !in s && AllLeadTo(g, s + {x}, g[x])
  {
    forall v | v in s + {x} ensures exists n: nat :: n > 0 && Follow(g, v, n) == Some(g[x]) {
      assert Follow(g, g[x], 0) == Some(g[x]);
      assert Follow(g, x, 1) == Some(g[x]);
      if v in s {
        var n: nat :| n > 0 && Follow(g, v, n) == Some(x);
        FollowMore(g, v, n, x, 1);
        assert Follow(g, v, n + 1) == Some(g[x]);
      }
    }
  }
}
