/** Finite directed multigraphs: reachability, and the multiset of references a
    set of nodes owns. Nodes are of any type; a reference to something that is
    not a node (a null slot) is ignored by reachability. */
module Graphs {

  type Graph<N> = map<N, seq<N>>

  /** X is closed when no edge of g leaves it. */
  ghost predicate Closed<N>(g: Graph<N>, X: set<N>) {
    forall n, c :: n in X && n in g && c in g[n] && c in g ==> c in X
  }

  ghost function Kids<N>(g: Graph<N>, A: set<N>): set<N> {
    set n, c | n in A && n in g && c in g[n] && c in g :: c
  }

  /** Everything reachable from A, A included: the closure built in rounds. */
  ghost function Reach<N>(g: Graph<N>, A: set<N>): (r: set<N>)
    ensures A <= r
    decreases |g.Keys - A|
  {
    if Kids(g, A) <= A then A
    else
      assert g.Keys - (A + Kids(g, A)) < g.Keys - A by {
        var c :| c in Kids(g, A) && c !in A;
        assert c in g.Keys - A && c !in g.Keys - (A + Kids(g, A));
      }
      SubsetSmaller(g.Keys - (A + Kids(g, A)), g.Keys - A);
      Reach(g, A + Kids(g, A))
  }

  lemma SubsetSmaller<N>(a: set<N>, b: set<N>)
    requires a < b
    ensures |a| < |b|
  {
    var x :| x in b && x !in a;
    SubsetSize(a, b - {x});
  }

  lemma {:induction false} SubsetSize<N>(a: set<N>, b: set<N>)
    requires a <= b
    ensures |a| <= |b|
    decreases a
  {
    if a != {} {
      var x :| x in a;
      SubsetSize(a - {x}, b - {x});
    }
  }

  lemma {:induction false} ReachClosed<N>(g: Graph<N>, A: set<N>)
    ensures Closed(g, Reach(g, A))
    decreases |g.Keys - A|
  {
    if Kids(g, A) <= A {
      forall n, c | n in A && n in g && c in g[n] && c in g
        ensures c in A
      {
        assert c in Kids(g, A);
      }
    } else {
      var c :| c in Kids(g, A) && c !in A;
      assert c in g.Keys - A && c !in g.Keys - (A + Kids(g, A));
      SubsetSmaller(g.Keys - (A + Kids(g, A)), g.Keys - A);
      ReachClosed(g, A + Kids(g, A));
    }
  }

  /** Reach is the least closed set: this is the induction principle the whole
      collector proof runs on. */
  lemma {:induction false} ReachLeast<N>(g: Graph<N>, A: set<N>, X: set<N>)
    requires A <= X && Closed(g, X)
    ensures Reach(g, A) <= X
    decreases |g.Keys - A|
  {
    if !(Kids(g, A) <= A) {
      var c :| c in Kids(g, A) && c !in A;
      assert c in g.Keys - A && c !in g.Keys - (A + Kids(g, A));
      SubsetSmaller(g.Keys - (A + Kids(g, A)), g.Keys - A);
      ReachLeast(g, A + Kids(g, A), X);
    }
  }

  lemma ReachMono<N>(g: Graph<N>, A: set<N>, B: set<N>)
    requires A <= B
    ensures Reach(g, A) <= Reach(g, B)
  {
    ReachClosed(g, B);
    ReachLeast(g, A, Reach(g, B));
  }

  lemma ReachAbsorbs<N>(g: Graph<N>, A: set<N>, B: set<N>)
    requires A <= Reach(g, B)
    ensures Reach(g, A) <= Reach(g, B)
  {
    ReachClosed(g, B);
    ReachLeast(g, A, Reach(g, B));
  }

  lemma ReachUnion<N>(g: Graph<N>, A: set<N>, B: set<N>)
    ensures Reach(g, A + B) == Reach(g, A) + Reach(g, B)
  {
    ReachMono(g, A, A + B);
    ReachMono(g, B, A + B);
    ReachClosed(g, A);
    ReachClosed(g, B);
    ReachLeast(g, A + B, Reach(g, A) + Reach(g, B));
  }

  /** What is reached is a start, or is named by something reached. */
  lemma ReachCameFrom<N>(g: Graph<N>, A: set<N>, x: N)
    requires x in Reach(g, A) && x !in A
    ensures exists n :: n in Reach(g, A) && n in g && x in g[n] && x in g
  {
    if !exists n :: n in Reach(g, A) && n in g && x in g[n] && x in g {
      ReachClosed(g, A);
      ReachLeast(g, A, Reach(g, A) - {x});
    }
  }

  /** Emptying nodes that are not reached changes nothing that is. */
  lemma ReachSpares<N>(g: Graph<N>, D: set<N>, A: set<N>)
    requires D !! Reach(g, A)
    ensures Reach(Hollow(g, D), A) == Reach(g, A)
  {
    var h := Hollow(g, D);
    ReachSubgraph(h, g, A);
    ReachClosed(h, A);
    forall n, c | n in Reach(h, A) && n in g && c in g[n] && c in g
      ensures c in Reach(h, A)
    {
      assert n in h && h[n] == g[n] && c in h;
    }
    ReachLeast(g, A, Reach(h, A));
  }

  /** g with the edges out of D gone. */
  ghost function Hollow<N>(g: Graph<N>, D: set<N>): Graph<N> {
    map n | n in g :: if n in D then [] else g[n]
  }

  lemma ReachHollow<N>(g: Graph<N>, D: set<N>, A: set<N>)
    requires Kids(g, D) <= A
    ensures Reach(g, A + D) <= D + Reach(Hollow(g, D), A)
  {
    var h := Hollow(g, D);
    ReachClosed(h, A);
    forall n, c | n in D + Reach(h, A) && n in g && c in g[n] && c in g
      ensures c in D + Reach(h, A)
    {
      if n in D {
        assert c in Kids(g, D);
      } else {
        assert n in h && c in h[n] && c in h;
      }
    }
    ReachLeast(g, A + D, D + Reach(h, A));
  }

  /** Nodes nothing leads to can be taken away unseen. */
  lemma ReachWithout<N>(g: Graph<N>, D: set<N>, A: set<N>)
    requires A !! D && A <= g.Keys
    requires forall n, c :: n in g && n !in D && c in g[n] ==> c !in D
    ensures Reach(g, A) == Reach(g - D, A)
  {
    var h := g - D;
    ReachInside(h, A);
    ReachClosed(h, A);
    forall n, c | n in Reach(h, A) && n in g && c in g[n] && c in g
      ensures c in Reach(h, A)
    {
      assert n in h && h[n] == g[n] && c in h;
    }
    ReachLeast(g, A, Reach(h, A));
    assert Subgraph(h, g);
    ReachSubgraph(h, g, A);
  }

  lemma NoCycleSubgraph<N>(h: Graph<N>, g: Graph<N>, n: N)
    requires Subgraph(h, g) && n !in Reach(g, Kids(g, {n}))
    ensures n !in Reach(h, Kids(h, {n}))
  {
    assert Kids(h, {n}) <= Kids(g, {n});
    ReachMono(g, Kids(h, {n}), Kids(g, {n}));
    ReachSubgraph(h, g, Kids(h, {n}));
  }

  ghost predicate Subgraph<N>(h: Graph<N>, g: Graph<N>) {
    && h.Keys <= g.Keys
    && forall n, c :: n in h && c in h[n] ==> c in g[n]
  }

  lemma ReachSubgraph<N>(h: Graph<N>, g: Graph<N>, A: set<N>)
    requires Subgraph(h, g)
    ensures Reach(h, A) <= Reach(g, A)
  {
    ReachClosed(g, A);
    ReachLeast(h, A, Reach(g, A));
  }

  lemma ReachInside<N>(g: Graph<N>, A: set<N>)
    requires A <= g.Keys
    ensures Reach(g, A) <= g.Keys
  {
    ReachLeast(g, A, g.Keys);
  }

  lemma ReachOne<N>(g: Graph<N>, o: N)
    requires o in g
    ensures Reach(g, {o}) == {o} + Reach(g, Kids(g, {o}))
  {
    var K := Kids(g, {o});
    ReachClosed(g, K);
    forall n, c | n in {o} + Reach(g, K) && n in g && c in g[n] && c in g
      ensures c in {o} + Reach(g, K)
    {
      if n == o {
        assert c in K;
      }
    }
    ReachLeast(g, {o}, {o} + Reach(g, K));
    ReachClosed(g, {o});
    ReachLeast(g, K, Reach(g, {o}));
  }

  /** A start node some reached node names, and which lies on no cycle, can be
      left out of the start set. */
  lemma SeedDispensable<N>(g: Graph<N>, A: set<N>, o: N, n: N)
    requires o in g && n in g && o in g[n] && n in Reach(g, A)
    requires o !in Reach(g, Kids(g, {o}))
    ensures Reach(g, A) <= Reach(g, A - {o})
  {
    ReachUnion(g, A - {o}, {o});
    assert A <= (A - {o}) + {o};
    ReachMono(g, A, (A - {o}) + {o});
    ReachOne(g, o);
    ReachClosed(g, Kids(g, {o}));
    ReachClosed(g, A - {o});
    assert n == o ==> o in Kids(g, {o});
    assert n in Reach(g, A - {o});
    ReachAbsorbs(g, {o}, A - {o});
  }

  lemma ReachNothing<N>(g: Graph<N>)
    ensures Reach(g, {}) == {}
  {
    ReachLeast(g, {}, {});
  }

  // ---- paths: the same notion, as a reader would draw it ----

  ghost predicate Edge<N>(g: Graph<N>, n: N, c: N) {
    n in g && c in g && c in g[n]
  }

  ghost predicate IsPath<N>(g: Graph<N>, p: seq<N>) {
    && |p| > 0
    && forall i, j :: 0 <= i < |p| && 0 <= j < |p| && j == i + 1 ==> Edge(g, p[i], p[j])
  }

  lemma {:induction false} PathReaches<N>(g: Graph<N>, A: set<N>, p: seq<N>)
    requires IsPath(g, p) && p[0] in A
    ensures p[|p| - 1] in Reach(g, A)
    decreases |p|
  {
    if |p| > 1 {
      var q := p[..|p| - 1];
      PathReaches(g, A, q);
      ReachClosed(g, A);
      assert Edge(g, p[|p| - 2], p[|p| - 1]);
      assert q[|q| - 1] == p[|p| - 2];
    }
  }

  lemma {:induction false} ReachHasPath<N>(g: Graph<N>, A: set<N>, x: N) returns (p: seq<N>)
    requires x in Reach(g, A)
    ensures IsPath(g, p) && p[0] in A && p[|p| - 1] == x
    decreases |g.Keys - A|
  {
    if Kids(g, A) <= A {
      p := [x];
    } else {
      var c :| c in Kids(g, A) && c !in A;
      assert c in g.Keys - A && c !in g.Keys - (A + Kids(g, A));
      SubsetSmaller(g.Keys - (A + Kids(g, A)), g.Keys - A);
      p := ReachHasPath(g, A + Kids(g, A), x);
      if p[0] !in A {
        var n :| n in A && Edge(g, n, p[0]);
        p := PathCons(g, n, p);
      }
    }
  }

  lemma PathCons<N>(g: Graph<N>, n: N, p: seq<N>) returns (q: seq<N>)
    requires IsPath(g, p) && Edge(g, n, p[0])
    ensures q == [n] + p && IsPath(g, q)
  {
    q := [n] + p;
    forall i, j | 0 <= i < |q| && 0 <= j < |q| && j == i + 1
      ensures Edge(g, q[i], q[j])
    {
      if i > 0 {
        assert Edge(g, p[i - 1], p[j - 1]);
      }
    }
  }

  // ---- owned references ----

  /** How often o occurs in s from position i on. */
  ghost function Occurs<N>(s: seq<N>, i: nat, o: N): nat
    decreases |s| - i
  {
    if i >= |s| then 0 else (if s[i] == o then 1 else 0) + Occurs(s, i + 1, o)
  }

  lemma {:induction false} OccursIff<N>(s: seq<N>, i: nat, o: N)
    ensures Occurs(s, i, o) > 0 <==> exists j :: i <= j < |s| && s[j] == o
    decreases |s| - i
  {
    if i < |s| {
      OccursIff(s, i + 1, o);
    }
  }

  /** How often o occurs among the first i elements of s. */
  ghost function OccursTo<N>(s: seq<N>, i: nat, o: N): nat
    requires i <= |s|
  {
    if i == 0 then 0 else OccursTo(s, i - 1, o) + (if s[i - 1] == o then 1 else 0)
  }

  lemma {:induction false} OccursSplit<N>(s: seq<N>, i: nat, o: N)
    requires i <= |s|
    ensures OccursTo(s, i, o) + Occurs(s, i, o) == Occurs(s, 0, o)
  {
    if i > 0 {
      OccursSplit(s, i - 1, o);
    }
  }

  lemma {:induction false} OccursUpdate<N>(s: seq<N>, i: nat, v: N, k: nat, o: N)
    requires i < |s|
    ensures Occurs(s[i := v], k, o) + (if k <= i && s[i] == o then 1 else 0)
         == Occurs(s, k, o) + (if k <= i && v == o then 1 else 0)
    decreases |s| - k
  {
    if k < |s| {
      OccursUpdate(s, i, v, k + 1, o);
    }
  }

  ghost function Out<N>(g: Graph<N>, n: N, o: N): nat {
    if n in g then Occurs(g[n], 0, o) else 0
  }

  lemma OutIff<N>(g: Graph<N>, n: N, o: N)
    ensures Out(g, n, o) > 0 <==> n in g && o in g[n]
  {
    if n in g {
      OccursIff(g[n], 0, o);
    }
  }

  /** How many references to o the nodes of B own. */
  ghost function Owed<N>(g: Graph<N>, B: set<N>, o: N): nat
    decreases |B|
  {
    if B == {} then 0
    else
      var n :| n in B;
      Out(g, n, o) + Owed(g, B - {n}, o)
  }

  lemma {:induction false} OwedRemove<N>(g: Graph<N>, B: set<N>, n: N, o: N)
    requires n in B
    ensures Owed(g, B, o) == Out(g, n, o) + Owed(g, B - {n}, o)
    decreases |B|
  {
    var m :| m in B && Owed(g, B, o) == Out(g, m, o) + Owed(g, B - {m}, o);
    if m != n {
      OwedRemove(g, B - {m}, n, o);
      OwedRemove(g, B - {n}, m, o);
      assert B - {m} - {n} == B - {n} - {m};
    }
  }

  lemma OwedAdd<N>(g: Graph<N>, B: set<N>, n: N, o: N)
    requires n !in B
    ensures Owed(g, B + {n}, o) == Out(g, n, o) + Owed(g, B, o)
  {
    OwedRemove(g, B + {n}, n, o);
    assert (B + {n}) - {n} == B;
  }

  lemma {:induction false} OwedMono<N>(g: Graph<N>, A: set<N>, B: set<N>, o: N)
    requires A <= B
    ensures Owed(g, A, o) <= Owed(g, B, o)
    decreases |A|
  {
    if A != {} {
      var n :| n in A;
      OwedRemove(g, A, n, o);
      OwedRemove(g, B, n, o);
      OwedMono(g, A - {n}, B - {n}, o);
    }
  }

  lemma {:induction false} OwedSplit<N>(g: Graph<N>, A: set<N>, B: set<N>, o: N)
    requires A <= B
    ensures Owed(g, B, o) == Owed(g, A, o) + Owed(g, B - A, o)
    decreases |A|
  {
    if A == {} {
      assert B - A == B;
    } else {
      var n :| n in A;
      OwedRemove(g, A, n, o);
      OwedRemove(g, B, n, o);
      OwedSplit(g, A - {n}, B - {n}, o);
      assert (B - {n}) - (A - {n}) == B - A;
    }
  }

  /** Something is owed exactly when some node of B has a slot naming it. */
  lemma {:induction false} OwedIff<N>(g: Graph<N>, B: set<N>, o: N)
    ensures Owed(g, B, o) > 0 <==> exists n :: n in B && n in g && o in g[n]
    decreases |B|
  {
    if B != {} {
      var m :| m in B && Owed(g, B, o) == Out(g, m, o) + Owed(g, B - {m}, o);
      OutIff(g, m, o);
      OwedIff(g, B - {m}, o);
    }
  }

  lemma {:induction false} OwedAgree<N>(g: Graph<N>, h: Graph<N>, B: set<N>, o: N)
    requires forall n :: n in B ==> Out(g, n, o) == Out(h, n, o)
    ensures Owed(g, B, o) == Owed(h, B, o)
    decreases |B|
  {
    if B != {} {
      var m :| m in B;
      OwedRemove(g, B, m, o);
      OwedRemove(h, B, m, o);
      OwedAgree(g, h, B - {m}, o);
    }
  }

  lemma {:induction false} OwedHollow<N>(g: Graph<N>, D: set<N>, B: set<N>, o: N)
    ensures Owed(Hollow(g, D), B, o) == Owed(g, B - D, o)
    decreases |B|
  {
    if B == {} {
      assert B - D == {};
    } else {
      var h := Hollow(g, D);
      var n :| n in B;
      OwedRemove(h, B, n, o);
      OwedHollow(g, D, B - {n}, o);
      if n in D {
        assert (B - {n}) - D == B - D;
        OutIff(h, n, o);
      } else {
        assert (B - {n}) - D == (B - D) - {n};
        OwedRemove(g, B - D, n, o);
      }
    }
  }

  /** What is reached and no start is owed by any set that holds the reached. */
  lemma ReachedIsOwed<N>(g: Graph<N>, A: set<N>, B: set<N>, o: N)
    requires o in Reach(g, A) && o !in A
    requires forall n :: n in Reach(g, A) && n in g ==> n in B
    ensures Owed(g, B, o) > 0
  {
    ReachCameFrom(g, A, o);
    OwedIff(g, B, o);
  }

  // ---- what counting alone reclaims ----

  /** Members of H outside E that no member of H outside F names. */
  ghost function Unnamed<N>(g: Graph<N>, H: set<N>, E: set<N>, F: set<N>): set<N> {
    set n | n in H && n !in E && forall m :: m in H && m !in F && m in g ==> n !in g[m]
  }

  /** What falls, round by round, when only E is held from outside: what nobody
      names, then what only the fallen named. A cycle never falls. */
  ghost function Perish<N>(g: Graph<N>, H: set<N>, E: set<N>, F: set<N>): set<N>
    decreases |H - F|
  {
    if Unnamed(g, H, E, F) <= F then F
    else
      assert H - (F + Unnamed(g, H, E, F)) < H - F by {
        var c :| c in Unnamed(g, H, E, F) && c !in F;
        assert c in H - F && c !in H - (F + Unnamed(g, H, E, F));
      }
      SubsetSmaller(H - (F + Unnamed(g, H, E, F)), H - F);
      Perish(g, H, E, F + Unnamed(g, H, E, F))
  }

  lemma {:induction false} PerishLeast<N>(g: Graph<N>, H: set<N>, E: set<N>, F: set<N>, X: set<N>)
    requires F <= X && Unnamed(g, H, E, X) <= X
    ensures Perish(g, H, E, F) <= X
    decreases |H - F|
  {
    if !(Unnamed(g, H, E, F) <= F) {
      var c :| c in Unnamed(g, H, E, F) && c !in F;
      assert c in H - F && c !in H - (F + Unnamed(g, H, E, F));
      SubsetSmaller(H - (F + Unnamed(g, H, E, F)), H - F);
      assert Unnamed(g, H, E, F) <= Unnamed(g, H, E, X);
      PerishLeast(g, H, E, F + Unnamed(g, H, E, F), X);
    }
  }

  /** With more held from outside, less falls. */
  lemma PerishFewer<N>(g: Graph<N>, H: set<N>, D: set<N>, E: set<N>)
    requires D <= E
    ensures Perish(g, H, E, {}) <= Perish(g, H, D, {})
  {
    PerishStep(g, H, D, {});
    PerishLeast(g, H, E, {}, Perish(g, H, D, {}));
  }

  lemma {:induction false} PerishStep<N>(g: Graph<N>, H: set<N>, E: set<N>, F: set<N>)
    ensures F <= Perish(g, H, E, F)
    ensures Unnamed(g, H, E, Perish(g, H, E, F)) <= Perish(g, H, E, F)
    decreases |H - F|
  {
    if !(Unnamed(g, H, E, F) <= F) {
      var c :| c in Unnamed(g, H, E, F) && c !in F;
      assert c in H - F && c !in H - (F + Unnamed(g, H, E, F));
      SubsetSmaller(H - (F + Unnamed(g, H, E, F)), H - F);
      PerishStep(g, H, E, F + Unnamed(g, H, E, F));
    }
  }
}
