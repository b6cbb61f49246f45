/** Counted objects, and the relation that one release, however far it runs, is
    between two snapshots of the heap. */
module Snapshots {
  import opened Graphs

  datatype Color = Black | Gray | White | Purple

  datatype Word = Count(n: nat) | Immortal | Link(next: Header?)

  const COLLECT_THRESHOLD: nat := 10000
  const ROOT_NONE: int := -1

  class Header {
    var word: Word
    var color: Color
    var buffered: bool
    var dying: bool
    var index: int
    var slots: seq<Header?>
    const cyclic: bool
    const isString: bool
    const foreignContents: bool

    constructor (word: Word, slots: seq<Header?>, cyclic: bool, isString: bool, foreignContents: bool)
      ensures this.word == word && this.slots == slots && this.cyclic == cyclic
      ensures this.isString == isString && this.foreignContents == foreignContents
      ensures color == Black && !buffered && !dying && index == ROOT_NONE
    {
      this.word, this.slots, this.cyclic, this.isString := word, slots, cyclic, isString;
      this.foreignContents := foreignContents;
      color, buffered, dying, index := Black, false, false, ROOT_NONE;
    }
  }

  /** `stack` with the non-null references among the first i slots pushed on it. */
  ghost function Pushed(stack: seq<Header>, slots: seq<Header?>, i: nat): seq<Header>
    requires i <= |slots|
  {
    if i == 0 then stack
    else if slots[i - 1] == null then Pushed(stack, slots, i - 1)
    else Pushed(stack, slots, i - 1) + [slots[i - 1]]
  }

  lemma {:induction false} PushedIff(stack: seq<Header>, slots: seq<Header?>, i: nat, c: Header)
    requires i <= |slots|
    ensures c in Pushed(stack, slots, i) <==> c in stack || exists j :: 0 <= j < i && slots[j] == c
  {
    if i > 0 {
      PushedIff(stack, slots, i - 1, c);
    }
  }

  ghost function Items(s: seq<Header>): set<Header> {
    set n | n in s
  }

  /** s names the members of p, once each. */
  ghost predicate Lists(s: seq<Header>, p: set<Header>) {
    && (forall i :: 0 <= i < |s| ==> s[i] in p)
    && (forall i, j :: 0 <= i < j < |s| ==> s[i] != s[j])
    && (forall n :: n in p ==> n in s)
  }

  lemma ListsItems(s: seq<Header>, p: set<Header>)
    requires Lists(s, p)
    ensures Items(s) == p && forall i :: 0 <= i < |s| ==> s[i] in p
  {
  }

  lemma ListsPush(s: seq<Header>, p: set<Header>, n: Header)
    requires Lists(s, p) && n !in p
    ensures Lists(s + [n], p + {n})
  {
  }

  /** The element that follows position i, null at the end. */
  ghost function After(q: seq<Header>, i: int): Header?
    requires -1 <= i < |q|
  {
    if i + 1 < |q| then q[i + 1] else null
  }

  /** The non-null references from position i on, as a multiset. */
  ghost function Given(slots: seq<Header?>, i: nat): multiset<Header?>
    requires i <= |slots|
    decreases |slots| - i
  {
    if i == |slots| then multiset{}
    else if slots[i] == null then Given(slots, i + 1)
    else Given(slots, i + 1) + multiset{slots[i]}
  }

  lemma {:induction false} GivenCount(slots: seq<Header?>, i: nat, c: Header?)
    requires i <= |slots|
    ensures Given(slots, i)[c] == if c == null then 0 else Occurs(slots, i, c)
    decreases |slots| - i
  {
    if i < |slots| {
      GivenCount(slots, i + 1, c);
    }
  }

  /** No member of H of a type that cannot lead back to itself lies on a cycle. */
  ghost predicate NoCycles(g: Graph<Header?>, H: set<Header>) {
    forall n :: n in H && !n.cyclic ==> n !in Reach(g, Kids(g, {n}))
  }

  lemma NoCyclesFewer(h: Graph<Header?>, K: set<Header>, g: Graph<Header?>, H: set<Header>)
    requires NoCycles(g, H) && K <= H && Subgraph(h, g)
    ensures NoCycles(h, K)
  {
    forall n | n in K && !n.cyclic
      ensures n !in Reach(h, Kids(h, {n}))
    {
      NoCycleSubgraph(h, g, n);
    }
  }

  // ---- what a release, however deep, does to the heap: as a relation on snapshots ----

  datatype View = View(
    heap: set<Header>,
    living: set<Header>,                    // not yet emptied
    husks: map<Header, (Word, bool)>,       // emptied, not yet freed: count word, buffered
    g: Graph<Header?>,
    immortals: set<Header>,
    draining: bool, collecting: bool, region: bool,
    allocations: nat, leaving: nat, epoch: nat,
    dead: seq<Header>, zeroed: seq<Header>,
    log: seq<Header>)                       // every object ever emptied by counting

  /** d lists objects of L so that whoever names one comes before it: nothing
      but counting was needed to see that they are garbage. */
  ghost predicate InTurn(g: Graph<Header?>, L: set<Header>, d: seq<Header>) {
    && (forall i, j :: 0 <= i < j < |d| ==> d[i] != d[j])
    && (forall i :: 0 <= i < |d| ==> d[i] in L)
    && (forall i, m :: 0 <= i < |d| && m in L && m in g && d[i] in g[m] ==> m in d[..i])
  }

  /** Without a collection, what stopped living fell in turn. */
  ghost predicate Clean(a: View, b: View) {
    && |a.log| <= |b.log| && b.log[..|a.log|] == a.log
    && InTurn(a.g, a.living, b.log[|a.log|..])
    && b.living == a.living - Items(b.log[|a.log|..])
    && (forall n :: n in b.living && n in a.g ==> n in b.g && b.g[n] == a.g[n])
  }

  ghost predicate Aftermath(a: View, b: View) {
    && b.heap <= a.heap && b.living <= a.living && b.immortals == a.immortals
    && b.draining == a.draining && b.collecting == a.collecting && b.region == a.region
    && b.allocations == a.allocations && b.leaving == a.leaving
    && b.dead == a.dead && b.zeroed == a.zeroed
    && (forall n :: n in a.husks ==> n in b.husks && b.husks[n] == a.husks[n])
    && (forall n :: n in b.husks && n !in a.husks ==> b.collecting && b.husks[n] == (Count(0), true))
    && a.epoch <= b.epoch && (b.epoch == a.epoch ==> Clean(a, b))
  }

  /** Falling in turn is falling for no other reason than counting's. */
  lemma {:induction false} InTurnPerishes(g: Graph<Header?>, L: set<Header>, E: set<Header>, d: seq<Header>, i: nat)
    requires InTurn(g, L, d) && Items(d) !! E && i <= |d|
    ensures Items(d[..i]) <= Perish(g, L, E, {})
  {
    if i > 0 {
      InTurnPerishes(g, L, E, d, i - 1);
      PerishStep(g, L, E, {});
      assert d[..i] == d[..i - 1] + [d[i - 1]];
      assert d[i - 1] in Unnamed(g, L, E, Perish(g, L, E, {})) by {
        assert d[i - 1] in Items(d);
        forall m | m in L && m !in Perish(g, L, E, {}) && m in g
          ensures d[i - 1] !in g[m]
        {
          assert m !in d[..i - 1];
        }
      }
    }
  }

  /** What fell in turn, when every survivor is still named from outside or by a
      survivor, is exactly what counting is defined to reclaim -- in whatever
      order the drain came to it. */
  lemma FallIsPerish(a: View, b: View, E: set<Header>)
    requires Clean(a, b) && E <= b.living && a.living <= a.g.Keys
    requires forall n :: n in b.living && n !in E ==> exists m :: m in b.living && m in b.g && n in b.g[m]
    ensures b.living == a.living - Perish(a.g, a.living, E, {})
  {
    var d := b.log[|a.log|..];
    assert Items(d) !! E;
    InTurnPerishes(a.g, a.living, E, d, |d|);
    assert d[..|d|] == d;
    var X: set<Header?> := Items(d);
    forall n | n in b.living
      ensures n !in Unnamed(a.g, a.living, E, X)
    {
      if n !in E {
        var m :| m in b.living && m in b.g && n in b.g[m];
        assert m in a.living && m !in X && m in a.g;
      }
    }
    PerishLeast(a.g, a.living, E, {}, X);
  }

  lemma InTurnJoin(g: Graph<Header?>, L: set<Header>, d: seq<Header>, h: Graph<Header?>, M: set<Header>, e: seq<Header>)
    requires InTurn(g, L, d) && InTurn(h, M, e) && M == L - Items(d)
    requires forall n :: n in M && n in g ==> n in h && h[n] == g[n]
    ensures InTurn(g, L, d + e)
  {
    var f := d + e;
    forall i, m | 0 <= i < |f| && m in L && m in g && f[i] in g[m]
      ensures m in f[..i]
    {
      if i < |d| {
        assert f[..i] == d[..i];
      } else {
        assert f[i] == e[i - |d|] && f[..i] == d + e[..i - |d|];
        if m !in d {
          assert m in M;
        }
      }
    }
  }

  lemma CleanTrans(a: View, b: View, c: View)
    requires Clean(a, b) && Clean(b, c)
    ensures Clean(a, c)
  {
    var d, e := b.log[|a.log|..], c.log[|b.log|..];
    assert c.log[|a.log|..] == d + e by {
      assert c.log == b.log + e && b.log == a.log + d;
    }
    assert c.log[..|a.log|] == b.log[..|a.log|] by {
      assert c.log == b.log + e;
    }
    InTurnJoin(a.g, a.living, d, b.g, b.living, e);
  }

  lemma AftermathTrans(a: View, b: View, c: View)
    requires Aftermath(a, b) && Aftermath(b, c)
    ensures Aftermath(a, c)
  {
    hide Clean;
    if c.epoch == a.epoch {
      CleanTrans(a, b, c);
    }
  }

  ghost predicate EndsWith(s: seq<Header>, t: seq<Header>) {
    |t| <= |s| && s[|s| - |t|..] == t
  }

  /** dead, which nothing living names, has been emptied. */
  ghost predicate Opened(a: View, b: View, dead: Header) {
    && dead in a.living && dead in a.heap && dead !in a.husks && dead in b.husks
    && (forall m :: m in a.living && m in a.g ==> dead !in a.g[m])
    && b == a.(living := a.living - {dead}, husks := a.husks[dead := b.husks[dead]], g := b.g, log := a.log + [dead])
    && (forall n :: n in b.living && n in a.g ==> n in b.g && b.g[n] == a.g[n])
  }

  ghost function WithHusk(v: View, dead: Header, w: (Word, bool)): View {
    v.(heap := v.heap + {dead}, husks := v.husks[dead := w])
  }

  lemma OpenedUnbuffered(a: View, b: View, dead: Header, w: (Word, bool))
    requires Opened(a, b, dead)
    ensures Opened(a, b.(husks := b.husks[dead := w]), dead)
  {
  }

  lemma OpenedHusk(a: View, b: View, dead: Header)
    requires Opened(a, b, dead)
    ensures dead in b.husks && dead in b.heap && b.collecting == a.collecting
  {
  }

  lemma ShellView(b: View, v: View, c: View, dead: Header)
    requires Aftermath(b, v) && dead in b.husks && dead in v.heap
    requires c == v.(husks := v.husks[dead := (Count(0), true)])
    ensures Aftermath(b, WithHusk(c, dead, b.husks[dead]))
    ensures dead in c.husks && c.husks[dead] == (Count(0), true) && dead in c.heap
  {
    assert WithHusk(c, dead, b.husks[dead]) == v by {
      assert v.heap + {dead} == v.heap;
      assert v.husks[dead := (Count(0), true)][dead := b.husks[dead]] == v.husks;
    }
  }

  lemma OpenedClean(a: View, b: View, dead: Header)
    requires Opened(a, b, dead)
    ensures Clean(a, b)
  {
    assert b.log[|a.log|..] == [dead];
    assert Items([dead]) == {dead};
  }

  /** Emptied, then freed. */
  lemma OpenedFreed(a: View, b: View, c: View, dead: Header)
    requires Opened(a, b, dead) && Aftermath(b, WithHusk(c, dead, b.husks[dead]))
    requires dead !in c.heap && dead !in c.husks && dead !in c.living
    ensures Aftermath(a, c) && c.living < a.living
  {
    var d := WithHusk(c, dead, b.husks[dead]);
    if c.epoch == a.epoch {
      OpenedClean(a, b, dead);
      CleanTrans(a, b, d);
    }
    forall n | n in a.husks
      ensures n in c.husks && c.husks[n] == a.husks[n]
    {
      assert n != dead && n in b.husks && n in d.husks;
    }
    forall n | n in c.husks && n !in a.husks
      ensures c.collecting && c.husks[n] == (Count(0), true)
    {
      assert n in d.husks && n !in b.husks;
    }
  }

  /** Emptied, and left as a shell the candidate buffer still names. */
  lemma OpenedShell(a: View, b: View, c: View, dead: Header)
    requires Opened(a, b, dead) && Aftermath(b, WithHusk(c, dead, b.husks[dead]))
    requires dead in c.heap && dead in c.husks && dead !in c.living
    requires c.collecting && c.husks[dead] == (Count(0), true)
    ensures Aftermath(a, c) && c.living < a.living
  {
    var d := WithHusk(c, dead, b.husks[dead]);
    if c.epoch == a.epoch {
      OpenedClean(a, b, dead);
      CleanTrans(a, b, d);
    }
    forall n | n in a.husks
      ensures n in c.husks && c.husks[n] == a.husks[n]
    {
      assert n != dead && n in b.husks && n in d.husks;
    }
    forall n | n in c.husks && n !in a.husks
      ensures c.husks[n] == (Count(0), true)
    {
      if n != dead {
        assert n in d.husks && n !in b.husks;
      }
    }
  }

  ghost predicate Resting(v: View) {
    && (!v.collecting ==> v.dead == [] && v.zeroed == [])
    && (!v.draining && !v.collecting ==> v.husks == map[] && v.leaving == 0)
  }

  lemma WithHuskLeaving(v: View, node: Header, w: (Word, bool))
    ensures WithHusk(v, node, w).leaving == v.leaving
  {
  }

  lemma EndsWithSelf(q: seq<Header>)
    ensures EndsWith(q, q)
  {
  }

  lemma EndsWithTrans(a: seq<Header>, b: seq<Header>, c: seq<Header>)
    requires EndsWith(a, b) && EndsWith(b, c)
    ensures EndsWith(a, c)
  {
    assert a[|a| - |c|..] == b[|b| - |c|..];
  }

  lemma EndsWithOne(n: Header, q: seq<Header>)
    ensures EndsWith([n] + q, q)
  {
  }

  lemma GivenStep(slots: seq<Header?>, i: nat, base: multiset<Header?>)
    requires i < |slots|
    ensures slots[i] == null ==> Given(slots, i) == Given(slots, i + 1)
    ensures slots[i] != null ==> (base + Given(slots, i))[slots[i]] > 0
    ensures slots[i] != null ==>
              var h := base + Given(slots, i); h[slots[i] := h[slots[i]] - 1] == base + Given(slots, i + 1)
  {
  }

  lemma GivenNone(slots: seq<Header?>, base: multiset<Header?>)
    ensures base + Given(slots, |slots|) == base
  {
  }

  /** v2 is v1 with the husk node freed. */
  ghost predicate Freed(v1: View, v2: View, node: Header) {
    && node in v1.heap && node in v1.husks && node !in v1.living && v1.leaving > 0
    && v2 == v1.(heap := v1.heap - {node}, husks := v1.husks - {node}, g := v2.g, leaving := v1.leaving - 1)
    && (forall n :: n in v1.living && n in v1.g ==> n in v2.g && v2.g[n] == v1.g[n])
  }

  lemma FreedView(v0: View, v1: View, v2: View, node: Header)
    requires Aftermath(v0, v1) && Freed(v1, v2, node)
    ensures Aftermath(v0, WithHusk(v2, node, v1.husks[node]).(leaving := v1.leaving))
  {
    var b := WithHusk(v2, node, v1.husks[node]).(leaving := v1.leaving);
    forall n | n in v0.husks
      ensures n in b.husks && b.husks[n] == v0.husks[n]
    {
      assert n in v1.husks;
    }
    forall n | n in b.husks && n !in v0.husks
      ensures b.collecting && b.husks[n] == (Count(0), true)
    {
      assert n in v1.husks;
    }
  }

  lemma LeavingLess(a: View, b: View, k: nat)
    requires Aftermath(a.(leaving := k), b.(leaving := k)) && b.leaving == a.leaving
    ensures Aftermath(a, b)
  {
  }

  /** The drain flag is up while b comes about, and down before and after. */
  lemma DrainedView(a: View, b: View)
    requires Aftermath(a.(draining := true), b) && !a.draining
    ensures Aftermath(a, b.(draining := false))
  {
  }

  lemma AftermathSelf(a: View)
    ensures Aftermath(a, a)
  {
    assert a.log[|a.log|..] == [];
  }

  /** A store: v goes into slot i of node, was comes out of it. */
  datatype Move = Move(node: Header, i: nat, v: Header?, was: Header?)

  ghost function MovedHeld(h: multiset<Header?>, m: Move): multiset<Header?> {
    var h1 := if m.v == null || h[m.v] == 0 then h else h[m.v := h[m.v] - 1];
    if m.was == null then h1 else h1[m.was := h1[m.was] + 1]
  }

  lemma SameOff(a: multiset<Header?>, b: multiset<Header?>, x: Header?)
    requires a[x := 0] == b[x := 0]
    ensures forall c :: c != x ==> a[c] == b[c]
  {
    forall c | c != x
      ensures a[c] == b[c]
    {
      assert a[x := 0][c] == a[c] && b[x := 0][c] == b[c];
    }
  }

  lemma SlotMembers(s: seq<Header?>, i: nat, v: Header?, c: Header?)
    requires i < |s|
    ensures v in s[i := v] && (c in s && c !in s[i := v] ==> c == s[i])
  {
    assert s[i := v][i] == v;
    if c in s && c != s[i] {
      var j :| 0 <= j < |s| && s[j] == c;
      assert s[i := v][j] == c;
    }
  }
}
