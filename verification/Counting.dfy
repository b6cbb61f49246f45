/** Reference counts with a trial-deletion collector (Bacon and Rajan, ECOOP
    2001): what each operation, and each pass over the graph, does to the heap. */
module Counting {
  import opened Graphs
  import opened Snapshots

  /** The environment and its heap. held counts the references the program has to
      each object, foreign those it has handed to code that may give them back
      at any time, g the slots, queue the dying list, log every object that
      counting has emptied. */
  class Runtime {
    ghost var heap: set<Header>
    ghost var g: Graph<Header?>
    ghost var immortals: set<Header>
    ghost var held: multiset<Header?>
    ghost var queue: seq<Header>
    var foreign: multiset<Header?>
    var roots: seq<Header>
    var work: seq<Header>
    var dead: seq<Header>
    var zeroed: seq<Header>
    var dyingHead: Header?
    var draining: bool
    var collecting: bool
    var region: bool
    var allocations: nat
    var reclaimed: nat
    var collectAt: nat
    var epoch: nat
    var buffers: nat
    ghost var leaving: nat
    ghost var log: seq<Header>
    ghost var began: nat            // how many candidates the last collection began with

    /** Nothing allocated yet. */
    constructor (region: bool)
      ensures Valid() && Settled() && heap == {} && this.region == region
      ensures !draining && !collecting && held == multiset{} && foreign == multiset{} && roots == []
    {
      heap, g, immortals, held, queue := {}, map[], {}, multiset{}, [];
      foreign, roots, work, dead, zeroed := multiset{}, [], [], [], [];
      dyingHead, draining, collecting, this.region := null, false, false, region;
      allocations, reclaimed, collectAt, epoch, buffers := 0, 0, 0, 0, 0;
      leaving, log, began := 0, [], 0;
    }

    // ---- what the heap looks like ----

    ghost predicate Shape()
      reads this`heap, this`g, this`queue, this`immortals, heap`dying, heap`slots
    {
      && g.Keys == heap
      && immortals <= heap
      && (forall n :: n in heap ==> g[n] == if n.dying && n !in queue then [] else n.slots)
      && (forall n, c :: n in heap && c in g[n] ==> c == null || c in heap)
    }

    ghost function Refs(n: Header): nat
      reads this`heap, this`g, this`held, this`foreign
    {
      held[n] + foreign[n] + Owed(g, heap, n)
    }

    ghost predicate DyingAreFree()
      reads this`heap, this`g, this`held, this`foreign, this`immortals, heap`dying
    {
      forall n :: n in heap && n.dying ==> n !in immortals && Refs(n) == 0
    }

    ghost predicate Ground()
      reads this`heap, this`g, this`queue, this`immortals, this`held, this`foreign, heap`dying, heap`slots
    {
      Shape() && DyingAreFree()
    }

    ghost predicate TallyPlus(Q: set<Header>, rest: seq<Header?>, i: nat)
      reads this`heap, this`g, this`held, this`foreign, this`immortals, heap`dying, heap`word
    {
      forall n :: n in heap ==>
        if n in immortals then n.word == Immortal
        else if n.dying then n.word == Count(0)
        else n.word == Count(held[n] + foreign[n] + Owed(g, Q, n) + Occurs(rest, i, n))
    }

    ghost predicate Tally(Q: set<Header>)
      reads this`heap, this`g, this`held, this`foreign, this`immortals, heap`dying, heap`word
    {
      TallyPlus(Q, [], 0)
    }

    /** The graph as the walks see it: nothing is traced out of an immortal. */
    ghost function Traced(): Graph<Header?>
      reads this`g, this`immortals
    {
      Hollow(g, immortals)
    }

    ghost predicate Painted(s: set<Header>, color: Color)
      reads this`heap, heap`color
    {
      forall n :: n in heap ==> (n.color == color <==> n in s)
    }

    /** A mortal child of a member of s is in s, or still to be visited. */
    ghost predicate ClosedInto(s: set<Header>, todo: seq<Header>)
      reads this`heap, this`g, this`immortals
    {
      forall n, c :: n in s && n in g && c in g[n] && c in heap && c !in immortals ==> c in s || c in todo
    }

    /** What a walk may visit: alive, and inside `found`. */
    ghost predicate Frontier(todo: seq<Header>, found: set<Header?>)
      reads this`heap, heap`dying
    {
      forall n :: n in todo ==> n in heap && !n.dying && n in found
    }

    lemma SlotIsAlive(node: Header, i: nat)
      requires Ground() && node in heap && !node.dying && i < |node.slots| && node.slots[i] != null
      ensures node.slots[i] in heap && !node.slots[i].dying
    {
      var c := node.slots[i];
      assert node in g && c in g[node];
      OwedIff(g, heap, c);
    }

    lemma FrontierStep(rest: seq<Header>, found: set<Header?>, node: Header)
      requires Ground() && node in heap && !node.dying
      requires Frontier(rest, found)
      requires forall c :: c in node.slots && c in heap ==> c in found
      ensures Frontier(Pushed(rest, node.slots, |node.slots|), found)
    {
      forall c | c in Pushed(rest, node.slots, |node.slots|)
        ensures c in heap && !c.dying && c in found
      {
        PushedIff(rest, node.slots, |node.slots|, c);
        if c !in rest {
          var j :| 0 <= j < |node.slots| && node.slots[j] == c;
          SlotIsAlive(node, j);
        }
      }
    }

    lemma ClosedStep(s: set<Header>, rest: seq<Header>, node: Header)
      requires Ground() && node in heap && !node.dying
      requires ClosedInto(s, rest + [node])
      ensures ClosedInto(s + {node}, Pushed(rest, node.slots, |node.slots|))
    {
      forall n, c | n in s + {node} && n in g && c in g[n] && c in heap && c !in immortals
        ensures c in s + {node} || c in Pushed(rest, node.slots, |node.slots|)
      {
        PushedIff(rest, node.slots, |node.slots|, c);
        if n == node {
          assert c in node.slots;
        } else {
          assert c in s || c in rest + [node];
        }
      }
    }

    lemma ClosedSkip(s: set<Header>, rest: seq<Header>, node: Header)
      requires node in s || node in immortals
      requires ClosedInto(s, rest + [node])
      ensures ClosedInto(s, rest)
    {
    }

    lemma TracedStep(found: set<Header?>, node: Header)
      requires Ground() && node in heap && node !in immortals && !node.dying && node in found
      requires Closed(Traced(), found)
      ensures forall c :: c in node.slots && c in heap ==> c in found
    {
    }

    // ---- mark ----

    lemma TallyStart(Q: set<Header>, node: Header)
      requires Ground() && node in heap && !node.dying && node !in Q && Tally(Q + {node})
      ensures TallyPlus(Q, node.slots, 0)
    {
      forall n | n in heap
        ensures Owed(g, Q + {node}, n) == Occurs(node.slots, 0, n) + Owed(g, Q, n)
      {
        OwedAdd(g, Q, node, n);
      }
    }

    lemma TallyEnd(Q: set<Header>, slots: seq<Header?>)
      requires TallyPlus(Q, slots, |slots|)
      ensures Tally(Q)
    {
    }

    lemma TallySkip(Q: set<Header>, slots: seq<Header?>, i: nat)
      requires TallyPlus(Q, slots, i) && i < |slots| && slots[i] == null
      ensures TallyPlus(Q, slots, i + 1)
    {
    }

    method MarkGrayChild(child: Header, ghost Q: set<Header>, ghost rest: seq<Header?>, ghost i: nat)
      requires child in heap && !child.dying
      requires i < |rest| && rest[i] == child
      requires TallyPlus(Q, rest, i)
      modifies this`work, child`word
      ensures TallyPlus(Q, rest, i + 1)
      ensures work == old(work) + [child]
    {
      if child.word != Immortal {
        child.word := Count(child.word.n - 1);
      }
      work := work + [child];
    }

    method MarkGrayChildren(node: Header, ghost Q: set<Header>)
      requires Ground() && node in heap && !node.dying
      requires node !in Q && Tally(Q + {node})
      modifies this`work, heap`word
      ensures Tally(Q)
      ensures work == Pushed(old(work), node.slots, |node.slots|)
    {
      hide *;
      TallyStart(Q, node);
      PushedNone(work, node.slots);
      for i := 0 to |node.slots|
        invariant TallyPlus(Q, node.slots, i)
        invariant work == Pushed(old(work), node.slots, i)
      {
        PushedOne(old(work), node.slots, i);
        var child := node.slots[i];
        if child == null {
          TallySkip(Q, node.slots, i);
        } else {
          SlotIsAlive(node, i);
          MarkGrayChild(child, Q, node.slots, i);
        }
      }
      TallyEnd(Q, node.slots);
    }

    lemma PushedNone(stack: seq<Header>, slots: seq<Header?>)
      ensures Pushed(stack, slots, 0) == stack
    {
    }

    lemma PushedOne(stack: seq<Header>, slots: seq<Header?>, i: nat)
      requires i < |slots|
      ensures Pushed(stack, slots, i + 1) == if slots[i] == null then Pushed(stack, slots, i) else Pushed(stack, slots, i) + [slots[i]]
    {
    }

    /** One turn of the walk: paint, and remove the references node owns. */
    method MarkGrayVisit(node: Header, ghost gray: set<Header>, ghost found: set<Header?>)
      requires Ground() && node in heap && !node.dying && node !in immortals && node !in gray && node in found
      requires Painted(gray, Gray) && Tally(heap - gray)
      requires ClosedInto(gray, work + [node]) && Frontier(work, found) && Closed(Traced(), found)
      modifies this`work, heap`word, node`color
      ensures Painted(gray + {node}, Gray) && Tally(heap - (gray + {node}))
      ensures ClosedInto(gray + {node}, work) && Frontier(work, found)
    {
      hide *;
      ghost var rest := work;
      PaintMore(node, gray, Gray);
      assert heap - gray == (heap - (gray + {node})) + {node};
      MarkGrayChildren(node, heap - (gray + {node}));
      TracedStep(found, node);
      FrontierStep(rest, found, node);
      ClosedStep(gray, rest, node);
    }

    method MarkGray(root: Header, ghost gray0: set<Header>) returns (ghost gray: set<Header>)
      requires Marking(gray0) && Painted(gray0, Gray)
      requires root in heap && !root.dying && root !in immortals
      modifies this`work, heap`word, heap`color
      ensures Marking(gray) && Painted(gray, Gray)
      ensures gray0 <= gray && root in gray && gray <= gray0 + Reach(Traced(), {root})
      ensures forall n :: n in heap && n !in gray ==> n.color == old(n.color)
    {
      hide *;
      MarkingParts(gray0);
      work := [root];
      gray := gray0;
      ghost var found := Reach(Traced(), {root});
      ReachClosed(Traced(), {root});
      FrontierOne(root, found);
      ClosedMore(gray0, root);
      while work != []
        invariant gray0 <= gray <= heap && gray !! immortals && Painted(gray, Gray)
        invariant forall n :: n in gray ==> !n.dying
        invariant Frontier(work, found)
        invariant root in gray || work == [root]
        invariant ClosedInto(gray, work)
        invariant Tally(heap - gray)
        invariant gray <= gray0 + found
        invariant forall n :: n in heap && n !in gray ==> n.color == old(n.color)
        decreases heap - gray, |work|
      {
        var node := work[|work| - 1];
        ghost var stack := work;
        work := work[..|work| - 1];
        assert stack == work + [node];
        FrontierPop(stack, found);
        WordOf(node, heap - gray);
        PaintedAt(node, gray, Gray);
        if node.color == Gray || node.word == Immortal {
          ClosedSkip(gray, work, node);
          continue;
        }
        MarkGrayVisit(node, gray, found);
        gray := gray + {node};
      }
      ClosedEmpty(gray);
      MarkStep(gray);
    }

    method PaintMore(node: Header, ghost s: set<Header>, color: Color)
      requires node in heap && Painted(s, color)
      modifies node`color
      ensures node.color == color && Painted(s + {node}, color)
    {
      node.color := color;
    }

    lemma PaintedAt(node: Header, s: set<Header>, color: Color)
      requires node in heap && Painted(s, color)
      ensures node.color == color <==> node in s
    {
    }

    lemma WordOf(node: Header, Q: set<Header>)
      requires node in heap && Tally(Q)
      ensures node.word == Immortal <==> node in immortals
      ensures node !in immortals && !node.dying ==> node.word == Count(held[node] + foreign[node] + Owed(g, Q, node))
    {
    }

    lemma FrontierOne(root: Header, found: set<Header?>)
      requires root in heap && !root.dying && root in found
      ensures Frontier([root], found)
    {
    }

    lemma FrontierPop(stack: seq<Header>, found: set<Header?>)
      requires |stack| > 0 && Frontier(stack, found)
      ensures Frontier(stack[..|stack| - 1], found)
      ensures stack[|stack| - 1] in heap && !stack[|stack| - 1].dying && stack[|stack| - 1] in found
    {
    }

    lemma ClosedMore(s: set<Header>, root: Header)
      requires ClosedBut(s, {})
      ensures ClosedInto(s, [root])
    {
    }

    lemma ClosedEmpty(s: set<Header>)
      requires ClosedInto(s, [])
      ensures ClosedBut(s, {})
    {
    }

    // ---- scan black ----

    /** Counts as they stand when the first i references of `slots` are put back
        on top of those the members of Q own. */
    ghost predicate TallyUpTo(Q: set<Header>, slots: seq<Header?>, i: nat)
      requires i <= |slots|
      reads this`heap, this`g, this`held, this`foreign, this`immortals, heap`dying, heap`word
    {
      forall n :: n in heap ==>
        if n in immortals then n.word == Immortal
        else if n.dying then n.word == Count(0)
        else n.word == Count(held[n] + foreign[n] + Owed(g, Q, n) + OccursTo(slots, i, n))
    }

    lemma UpToStart(Q: set<Header>, slots: seq<Header?>)
      requires Tally(Q)
      ensures TallyUpTo(Q, slots, 0)
    {
    }

    lemma UpToSkip(Q: set<Header>, slots: seq<Header?>, i: nat)
      requires i < |slots| && slots[i] == null && TallyUpTo(Q, slots, i)
      ensures TallyUpTo(Q, slots, i + 1)
    {
    }

    lemma UpToEnd(Q: set<Header>, node: Header)
      requires Ground() && node in heap && !node.dying && node !in Q
      requires TallyUpTo(Q, node.slots, |node.slots|)
      ensures Tally(Q + {node})
    {
      forall n | n in heap
        ensures Owed(g, Q + {node}, n) == OccursTo(node.slots, |node.slots|, n) + Owed(g, Q, n)
      {
        OwedAdd(g, Q, node, n);
        OccursSplit(node.slots, |node.slots|, n);
      }
    }

    ghost predicate WhitesZero(white: set<Header>)
      reads white`word
    {
      forall w :: w in white ==> w.word == Count(0)
    }

    /** The worklist is `base` with the members of p, once each, above it. */
    ghost predicate Stacked(base: seq<Header>, p: set<Header>)
      reads this`work
    {
      && |base| <= |work| && work[..|base|] == base
      && (forall i :: |base| <= i < |work| ==> work[i] in p)
      && (forall i, j :: |base| <= i < j < |work| ==> work[i] != work[j])
      && (forall n :: n in p ==> exists i :: |base| <= i < |work| && work[i] == n)
    }

    method Push(child: Header, ghost base: seq<Header>, ghost p: set<Header>)
      requires Stacked(base, p) && child !in p
      modifies this`work
      ensures Stacked(base, p + {child})
    {
      ghost var before := work;
      work := work + [child];
      assert work[..|base|] == before[..|base|];
      forall n | n in p + {child}
        ensures exists i :: |base| <= i < |work| && work[i] == n
      {
        if n in p {
          var i :| |base| <= i < |before| && before[i] == n;
          assert work[i] == n;
        } else {
          assert work[|before|] == n;
        }
      }
    }

    method Pop(ghost base: seq<Header>, ghost p: set<Header>) returns (node: Header)
      requires Stacked(base, p) && |work| > |base|
      modifies this`work
      ensures Stacked(base, p - {node}) && node in p
    {
      ghost var before := work;
      node := work[|work| - 1];
      work := work[..|work| - 1];
      assert work[..|base|] == before[..|base|];
      forall n | n in p - {node}
        ensures exists i :: |base| <= i < |work| && work[i] == n
      {
        var i :| |base| <= i < |before| && before[i] == n;
        assert work[i] == n;
      }
    }

    lemma StackedNone(base: seq<Header>, p: set<Header>)
      requires Stacked(base, p)
      ensures |work| == |base| ==> p == {} && work == base
      ensures |work| >= |base|
    {
    }

    ghost function KidSet(slots: seq<Header?>, i: nat): set<Header>
      requires i <= |slots|
    {
      if i == 0 then {}
      else KidSet(slots, i - 1) + if slots[i - 1] == null then {} else {slots[i - 1]}
    }

    lemma {:induction false} KidSetIff(slots: seq<Header?>, i: nat, c: Header)
      requires i <= |slots|
      ensures c in KidSet(slots, i) <==> exists j :: 0 <= j < i && slots[j] == c
    {
      if i > 0 {
        KidSetIff(slots, i - 1, c);
      }
    }

    /** The colors of the walks after marking: no candidate color is left, and
        what is neither gray nor white is black. */
    ghost predicate Shades(gray: set<Header>, white: set<Header>)
      reads this`heap, this`immortals, heap`color
    {
      && gray + white <= heap && (gray + white) !! immortals && gray !! white
      && forall n :: n in heap ==>
           n.color == if n in gray then Gray else if n in white then White else Black
    }

    lemma ShadeOf(n: Header, gray: set<Header>, white: set<Header>)
      requires n in heap && Shades(gray, white)
      ensures n.color == if n in gray then Gray else if n in white then White else Black
      ensures n in gray + white ==> n !in immortals
    {
    }

    method Blacken(child: Header, ghost gray: set<Header>, ghost white: set<Header>)
      requires child in heap && Shades(gray, white)
      modifies child`color
      ensures Shades(gray - {child}, white - {child})
    {
      child.color := Black;
    }

    method PutBack(child: Header, ghost Q: set<Header>, ghost slots: seq<Header?>, ghost i: nat)
      requires child in heap && !child.dying
      requires i < |slots| && slots[i] == child && TallyUpTo(Q, slots, i)
      modifies child`word
      ensures TallyUpTo(Q, slots, i + 1)
    {
      if child.word != Immortal {
        child.word := Count(child.word.n + 1);
      }
    }

    lemma WhitesFewer(white: set<Header>, less: set<Header>)
      requires WhitesZero(white)
      ensures WhitesZero(white - less)
    {
    }

    method ScanBlackChild(child: Header, ghost Q: set<Header>, ghost slots: seq<Header?>, ghost i: nat,
                          ghost gray: set<Header>, ghost white: set<Header>,
                          ghost base: seq<Header>, ghost p: set<Header>)
      requires child in heap && !child.dying
      requires i < |slots| && slots[i] == child && TallyUpTo(Q, slots, i)
      requires Shades(gray, white) && WhitesZero(white)
      requires (gray + white) !! p && Stacked(base, p)
      modifies this`work, child`word, child`color
      ensures TallyUpTo(Q, slots, i + 1)
      ensures Shades(gray - {child}, white - {child}) && WhitesZero(white - {child})
      ensures Stacked(base, p + ({child} * (gray + white)))
    {
      hide *;
      WhitesFewer(white, {child});
      PutBack(child, Q, slots, i);
      ShadeOf(child, gray, white);
      if child.color != Black {
        Blacken(child, gray, white);
        Push(child, base, p);
        assert {child} * (gray + white) == {child};
      } else {
        assert gray - {child} == gray && white - {child} == white;
        assert {child} * (gray + white) == {};
        assert p + {} == p;
      }
    }

    lemma KidSetOne(slots: seq<Header?>, i: nat)
      requires i < |slots|
      ensures KidSet(slots, 0) == {}
      ensures KidSet(slots, i + 1) == KidSet(slots, i) + if slots[i] == null then {} else {slots[i]}
    {
    }

    method ScanBlackChildren(node: Header, ghost Q: set<Header>, ghost gray: set<Header>, ghost white: set<Header>,
                             ghost base: seq<Header>, ghost p: set<Header>)
      requires Ground() && node in heap && !node.dying && node !in Q
      requires Tally(Q) && Shades(gray, white) && WhitesZero(white)
      requires (gray + white) !! p && Stacked(base, p)
      modifies this`work, heap`word, heap`color
      ensures Tally(Q + {node})
      ensures var K := KidSet(node.slots, |node.slots|);
              && Shades(gray - K, white - K) && WhitesZero(white - K)
              && Stacked(base, p + (K * (gray + white)))
    {
      hide *;
      UpToStart(Q, node.slots);
      ghost var K: set<Header> := {};
      KidSetNone(node.slots);
      assert gray - K == gray && white - K == white;
      assert p + (K * (gray + white)) == p;
      for i := 0 to |node.slots|
        invariant K == KidSet(node.slots, i)
        invariant TallyUpTo(Q, node.slots, i)
        invariant Shades(gray - K, white - K) && WhitesZero(white - K)
        invariant Stacked(base, p + (K * (gray + white)))
      {
        var child := node.slots[i];
        KidSetOne(node.slots, i);
        if child == null {
          UpToSkip(Q, node.slots, i);
          assert K + {} == K;
        } else {
          SlotIsAlive(node, i);
          ghost var g1, w1, p1 := gray - K, white - K, p + (K * (gray + white));
          assert (g1 + w1) !! p1;
          ScanBlackChild(child, Q, node.slots, i, g1, w1, base, p1);
          ghost var K' := K + {child};
          assert g1 - {child} == gray - K' && w1 - {child} == white - K';
          assert p1 + ({child} * (g1 + w1)) == p + (K' * (gray + white));
          K := K';
        }
      }
      UpToEnd(Q, node);
    }

    lemma KidSetNone(slots: seq<Header?>)
      ensures KidSet(slots, 0) == {}
    {
    }

    /** Every mortal child of a member of s is in s or in t. */
    ghost predicate ClosedBut(s: set<Header>, t: set<Header>)
      reads this`heap, this`g, this`immortals
    {
      forall n, c :: n in s && n in g && c in g[n] && c in heap && c !in immortals ==> c in s || c in t
    }

    lemma RescueStep(S: set<Header>, pale: set<Header>, p: set<Header>, node: Header)
      requires Ground() && node in heap && !node.dying && node in p && p <= S && pale <= S && pale !! p
      requires ClosedBut(S, {}) && ClosedBut(S - pale - p, p)
      ensures var K := KidSet(node.slots, |node.slots|);
              var p' := (p - {node}) + (K * pale);
              p' <= S && ClosedBut(S - (pale - K) - p', p')
    {
      var K := KidSet(node.slots, |node.slots|);
      var p' := (p - {node}) + (K * pale);
      var done, done' := S - pale - p, S - (pale - K) - p';
      forall n, c | n in done' && n in g && c in g[n] && c in heap && c !in immortals
        ensures c in done' || c in p'
      {
        KidSetIff(node.slots, |node.slots|, c);
        if n == node {
          assert c in node.slots;
          assert c in S;
        } else {
          assert n in done;
          assert c in done || c in p;
        }
      }
    }

    /** What was rescued is inside `live`, and so is what it reaches. */
    lemma RescuedLive(live: set<Header?>, S: set<Header>, pale: set<Header>, p: set<Header>, node: Header)
      requires Ground() && node in heap && !node.dying && node in p && Closed(g, live)
      requires S - pale <= live && p <= S - pale
      ensures S - (pale - KidSet(node.slots, |node.slots|)) <= live
    {
      var K := KidSet(node.slots, |node.slots|);
      forall c | c in K
        ensures c in live
      {
        KidSetIff(node.slots, |node.slots|, c);
        var j :| 0 <= j < |node.slots| && node.slots[j] == c;
        assert c in g[node];
        SlotIsAlive(node, j);
      }
    }

    /** Where the scan of S stands: what is no longer gray or white is held from
        outside, is inside `live`, keeps what it reaches, and its references are
        back in the counts -- but for the members of p, whose references are
        still to be put back; whites count zero. */
    ghost predicate Rescuing(S: set<Header>, live: set<Header?>, gray: set<Header>, white: set<Header>, p: set<Header>)
      reads this`heap, this`g, this`held, this`foreign, this`immortals, this`queue
      reads heap`dying, heap`word, heap`color, heap`slots, white`word
    {
      && Ground() && gray + white <= S <= heap && (forall n :: n in S ==> !n.dying)
      && gray !! white && S !! immortals && p <= S && (gray + white) !! p
      && Tally(heap - (gray + white) - p) && Shades(gray, white) && WhitesZero(white)
      && ClosedBut(S, {}) && ClosedBut(S - (gray + white) - p, p)
      && Closed(g, live) && S - (gray + white) <= live
    }

    ghost predicate Scanning(S: set<Header>, live: set<Header?>, gray: set<Header>, white: set<Header>)
      reads this`heap, this`g, this`held, this`foreign, this`immortals, this`queue
      reads heap`dying, heap`word, heap`color, heap`slots, white`word
    {
      Rescuing(S, live, gray, white, {})
    }

    method ScanBlackVisit(node: Header, ghost S: set<Header>, ghost live: set<Header?>,
                          ghost gray: set<Header>, ghost white: set<Header>,
                          ghost base: seq<Header>, ghost p: set<Header>)
      requires Rescuing(S, live, gray, white, p) && node in p
      requires Stacked(base, p - {node})
      modifies this`work, heap`word, heap`color
      ensures var K := KidSet(node.slots, |node.slots|);
              var p' := (p - {node}) + (K * (gray + white));
              Rescuing(S, live, gray - K, white - K, p') && Stacked(base, p')
    {
      hide Tally, TallyPlus, TallyUpTo, Shades, WhitesZero, ClosedBut, Closed, Stacked, Ground, Shape, DyingAreFree, Owed, KidSet;
      ghost var K := KidSet(node.slots, |node.slots|);
      ghost var gray', white', p' := gray - K, white - K, (p - {node}) + (K * (gray + white));
      ghost var Q := heap - (gray + white) - p;
      ScanBlackChildren(node, Q, gray, white, base, p - {node});
      RescueStep(S, gray + white, p, node);
      RescuedLive(live, S, gray + white, p, node);
      assert gray' + white' == (gray + white) - K;
      assert Q + {node} == heap - (gray' + white') - p';
    }

    /** root, gray so far, turns out to be held: from here on it is rescued. */
    method ScanBlackRoot(root: Header, ghost S: set<Header>, ghost live: set<Header?>,
                         ghost gray: set<Header>, ghost white: set<Header>)
      requires Scanning(S, live, gray, white) && root in gray && root in live
      modifies root`color
      ensures Rescuing(S, live, gray - {root}, white, {root})
    {
      hide Tally, TallyPlus, TallyUpTo, Shades, WhitesZero, ClosedBut, Closed, Stacked, Ground, Shape, DyingAreFree, Owed, KidSet;
      Blacken(root, gray, white);
      assert white - {root} == white;
      assert heap - (gray + white) - {} == heap - (gray - {root} + white) - {root};
      ghost var done := S - (gray - {root} + white) - {root};
      assert done == S - (gray + white) - {};
      ClosedMoreSet(done, {root});
    }

    lemma ClosedMoreSet(s: set<Header>, t: set<Header>)
      requires ClosedBut(s, {})
      ensures ClosedBut(s, t)
    {
    }

    lemma RescuingParts(S: set<Header>, live: set<Header?>, gray: set<Header>, white: set<Header>, p: set<Header>)
      requires Rescuing(S, live, gray, white, p)
      ensures Ground() && p <= S <= heap && gray + white <= S && Tally(heap - (gray + white) - p)
      ensures forall n :: n in S ==> !n.dying && n !in immortals
      ensures Shades(gray, white) && gray !! white
      ensures Scanning(S, live, gray, white) <==> Rescuing(S, live, gray, white, {})
    {
    }

    method ScanBlack(root: Header, ghost S: set<Header>, ghost live: set<Header?>,
                     ghost gray0: set<Header>, ghost white0: set<Header>)
      returns (ghost gray: set<Header>, ghost white: set<Header>)
      requires Scanning(S, live, gray0, white0) && root in gray0 && root in live
      modifies this`work, heap`word, heap`color
      ensures gray <= gray0 - {root} && white <= white0
      ensures Scanning(S, live, gray, white)
      ensures work == old(work)
    {
      hide *;
      var floor := |work|;
      ghost var base := work;
      ScanningRoot(S, live, gray0, white0, root);
      gray, white := gray0 - {root}, white0;
      ScanBlackRoot(root, S, live, gray0, white0);
      StackedStart(base);
      Push(root, base, {});
      ghost var p: set<Header> := {root};
      assert {} + {root} == p;
      while |work| > floor
        invariant gray <= gray0 - {root} && white <= white0
        invariant Rescuing(S, live, gray, white, p)
        invariant Stacked(base, p)
        decreases gray + white, p
      {
        ghost var pale, p0 := gray + white, p;
        var node := Pop(base, p);
        ghost var K := KidSet(node.slots, |node.slots|);
        ScanBlackVisit(node, S, live, gray, white, base, p);
        PaleLess(gray, white, K, p0, node);
        gray, white, p := gray - K, white - K, (p - {node}) + (K * pale);
      }
      StackedNone(base, p);
      RescuingParts(S, live, gray, white, {});
    }

    /** Either something pale is rescued, or the work has one less. */
    lemma PaleLess(gray: set<Header>, white: set<Header>, K: set<Header>, p: set<Header>, node: Header)
      requires node in p
      ensures (gray - K) + (white - K) == (gray + white) - K
      ensures K * (gray + white) == {} ==> (gray - K) + (white - K) == gray + white && (p - {node}) + (K * (gray + white)) == p - {node} < p
      ensures K * (gray + white) != {} ==> (gray - K) + (white - K) < gray + white
    {
      var pale := gray + white;
      if K * pale == {} {
        forall x | x in pale
          ensures x !in K
        {
          assert x !in K * pale;
        }
      } else {
        var x :| x in K * pale;
        assert x in pale && x !in pale - K;
      }
    }

    lemma ScanningRoot(S: set<Header>, live: set<Header?>, gray: set<Header>, white: set<Header>, root: Header)
      requires Scanning(S, live, gray, white) && root in gray
      ensures root in heap && root !in white
    {
    }

    lemma StackedStart(base: seq<Header>)
      requires work == base
      ensures Stacked(base, {})
    {
    }

    // ---- scan ----

    /** Objects the rest of the world names: the program, foreign code, an
        immortal, or the list of objects about to be emptied. */
    ghost function Anchors(): set<Header>
      reads this`heap, this`held, this`foreign, this`immortals, this`queue
    {
      set n | n in heap && (held[n] > 0 || foreign[n] > 0 || n in immortals || n in queue)
    }

    /** The same but for one reference to v, which is on its way. */
    ghost function AnchorsWithout(v: Header?): set<Header>
      reads this`heap, this`held, this`foreign, this`immortals
    {
      set n | n in heap && (held[n] > (if n == v then 1 else 0) || foreign[n] > 0 || n in immortals)
    }

    ghost function Live(): set<Header?>
      reads this`heap, this`held, this`foreign, this`immortals, this`queue, this`g
    {
      Reach(g, Anchors())
    }

    /** Nothing alive outside S is out of `live`. */
    ghost predicate Outside(S: set<Header>, live: set<Header?>)
      reads this`heap, this`queue, heap`dying
    {
      queue == [] && forall n :: n in heap && n !in S && !n.dying ==> n in live
    }

    lemma CountedIsLive(node: Header, S: set<Header>, gray: set<Header>, white: set<Header>)
      requires Scanning(S, Live(), gray, white) && Outside(S, Live())
      requires node in gray && node.word.Count? && node.word.n > 0
      ensures node in Live()
    {
      var Q := heap - (gray + white) - {};
      if held[node] > 0 || foreign[node] > 0 {
        assert node in Anchors();
      } else {
        OwedIff(g, Q, node);
        var n :| n in Q && n in g && node in g[n];
        assert !n.dying;
        assert n in Live();
      }
    }

    /** A child of a member of s that is still gray waits in todo. */
    ghost predicate GrayWaits(s: set<Header>, gray: set<Header>, todo: seq<Header>)
      reads this`g
    {
      forall n, c :: n in s && n in g && c in g[n] && c in gray ==> c in todo
    }

    lemma GrayWaitsStep(s: set<Header>, gray: set<Header>, rest: seq<Header>, node: Header)
      requires Ground() && node in heap && !node.dying && gray <= heap
      requires GrayWaits(s, gray, rest + [node])
      ensures GrayWaits(s + {node}, gray - {node}, Pushed(rest, node.slots, |node.slots|))
    {
      forall n, c | n in s + {node} && n in g && c in g[n] && c in gray - {node}
        ensures c in Pushed(rest, node.slots, |node.slots|)
      {
        PushedIff(rest, node.slots, |node.slots|, c);
        if n == node {
          assert c in node.slots;
        } else {
          assert c in rest + [node];
        }
      }
    }

    lemma GrayWaitsSkip(s: set<Header>, gray: set<Header>, rest: seq<Header>, node: Header, s': set<Header>, gray': set<Header>)
      requires GrayWaits(s, gray, rest + [node]) && node !in gray' && s' <= s && gray' <= gray
      ensures GrayWaits(s', gray', rest)
    {
    }

    method Whiten(node: Header, ghost S: set<Header>, ghost live: set<Header?>,
                  ghost gray: set<Header>, ghost white: set<Header>)
      requires Scanning(S, live, gray, white) && node in gray && node.word == Count(0)
      modifies node`color
      ensures Scanning(S, live, gray - {node}, white + {node})
    {
      hide Tally, TallyPlus, TallyUpTo, ClosedBut, Closed, Stacked, Ground, Shape, DyingAreFree, Owed;
      node.color := White;
      assert (gray - {node}) + (white + {node}) == gray + white;
    }

    /** Push every reference node holds. */
    method PushChildren(node: Header)
      modifies this`work
      ensures work == Pushed(old(work), node.slots, |node.slots|)
    {
      hide *;
      PushedNone(work, node.slots);
      for i := 0 to |node.slots|
        invariant work == Pushed(old(work), node.slots, i)
      {
        PushedOne(old(work), node.slots, i);
        var child := node.slots[i];
        if child != null {
          work := work + [child];
        }
      }
    }

    lemma ScanningAt(node: Header, S: set<Header>, live: set<Header?>, gray: set<Header>, white: set<Header>)
      requires Scanning(S, live, gray, white) && node in heap
      ensures Ground() && gray <= S <= heap && gray + white <= S
      ensures node.color == Gray <==> node in gray
      ensures node in gray ==> node.word.Count? && !node.dying
    {
    }

    /** One turn of the scan: rescue what is still counted, else paint white. */
    method ScanVisit(node: Header, ghost S: set<Header>, ghost gray0: set<Header>, ghost white0: set<Header>)
      returns (ghost gray: set<Header>, ghost white: set<Header>)
      requires Scanning(S, Live(), gray0, white0) && Outside(S, Live())
      requires node in heap && node in gray0
      requires Frontier(work, heap) && GrayWaits(white0, gray0, work + [node])
      modifies this`work, heap`word, heap`color
      ensures gray <= gray0 - {node}
      ensures Scanning(S, Live(), gray, white)
      ensures Frontier(work, heap) && GrayWaits(white, gray, work)
    {
      hide *;
      ScanningAt(node, S, Live(), gray0, white0);
      ghost var rest := work;
      if node.word.n > 0 {
        CountedIsLive(node, S, gray0, white0);
        gray, white := ScanBlack(node, S, Live(), gray0, white0);
        GrayWaitsSkip(white0, gray0, rest, node, white, gray);
      } else {
        Whiten(node, S, Live(), gray0, white0);
        gray, white := gray0 - {node}, white0 + {node};
        PushChildren(node);
        GrayWaitsStep(white0, gray0, rest, node);
        FrontierStep(rest, heap, node);
      }
    }

    method Scan(root: Header, ghost S: set<Header>, ghost gray0: set<Header>, ghost white0: set<Header>)
      returns (ghost gray: set<Header>, ghost white: set<Header>)
      requires Scanning(S, Live(), gray0, white0) && Outside(S, Live())
      requires root in heap && !root.dying && GrayWaits(white0, gray0, [])
      modifies this`work, heap`word, heap`color
      ensures gray <= gray0 - {root}
      ensures Scanning(S, Live(), gray, white) && GrayWaits(white, gray, [])
    {
      hide *;
      work := [root];
      gray, white := gray0, white0;
      FrontierOne(root, heap);
      GrayWaitsMore(white, gray, root);
      while work != []
        invariant gray <= gray0 && (root !in gray || work == [root])
        invariant Scanning(S, Live(), gray, white)
        invariant Frontier(work, heap) && GrayWaits(white, gray, work)
        decreases gray, |work|
      {
        var node := work[|work| - 1];
        ghost var stack := work;
        work := work[..|work| - 1];
        assert stack == work + [node];
        FrontierPop(stack, heap);
        ScanningAt(node, S, Live(), gray, white);
        if node.color != Gray {
          GrayWaitsSkip(white, gray, work, node, white, gray);
          continue;
        }
        gray, white := ScanVisit(node, S, gray, white);
      }
    }

    lemma GrayWaitsMore(s: set<Header>, gray: set<Header>, root: Header)
      requires GrayWaits(s, gray, [])
      ensures GrayWaits(s, gray, [root])
    {
    }

    /** Whatever is closed under tracing inside S and holds the roots is all of S. */
    lemma RootsReachAll(S: set<Header>, X: set<Header>)
      requires Ground() && X <= S <= heap && S !! immortals && (forall n :: n in S ==> !n.dying)
      requires S <= Reach(Traced(), Items(roots)) && Items(roots) <= X
      requires forall n, c :: n in X && c in g[n] && c in S ==> c in X
      requires ClosedBut(S, {})
      ensures X == S
    {
      hide Reach, Owed, Occurs, DyingAreFree;
      var Y: set<Header?> := X + immortals;
      forall n, c | n in Y && n in Traced() && c in Traced()[n] && c in Traced()
        ensures c in Y
      {
        if n !in immortals && c !in immortals {
          assert n in X && c in g[n] && c in heap;
          assert c in S;
        }
      }
      ReachLeast(Traced(), Items(roots), Y);
    }

    /** The scan is over: no gray is left, and white is exactly what `live` misses. */
    lemma ScanComplete(S: set<Header>, gray: set<Header>, white: set<Header>)
      requires Scanning(S, Live(), gray, white) && GrayWaits(white, gray, []) && queue == []
      requires Items(roots) <= S - gray && S <= Reach(Traced(), Items(roots))
      ensures gray == {} && white == S - Live()
    {
      hide Tally, TallyPlus, TallyUpTo, Shades, WhitesZero, Closed, Owed, Reach;
      forall n, c | n in S - gray && c in g[n] && c in S
        ensures c in S - gray
      {
        if n !in white {
          assert n in S - (gray + white) - {};
        }
      }
      RootsReachAll(S, S - gray);
      assert gray == {};
      WhiteIsUnheld(S, white);
    }

    lemma WhiteIsUnheld(S: set<Header>, white: set<Header>)
      requires Scanning(S, Live(), {}, white) && queue == []
      ensures white !! Live()
    {
      var X: set<Header?> := heap - white;
      var Q := heap - ({} + white) - {};
      forall w | w in white
        ensures w !in Anchors() && (forall n :: n in X ==> w !in g[n])
      {
        assert w.word == Count(0);
        OwedIff(g, Q, w);
      }
      ReachLeast(g, Anchors(), X);
    }

    lemma ScanStart(S: set<Header>)
      requires Scanning(S, Live(), S, {})
      ensures GrayWaits({}, S, [])
      ensures forall n :: n in S ==> n in heap && !n.dying
    {
    }

    method ScanRoots(ghost S: set<Header>) returns (ghost white: set<Header>)
      requires Scanning(S, Live(), S, {}) && Outside(S, Live()) && queue == []
      requires Items(roots) <= S && S <= Reach(Traced(), Items(roots))
      modifies this`work, heap`word, heap`color
      ensures Scanning(S, Live(), {}, white) && white == S - Live()
    {
      hide *;
      ghost var gray := S;
      white := {};
      ScanStart(S);
      for index := 0 to |roots|
        invariant gray <= S
        invariant Scanning(S, Live(), gray, white) && GrayWaits(white, gray, [])
        invariant forall k :: 0 <= k < index ==> roots[k] !in gray
      {
        RootIn(index, S);
        ghost var before := gray;
        gray, white := Scan(roots[index], S, gray, white);
      }
      RootsOut(S, gray);
      ScanComplete(S, gray, white);
    }

    lemma RootIn(index: nat, S: set<Header>)
      requires index < |roots| && Items(roots) <= S
      ensures roots[index] in S
    {
      assert roots[index] in Items(roots);
    }

    lemma RootsOut(S: set<Header>, gray: set<Header>)
      requires Items(roots) <= S && forall k :: 0 <= k < |roots| ==> roots[k] !in gray
      ensures Items(roots) <= S - gray
    {
    }

    // ---- gather ----

    ghost predicate NoneBuffered()
      reads this`heap, heap`buffered
    {
      forall n :: n in heap ==> !n.buffered
    }

    /** The scan found W; the members of W - R have been gathered. */
    ghost predicate Gathering(W: set<Header>, R: set<Header>)
      reads this`heap, this`immortals, this`dead, heap`color
    {
      R <= W && Shades({}, R) && Lists(dead, W - R)
    }

    method GatherOne(node: Header, ghost W: set<Header>, ghost R: set<Header>)
      requires Ground() && Gathering(W, R) && node in R && node in heap
      modifies node`color, this`dead
      ensures Ground() && Gathering(W, R - {node})
    {
      Blacken(node, {}, R);
      ghost var none: set<Header> := {};
      assert none - {node} == none;
      ListsPush(dead, W - R, node);
      assert W - (R - {node}) == (W - R) + {node};
      dead := dead + [node];
    }

    lemma GatheringAt(node: Header, W: set<Header>, R: set<Header>)
      requires Gathering(W, R) && node in heap
      ensures R <= W && R <= heap && (node.color == White <==> node in R)
    {
    }

    lemma NotBuffered(node: Header)
      requires NoneBuffered() && node in heap
      ensures !node.buffered
    {
    }

    lemma Taken(W: set<Header>, R: set<Header>, node: Header)
      requires node in R && R <= W
      ensures W - (R - {node}) == (W - R) + {node} && R - {node} < R && node !in R - {node}
    {
    }

    method GatherWhite(root: Header, ghost W: set<Header>, ghost R0: set<Header>) returns (ghost R: set<Header>)
      requires Ground() && NoneBuffered() && Gathering(W, R0) && (forall n :: n in W ==> !n.dying)
      requires root in heap && !root.dying && GrayWaits(W - R0, R0, [])
      modifies this`work, this`dead, heap`color
      ensures R <= R0 - {root}
      ensures Gathering(W, R) && GrayWaits(W - R, R, [])
    {
      hide *;
      work := [root];
      R := R0;
      FrontierOne(root, heap);
      GrayWaitsMore(W - R, R, root);
      while work != []
        invariant R <= R0 && (root !in R || work == [root])
        invariant Gathering(W, R)
        invariant Frontier(work, heap) && GrayWaits(W - R, R, work)
        decreases R, |work|
      {
        var node := work[|work| - 1];
        ghost var stack := work;
        work := work[..|work| - 1];
        assert stack == work + [node];
        FrontierPop(stack, heap);
        GatheringAt(node, W, R);
        NotBuffered(node);
        if node.color != White || node.buffered {
          GrayWaitsSkip(W - R, R, work, node, W - R, R);
          continue;
        }
        ghost var rest := work;
        GatherOne(node, W, R);
        PushChildren(node);
        GrayWaitsStep(W - R, R, rest, node);
        FrontierStep(rest, heap, node);
        Taken(W, R, node);
        R := R - {node};
      }
    }

    /** What the scan leaves behind, for the gathering walks to rely on. */
    ghost predicate Scanned(S: set<Header>, W: set<Header>)
      reads this`heap, this`g, this`held, this`foreign, this`immortals, this`queue
      reads heap`dying, heap`slots
    {
      && Ground() && W <= S <= heap && S !! immortals && (forall n :: n in S ==> !n.dying)
      && ClosedBut(S, {}) && ClosedBut(S - W, {})
    }

    lemma ScannedFrom(S: set<Header>, W: set<Header>)
      requires Scanning(S, Live(), {}, W)
      ensures Scanned(S, W) && Shades({}, W) && WhitesZero(W) && Tally(heap - W)
      ensures dead == [] ==> Gathering(W, W) && GrayWaits(W - W, W, [])
    {
      assert S - ({} + W) - {} == S - W;
      assert heap - ({} + W) - {} == heap - W;
    }

    lemma GatherComplete(S: set<Header>, W: set<Header>, R: set<Header>)
      requires Scanned(S, W) && R <= W && GrayWaits(W - R, R, [])
      requires Items(roots) <= S - R && S <= Reach(Traced(), Items(roots))
      ensures R == {}
    {
      hide Reach, Owed, Tally, TallyPlus, Closed, Named;
      forall n, c | n in S - R && c in g[n] && c in S
        ensures c in S - R
      {
        if n !in W {
          assert n in S - W;
        }
      }
      RootsReachAll(S, S - R);
    }

    lemma ScannedPlain(S: set<Header>, W: set<Header>)
      requires Scanned(S, W)
      ensures Ground() && W <= S <= heap && forall n :: n in S ==> !n.dying
    {
    }

    method GatherRoots(ghost S: set<Header>, ghost W: set<Header>)
      requires Scanned(S, W) && Shades({}, W) && NoneBuffered()
      requires dead == [] && Gathering(W, W) && GrayWaits(W - W, W, [])
      requires Items(roots) <= S && S <= Reach(Traced(), Items(roots))
      modifies this`work, this`dead, heap`color
      ensures Lists(dead, W) && Shades({}, {})
    {
      hide *;
      ghost var R := W;
      for index := 0 to |roots|
        invariant R <= W && Gathering(W, R) && GrayWaits(W - R, R, [])
        invariant forall k :: 0 <= k < index ==> roots[k] !in R
      {
        RootIn(index, S);
        ScannedPlain(S, W);
        R := GatherWhite(roots[index], W, R);
      }
      RootsOut(S, R);
      GatherComplete(S, W, R);
      GatheringEnd(W);
    }

    lemma GatheringEnd(W: set<Header>)
      requires Gathering(W, {})
      ensures Lists(dead, W) && Shades({}, {})
    {
      assert W - {} == W;
    }

    // ---- the candidate buffer while marking compacts it ----

    /** roots[..kept] and roots[i..] are in the buffer, each knowing its place. */
    ghost predicate Compacting(i: int, kept: int)
      reads this`heap, this`roots, this`immortals, heap`buffered, heap`index
    {
      && 0 <= kept <= i <= |roots|
      && (forall k :: 0 <= k < kept || i <= k < |roots| ==>
            roots[k] in heap && roots[k] !in immortals && roots[k].buffered && roots[k].index == k)
      && (forall n :: n in heap ==>
            if n.buffered then 0 <= n.index < |roots| && (n.index < kept || i <= n.index) && roots[n.index] == n
            else n.index == ROOT_NONE)
    }

    ghost predicate RootsOk()
      reads this`heap, this`roots, this`immortals, heap`buffered, heap`index
    {
      Compacting(0, 0)
    }

    /** While marking: gray is painted, a candidate not yet looked at may be
        purple, everything else is black. */
    ghost predicate MarkTints(i: int, gray: set<Header>)
      reads this`heap, this`immortals, heap`color, heap`buffered, heap`index, heap`dying
    {
      forall n :: n in heap ==>
        && n.color != White
        && (n.color == Gray <==> n in gray)
        && (n.dying ==> n.color == Black)
        && (n.color == Purple ==> n.buffered && i <= n.index && !n.dying && n !in immortals)
    }

    /** The dying are the emptied shells: set aside, or still to be looked at. */
    ghost predicate Aside(i: int)
      reads this`heap, this`zeroed, heap`dying, heap`buffered, heap`index
    {
      && (forall j, k :: 0 <= j < k < |zeroed| ==> zeroed[j] != zeroed[k])
      && (forall z :: z in zeroed ==> z in heap && z.dying && !z.buffered)
      && (forall n :: n in heap && n.dying ==> n in zeroed || (n.buffered && i <= n.index))
    }

    /** Everything counted is named by somebody. */
    ghost predicate Named()
      reads this`heap, this`g, this`held, this`foreign, this`immortals, heap`dying
    {
      forall n :: n in heap && n !in immortals && !n.dying ==> Refs(n) >= 1
    }

    ghost function Candidates(): set<Header>
      reads this`heap, heap`color
    {
      set n | n in heap && n.color == Purple
    }

    lemma UnreachedCount(n: Header, gray: set<Header>)
      requires Ground() && Named() && gray <= heap && ClosedBut(gray, {}) && Tally(heap - gray)
      requires n in heap && n !in gray && n !in immortals && !n.dying
      ensures n.word.Count? && n.word.n > 0
    {
      OwedIff(g, gray, n);
      OwedSplit(g, gray, heap, n);
    }

    method RootClear(root: Header)
      modifies root`buffered, root`index
      ensures !root.buffered && root.index == ROOT_NONE
    {
      root.index := ROOT_NONE;
      root.buffered := false;
    }

    /** A candidate that is not one any more leaves the buffer; an emptied shell
        is set aside. */
    method DropRoot(root: Header, i: nat, ghost kept: int, ghost gray: set<Header>)
      requires i < |roots| && Compacting(i, kept) && MarkTints(i, gray) && Aside(i)
      requires Ground() && Named() && gray <= heap && ClosedBut(gray, {}) && Tally(heap - gray)
      requires roots[i] == root && root in heap && root.color != Purple
      requires root !in immortals && (root.dying ==> root.color == Black)
      modifies this`zeroed, root`buffered, root`index
      ensures Compacting(i + 1, kept) && MarkTints(i + 1, gray) && Aside(i + 1)
    {
      hide *;
      ShellOrNot(root, i, gray);
      if root.color == Black && root.word == Count(0) {
        Unroot(root, i, kept, gray, true);
        SetAside(root, i + 1);
      } else {
        Unroot(root, i, kept, gray, false);
        AsideSame(i + 1);
      }
    }

    lemma ShellOrNot(root: Header, i: nat, gray: set<Header>)
      requires MarkTints(i, gray) && Aside(i)
      requires Ground() && Named() && gray <= heap && ClosedBut(gray, {}) && Tally(heap - gray)
      requires root in heap && root.color != Purple && root !in immortals && (root.dying ==> root.color == Black)
      ensures root.color == Black && root.word == Count(0) <==> root.dying
    {
      hide Tally, TallyPlus, ClosedBut, Ground, Named, Aside;
      ShellWord(root, heap - gray);
      if !root.dying && root !in gray {
        UnreachedCount(root, gray);
      }
    }

    /** Aside(i), but for the shell s that is about to be set aside. */
    ghost predicate AsideBut(i: int, s: set<Header>)
      reads this`heap, this`zeroed, heap`dying, heap`buffered, heap`index
    {
      && (forall j, k :: 0 <= j < k < |zeroed| ==> zeroed[j] != zeroed[k])
      && (forall z :: z in zeroed ==> z in heap && z.dying && !z.buffered && z !in s)
      && (forall n :: n in heap && n.dying ==> n in zeroed || n in s || (n.buffered && i <= n.index))
    }

    method SetAside(root: Header, ghost i: int)
      requires AsideBut(i, {root}) && root in heap && root.dying && !root.buffered
      modifies this`zeroed
      ensures Aside(i)
    {
      zeroed := zeroed + [root];
    }

    lemma AsideSame(i: int)
      requires AsideBut(i, {})
      ensures Aside(i)
    {
    }

    method Unroot(root: Header, i: nat, ghost kept: int, ghost gray: set<Header>, ghost shell: bool)
      requires i < |roots| && Compacting(i, kept) && MarkTints(i, gray) && Aside(i)
      requires roots[i] == root && root in heap && root.color != Purple && root.dying == shell
      modifies root`buffered, root`index
      ensures Compacting(i + 1, kept) && MarkTints(i + 1, gray) && !root.buffered
      ensures AsideBut(i + 1, if shell then {root} else {})
    {
      RootClear(root);
    }

    lemma ShellWord(root: Header, Q: set<Header>)
      requires root in heap && Tally(Q) && root !in immortals
      ensures root.dying ==> root.word == Count(0)
    {
    }

    /** A candidate stays: it moves down to position kept. */
    method KeepRoot(root: Header, i: nat, kept: nat, ghost gray: set<Header>)
      requires i < |roots| && Compacting(i, kept) && MarkTints(i, gray) && Aside(i)
      requires roots[i] == root && root in gray && !root.dying
      modifies this`roots, root`index
      ensures Compacting(i + 1, kept + 1) && MarkTints(i + 1, gray) && Aside(i + 1)
      ensures roots == old(roots)[kept := old(roots)[i]]
    {
      assert root.index == i;
      roots := roots[kept := root];
      if kept != i {
        root.index := kept;
      }
    }

    /** How far marking has come, all but the buffer itself. */
    ghost predicate Marking(gray: set<Header>)
      reads this`heap, this`g, this`held, this`foreign, this`immortals, this`queue
      reads heap`dying, heap`word, heap`slots
    {
      && Ground() && Named() && queue == []
      && gray <= heap && gray !! immortals && (forall n :: n in gray ==> !n.dying)
      && ClosedBut(gray, {}) && Tally(heap - gray)
    }

    lemma MarkingParts(gray: set<Header>)
      requires Marking(gray)
      ensures Ground() && Named() && queue == [] && gray <= heap && gray !! immortals
      ensures ClosedBut(gray, {}) && Tally(heap - gray)
      ensures forall n :: n in gray ==> !n.dying
    {
    }

    lemma MarkStep(gray: set<Header>)
      requires Ground() && Named() && queue == []
      requires gray <= heap && gray !! immortals && ClosedBut(gray, {}) && Tally(heap - gray)
      requires forall n :: n in gray ==> !n.dying
      ensures Marking(gray)
    {
    }

    method MarkCandidate(root: Header, ghost i: nat, ghost gray0: set<Header>) returns (ghost gray: set<Header>)
      requires Marking(gray0) && MarkTints(i, gray0)
      requires root in heap && !root.dying && root !in immortals
      modifies this`work, heap`word, heap`color
      ensures Marking(gray) && MarkTints(i, gray)
      ensures gray0 <= gray && root in gray && gray <= gray0 + Reach(Traced(), {root})
      ensures forall n :: n in heap && n !in gray ==> n.color == old(n.color)
    {
      hide Tally, TallyPlus, TallyUpTo, ClosedBut, Ground, Shape, DyingAreFree, Owed, Named, Marking, Refs;
      MarkingParts(gray0);
      gray := MarkGray(root, gray0);
      MarkingParts(gray);
    }

    lemma KeptReach(gray0: set<Header>, gray: set<Header>, root: Header, before: seq<Header>, after: seq<Header>)
      requires gray0 <= Reach(Traced(), Items(before)) && gray <= gray0 + Reach(Traced(), {root})
      requires after == before + [root]
      ensures gray <= Reach(Traced(), Items(after))
    {
      ReachMono(Traced(), Items(before), Items(after));
      ReachMono(Traced(), {root}, Items(after));
    }

    lemma CandidateAt(root: Header, i: nat, gray: set<Header>)
      requires MarkTints(i, gray) && Marking(gray) && root in heap
      ensures root.dying ==> root.color == Black
      ensures root.color == Purple ==> !root.dying && root !in immortals && root.word.Count? && root.word.n > 0
    {
      if root.color == Purple {
        UnreachedCount(root, gray);
      }
    }

    lemma CompactingAt(i: int, kept: int)
      requires Compacting(i, kept) && i < |roots|
      ensures 0 <= kept <= i && roots[i] in heap && roots[i] !in immortals
    {
    }

    lemma ItemsSplit(before: seq<Header>, root: Header, S: set<Header>)
      requires Items(before) <= S && root in S
      ensures Items(before + [root]) <= S
    {
    }

    lemma CompactingStart()
      requires RootsOk()
      ensures Compacting(0, 0)
    {
    }

    method Truncate(kept: int)
      requires Compacting(|roots|, kept)
      modifies this`roots
      ensures 0 <= kept <= |old(roots)| && roots == old(roots)[..kept] && RootsOk()
    {
      roots := roots[..kept];
    }

    lemma CandidatesAre(P: set<Header>)
      requires P == Candidates()
      ensures forall c :: c in P ==> c in heap && c.color == Purple
    {
    }

    lemma MarkEnd(kept: int, S: set<Header>)
      requires Compacting(|roots|, kept) && MarkTints(|roots|, S) && S <= heap && S !! immortals
      ensures Shades(S, {}) && 0 <= kept <= |roots|
      ensures forall n :: n in heap ==> n.color != Purple
    {
    }

    lemma ItemsNone(s: seq<Header>)
      requires s == []
      ensures Items(s) == {}
    {
    }

    /** Mark from a candidate and keep it in the buffer. */
    method MarkKept(root: Header, i: nat, kept: nat, ghost S0: set<Header>) returns (ghost S: set<Header>)
      requires kept <= i < |roots| && roots[i] == root
      requires Compacting(i, kept) && Marking(S0) && MarkTints(i, S0) && Aside(i)
      requires root in heap && !root.dying && root !in immortals
      requires Items(roots[..kept]) <= S0 <= Reach(Traced(), Items(roots[..kept]))
      modifies this`roots, this`work, heap`word, heap`color, root`index
      ensures |roots| == |old(roots)| && Compacting(i + 1, kept + 1) && Marking(S) && MarkTints(i + 1, S) && Aside(i + 1)
      ensures Items(roots[..kept + 1]) <= S <= Reach(Traced(), Items(roots[..kept + 1]))
      ensures S0 <= S && forall n :: n in heap && n !in S ==> n.color == old(n.color)
    {
      hide *;
      ghost var before := roots[..kept];
      S := MarkCandidate(root, i, S0);
      MarkingParts(S);
      KeepRoot(root, i, kept, S);
      assert roots[..kept + 1] == before + [root];
      KeptReach(S0, S, root, before, roots[..kept + 1]);
      ItemsSplit(before, root, S);
    }

    method MarkRoots() returns (ghost S: set<Header>)
      requires Marking({}) && RootsOk() && MarkTints(0, {}) && Aside(0)
      modifies this`roots, this`work, this`zeroed, heap`word, heap`color, heap`buffered, heap`index
      ensures Marking(S) && Shades(S, {}) && RootsOk()
      ensures Items(roots) <= S <= Reach(Traced(), Items(roots))
      ensures old(Candidates()) <= S
      ensures Aside(|old(roots)|) && |roots| <= |old(roots)|
    {
      hide *;
      var kept := 0;
      S := {};
      ghost var P := Candidates();
      CandidatesAre(P);
      CompactingStart();
      ItemsNone(roots[..0]);
      var n := |roots|;
      var index := 0;
      while index < n
        invariant 0 <= kept <= index <= n == |roots|
        invariant Compacting(index, kept)
        invariant Marking(S) && MarkTints(index, S) && Aside(index)
        invariant Items(roots[..kept]) <= S <= Reach(Traced(), Items(roots[..kept]))
        invariant forall c :: c in P ==> c in heap && (c in S || c.color == Purple)
      {
        CompactingAt(index, kept);
        var root := roots[index];
        CandidateAt(root, index, S);
        if root.color == Purple && root.word != Immortal && root.word.n > 0 {
          S := MarkKept(root, index, kept, S);
          kept := kept + 1;
        } else {
          MarkingParts(S);
          DropRoot(root, index, kept, S);
        }
        index := index + 1;
      }
      MarkingParts(S);
      MarkEnd(kept, S);
      Truncate(kept);
    }

    // ---- between walks ----

    /** Every count is exact: program, foreign code and slots of the heap. */
    ghost predicate Counted()
      reads this`heap, this`g, this`held, this`foreign, this`immortals, heap`dying, heap`word
    {
      forall n :: n in heap ==>
        if n in immortals then n.word == Immortal
        else !n.dying ==> n.word == Count(Refs(n))
    }

    ghost predicate HeldIn()
      reads this`heap, this`held, this`foreign
    {
      && (forall c :: c in held ==> c != null && c in heap)
      && (forall c :: c in foreign ==> c != null && c in heap)
    }

    /** What a type says: a string holds nothing, and only what can lead back to
        itself is ever a candidate. */
    ghost predicate Kinds()
      reads this`heap, this`immortals, this`queue, heap`buffered, heap`slots
    {
      && Strings()
      && forall n :: n in heap && n.buffered ==> n.cyclic && n !in immortals
    }

    ghost predicate Strings()
      reads this`heap, this`queue, heap`slots
    {
      forall n :: n in heap && n.isString ==> n.slots == [] && !n.cyclic && !n.foreignContents && n !in queue
    }

    /** The objects waiting to be emptied, threaded through their count words. */
    ghost predicate QueueOk()
      reads this`heap, this`queue, this`dyingHead, heap`dying, heap`word
    {
      && (forall i :: 0 <= i < |queue| ==> queue[i] in heap && queue[i].dying)
      && (forall i, j :: 0 <= i < j < |queue| ==> queue[i] != queue[j])
      && (forall i :: 0 <= i < |queue| ==> queue[i].word == Link(After(queue, i)))
      && dyingHead == After(queue, -1)
    }

    ghost predicate Husk(n: Header)
      reads this`queue, n`dying
    {
      n.dying && n !in queue
    }

    ghost function Seeds(): set<Header>
      reads this`heap, this`held, this`foreign, this`immortals, this`queue, heap`color
    {
      Anchors() + Candidates()
    }

    /** Nothing still allocated is out of the collector's sight: it is reachable
        from what the world names, or from a candidate. */
    ghost predicate Covered()
      reads this`heap, this`held, this`foreign, this`immortals, this`queue, this`g, heap`color, heap`dying
    {
      forall n :: n in heap && !Husk(n) ==> n in Reach(g, Seeds())
    }

    /** A type that cannot lead back to itself never does. */
    ghost predicate AcyclicOk()
      reads this`heap, this`g
    {
      NoCycles(g, heap)
    }

    ghost predicate Conserved()
      reads this`heap, this`allocations, this`reclaimed, this`leaving
    {
      allocations + leaving == reclaimed + |heap|
    }

    ghost predicate Books()
      reads this`heap, this`g, this`queue, this`held, this`foreign, this`immortals, heap`dying, heap`word, heap`slots
    {
      Ground() && Counted() && Named() && HeldIn()
    }

    ghost predicate CountedBut(node: Header)
      reads this`heap, this`g, this`held, this`foreign, this`immortals, heap`dying, heap`word
    {
      forall n :: n in heap && n != node ==>
        if n in immortals then n.word == Immortal
        else !n.dying ==> n.word == Count(Refs(n))
    }

    /** The books with the last reference to node given up in its count, and
        still in the program's hand. */
    ghost predicate BooksBut(node: Header)
      reads this`heap, this`g, this`queue, this`held, this`foreign, this`immortals, heap`dying, heap`word, heap`slots
    {
      && Ground() && Named() && HeldIn()
      && CountedBut(node)
      && node in heap && !node.dying && node !in immortals && node.word == Count(0)
      && Refs(node) == 1 && held[node] == 1
    }

    ghost predicate Marks()
      reads this`heap, this`immortals, this`queue, this`dyingHead, this`roots
      reads heap`color, heap`buffered, heap`index, heap`dying, heap`word, heap`slots
    {
      Kinds() && MarkTints(0, {}) && RootsOk() && QueueOk()
    }

    ghost predicate Sight()
      reads this`heap, this`held, this`foreign, this`immortals, this`queue, this`g, heap`color, heap`dying
    {
      Covered() && AcyclicOk()
    }

    ghost predicate Valid()
      reads this`heap, this`g, this`queue, this`held, this`foreign, this`immortals, this`dyingHead, this`roots
      reads this`allocations, this`reclaimed, this`leaving
      reads heap`dying, heap`word, heap`slots, heap`color, heap`buffered, heap`index
    {
      Books() && Marks() && Sight() && Conserved()
    }

    /** What a dropped reference does to the heap, the candidate buffer aside. */
    twostate predicate Dropped(node: Header)
      reads this, heap
    {
      && heap == old(heap) && g == old(g) && immortals == old(immortals) && queue == old(queue)
      && foreign == old(foreign)
      && node in heap && !node.dying && node !in immortals && old(held[node]) > 0
      && held == old(held[node := held[node] - 1])
      && (forall n :: n in heap ==> n.dying == old(n.dying) && n.slots == old(n.slots))
      && (forall n :: n in heap && n != node ==> n.word == old(n.word))
      && old(node.word.Count? && node.word.n > 1) && node.word == Count(old(node.word.n) - 1)
    }

    twostate lemma DroppedBooks(node: Header)
      requires Dropped(node) && old(Books())
      ensures Books()
    {
    }

    twostate lemma DroppedSight(node: Header)
      requires Dropped(node) && old(Books() && Sight())
      requires forall n :: n in heap && n != node ==> n.color == old(n.color)
      requires if node.cyclic then node.color == Purple else node.color == old(node.color)
      ensures Sight()
    {
      if held[node] > 0 || foreign[node] > 0 || node.cyclic {
        assert old(Seeds()) <= Seeds();
        ReachMono(g, old(Seeds()), Seeds());
      } else {
        OwedIff(g, heap, node);
        var n :| n in heap && n in g && node in g[n];
        assert old(Seeds()) - {node} <= Seeds();
        SeedDispensable(g, old(Seeds()), node, n);
        ReachMono(g, old(Seeds()) - {node}, Seeds());
      }
    }

    /** The rest of the state while one reference is dropped: only node may have
        entered the buffer, as a candidate. */
    twostate predicate Suspected(node: Header)
      reads this, heap
    {
      && Dropped(node) && RootsOk()
      && (forall n :: n in heap && n != node ==> n.color == old(n.color) && n.buffered == old(n.buffered))
      && (if node.cyclic then node.color == Purple && node.buffered
          else node.color == old(node.color) && node.buffered == old(node.buffered))
      && dyingHead == old(dyingHead) && draining == old(draining) && collecting == old(collecting)
      && allocations == old(allocations) && reclaimed == old(reclaimed) && leaving == old(leaving)
    }

    twostate lemma SuspectedQueue(node: Header)
      requires Suspected(node) && old(QueueOk())
      ensures QueueOk()
    {
      forall i | 0 <= i < |queue|
        ensures queue[i].word == old(queue[i].word)
      {
        assert queue[i] in heap && queue[i].dying;
      }
    }

    twostate lemma SuspectedMarks(node: Header)
      requires Suspected(node) && old(Marks())
      ensures Marks()
    {
      hide QueueOk;
      SuspectedQueue(node);
    }

    twostate lemma SuspectedValid(node: Header)
      requires Suspected(node) && old(Valid())
      ensures Valid()
    {
      hide Books, Marks, Sight, RootsOk, Reach, Owed;
      DroppedBooks(node);
      DroppedSight(node);
      SuspectedMarks(node);
    }

    method BufferRoot(node: Header)
      requires RootsOk() && node in heap && node !in immortals
      modifies this`roots, this`buffers, node`buffered, node`index
      ensures RootsOk() && node.buffered
      ensures roots == if old(node.buffered) then old(roots) else old(roots) + [node]
      ensures buffers == if old(node.buffered) then old(buffers) else old(buffers) + 1
    {
      if node.buffered {
        return;
      }
      node.buffered := true;
      node.index := |roots|;
      roots := roots + [node];
      buffers := buffers + 1;
    }

    method PossibleRoot(node: Header)
      requires RootsOk() && node in heap && node !in immortals && (node.color == Purple ==> node.buffered)
      modifies this`roots, this`buffers, node`buffered, node`index, node`color
      ensures RootsOk()
      ensures roots == if node.cyclic && !old(node.buffered) then old(roots) + [node] else old(roots)
      ensures if node.cyclic then node.color == Purple && node.buffered
              else node.color == old(node.color) && node.buffered == old(node.buffered)
    {
      if !node.cyclic || node.color == Purple {
        return;
      }
      node.color := Purple;
      BufferRoot(node);
    }

    lemma CountedAt(node: Header)
      requires Valid() && node in heap && !node.dying
      ensures node.word == if node in immortals then Immortal else Count(Refs(node))
      ensures node !in immortals ==> Refs(node) >= 1
      ensures node.buffered ==> node.cyclic && node !in immortals
      ensures node.color == Purple ==> node.buffered
      ensures RootsOk()
    {
    }

    // ---- retain ----

    twostate predicate Added(node: Header)
      reads this, heap
    {
      && heap == old(heap) && g == old(g) && immortals == old(immortals) && queue == old(queue)
      && foreign == old(foreign) && roots == old(roots) && dyingHead == old(dyingHead)
      && node in heap && !node.dying && node !in immortals
      && held == old(held[node := held[node] + 1])
      && (forall n :: n in heap ==> n.dying == old(n.dying) && n.slots == old(n.slots)
                                    && n.buffered == old(n.buffered) && n.index == old(n.index))
      && (forall n :: n in heap && n != node ==> n.word == old(n.word) && n.color == old(n.color))
      && old(node.word.Count?) && node.word == Count(old(node.word.n) + 1) && node.color == Black
    }

    twostate lemma AddedBooks(node: Header)
      requires Added(node) && old(Books())
      ensures Books()
    {
    }

    twostate lemma AddedQueue(node: Header)
      requires Added(node) && old(QueueOk())
      ensures QueueOk()
    {
      forall i | 0 <= i < |queue|
        ensures queue[i].word == old(queue[i].word)
      {
        assert queue[i] in heap && queue[i].dying;
      }
    }

    twostate lemma AddedMarks(node: Header)
      requires Added(node) && old(Marks())
      ensures Marks()
    {
      hide QueueOk;
      AddedQueue(node);
    }

    twostate lemma AddedSight(node: Header)
      requires Added(node) && old(Sight())
      ensures Sight()
    {
      assert old(Seeds()) <= Seeds();
      ReachMono(g, old(Seeds()), Seeds());
    }

    // ---- a count reaches zero ----

    twostate predicate Felled(node: Header)
      reads this, heap
    {
      && heap == old(heap) && g == old(g) && immortals == old(immortals)
      && foreign == old(foreign) && roots == old(roots)
      && node in heap && old(!node.dying) && node.dying && node !in immortals && !node.isString
      && old(held[node]) == 1 && held == old(held[node := 0])
      && old(node.word == Count(0)) && node.word == Link(old(dyingHead)) && node.color == Black
      && queue == [node] + old(queue) && dyingHead == node
      && (forall n :: n in heap ==> n.slots == old(n.slots)
                                    && n.buffered == old(n.buffered) && n.index == old(n.index))
      && (forall n :: n in heap && n != node ==>
            n.word == old(n.word) && n.color == old(n.color) && n.dying == old(n.dying))
    }

    twostate lemma FelledBooks(node: Header)
      requires Felled(node) && old(BooksBut(node))
      ensures Books()
    {
    }

    twostate lemma FelledQueue(node: Header)
      requires Felled(node) && old(QueueOk())
      ensures QueueOk()
    {
      forall i | 1 <= i < |queue|
        ensures queue[i] in heap && queue[i].dying && queue[i] != node
        ensures queue[i].word == Link(After(queue, i))
      {
        assert queue[i] == old(queue)[i - 1];
        assert After(queue, i) == After(old(queue), i - 1);
      }
    }

    twostate lemma FelledMarks(node: Header)
      requires Felled(node) && old(Marks())
      ensures Marks()
    {
      hide QueueOk;
      FelledQueue(node);
    }

    twostate lemma FelledSight(node: Header)
      requires Felled(node) && old(Sight())
      ensures Sight()
    {
      assert old(Seeds()) <= Seeds();
      ReachMono(g, old(Seeds()), Seeds());
    }

    // ---- a dying object leaves the list, and what it held is given to the drain ----

    twostate predicate Unlinked(dead: Header)
      reads this, heap
    {
      && heap == old(heap) && immortals == old(immortals) && foreign == old(foreign) && roots == old(roots)
      && old(queue) == [dead] + queue && dyingHead == After(queue, -1)
      && dead in heap && g == old(g[dead := []])
      && held == old(held) + Given(dead.slots, 0)
      && (forall n :: n in heap ==>
            n.dying == old(n.dying) && n.slots == old(n.slots) && n.word == old(n.word)
            && n.color == old(n.color) && n.buffered == old(n.buffered) && n.index == old(n.index))
    }

    twostate lemma UnlinkedAllRefs(dead: Header)
      requires Unlinked(dead) && old(Books())
      ensures forall o :: o in heap ==> Refs(o) == old(Refs(o))
    {
      assert dead in old(queue);
      assert old(g)[dead] == dead.slots;
      forall o | o in heap
        ensures Refs(o) == old(Refs(o))
      {
        GivenCount(dead.slots, 0, o);
        OwedRemove(g, heap, dead, o);
        OwedRemove(old(g), heap, dead, o);
        OwedAgree(old(g), g, heap - {dead}, o);
      }
    }

    twostate lemma UnlinkedQueue(dead: Header)
      requires Unlinked(dead) && old(QueueOk())
      ensures dead.dying && dead !in queue
      ensures forall n :: n in heap && n != dead ==> (n in queue <==> n in old(queue))
    {
      assert old(queue)[0] == dead && old(queue)[0].dying;
      forall j | 0 <= j < |queue|
        ensures queue[j] != dead
      {
        assert queue[j] == old(queue)[j + 1] && dead == old(queue)[0];
      }
    }

    twostate lemma UnlinkedHeld(dead: Header)
      requires Unlinked(dead) && old(Books())
      ensures HeldIn()
    {
      forall c | c in held
        ensures c != null && c in heap
      {
        GivenCount(dead.slots, 0, c);
        if c !in old(held) {
          OccursIff(dead.slots, 0, c);
          assert dead in old(queue);
          assert c in old(g)[dead];
        }
      }
    }

    twostate lemma UnlinkedBooks(dead: Header)
      requires Unlinked(dead) && old(Books()) && old(QueueOk())
      ensures Books()
    {
      UnlinkedQueue(dead);
      UnlinkedHeld(dead);
      UnlinkedAllRefs(dead);
    }

    twostate lemma UnlinkedLinks(dead: Header)
      requires Unlinked(dead) && old(QueueOk())
      ensures QueueOk()
    {
      forall i | 0 <= i < |queue|
        ensures queue[i] in heap && queue[i].dying && queue[i].word == Link(After(queue, i))
      {
        assert queue[i] == old(queue)[i + 1];
        assert After(queue, i) == After(old(queue), i + 1);
      }
      forall i, j | 0 <= i < j < |queue|
        ensures queue[i] != queue[j]
      {
        assert queue[i] == old(queue)[i + 1] && queue[j] == old(queue)[j + 1];
      }
    }

    twostate lemma UnlinkedMarks(dead: Header)
      requires Unlinked(dead) && old(Marks())
      ensures Marks()
    {
      hide QueueOk;
      UnlinkedLinks(dead);
    }

    twostate lemma UnlinkedSeeds(dead: Header)
      requires Unlinked(dead) && old(Books() && Marks())
      ensures Kids(old(g), {dead}) <= Seeds() && old(Seeds()) <= Seeds() + {dead}
    {
      hide Books, Marks;
      UnlinkedKids(dead);
      UnlinkedAnchors(dead);
    }

    twostate lemma UnlinkedAnchors(dead: Header)
      requires Unlinked(dead)
      ensures old(Anchors()) <= Anchors() + {dead} && old(Candidates()) <= Candidates()
    {
    }

    twostate lemma UnlinkedKids(dead: Header)
      requires Unlinked(dead) && old(Books() && Marks())
      ensures Kids(old(g), {dead}) <= Seeds()
    {
      hide Marks, Counted, Named, HeldIn;
      assert old(queue)[0] == dead;
      assert old(g)[dead] == dead.slots;
      forall c | c in Kids(old(g), {dead})
        ensures c in Seeds()
      {
        OccursIff(dead.slots, 0, c);
        GivenCount(dead.slots, 0, c);
        assert held[c] > 0;
      }
    }

    twostate lemma UnlinkedHollow(dead: Header)
      requires Unlinked(dead) && old(Books())
      ensures g == Hollow(old(g), {dead})
    {
    }

    twostate lemma UnlinkedSight(dead: Header)
      requires Unlinked(dead) && old(Books() && Marks() && Sight())
      ensures Sight()
    {
      hide Books, Marks, Seeds;
      UnlinkedSeeds(dead);
      UnlinkedQueueOf(dead);
      var D: set<Header?> := {dead};
      UnlinkedHollow(dead);
      ReachMono(old(g), old(Seeds()), Seeds() + D);
      ReachHollow(old(g), D, Seeds());
      NoCyclesFewer(g, heap, old(g), heap);
    }

    twostate lemma UnlinkedQueueOf(dead: Header)
      requires Unlinked(dead) && old(Marks())
      ensures Husk(dead) && forall n :: n in heap && n != dead ==> (Husk(n) <==> old(Husk(n)))
    {
      UnlinkedQueue(dead);
    }

    // ---- an object leaves the heap ----

    /** node, which nobody names and which names nobody, is gone. */
    twostate predicate Gone(node: Header)
      reads this`heap, this`g, this`immortals, this`foreign, this`queue, this`roots, this`dyingHead, this`held
      reads heap`dying, heap`slots, heap`word, heap`color, heap`buffered, heap`index
    {
      && old(node in heap) && heap == old(heap) - {node} && g == old(g) - {node}
      && immortals == old(immortals) && foreign == old(foreign) && queue == old(queue) && roots == old(roots)
      && dyingHead == old(dyingHead)
      && node !in immortals && node !in queue && !old(node.buffered) && old(node.color) == Black
      && (forall o :: o in old(heap) ==> Out(old(g), node, o) == 0)
      && held == old(held[node := 0]) && foreign[node] == 0 && Owed(old(g), old(heap), node) == 0
      && (forall n :: n in heap ==>
            n.dying == old(n.dying) && n.slots == old(n.slots) && n.word == old(n.word)
            && n.color == old(n.color) && n.buffered == old(n.buffered) && n.index == old(n.index))
    }

    twostate lemma GoneUnnamed(node: Header)
      requires Gone(node)
      ensures forall n, c :: n in old(g) && c in old(g)[n] && n in old(heap) ==> c != node
    {
      forall n, c | n in old(g) && c in old(g)[n] && n in old(heap)
        ensures c != node
      {
        if c == node {
          OwedIff(old(g), old(heap), node);
        }
      }
    }

    twostate lemma GoneBooks(node: Header)
      requires Gone(node) && old(Ground() && Named() && HeldIn() && CountedBut(node))
      ensures Books()
    {
      GoneUnnamed(node);
      forall o | o in heap
        ensures Refs(o) == old(Refs(o))
      {
        OwedRemove(old(g), old(heap), node, o);
        OwedAgree(old(g), g, heap, o);
      }
    }

    twostate lemma GoneQueue(node: Header)
      requires Gone(node) && old(QueueOk())
      ensures QueueOk()
    {
      forall i | 0 <= i < |queue|
        ensures queue[i] in heap && queue[i].word == old(queue[i].word)
      {
        assert old(queue[i]) in old(heap);
      }
    }

    twostate lemma GoneMarks(node: Header)
      requires Gone(node) && old(Marks())
      ensures Marks()
    {
      hide QueueOk;
      GoneQueue(node);
      forall k | 0 <= k < |roots|
        ensures roots[k] in heap
      {
        assert old(roots[k].buffered);
      }
    }

    twostate lemma GoneSight(node: Header)
      requires Gone(node) && old(Ground() && Sight())
      ensures Sight()
    {
      GoneUnnamed(node);
      var D: set<Header?> := {node};
      assert g == old(g) - D;
      assert old(Seeds()) <= Seeds() + D;
      var A: set<Header?> := Seeds();
      assert A <= g.Keys;
      ReachWithout(old(g), D, A);
      ReachUnion(old(g), A, D);
      ReachMono(old(g), old(Seeds()), A + D);
      ReachOne(old(g), node);
      assert Kids(old(g), D) == {} by {
        forall c | c in Kids(old(g), D)
          ensures false
        {
          OutIff(old(g), node, c);
        }
      }
      ReachNothing(old(g));
      assert Subgraph(g, old(g));
      NoCyclesFewer(g, heap, old(g), old(heap));
    }

    // ---- the operations ----

    ghost predicate AtZero(node: Header)
      reads this`heap, this`g, this`queue, this`held, this`foreign, this`immortals, this`dyingHead, this`roots
      reads this`allocations, this`reclaimed, this`leaving, node`color
      reads heap`dying, heap`word, heap`slots, heap`color, heap`buffered, heap`index
    {
      BooksBut(node) && Marks() && Sight() && Conserved() && node.color == Black
    }

    /** No list is in use outside the operation that uses it. */
    ghost predicate Settled()
      reads this`heap, this`queue, this`draining, this`collecting, this`dead, this`zeroed, this`leaving, heap`dying
    {
      && (!draining && !collecting ==> leaving == 0)
      && (!draining ==> queue == [])
      && (!collecting ==> dead == [] && zeroed == [])
      && (!draining && !collecting ==> forall n :: n in heap ==> !n.dying)
    }

    ghost function Living(): set<Header>
      reads this`heap, this`queue, heap`dying
    {
      set n | n in heap && !Husk(n)
    }

    /** Program references to an immortal are nobody's business. */
    ghost method HoldImmortal(node: Header, k: nat)
      requires Valid() && node in heap && node.word == Immortal && !node.dying
      modifies this`held
      ensures Valid() && held == old(held[node := k])
    {
      hide *;
      AllParts();
      IsImmortal(node);
      held := held[node := k];
      ImmortalBooks(node);
      ImmortalSight(node);
      ValidFrom();
    }

    lemma IsImmortal(node: Header)
      requires Valid() && node in heap && node.word == Immortal && !node.dying
      ensures node in immortals
    {
    }

    twostate lemma ImmortalBooks(node: Header)
      requires node in heap && node in immortals && old(Books())
      requires heap == old(heap) && g == old(g) && immortals == old(immortals) && queue == old(queue)
      requires foreign == old(foreign) && held == old(held)[node := held[node]]
      requires forall n :: n in heap ==> n.word == old(n.word) && n.dying == old(n.dying) && n.slots == old(n.slots)
      ensures Books()
    {
    }

    twostate lemma ImmortalSight(node: Header)
      requires node in heap && node in immortals && old(Sight())
      requires heap == old(heap) && g == old(g) && immortals == old(immortals) && queue == old(queue)
      requires foreign == old(foreign) && held == old(held)[node := held[node]]
      requires forall n :: n in heap ==> n.color == old(n.color) && n.dying == old(n.dying)
      ensures Sight()
    {
      hide Reach;
      assert Seeds() == old(Seeds());
    }

    method Retain(node: Header?)
      requires Valid() && Settled()
      requires node != null ==> node in heap
      modifies this`held, heap`word, heap`color
      ensures Valid() && Settled()
      ensures held == if node == null || node.dying then old(held) else old(held[node := held[node] + 1])
      ensures node != null && !node.dying && old(node.word.Count?) ==> node.word == Count(old(node.word.n) + 1) && node.color == Black
      ensures node != null && (node.dying || old(node.word.Immortal?)) ==> node.word == old(node.word) && node.color == old(node.color)
      ensures forall n :: n in heap && n != node ==> n.word == old(n.word) && n.color == old(n.color)
    {
      hide *;
      if node == null || node.word == Immortal || node.dying {
        if node != null && !node.dying {
          HoldImmortal(node, held[node] + 1);
        }
        return;
      }
      CountedAt(node);
      AllParts();
      node.word := Count(node.word.n + 1);
      node.color := Black;
      held := held[node := held[node] + 1];
      AddedIs(node);
      AddedBooks(node);
      AddedMarks(node);
      AddedSight(node);
      ValidFrom();
    }

    twostate lemma AddedIs(node: Header)
      requires heap == old(heap) && g == old(g) && immortals == old(immortals) && queue == old(queue)
      requires foreign == old(foreign) && roots == old(roots) && dyingHead == old(dyingHead)
      requires node in heap && !node.dying && node !in immortals && held == old(held[node := held[node] + 1])
      requires forall n :: n in heap ==> n.dying == old(n.dying) && n.slots == old(n.slots)
                                         && n.buffered == old(n.buffered) && n.index == old(n.index)
      requires forall n :: n in heap && n != node ==> n.word == old(n.word) && n.color == old(n.color)
      requires old(node.word.Count?) && node.word == Count(old(node.word.n) + 1) && node.color == Black
      ensures Added(node)
    {
    }

    // ---- leaving the heap ----

    /** Swap-remove: the last candidate takes the place of the one that goes. */
    method UnbufferRoot(node: Header)
      requires RootsOk() && node in heap && node.buffered
      modifies this`roots, heap`buffered, heap`index
      ensures RootsOk() && !node.buffered
      ensures forall n :: n in heap && n != node ==> n.buffered == old(n.buffered)
      ensures roots == old(roots[node.index := roots[|roots| - 1]][..|roots| - 1])
    {
      var slot := node.index;
      RootClear(node);
      var last := |roots| - 1;
      if slot != last {
        var moved := roots[last];
        roots := roots[slot := moved];
        moved.index := slot;
      }
      roots := roots[..last];
    }

    method Unbuffer(node: Header)
      requires Valid() && node in heap && node.buffered && node.dying
      modifies this`roots, heap`buffered, heap`index
      ensures Valid() && !node.buffered
      ensures forall n :: n in heap && n != node ==> n.buffered == old(n.buffered)
    {
      hide Books, Sight, Conserved, RootsOk, QueueOk;
      UnbufferRoot(node);
      TintsFrom();
    }

    lemma TintsFrom()
      requires RootsOk()
      ensures forall n :: n in heap && n.buffered ==> 0 <= n.index
    {
    }

    ghost predicate ValidBut(node: Header)
      reads this, heap
    {
      Ground() && Named() && HeldIn() && CountedBut(node) && Marks() && Sight() && Conserved()
    }

    lemma HuskFacts(node: Header)
      requires Valid() && node in heap && Husk(node)
      ensures g[node] == [] && held[node] == 0 && foreign[node] == 0 && Owed(g, heap, node) == 0
      ensures held[node := 0] == held
      ensures node.color == Black && node !in immortals && node !in queue
      ensures forall o :: o in heap ==> Out(g, node, o) == 0
      ensures ValidBut(node)
    {
    }

    twostate lemma GoneValid(node: Header)
      requires Gone(node) && old(ValidBut(node)) && allocations == old(allocations)
      requires leaving + old(reclaimed) + 1 == old(leaving) + reclaimed
      ensures Valid()
    {
      hide Ground, Named, HeldIn, CountedBut, Marks, Sight, Gone, Books, Conserved;
      GoneBooks(node);
      GoneMarks(node);
      GoneSight(node);
      GoneConserved(node);
    }

    twostate lemma GoneConserved(node: Header)
      requires Gone(node) && old(Conserved()) && allocations == old(allocations)
      requires leaving + old(reclaimed) + 1 == old(leaving) + reclaimed
      ensures Conserved()
    {
    }

    ghost method Remove(node: Header)
      requires node in heap && !node.buffered && node.color == Black && node !in immortals && node !in queue
      requires foreign[node] == 0 && Owed(g, heap, node) == 0
      requires forall o :: o in heap ==> Out(g, node, o) == 0
      modifies this`heap, this`g, this`held
      ensures Gone(node)
    {
      hide Owed, Out;
      heap := heap - {node};
      g := g - {node};
      held := held[node := 0];
    }

    /** The block goes back. Nothing names it, and no candidate entry does. */
    method FreeBlock(node: Header)
      requires Valid() && node in heap && Husk(node) && !node.buffered && leaving > 0
      modifies this`heap, this`g, this`held, this`leaving
      ensures Valid() && heap == old(heap) - {node} && held == old(held) && leaving == old(leaving) - 1
      ensures Freed(old(Snap()), Snap(), node)
    {
      hide *;
      HuskFacts(node);
      HuskIs(node);
      Remove(node);
      leaving := leaving - 1;
      GoneValid(node);
      GoneHeap(node);
      FreedIs(node);
    }

    twostate lemma FreedIs(node: Header)
      requires Gone(node) && log == old(log) && old(node.dying) && old(leaving) > 0 && leaving == old(leaving) - 1
      requires draining == old(draining) && collecting == old(collecting) && region == old(region)
      requires allocations == old(allocations) && epoch == old(epoch) && collectAt == old(collectAt) && began == old(began)
      requires dead == old(dead) && zeroed == old(zeroed)
      ensures Freed(old(Snap()), Snap(), node)
    {
      assert Living() == old(Living());
      assert Snap().husks == old(Snap()).husks - {node};
    }

    twostate lemma GoneHeap(node: Header)
      requires Gone(node)
      ensures heap == old(heap) - {node} && held == old(held[node := 0])
    {
    }

    lemma StringFacts(node: Header)
      requires AtZero(node) && node.isString
      ensures g[node] == [] && foreign[node] == 0 && Owed(g, heap, node) == 0
      ensures node in heap && node.color == Black && node !in immortals && node !in queue && !node.buffered
      ensures !node.dying
      ensures forall o :: o in heap ==> Out(g, node, o) == 0
      ensures ValidBut(node)
    {
    }

    /** A string holds nothing: its death is its block. */
    method FreeString(node: Header)
      requires AtZero(node) && node.isString
      modifies this`heap, this`g, this`held, this`reclaimed, this`log
      ensures Valid() && heap == old(heap) - {node} && held == old(held[node := 0])
      ensures Aftermath(old(Snap()), Snap())
    {
      hide *;
      StringFacts(node);
      Remove(node);
      reclaimed := reclaimed + 1;
      log := log + [node];
      GoneValid(node);
      GoneHeap(node);
      FreedSnap(node);
    }

    twostate lemma FreedSnap(node: Header)
      requires Gone(node) && log == old(log) + [node] && old(!node.dying)
      requires draining == old(draining) && collecting == old(collecting) && region == old(region)
      requires allocations == old(allocations) && leaving == old(leaving) && epoch == old(epoch)
      requires dead == old(dead) && zeroed == old(zeroed)
      ensures Aftermath(old(Snap()), Snap())
    {
      GoneUnnamed(node);
      assert Living() == old(Living()) - {node};
      assert log[|old(log)|..] == [node];
      assert Items([node]) == {node};
      assert InTurn(old(g), old(Living()), [node]);
    }

    // ---- one pass: mark, scan, gather ----

    /** Between operations and passes: no list is in use, and an object that is
        dying is a shell a candidate entry still names. */
    ghost predicate AtRest()
      reads this`heap, this`queue, this`dyingHead, this`dead, this`zeroed, heap`dying, heap`buffered, heap`word
    {
      && queue == [] && dyingHead == null && dead == [] && zeroed == []
      && forall n :: n in heap && n.dying ==> n.buffered && n.word == Count(0)
    }

    lemma PassStart()
      requires Valid() && AtRest()
      ensures Marking({}) && RootsOk() && MarkTints(0, {}) && Aside(0)
    {
      hide Books, Marks, Sight, Conserved, Marking, Tally, Counted, RootsOk, MarkTints, Aside;
      PassTally();
      PassAside();
    }

    lemma PassTally()
      requires Books() && AtRest()
      ensures Marking({})
    {
      hide Shape, DyingAreFree, Named, HeldIn, Owed;
      assert heap - {} == heap;
    }

    lemma PassAside()
      requires Marks() && AtRest()
      ensures RootsOk() && MarkTints(0, {}) && Aside(0)
    {
      hide Kinds, QueueOk;
    }

    /** After marking, what is not marked is alive and known to be so. */
    lemma MarkedOutside(S: set<Header>, before: set<Header>)
      requires Marking(S) && Shades(S, {}) && before <= S
      requires forall n :: n in heap && !n.dying ==> n in Reach(g, Anchors() + before)
      ensures Outside(S, Live()) && Scanning(S, Live(), S, {})
    {
      var X: set<Header?> := Live() + S;
      ReachClosed(g, Anchors());
      forall n, c | n in X && n in g && c in g[n] && c in g
        ensures c in X
      {
        if n !in Live() {
          assert n in S && c in heap;
          if c in immortals {
            assert c in Anchors();
          }
        }
      }
      ReachLeast(g, Anchors() + before, X);
      assert S + {} == S && heap - (S + {}) - {} == heap - S;
      assert S - (S + {}) - {} == {};
    }

    lemma CoveredSeeds()
      requires Valid() && AtRest()
      ensures forall n :: n in heap && !n.dying ==> n in Reach(g, Anchors() + Candidates())
    {
    }

    method ClearRoots()
      requires RootsOk()
      modifies heap`buffered, heap`index
      ensures NoneBuffered() && forall n :: n in heap ==> n.index == ROOT_NONE
    {
      for i := 0 to |roots|
        invariant forall k :: 0 <= k < |roots| ==> roots[k] in heap
        invariant forall n :: n in heap ==> n.buffered == old(n.buffered) || !n.buffered
        invariant forall n :: n in heap && n.buffered ==> i <= n.index < |roots| && roots[n.index] == n
        invariant forall n :: n in heap && !n.buffered ==> n.index == ROOT_NONE
        invariant forall k :: i <= k < |roots| ==> roots[k].index == k
      {
        RootClear(roots[i]);
      }
    }

    ghost function Unreachable(): set<Header>
      reads this`heap, this`held, this`foreign, this`immortals, this`queue, this`g, heap`dying
    {
      set n | n in heap && !n.dying && n !in Live()
    }

    lemma UnreachableIs(S: set<Header>, W: set<Header>)
      requires Outside(S, Live()) && W == S - Live() && S <= heap && forall n :: n in S ==> !n.dying
      ensures W == Unreachable()
    {
    }

    ghost function DyingSet(): set<Header>
      reads this`heap, heap`dying
    {
      set n | n in heap && n.dying
    }

    lemma AsideEnd(k: int)
      requires Aside(k) && RootsOk() && |roots| <= k
      ensures Lists(zeroed, DyingSet())
    {
    }

    lemma RestFacts()
      requires AtRest()
      ensures queue == [] && dyingHead == null && dead == [] && zeroed == []
    {
    }

    lemma NoRoots()
      requires roots == [] && NoneBuffered() && forall n :: n in heap ==> n.index == ROOT_NONE
      ensures RootsOk()
    {
    }

    /** Mark, and what marking establishes for the walks that follow. */
    method MarkPhase() returns (ghost S: set<Header>)
      requires Valid() && AtRest()
      modifies this`roots, this`work, this`zeroed, heap`word, heap`color, heap`buffered, heap`index
      ensures Scanning(S, Live(), S, {}) && Outside(S, Live()) && Named()
      ensures RootsOk() && Items(roots) <= S <= Reach(Traced(), Items(roots))
      ensures Lists(zeroed, DyingSet())
    {
      hide *;
      PassStart();
      CoveredSeeds();
      ghost var before, n := Candidates(), |roots|;
      S := MarkRoots();
      MarkedOutside(S, before);
      MarkingParts(S);
      AsideEnd(n);
    }

    lemma OutsideQueue(S: set<Header>, live: set<Header?>)
      requires Outside(S, live)
      ensures queue == []
    {
    }

    method ScanPhase(ghost S: set<Header>) returns (ghost W: set<Header>)
      requires Scanning(S, Live(), S, {}) && Outside(S, Live()) && dead == []
      requires Items(roots) <= S <= Reach(Traced(), Items(roots))
      modifies this`work, heap`word, heap`color
      ensures W == Unreachable() && Scanned(S, W) && Shades({}, W) && Tally(heap - W)
      ensures Gathering(W, W) && GrayWaits(W - W, W, [])
    {
      hide *;
      OutsideQueue(S, Live());
      W := ScanRoots(S);
      ScannedFrom(S, W);
      ScannedPlain(S, W);
      UnreachableIs(S, W);
    }

    /** Mark, scan and gather. What is gathered is exactly what is allocated and
        unreachable; the counts of the rest no longer include what the gathered
        own. */
    method Trace()
      requires Valid() && AtRest()
      modifies this`roots, this`work, this`dead, this`zeroed
      modifies heap`word, heap`color, heap`buffered, heap`index
      ensures Lists(dead, Unreachable()) && Lists(zeroed, DyingSet())
      ensures Ground() && Named() && Tally(heap - Unreachable()) && Shades({}, {})
      ensures NoneBuffered() && RootsOk() && roots == []
    {
      hide *;
      RestFacts();
      var S := MarkPhase();
      var W := ScanPhase(S);
      ScannedPlain(S, W);
      GatherPhase(S, W);
    }

    /** Every candidate leaves the buffer, and what is white is gathered. */
    method GatherPhase(ghost S: set<Header>, ghost W: set<Header>)
      requires Scanned(S, W) && Shades({}, W) && RootsOk() && dead == []
      requires Gathering(W, W) && GrayWaits(W - W, W, [])
      requires Items(roots) <= S <= Reach(Traced(), Items(roots))
      modifies this`roots, this`work, this`dead, heap`color, heap`buffered, heap`index
      ensures Lists(dead, W) && Shades({}, {}) && NoneBuffered() && RootsOk() && roots == []
    {
      hide *;
      ClearRoots();
      GatherRoots(S, W);
      roots := [];
      NoRoots();
    }

    // ---- what was gathered is marked dying ----

    twostate predicate Doomed(W: set<Header>)
      reads this`heap, this`g, this`held, this`foreign, this`immortals, this`queue
      reads heap`dying, heap`slots, heap`word, heap`color
    {
      && heap == old(heap) && immortals == old(immortals) && held == old(held) && foreign == old(foreign)
      && queue == old(queue) && queue == []
      && W == old(Unreachable()) && g == Hollow(old(g), W)
      && (forall n :: n in heap ==> n.dying == (old(n.dying) || n in W) && n.slots == old(n.slots)
                                    && n.word == old(n.word) && n.color == old(n.color))
    }

    twostate lemma DoomedRefs(W: set<Header>)
      requires Doomed(W)
      ensures forall o :: o in heap ==> Refs(o) == held[o] + foreign[o] + Owed(old(g), heap - W, o)
    {
      forall o | o in heap
        ensures Refs(o) == held[o] + foreign[o] + Owed(old(g), heap - W, o)
      {
        OwedHollow(old(g), W, heap, o);
      }
    }

    twostate lemma DoomedNamed(W: set<Header>)
      requires Doomed(W) && old(Shape())
      ensures forall o :: o in heap && !o.dying && o !in immortals ==>
                held[o] + foreign[o] + Owed(old(g), heap - W, o) >= 1
    {
      forall o | o in heap && !o.dying && o !in immortals
        ensures held[o] + foreign[o] + Owed(old(g), heap - W, o) >= 1
      {
        if held[o] == 0 && foreign[o] == 0 {
          assert o in old(Live()) && o !in old(Anchors());
          ReachedIsOwed(old(g), old(Anchors()), heap - W, o);
        }
      }
    }

    twostate lemma DoomedGround(W: set<Header>)
      requires Doomed(W) && old(Ground() && Tally(heap - W))
      requires forall o :: o in heap ==> Refs(o) == held[o] + foreign[o] + Owed(old(g), heap - W, o)
      ensures Ground()
    {
      hide Reach, Owed;
      assert Shape();
      ReachClosed(old(g), old(Anchors()));
      forall o | o in heap && o.dying
        ensures o !in immortals && Refs(o) == 0
      {
        OwedMono(old(g), heap - W, heap, o);
        if o in W {
          assert o !in old(Anchors());
          OwedIff(old(g), heap - W, o);
        }
      }
    }

    twostate lemma DoomedBooks(W: set<Header>)
      requires Doomed(W) && old(Ground() && Named() && HeldIn() && Tally(heap - W))
      ensures Books()
    {
      hide Ground, Refs, Live, Owed, Doomed, HeldIn, Named, Tally, Counted;
      DoomedRefs(W);
      DoomedShape(W);
      DoomedGround(W);
      DoomedNamed(W);
      DoomedCounted(W);
    }

    twostate lemma DoomedCounted(W: set<Header>)
      requires Doomed(W) && old(HeldIn() && Tally(heap - W))
      requires forall o :: o in heap ==> Refs(o) == held[o] + foreign[o] + Owed(old(g), heap - W, o)
      requires forall o :: o in heap && !o.dying && o !in immortals ==>
                 held[o] + foreign[o] + Owed(old(g), heap - W, o) >= 1
      ensures Counted() && Named() && HeldIn()
    {
      hide Refs, Owed, Live;
    }

    twostate lemma DoomedShape(W: set<Header>)
      requires old(Ground())
      ensures old(Shape())
    {
    }

    twostate lemma DoomedSight(W: set<Header>)
      requires Doomed(W) && old(Ground() && NoCycles(g, heap)) && old(Shades({}, {}))
      ensures Sight()
    {
      hide Reach, Owed;
      assert Seeds() == old(Anchors());
      ReachSpares(old(g), W, old(Anchors()));
      assert Subgraph(g, old(g));
      NoCyclesFewer(g, heap, old(g), heap);
    }

    lemma PlainMarks()
      requires queue == [] && dyingHead == null && roots == [] && RootsOk() && NoneBuffered()
      requires Shades({}, {}) && Strings()
      ensures Marks()
    {
    }

    // ---- the operations ----

    ghost function Snap(): View
      reads this, heap
    {
      View(heap, Living(), map n | n in heap && Husk(n) :: (n.word, n.buffered), g, immortals,
           draining, collecting, region, allocations, leaving, epoch, dead, zeroed, log)
    }

    /** A reference foreign code held is on its way through the runtime. */
    method Borrow(x: Header?)
      requires Valid() && foreign[x] > 0
      modifies this`foreign, this`held
      ensures Valid() && Snap() == old(Snap())
      ensures x != null && x in heap && held == old(held[x := held[x] + 1]) && foreign == old(foreign[x := foreign[x] - 1])
    {
      hide *;
      ForeignAt(x);
      foreign := foreign[x := foreign[x] - 1];
      held := held[x := held[x] + 1];
      PassedIs(x);
      PassedAll(x);
    }

    /** A reference of the program's goes to foreign code. */
    method Lend(x: Header)
      requires Valid() && x in heap && held[x] > 0
      modifies this`foreign, this`held
      ensures Valid() && Snap() == old(Snap())
      ensures held == old(held[x := held[x] - 1]) && foreign == old(foreign[x := foreign[x] + 1])
    {
      hide *;
      MarksNow();
      foreign := foreign[x := foreign[x] + 1];
      held := held[x := held[x] - 1];
      PassedIs(x);
      PassedAll(x);
    }

    twostate lemma PassedIs(x: Header?)
      requires heap == old(heap) && g == old(g) && immortals == old(immortals) && queue == old(queue)
      requires x != null ==> x in heap
      requires || (old(held[x]) > 0 && held == old(held[x := held[x] - 1]) && foreign == old(foreign[x := foreign[x] + 1]))
               || (old(foreign[x]) > 0 && foreign == old(foreign[x := foreign[x] - 1]) && held == old(held[x := held[x] + 1]))
      requires forall n :: n in heap ==> n.dying == old(n.dying) && n.slots == old(n.slots) && n.word == old(n.word)
                                         && n.color == old(n.color) && n.buffered == old(n.buffered)
      ensures Passed(x)
    {
    }

    lemma MarksNow()
      requires Valid()
      ensures Marks() && Conserved()
    {
    }

    lemma ForeignAt(x: Header?)
      requires Valid() && foreign[x] > 0
      ensures x != null && x in heap && Marks() && Conserved()
    {
    }

    /** A reference to x changed hands, between the program and foreign code. */
    twostate predicate Passed(x: Header?)
      reads this, heap
    {
      && heap == old(heap) && g == old(g) && immortals == old(immortals) && queue == old(queue)
      && (x != null ==> x in heap) && held[x] + foreign[x] == old(held[x] + foreign[x])
      && held[x := 0] == old(held[x := 0]) && foreign[x := 0] == old(foreign[x := 0])
      && (forall n :: n in heap ==> n.dying == old(n.dying) && n.slots == old(n.slots) && n.word == old(n.word)
                                    && n.color == old(n.color) && n.buffered == old(n.buffered))
    }

    twostate lemma PassedAll(x: Header?)
      requires old(Valid()) && Passed(x) && x != null
      requires draining == old(draining) && collecting == old(collecting) && region == old(region)
      requires allocations == old(allocations) && leaving == old(leaving) && epoch == old(epoch)
      requires dead == old(dead) && zeroed == old(zeroed) && log == old(log)
      requires Marks() && Conserved()
      ensures Valid() && Snap() == old(Snap())
    {
      hide Books, Marks, Sight, Conserved, Snap;
      PassedBooks(x);
      PassedSight(x);
      SameSnap();
    }

    /** Snapshots differ only where something they record does. */
    twostate lemma SameSnap()
      requires heap == old(heap) && g == old(g) && immortals == old(immortals)
      requires forall n :: n in heap ==> Husk(n) == old(Husk(n))
      requires forall n :: n in heap && Husk(n) ==> n.word == old(n.word) && n.buffered == old(n.buffered)
      requires draining == old(draining) && collecting == old(collecting) && region == old(region)
      requires allocations == old(allocations) && leaving == old(leaving) && epoch == old(epoch)
      requires dead == old(dead) && zeroed == old(zeroed) && log == old(log)
      ensures Snap() == old(Snap())
    {
      assert Living() == old(Living());
    }

    twostate lemma PassedBooks(x: Header?)
      requires old(Books()) && Passed(x) && x != null
      ensures Books()
    {
      SameOff(held, old(held), x);
      SameOff(foreign, old(foreign), x);
    }

    twostate lemma PassedSight(x: Header?)
      requires old(Sight()) && Passed(x) && x != null
      ensures Sight()
    {
      SameOff(held, old(held), x);
      SameOff(foreign, old(foreign), x);
      assert old(Anchors()) == Anchors();
      assert old(Seeds()) == Seeds();
    }

    /** First half of a death: on to the list. */
    method EnqueueDying(node: Header)
      requires AtZero(node) && !node.isString
      modifies this`held, this`queue, this`dyingHead, node`dying, node`word
      ensures Valid() && Snap() == old(Snap())
      ensures queue == [node] + old(queue) && held == old(held[node := 0])
    {
      hide *;
      AtZeroFacts(node);
      node.dying := true;
      node.word := Link(dyingHead);
      dyingHead := node;
      queue := [node] + queue;
      held := held[node := 0];
      FelledIs(node);
      FelledAll(node);
    }

    lemma AtZeroFacts(node: Header)
      requires AtZero(node)
      ensures node in heap && !node.dying && node !in immortals && held[node] == 1 && node.word == Count(0)
      ensures node.color == Black
    {
    }

    twostate lemma FelledIs(node: Header)
      requires heap == old(heap) && g == old(g) && immortals == old(immortals)
      requires foreign == old(foreign) && roots == old(roots)
      requires node in heap && old(!node.dying) && node.dying && node !in immortals && !node.isString
      requires old(held[node]) == 1 && held == old(held[node := 0])
      requires old(node.word == Count(0)) && node.word == Link(old(dyingHead)) && node.color == Black
      requires queue == [node] + old(queue) && dyingHead == node
      requires forall n :: n in heap ==> n.slots == old(n.slots) && n.buffered == old(n.buffered) && n.index == old(n.index)
      requires forall n :: n in heap && n != node ==>
                 n.word == old(n.word) && n.color == old(n.color) && n.dying == old(n.dying)
      ensures Felled(node)
    {
    }

    twostate lemma FelledAll(node: Header)
      requires Felled(node) && old(AtZero(node))
      requires draining == old(draining) && collecting == old(collecting) && region == old(region)
      requires allocations == old(allocations) && leaving == old(leaving) && epoch == old(epoch)
      requires reclaimed == old(reclaimed) && dead == old(dead) && zeroed == old(zeroed) && log == old(log)
      ensures Valid() && Snap() == old(Snap())
    {
      hide BooksBut, Books, Marks, Sight, Snap, Felled;
      FelledBooks(node);
      FelledMarks(node);
      FelledSight(node);
      FelledSnap(node);
    }

    twostate lemma FelledSnap(node: Header)
      requires Felled(node) && old(Marks())
      requires draining == old(draining) && collecting == old(collecting) && region == old(region)
      requires allocations == old(allocations) && leaving == old(leaving) && epoch == old(epoch)
      requires reclaimed == old(reclaimed) && dead == old(dead) && zeroed == old(zeroed) && log == old(log)
      ensures Snap() == old(Snap()) && heap == old(heap)
    {
      forall n | n in heap
        ensures Husk(n) == old(Husk(n))
      {
      }
      SameSnap();
    }

    /** Second half: off the list. The references it owned are the drain's now. */
    method DequeueDying() returns (node: Header)
      requires Valid() && queue != []
      modifies this`held, this`queue, this`dyingHead, this`g, this`log
      ensures Valid() && Opened(old(Snap()), Snap(), node)
      ensures old(queue) == [node] + queue && held == old(held) + Given(node.slots, 0)
      ensures node in heap && Husk(node) && Snap().husks[node] == (node.word, node.buffered)
    {
      hide *;
      HeadFacts();
      node := dyingHead;
      dyingHead := node.word.next;
      assert queue == [node] + queue[1..];
      queue := queue[1..];
      g := g[node := []];
      log := log + [node];
      held := held + Given(node.slots, 0);
      UnlinkedIs(node);
      UnlinkedAll(node);
      UnlinkedSnap(node);
    }

    lemma HeadFacts()
      requires Valid() && queue != []
      ensures dyingHead == queue[0] && queue[0] in heap && queue[0].word == Link(After(queue[1..], -1))
    {
      assert After(queue, 0) == After(queue[1..], -1);
    }

    twostate lemma UnlinkedIs(node: Header)
      requires heap == old(heap) && immortals == old(immortals) && foreign == old(foreign) && roots == old(roots)
      requires old(queue) == [node] + queue && dyingHead == After(queue, -1)
      requires node in heap && g == old(g[node := []]) && held == old(held) + Given(node.slots, 0)
      requires forall n :: n in heap ==>
                 n.dying == old(n.dying) && n.slots == old(n.slots) && n.word == old(n.word)
                 && n.color == old(n.color) && n.buffered == old(n.buffered) && n.index == old(n.index)
      ensures Unlinked(node)
    {
    }

    twostate lemma UnlinkedAll(node: Header)
      requires Unlinked(node) && old(Valid())
      requires allocations == old(allocations) && leaving == old(leaving) && reclaimed == old(reclaimed)
      ensures Valid()
    {
      hide Books, Marks, Sight, Unlinked;
      UnlinkedParts(node);
      UnlinkedBooks(node);
      UnlinkedMarks(node);
      UnlinkedSight(node);
    }

    twostate lemma UnlinkedParts(node: Header)
      requires Unlinked(node) && old(Marks())
      ensures old(QueueOk()) && heap == old(heap)
    {
    }

    twostate lemma UnlinkedSnap(node: Header)
      requires Unlinked(node) && old(Valid())
      requires draining == old(draining) && collecting == old(collecting) && region == old(region)
      requires allocations == old(allocations) && leaving == old(leaving) && epoch == old(epoch)
      requires dead == old(dead) && zeroed == old(zeroed) && log == old(log) + [node]
      ensures Opened(old(Snap()), Snap(), node)
      ensures Husk(node) && Snap().husks[node] == (node.word, node.buffered)
    {
      hide Books, Marks, Sight, Conserved, Husk, Unlinked;
      UnlinkedWhole(node);
      UnlinkedQueueOf(node);
      UnlinkedUnnamed(node);
      assert Living() == old(Living()) - {node};
      assert Snap().husks == old(Snap()).husks[node := (node.word, node.buffered)];
    }

    twostate lemma UnlinkedWhole(node: Header)
      requires Unlinked(node) && old(Valid())
      ensures old(Books() && Marks()) && heap == old(heap) && immortals == old(immortals)
      ensures node in heap && g == old(g[node := []]) && !old(Husk(node))
      ensures forall n :: n in heap ==> n.word == old(n.word) && n.buffered == old(n.buffered)
    {
      assert node in old(queue);
    }

    twostate lemma UnlinkedUnnamed(node: Header)
      requires Unlinked(node) && old(Books() && Marks())
      ensures forall m :: m in old(heap) && m in old(g) ==> node !in old(g)[m]
    {
      assert node in old(queue);
      assert old(node.dying);
      forall m | m in old(heap) && m in old(g)
        ensures node !in old(g)[m]
      {
        OwedIff(old(g), heap, node);
      }
    }

    method UnbufferDead(node: Header)
      requires Valid() && node in heap && Husk(node) && node.buffered
      modifies this`roots, heap`buffered, heap`index
      ensures Valid() && !node.buffered
      ensures Snap() == old(Snap()).(husks := old(Snap()).husks[node := (node.word, false)])
    {
      hide *;
      HuskIs(node);
      Unbuffer(node);
      UnbufferedSnap(node);
    }

    lemma HuskIs(node: Header)
      ensures Husk(node) <==> node.dying && node !in queue
    {
    }

    twostate lemma UnbufferedSnap(node: Header)
      requires old(node in heap && Husk(node)) && heap == old(heap) && g == old(g) && immortals == old(immortals)
      requires queue == old(queue) && !node.buffered
      requires forall n :: n in heap ==> n.dying == old(n.dying) && n.word == old(n.word)
                                         && (n != node ==> n.buffered == old(n.buffered))
      requires draining == old(draining) && collecting == old(collecting) && region == old(region)
      requires allocations == old(allocations) && leaving == old(leaving) && epoch == old(epoch)
      requires dead == old(dead) && zeroed == old(zeroed) && log == old(log)
      ensures Snap() == old(Snap()).(husks := old(Snap()).husks[node := (node.word, false)])
    {
      assert Living() == old(Living());
      assert Snap().husks == old(Snap()).husks[node := (node.word, false)];
    }

    /** The count word of a shell is a count again. */
    method SetShell(node: Header)
      requires Valid() && node in heap && Husk(node) && node.buffered
      modifies node`word
      ensures Valid() && Husk(node)
      ensures Snap() == old(Snap()).(husks := old(Snap()).husks[node := (Count(0), true)])
    {
      hide *;
      WordlessParts();
      HuskIs(node);
      HuskFacts(node);
      node.word := Count(0);
      ShellValid(node);
      ShellSnap(node);
    }

    lemma WordlessParts()
      requires Valid()
      ensures Ground() && Named() && HeldIn() && Sight() && Conserved() && Kinds() && MarkTints(0, {}) && RootsOk()
    {
    }

    twostate lemma ShellValid(node: Header)
      requires old(Valid()) && heap == old(heap) && g == old(g) && immortals == old(immortals)
      requires held == old(held) && foreign == old(foreign) && queue == old(queue) && dyingHead == old(dyingHead)
      requires Ground() && Named() && HeldIn() && Sight() && Conserved() && Kinds() && MarkTints(0, {}) && RootsOk()
      requires node.dying && node !in queue && node !in immortals
      requires forall n :: n in heap ==> n.dying == old(n.dying) && (n != node ==> n.word == old(n.word))
      ensures Valid()
    {
      hide Ground, Named, HeldIn, Sight, Conserved, Kinds, MarkTints, RootsOk, Owed;
      forall i | 0 <= i < |queue|
        ensures queue[i].word == old(queue[i].word)
      {
        assert queue[i] in heap && queue[i] in queue;
      }
    }

    twostate lemma ShellSnap(node: Header)
      requires heap == old(heap) && g == old(g) && immortals == old(immortals) && queue == old(queue)
      requires old(node in heap && node.dying) && node !in queue && node.word == Count(0) && node.buffered
      requires forall n :: n in heap ==> n.dying == old(n.dying) && n.buffered == old(n.buffered)
                                         && (n != node ==> n.word == old(n.word))
      requires draining == old(draining) && collecting == old(collecting) && region == old(region)
      requires allocations == old(allocations) && leaving == old(leaving) && epoch == old(epoch)
      requires dead == old(dead) && zeroed == old(zeroed) && log == old(log)
      ensures Snap() == old(Snap()).(husks := old(Snap()).husks[node := (Count(0), true)])
    {
      assert Living() == old(Living());
      assert Snap().husks == old(Snap()).husks[node := (Count(0), true)];
    }

    twostate lemma SuspectedSnap(node: Header)
      requires Suspected(node) && region == old(region) && epoch == old(epoch)
      requires dead == old(dead) && zeroed == old(zeroed) && log == old(log)
      ensures Snap() == old(Snap())
    {
      SameSnap();
    }

    /** One of several references goes, and the object may now be a cycle's. */
    method DropOne(node: Header)
      requires Valid() && node in heap && !node.dying && node !in immortals
      requires held[node] > 0 && node.word.Count? && node.word.n > 1
      modifies this`held, this`roots, this`buffers, node`word, node`color, node`buffered, node`index
      ensures Valid() && Snap() == old(Snap()) && held == old(held[node := held[node] - 1])
      ensures roots == if node.cyclic && !old(node.buffered) then old(roots) + [node] else old(roots)
      ensures node.cyclic ==> node.color == Purple && node.buffered
    {
      hide *;
      CountedAt(node);
      node.word := Count(node.word.n - 1);
      held := held[node := held[node] - 1];
      PossibleRoot(node);
      SuspectedAll(node);
    }

    /** The same for an object of a type no cycle passes through. */
    method DropAcyclic(node: Header)
      requires Valid() && node in heap && !node.dying && node !in immortals
      requires held[node] > 0 && node.word.Count? && node.word.n > 1 && !node.cyclic
      modifies this`held, node`word
      ensures Valid() && Snap() == old(Snap()) && held == old(held[node := held[node] - 1])
    {
      hide *;
      CountedAt(node);
      node.word := Count(node.word.n - 1);
      held := held[node := held[node] - 1];
      SuspectedAll(node);
    }

    /** The same for an object that already is a candidate. */
    method DropCandidate(node: Header)
      requires Valid() && node in heap && !node.dying && node !in immortals
      requires held[node] > 0 && node.word.Count? && node.word.n > 1 && node.cyclic && node.buffered
      modifies this`held, node`word, node`color
      ensures Valid() && Snap() == old(Snap()) && held == old(held[node := held[node] - 1])
      ensures node.color == Purple
    {
      hide *;
      CountedAt(node);
      node.word := Count(node.word.n - 1);
      node.color := Purple;
      held := held[node := held[node] - 1];
      SuspectedAll(node);
    }

    twostate lemma SuspectedAll(node: Header)
      requires old(Valid())
      requires heap == old(heap) && g == old(g) && immortals == old(immortals) && queue == old(queue)
      requires foreign == old(foreign) && node in heap && !node.dying && node !in immortals
      requires old(held[node]) > 0 && held == old(held[node := held[node] - 1])
      requires old(node.word.Count? && node.word.n > 1) && node.word == Count(old(node.word.n) - 1)
      requires RootsOk()
      requires forall n :: n in heap ==> n.dying == old(n.dying) && n.slots == old(n.slots)
      requires forall n :: n in heap && n != node ==>
                 n.word == old(n.word) && n.color == old(n.color) && n.buffered == old(n.buffered)
      requires if node.cyclic then node.color == Purple && node.buffered
               else node.color == old(node.color) && node.buffered == old(node.buffered)
      requires dyingHead == old(dyingHead) && draining == old(draining) && collecting == old(collecting)
      requires allocations == old(allocations) && reclaimed == old(reclaimed) && leaving == old(leaving)
      requires region == old(region) && epoch == old(epoch)
      requires dead == old(dead) && zeroed == old(zeroed) && log == old(log)
      ensures Valid() && Snap() == old(Snap())
    {
      hide *;
      SuspectedIs(node);
      SuspectedValid(node);
      SuspectedSnap(node);
    }

    twostate lemma SuspectedIs(node: Header)
      requires heap == old(heap) && g == old(g) && immortals == old(immortals) && queue == old(queue)
      requires foreign == old(foreign) && node in heap && !node.dying && node !in immortals
      requires old(held[node]) > 0 && held == old(held[node := held[node] - 1])
      requires old(node.word.Count? && node.word.n > 1) && node.word == Count(old(node.word.n) - 1)
      requires RootsOk()
      requires forall n :: n in heap ==> n.dying == old(n.dying) && n.slots == old(n.slots)
      requires forall n :: n in heap && n != node ==>
                 n.word == old(n.word) && n.color == old(n.color) && n.buffered == old(n.buffered)
      requires if node.cyclic then node.color == Purple && node.buffered
               else node.color == old(node.color) && node.buffered == old(node.buffered)
      requires dyingHead == old(dyingHead) && draining == old(draining) && collecting == old(collecting)
      requires allocations == old(allocations) && reclaimed == old(reclaimed) && leaving == old(leaving)
      ensures Suspected(node)
    {
    }

    // ---- release, and everything it may set off ----

    twostate lemma UnchangedSnap()
      requires heap == old(heap) && g == old(g) && immortals == old(immortals) && queue == old(queue)
      requires forall n :: n in heap ==> n.dying == old(n.dying) && n.word == old(n.word) && n.buffered == old(n.buffered)
      requires draining == old(draining) && collecting == old(collecting) && region == old(region)
      requires allocations == old(allocations) && leaving == old(leaving) && epoch == old(epoch)
      requires dead == old(dead) && zeroed == old(zeroed) && log == old(log)
      ensures Snap() == old(Snap())
    {
      SameSnap();
    }

    lemma CountOrImmortal(node: Header)
      requires Valid() && node in heap
      ensures !node.dying ==> node.word == if node in immortals then Immortal else Count(Refs(node))
      ensures !node.dying && node !in immortals ==> node.word.Count? && node.word.n >= 1
      ensures !node.dying ==> (node.word == Immortal <==> node in immortals)
    {
    }

    lemma LastReference(node: Header)
      requires Valid() && node in heap && !node.dying && node !in immortals && held[node] > 0
      requires node.word.Count? && node.word.n <= 1
      ensures held[node] == 1 && Refs(node) == 1
      ensures node.isString ==> node.color == Black
    {
    }

    twostate lemma ZeroAt(node: Header)
      requires old(Valid()) && node in heap && !node.dying && node !in immortals
      requires old(held[node]) == 1 && old(Refs(node)) == 1
      requires node.word == Count(0) && node.color == Black
      requires heap == old(heap) && g == old(g) && immortals == old(immortals) && queue == old(queue)
      requires held == old(held) && foreign == old(foreign) && dyingHead == old(dyingHead) && roots == old(roots)
      requires allocations == old(allocations) && reclaimed == old(reclaimed) && leaving == old(leaving)
      requires forall n :: n in heap ==> n.dying == old(n.dying) && n.slots == old(n.slots)
                                         && n.buffered == old(n.buffered) && n.index == old(n.index)
      requires forall n :: n in heap && n != node ==> n.word == old(n.word) && n.color == old(n.color)
      ensures AtZero(node)
    {
      hide Books, BooksBut, Marks, Sight, Refs;
      ZeroAtBooks(node);
      ZeroAtSight(node);
      ZeroAtMarks(node);
    }

    twostate lemma ZeroAtMarks(node: Header)
      requires old(Marks()) && node in heap && !node.dying && node.color == Black
      requires heap == old(heap) && immortals == old(immortals) && queue == old(queue)
      requires dyingHead == old(dyingHead) && roots == old(roots)
      requires forall n :: n in heap ==> n.dying == old(n.dying) && n.slots == old(n.slots)
                                         && n.buffered == old(n.buffered) && n.index == old(n.index)
      requires forall n :: n in heap && n != node ==> n.word == old(n.word) && n.color == old(n.color)
      ensures Marks()
    {
      hide RootsOk;
      assert RootsOk() by {
        ZeroAtRoots();
      }
      forall i | 0 <= i < |queue|
        ensures queue[i].word == old(queue[i].word)
      {
        assert queue[i] in heap && queue[i].dying;
      }
    }

    twostate lemma ZeroAtRoots()
      requires old(RootsOk()) && heap == old(heap) && immortals == old(immortals) && roots == old(roots)
      requires forall n :: n in heap ==> n.buffered == old(n.buffered) && n.index == old(n.index)
      ensures RootsOk()
    {
    }

    twostate lemma ZeroSnap(node: Header)
      requires heap == old(heap) && g == old(g) && immortals == old(immortals) && queue == old(queue)
      requires !node.dying && forall n :: n in heap ==> n.dying == old(n.dying) && n.buffered == old(n.buffered)
      requires forall n :: n in heap && n != node ==> n.word == old(n.word)
      requires draining == old(draining) && collecting == old(collecting) && region == old(region)
      requires allocations == old(allocations) && leaving == old(leaving) && epoch == old(epoch)
      requires dead == old(dead) && zeroed == old(zeroed) && log == old(log)
      ensures Snap() == old(Snap())
    {
      SameSnap();
    }

    twostate lemma SettledFewer()
      requires old(Settled()) && heap <= old(heap) && queue == old(queue)
      requires draining == old(draining) && collecting == old(collecting)
      requires dead == old(dead) && zeroed == old(zeroed) && leaving == old(leaving)
      requires forall n :: n in heap ==> n.dying == old(n.dying)
      ensures Settled()
    {
    }

    /** While a drain or a pass is on, only the lists can be out of place. */
    lemma SettledBusy()
      requires (draining || collecting) && (!draining ==> queue == [])
      requires !collecting ==> dead == [] && zeroed == []
      ensures Settled()
    {
    }

    lemma SettledLists()
      requires Settled()
      ensures !draining ==> queue == []
      ensures !collecting ==> dead == [] && zeroed == []
    {
    }

    lemma SettledView()
      requires Settled()
      ensures Resting(Snap())
    {
      if !draining && !collecting {
        assert Snap().husks == map[];
      }
    }

    lemma SettledByView(v0: View)
      requires Resting(v0) && Aftermath(v0, Snap()) && (!draining ==> queue == [])
      ensures Settled()
    {
      forall n | n in heap && n.dying
        ensures draining || collecting
      {
        if n !in queue {
          assert n in Snap().husks;
        }
      }
    }

    method RaiseDraining()
      modifies this`draining
      ensures draining && Snap() == old(Snap()).(draining := true)
    {
      draining := true;
      assert Living() == old(Living());
      assert Snap().husks == old(Snap()).husks;
    }

    method LowerDraining()
      modifies this`draining
      ensures !draining && Snap() == old(Snap()).(draining := false)
    {
      draining := false;
      assert Living() == old(Living());
      assert Snap().husks == old(Snap()).husks;
    }

    twostate lemma ZeroAtBooks(node: Header)
      requires old(Books()) && node in heap && !node.dying && node !in immortals
      requires held[node] == 1 && old(Refs(node)) == 1 && node.word == Count(0)
      requires heap == old(heap) && g == old(g) && immortals == old(immortals) && queue == old(queue)
      requires held == old(held) && foreign == old(foreign)
      requires forall n :: n in heap ==> n.dying == old(n.dying) && n.slots == old(n.slots)
      requires forall n :: n in heap && n != node ==> n.word == old(n.word)
      ensures BooksBut(node)
    {
    }

    twostate lemma ZeroAtSight(node: Header)
      requires old(Sight()) && node in heap && held[node] == 1
      requires heap == old(heap) && g == old(g) && immortals == old(immortals) && queue == old(queue)
      requires held == old(held) && foreign == old(foreign)
      requires forall n :: n in heap ==> n.dying == old(n.dying)
      requires forall n :: n in heap && n != node ==> n.color == old(n.color)
      ensures Sight()
    {
      assert old(Seeds()) <= Seeds();
      ReachMono(g, old(Seeds()), Seeds());
    }

    lemma HeldAlive(c: Header?)
      requires Valid() && held[c] > 0
      ensures c != null && c in heap && !c.dying
    {
    }

    twostate lemma HuskKept(node: Header)
      requires old(node in heap && Husk(node) && !node.buffered)
      requires Aftermath(old(Snap()), Snap())
      ensures node in heap && Husk(node) && !node.buffered && leaving == old(leaving)
      ensures node in Snap().husks && Snap().husks[node] == (old(node.word), false)
    {
      hide Clean;
      assert node in old(Snap()).husks;
      assert node in Snap().husks;
    }

    /** Without a collection, release reclaims what counting is defined to. */
    twostate lemma FellExactly()
      requires old(Valid() && Settled()) && Valid() && Settled() && Aftermath(old(Snap()), Snap())
      ensures !draining && !collecting && epoch == old(epoch) ==>
                heap == old(heap) - Perish(old(g), old(heap), Anchors(), {})
    {
      if !draining && !collecting && epoch == old(epoch) {
        QuietSnap();
        StillNamed();
        FallIsPerish(old(Snap()), Snap(), Anchors());
      }
    }

    /** The program gave up one reference to node, foreign code any number, and
        nothing else changed hands. */
    twostate predicate GaveUp(node: Header?)
      reads this, heap
    {
      && (node != null ==> node in old(heap) && (!old(node.dying) ==> old(held[node]) > 0))
      && held == old(if node == null || node.dying then held else held[node := held[node] - 1])
      && foreign <= old(foreign) && immortals == old(immortals) && heap <= old(heap)
      && forall n :: n in heap ==> n.slots == old(n.slots)
    }

    lemma IdleNow()
      requires Valid() && Settled() && !draining && !collecting
      ensures HeldIn() && queue == [] && immortals <= heap
    {
    }

    twostate lemma WasIdle()
      requires old(Valid() && Settled() && !draining && !collecting)
      ensures old(HeldIn() && queue == [] && immortals <= heap) && forall n :: n in old(heap) ==> !old(n.dying)
    {
    }

    /** What names objects now is what did before, without that reference. */
    twostate lemma AnchorsAfter(node: Header?)
      requires old(Valid() && Settled()) && Valid() && Settled() && GaveUp(node) && !old(draining) && !old(collecting)
      requires !draining && !collecting
      ensures Anchors() <= old(AnchorsWithout(node))
      ensures old(foreign) == multiset{} ==> Anchors() == old(AnchorsWithout(node))
    {
      hide Valid, Settled;
      WasIdle();
      IdleNow();
      forall n | n in Anchors()
        ensures n in old(AnchorsWithout(node))
      {
        assert !old(n.dying) && foreign[n] <= old(foreign[n]);
      }
      if old(foreign) == multiset{} {
        forall n | n in old(AnchorsWithout(node))
          ensures n in Anchors()
        {
          assert held[n] > 0 || n in immortals;
        }
      }
    }

    /** Nothing that is still reached has gone. */
    twostate lemma ReachedStays(node: Header?)
      requires old(Valid() && Settled()) && Valid() && Settled() && GaveUp(node) && !old(draining) && !old(collecting)
      requires !draining && !collecting && Anchors() == old(AnchorsWithout(node))
      ensures old(Reach(g, AnchorsWithout(node))) <= heap
    {
      hide Reach, Owed;
      assert Shape() && old(Shape());
      ReachLeast(old(g), old(AnchorsWithout(node)), heap);
    }

    twostate lemma ReachedOnly(node: Header?)
      requires old(Valid() && Settled()) && Valid() && Settled() && GaveUp(node) && !old(draining) && !old(collecting)
      requires !draining && !collecting && Anchors() == old(AnchorsWithout(node))
      ensures Live() <= old(Reach(g, AnchorsWithout(node)))
    {
      hide Reach, Owed;
      assert Shape() && old(Shape());
      assert Subgraph(g, old(g));
      ReachSubgraph(g, old(g), Anchors());
    }

    /** What a release of node leaves. Without a collection it is the heap less
        what counting is defined to reclaim, from what names objects now and so
        also from what did before without the reference given up; where foreign
        code holds nothing the two are the same. With a collection that came due
        it is what is reachable, and then likewise. */
    twostate predicate Exact(node: Header?)
      reads this, heap
    {
      && Anchors() <= old(AnchorsWithout(node))
      && (epoch == old(epoch) ==>
            && heap == old(heap) - Perish(old(g), old(heap), Anchors(), {})
            && heap <= old(heap) - Perish(old(g), old(heap), old(AnchorsWithout(node)), {}))
      && (epoch != old(epoch) ==> heap == Live())
      && (old(foreign) == multiset{} ==>
            && Anchors() == old(AnchorsWithout(node))
            && (epoch != old(epoch) ==> heap == old(Reach(g, AnchorsWithout(node)))))
    }

    /** Release is exact: by counting, or when a collection came due with it, by
        reachability. */
    twostate lemma ReleasedExactly(node: Header?)
      requires old(Valid() && Settled()) && Valid() && Settled() && GaveUp(node)
      requires Aftermath(old(Snap()), Snap()) && (epoch != old(epoch) ==> heap == Live())
      requires draining == old(draining) && collecting == old(collecting)
      ensures !draining && !collecting ==> Exact(node)
    {
      hide Reach, Owed, Perish, Valid, Settled, Aftermath, GaveUp, Anchors, AnchorsWithout;
      FellExactly();
      if !draining && !collecting {
        AnchorsAfter(node);
        PerishFewer(old(g), old(heap), Anchors(), old(AnchorsWithout(node)));
        if old(foreign) == multiset{} && epoch != old(epoch) {
          ReachedStays(node);
          ReachedOnly(node);
        }
      }
    }

    twostate lemma QuietSnap()
      requires old(Valid() && Settled()) && Valid() && Settled() && Aftermath(old(Snap()), Snap())
      requires !draining && !collecting && epoch == old(epoch)
      ensures Clean(old(Snap()), Snap())
      ensures Snap().living == heap && Snap().g == g
      ensures old(Snap()).living == old(heap) && old(Snap()).g == old(g) && old(heap) <= old(g).Keys
    {
      assert Living() == heap;
      assert old(Living()) == old(heap);
    }

    lemma StillNamed()
      requires Valid() && Settled() && !draining && !collecting
      ensures Anchors() <= heap
      ensures forall n :: n in heap && n !in Anchors() ==> exists m :: m in heap && m in g && n in g[m]
    {
      forall n | n in heap && n !in Anchors()
        ensures exists m :: m in heap && m in g && n in g[m]
      {
        OwedIff(g, heap, n);
      }
    }

    /** Give up one reference the program holds. A release of something already
        dying is ignored: no count is left to take it from. */
    method Release(node: Header?)
      requires Valid() && Settled()
      requires node != null ==> node in heap && (!node.dying ==> held[node] > 0)
      modifies this, heap`word, heap`color, heap`buffered, heap`index, heap`dying
      ensures Valid() && Settled() && Aftermath(old(Snap()), Snap()) && EndsWith(queue, old(queue))
      ensures heap <= old(heap) && draining == old(draining) && collecting == old(collecting)
      ensures leaving == old(leaving) && region == old(region)
      ensures dead == old(dead) && zeroed == old(zeroed)
      ensures immortals == old(immortals) && allocations == old(allocations) && epoch >= old(epoch)
      ensures draining || collecting || region ==> epoch == old(epoch)
      ensures epoch == old(epoch) ==> collectAt == old(collectAt) && began == old(began)
      ensures epoch != old(epoch) ==>
                && epoch == old(epoch) + 1 && began >= 10000 && began >= old(collectAt)
                && roots == [] && heap == Live() && collectAt == |heap|
      ensures foreign <= old(foreign)
      ensures held == old(if node == null || node.dying then held else held[node := held[node] - 1])
      ensures !draining && !collecting ==> Exact(node)
      ensures !draining && !collecting && !region && old(|roots| < 10000 || |roots| < collectAt) ==>
                |roots| < 10000 || |roots| < collectAt
      ensures old(node != null && !node.dying && node.word.Count? && node.word.n > 1) ==>
                (epoch != old(epoch) <==>
                   old(!draining && !collecting && !region && node.cyclic && !node.buffered
                       && |roots| + 1 >= 10000 && |roots| + 1 >= collectAt))
      decreases (if collecting then 0 else 2) + (if draining then 0 else 1), 6, 0
    {
      hide *;
      AftermathSelf(Snap());
      EndsWithSelf(queue);
      if node != null {
        CountOrImmortal(node);
        if node.word == Immortal {
          if !node.dying {
            HoldImmortal(node, held[node] - 1);
            UnchangedSnap();
          }
        } else if !node.dying && node.word.n > 1 && !node.cyclic {
          DropAcyclic(node);
        } else if !node.dying && node.word.n > 1 && node.buffered {
          DropCandidate(node);
        } else {
          ReleaseCounted(node);
        }
      }
      GaveUpIs(node);
      ReleasedExactly(node);
    }

    twostate lemma GaveUpIs(node: Header?)
      requires node != null ==> node in old(heap) && (!old(node.dying) ==> old(held[node]) > 0)
      requires held == old(if node == null || node.dying then held else held[node := held[node] - 1])
      requires foreign <= old(foreign) && immortals == old(immortals) && heap <= old(heap)
      requires forall n :: n in heap ==> n.slots == old(n.slots)
      ensures GaveUp(node)
    {
    }

    method ReleaseCounted(node: Header)
      requires Valid() && Settled()
      requires node in heap && (!node.dying ==> held[node] > 0 && node !in immortals)
      modifies this, heap`word, heap`color, heap`buffered, heap`index, heap`dying
      ensures Valid() && Settled() && Aftermath(old(Snap()), Snap()) && EndsWith(queue, old(queue))
      ensures heap <= old(heap) && draining == old(draining) && collecting == old(collecting)
      ensures leaving == old(leaving) && region == old(region)
      ensures dead == old(dead) && zeroed == old(zeroed)
      ensures immortals == old(immortals) && allocations == old(allocations) && epoch >= old(epoch)
      ensures draining || collecting || region ==> epoch == old(epoch)
      ensures epoch == old(epoch) ==> collectAt == old(collectAt) && began == old(began)
      ensures epoch != old(epoch) ==>
                && epoch == old(epoch) + 1 && began >= 10000 && began >= old(collectAt)
                && roots == [] && heap == Live() && collectAt == |heap|
      ensures foreign <= old(foreign)
      ensures held == old(if node.dying then held else held[node := held[node] - 1])
      ensures !draining && !collecting ==> Exact(node)
      ensures !draining && !collecting && !region && old(|roots| < 10000 || |roots| < collectAt) ==>
                |roots| < 10000 || |roots| < collectAt
      ensures old(!node.dying && node.word.Count? && node.word.n > 1 && node.cyclic && !node.buffered) ==>
                (epoch != old(epoch) <==>
                   old(!draining && !collecting && !region && |roots| + 1 >= 10000 && |roots| + 1 >= collectAt))
      decreases (if collecting then 0 else 2) + (if draining then 0 else 1), 5
    {
      hide *;
      AftermathSelf(Snap());
      EndsWithSelf(queue);
      if node.dying {
        GaveUpIs(node);
        ReleasedExactly(node);
        return;
      }
      CountOrImmortal(node);
      if node.word.n > 1 {
        DropOne(node);
        MaybeCollect();
        GaveUpIs(node);
        ReleasedExactly(node);
        return;
      }
      LastRelease(node);
    }

    /** Nothing names an object whose one reference was given up. */
    twostate lemma LastGone(node: Header)
      requires old(Valid()) && Valid() && Aftermath(old(Snap()), Snap()) && GaveUp(node)
      requires old(node in heap && !node.dying && node !in immortals && held[node] == 1 && Refs(node) == 1)
      ensures node !in heap || node.dying
    {
      hide Clean, Owed, Reach;
      assert Shape() && old(Shape());
      OwedIff(old(g), old(heap), node);
      if node in heap {
        forall m | m in heap && m in g
          ensures node !in g[m]
        {
          if !Husk(m) {
            assert m in Living();
            assert m in old(Living());
            assert old(g)[m] == m.slots;
          }
        }
        OwedIff(g, heap, node);
        assert Refs(node) == 0;
      }
    }

    /** The last reference goes, and the object with it. */
    method LastRelease(node: Header)
      requires Valid() && Settled() && node in heap && !node.dying && node !in immortals && held[node] > 0
      requires node.word.Count? && node.word.n <= 1
      modifies this, heap`word, heap`color, heap`buffered, heap`index, heap`dying
      ensures Valid() && Settled() && Aftermath(old(Snap()), Snap()) && EndsWith(queue, old(queue))
      ensures heap <= old(heap) && draining == old(draining) && collecting == old(collecting)
      ensures leaving == old(leaving) && region == old(region)
      ensures dead == old(dead) && zeroed == old(zeroed)
      ensures immortals == old(immortals) && allocations == old(allocations) && epoch >= old(epoch)
      ensures draining || collecting || region ==> epoch == old(epoch)
      ensures epoch == old(epoch) ==> collectAt == old(collectAt) && began == old(began)
      ensures epoch != old(epoch) ==>
                && epoch == old(epoch) + 1 && began >= 10000 && began >= old(collectAt)
                && roots == [] && heap == Live() && collectAt == |heap|
      ensures foreign <= old(foreign)
      ensures held == old(held[node := held[node] - 1])
      ensures !draining && !collecting ==> Exact(node)
      ensures node !in heap || node.dying
      ensures !draining && !collecting && !region && old(|roots| < 10000 || |roots| < collectAt) ==>
                |roots| < 10000 || |roots| < collectAt
      decreases (if collecting then 0 else 2) + (if draining then 0 else 1), 4, 1
    {
      hide *;
      EndsWithSelf(queue);
      LastReference(node);
      node.word := Count(0);
      if node.isString {
        ZeroAt(node);
        ZeroSnap(node);
        FreeString(node);
        SettledFewer();
        GaveUpIs(node);
        ReleasedExactly(node);
        LastGone(node);
        return;
      }
      node.color := Black;
      ZeroAt(node);
      ZeroSnap(node);
      Destroy(node);
      GaveUpIs(node);
      ReleasedExactly(node);
      LastGone(node);
    }

    /** Give up what a dying object was holding. */
    method ReleaseContents(node: Header, ghost base: multiset<Header?>)
      requires Valid() && Settled() && draining
      requires held == base + Given(node.slots, 0)
      modifies this, heap`word, heap`color, heap`buffered, heap`index, heap`dying
      ensures Valid() && Settled() && Aftermath(old(Snap()), Snap()) && EndsWith(queue, old(queue))
      ensures heap <= old(heap) && draining == old(draining) && collecting == old(collecting)
      ensures leaving == old(leaving) && region == old(region)
      ensures dead == old(dead) && zeroed == old(zeroed)
      ensures immortals == old(immortals) && allocations == old(allocations) && epoch == old(epoch) && collectAt == old(collectAt) && began == old(began)
      ensures foreign <= old(foreign)
      ensures held == base
      decreases (if collecting then 0 else 2) + (if draining then 0 else 1), 8
    {
      hide *;
      ghost var v0, q0 := Snap(), queue;
      AftermathSelf(v0);
      EndsWithSelf(q0);
      for i := 0 to |node.slots|
        invariant Valid() && Settled() && draining && collecting == old(collecting)
        invariant leaving == old(leaving) && region == old(region)
        invariant dead == old(dead) && zeroed == old(zeroed)
        invariant immortals == old(immortals) && allocations == old(allocations) && epoch == old(epoch) && collectAt == old(collectAt) && began == old(began)
        invariant foreign <= old(foreign)
        invariant Aftermath(v0, Snap()) && EndsWith(queue, q0) && heap <= old(heap)
        invariant held == base + Given(node.slots, i)
      {
        ghost var v1, q1 := Snap(), queue;
        GivenStep(node.slots, i, base);
        if node.slots[i] != null {
          HeldAlive(node.slots[i]);
          Release(node.slots[i]);
          AftermathTrans(v0, v1, Snap());
          EndsWithTrans(queue, q1, q0);
        }
      }
      GivenNone(node.slots, base);
    }

    /** Foreign code lets go of one reference. */
    method ReleaseBorrowed(x: Header?)
      requires Valid() && Settled() && foreign[x] > 0
      modifies this, heap`word, heap`color, heap`buffered, heap`index, heap`dying
      ensures Valid() && Settled() && Aftermath(old(Snap()), Snap()) && EndsWith(queue, old(queue))
      ensures heap <= old(heap) && draining == old(draining) && collecting == old(collecting)
      ensures leaving == old(leaving) && region == old(region)
      ensures dead == old(dead) && zeroed == old(zeroed)
      ensures immortals == old(immortals) && allocations == old(allocations) && epoch >= old(epoch)
      ensures draining || collecting || region ==> epoch == old(epoch)
      ensures epoch == old(epoch) ==> collectAt == old(collectAt) && began == old(began)
      ensures epoch != old(epoch) ==>
                && epoch == old(epoch) + 1 && began >= 10000 && began >= old(collectAt)
                && roots == [] && heap == Live() && collectAt == |heap|
      ensures foreign <= old(foreign)
      ensures held == old(held)
      decreases (if collecting then 0 else 2) + (if draining then 0 else 1), 6, 1
    {
      hide *;
      Borrow(x);
      HeldAlive(x);
      ghost var h := held;
      Release(x);
      assert h[x := h[x] - 1] == old(held);
    }

    /** Foreign contents go back to foreign code, which may let go of any finite
        number of the references it holds. */
    method ReleaseForeign()
      requires Valid() && Settled() && (draining || collecting)
      modifies this, heap`word, heap`color, heap`buffered, heap`index, heap`dying
      ensures Valid() && Settled() && Aftermath(old(Snap()), Snap()) && EndsWith(queue, old(queue))
      ensures heap <= old(heap) && draining == old(draining) && collecting == old(collecting)
      ensures leaving == old(leaving) && region == old(region)
      ensures dead == old(dead) && zeroed == old(zeroed)
      ensures immortals == old(immortals) && allocations == old(allocations) && epoch == old(epoch) && collectAt == old(collectAt) && began == old(began)
      ensures foreign <= old(foreign)
      ensures held == old(held)
      ensures old(foreign) == multiset{} ==> foreign == multiset{} && heap == old(heap) && roots == old(roots)
      decreases (if collecting then 0 else 2) + (if draining then 0 else 1), 7
    {
      hide *;
      ghost var v0, q0 := Snap(), queue;
      AftermathSelf(v0);
      EndsWithSelf(q0);
      var k: nat := *;
      while k > 0 && foreign != multiset{}
        invariant Valid() && Settled() && draining == old(draining) && collecting == old(collecting)
        invariant leaving == old(leaving) && region == old(region)
        invariant dead == old(dead) && zeroed == old(zeroed)
        invariant immortals == old(immortals) && allocations == old(allocations) && epoch == old(epoch) && collectAt == old(collectAt) && began == old(began)
        invariant foreign <= old(foreign)
        invariant old(foreign) == multiset{} ==> foreign == multiset{} && heap == old(heap) && roots == old(roots)
        invariant Aftermath(v0, Snap()) && EndsWith(queue, q0) && heap <= old(heap)
        invariant held == old(held)
      {
        var x :| x in foreign;
        ghost var q1, v1 := queue, Snap();
        ReleaseBorrowed(x);
        AftermathTrans(v0, v1, Snap());
        EndsWithTrans(queue, q1, q0);
        k := k - 1;
      }
    }

    /** Give the memory back: what hangs off it, then the block. */
    method Free(node: Header)
      requires Valid() && Settled() && (draining || collecting) && leaving > 0
      requires node in heap && Husk(node) && !node.buffered
      modifies this, heap`word, heap`color, heap`buffered, heap`index, heap`dying
      ensures Valid() && Settled() && EndsWith(queue, old(queue)) && held == old(held)
      ensures heap <= old(heap) && draining == old(draining) && collecting == old(collecting) && region == old(region)
      ensures dead == old(dead) && zeroed == old(zeroed)
      ensures immortals == old(immortals) && allocations == old(allocations) && epoch == old(epoch) && collectAt == old(collectAt) && began == old(began)
      ensures foreign <= old(foreign)
      ensures node !in heap && leaving == old(leaving) - 1
      ensures old(foreign) == multiset{} ==> foreign == multiset{} && roots == old(roots) && heap == old(heap) - {node}
      ensures Aftermath(old(Snap()), WithHusk(Snap(), node, (old(node.word), false)).(leaving := old(leaving)))
      decreases (if collecting then 0 else 2) + (if draining then 0 else 1), 8, 0
    {
      hide *;
      ghost var v0 := Snap();
      AftermathSelf(v0);
      EndsWithSelf(queue);
      if node.foreignContents {
        ReleaseForeign();
      }
      HuskKept(node);
      ghost var v1 := Snap();
      SnapFields();
      SettledLists();
      FreeBlock(node);
      FreedView(v0, v1, Snap(), node);
      SettledBusy();
    }

    /** Free, counted. */
    method Reclaim(node: Header)
      requires Valid() && Settled() && (draining || collecting)
      requires node in heap && Husk(node) && !node.buffered
      modifies this, heap`word, heap`color, heap`buffered, heap`index, heap`dying
      ensures Valid() && Settled() && EndsWith(queue, old(queue)) && held == old(held)
      ensures heap <= old(heap) && draining == old(draining) && collecting == old(collecting) && region == old(region)
      ensures dead == old(dead) && zeroed == old(zeroed)
      ensures immortals == old(immortals) && allocations == old(allocations) && epoch == old(epoch) && collectAt == old(collectAt) && began == old(began)
      ensures foreign <= old(foreign)
      ensures node !in heap && leaving == old(leaving)
      ensures old(foreign) == multiset{} ==> foreign == multiset{} && roots == old(roots) && heap == old(heap) - {node}
      ensures Aftermath(old(Snap()), WithHusk(Snap(), node, (old(node.word), false)))
      decreases (if collecting then 0 else 2) + (if draining then 0 else 1), 8, 1
    {
      hide *;
      ghost var v0 := Snap();
      SnapFields();
      AllParts();
      SettledLists();
      reclaimed := reclaimed + 1;
      leaving := leaving + 1;
      SettledBusy();
      LeavingMore();
      Free(node);
      SnapFields();
      ghost var v2 := WithHusk(Snap(), node, (old(node.word), false));
      WithHuskLeaving(Snap(), node, (old(node.word), false));
      LeavingLess(v0, v2, v0.leaving + 1);
    }

    twostate lemma LeavingMore()
      requires old(Valid()) && reclaimed == old(reclaimed) + 1 && leaving == old(leaving) + 1
      requires heap == old(heap) && g == old(g) && immortals == old(immortals) && queue == old(queue)
      requires held == old(held) && foreign == old(foreign) && dyingHead == old(dyingHead) && roots == old(roots)
      requires allocations == old(allocations)
      requires forall n :: n in heap ==> n.dying == old(n.dying) && n.word == old(n.word) && n.buffered == old(n.buffered)
      requires draining == old(draining) && collecting == old(collecting) && region == old(region)
      requires epoch == old(epoch) && dead == old(dead) && zeroed == old(zeroed) && log == old(log)
      requires Books() && Marks() && Sight()
      ensures Valid() && Snap() == old(Snap()).(leaving := leaving)
    {
      hide Books, Marks, Sight;
      assert Living() == old(Living());
      assert Snap().husks == old(Snap()).husks;
    }

    lemma SnapFields()
      ensures Snap().heap == heap && Snap().leaving == leaving && Snap().living == Living()
      ensures Snap().draining == draining && Snap().collecting == collecting && Snap().region == region
      ensures Snap().epoch == epoch && Snap().dead == dead && Snap().zeroed == zeroed
      ensures forall n :: n in Snap().husks <==> n in heap && Husk(n)
      ensures forall n :: n in Snap().living ==> n in heap && !Husk(n)
    {
    }

    lemma HuskStill(v: View, node: Header)
      requires Aftermath(v, Snap()) && node in v.husks
      ensures node in heap && Husk(node) && (node.word, node.buffered) == v.husks[node]
    {
      hide Clean;
      assert node in Snap().husks;
    }

    lemma AllParts()
      requires Valid()
      ensures Books() && Marks() && Sight() && Conserved()
    {
    }

    /** Put node, whose last reference is gone, on the list of the dying, and
        unless an outer call is at it already, empty the list. */
    method Destroy(node: Header)
      requires AtZero(node) && Settled() && !node.isString
      modifies this, heap`word, heap`color, heap`buffered, heap`index, heap`dying
      ensures Valid() && Settled() && Aftermath(old(Snap()), Snap()) && EndsWith(queue, old(queue))
      ensures heap <= old(heap) && draining == old(draining) && collecting == old(collecting)
      ensures leaving == old(leaving) && region == old(region)
      ensures dead == old(dead) && zeroed == old(zeroed)
      ensures immortals == old(immortals) && allocations == old(allocations) && epoch >= old(epoch)
      ensures draining || collecting || region ==> epoch == old(epoch)
      ensures epoch == old(epoch) ==> collectAt == old(collectAt) && began == old(began)
      ensures epoch != old(epoch) ==>
                && epoch == old(epoch) + 1 && began >= 10000 && began >= old(collectAt)
                && roots == [] && heap == Live() && collectAt == |heap|
      ensures foreign <= old(foreign)
      ensures held == old(held[node := 0])
      ensures !draining && !collecting && !region ==> |roots| < 10000 || |roots| < collectAt
      decreases (if collecting then 0 else 2) + (if draining then 0 else 1), 4, 0
    {
      hide *;
      ghost var q0, v0 := queue, Snap();
      SettledLists();
      SettledView();
      SnapFields();
      AtZeroFacts(node);
      EnqueueDying(node);
      AftermathSelf(v0);
      EndsWithOne(node, q0);
      if draining {
        SettledBusy();
        return;
      }
      DrainList(v0);
      ghost var v2 := Snap();
      EndsWithSelf(queue);
      MaybeCollect();
      AftermathTrans(v0, v2, Snap());
    }

    /** The drain, by whoever finds nobody at it. */
    method DrainList(ghost v0: View)
      requires Valid() && !draining && Resting(v0) && Snap() == v0 && (!collecting ==> dead == [] && zeroed == [])
      modifies this, heap`word, heap`color, heap`buffered, heap`index, heap`dying
      ensures Valid() && Settled() && Aftermath(v0, Snap()) && queue == []
      ensures heap <= old(heap) && !draining && collecting == old(collecting)
      ensures leaving == old(leaving) && region == old(region) && held == old(held)
      ensures dead == old(dead) && zeroed == old(zeroed)
      ensures immortals == old(immortals) && allocations == old(allocations) && epoch == old(epoch) && collectAt == old(collectAt) && began == old(began)
      ensures foreign <= old(foreign)
      decreases (if collecting then 0 else 2) + (if draining then 0 else 1), 3
    {
      hide *;
      SnapFields();
      RaiseDraining();
      SettledBusy();
      DrainAll();
      SnapFields();
      ghost var v1 := Snap();
      LowerDraining();
      DrainedView(v0, v1);
      SettledByView(v0);
    }

    /** Empty and free one dying object. */
    method DrainOne()
      requires Valid() && Settled() && draining && queue != []
      modifies this, heap`word, heap`color, heap`buffered, heap`index, heap`dying
      ensures Valid() && Settled() && Aftermath(old(Snap()), Snap()) && EndsWith(queue, old(queue[1..]))
      ensures heap <= old(heap) && draining && collecting == old(collecting)
      ensures leaving == old(leaving) && region == old(region) && held == old(held)
      ensures dead == old(dead) && zeroed == old(zeroed)
      ensures immortals == old(immortals) && allocations == old(allocations) && epoch == old(epoch) && collectAt == old(collectAt) && began == old(began)
      ensures foreign <= old(foreign)
      ensures Living() < old(Living())
      decreases (if collecting then 0 else 2) + (if draining then 0 else 1), 10
    {
      hide *;
      ghost var v0 := Snap();
      SnapFields();
      SettledLists();
      var node := DequeueDying();
      SettledBusy();
      OpenedHusk(v0, Snap(), node);
      EmptyNode(v0, node, old(held));
    }

    /** Off the list: out of the buffer, and emptied. */
    method EmptyNode(ghost v0: View, node: Header, ghost base: multiset<Header?>)
      requires Valid() && Settled() && draining && Opened(v0, Snap(), node) && held == base + Given(node.slots, 0)
      requires node in heap && Husk(node) && node in Snap().husks && Snap().husks[node] == (node.word, node.buffered)
      modifies this, heap`word, heap`color, heap`buffered, heap`index, heap`dying
      ensures Valid() && Settled() && Aftermath(v0, Snap()) && EndsWith(queue, old(queue))
      ensures heap <= old(heap) && draining && collecting == old(collecting)
      ensures leaving == old(leaving) && region == old(region) && held == base
      ensures dead == old(dead) && zeroed == old(zeroed)
      ensures immortals == old(immortals) && allocations == old(allocations) && epoch == old(epoch) && collectAt == old(collectAt) && began == old(began)
      ensures foreign <= old(foreign)
      ensures Living() < v0.living
      decreases (if collecting then 0 else 2) + (if draining then 0 else 1), 9, 1
    {
      hide *;
      Unlist(v0, node);
      EmptyOut(v0, node, base);
    }

    /** A candidate that dies leaves the buffer first -- unless the collector is
        walking the buffer. */
    method Unlist(ghost v0: View, node: Header)
      requires Valid() && Settled() && draining && Opened(v0, Snap(), node)
      requires node in heap && Husk(node) && Snap().husks[node] == (node.word, node.buffered)
      requires node in Snap().husks
      modifies this`roots, heap`buffered, heap`index
      ensures Valid() && Settled() && Opened(v0, Snap(), node)
      ensures node in Snap().husks && Snap().husks[node] == (node.word, node.buffered)
      ensures node.buffered ==> collecting
    {
      hide *;
      if node.buffered && !collecting {
        OpenedUnbuffered(v0, Snap(), node, (node.word, false));
        UnbufferDead(node);
      }
    }

    /** Give up what node, off the list, was holding, and then its memory -- or
        leave a shell, while the buffer the collector is walking names it. */
    method EmptyOut(ghost v0: View, node: Header, ghost base: multiset<Header?>)
      requires Valid() && Settled() && draining && Opened(v0, Snap(), node) && held == base + Given(node.slots, 0)
      requires node.buffered ==> collecting
      requires node in Snap().husks && Snap().husks[node] == (node.word, node.buffered)
      modifies this, heap`word, heap`color, heap`buffered, heap`index, heap`dying
      ensures Valid() && Settled() && Aftermath(v0, Snap()) && EndsWith(queue, old(queue))
      ensures heap <= old(heap) && draining && collecting == old(collecting)
      ensures leaving == old(leaving) && region == old(region) && held == base
      ensures dead == old(dead) && zeroed == old(zeroed)
      ensures immortals == old(immortals) && allocations == old(allocations) && epoch == old(epoch) && collectAt == old(collectAt) && began == old(began)
      ensures foreign <= old(foreign)
      ensures Living() < v0.living
      decreases (if collecting then 0 else 2) + (if draining then 0 else 1), 9, 0
    {
      hide *;
      ghost var v2, q2 := Snap(), queue;
      SnapFields();
      ReleaseContents(node, base);
      HuskStill(v2, node);
      if node.buffered {
        if node.foreignContents {
          ghost var v3, q3 := Snap(), queue;
          ReleaseForeign();
          AftermathTrans(v2, v3, Snap());
          EndsWithTrans(queue, q3, q2);
          HuskStill(v2, node);
        }
        ghost var v4 := Snap();
        SnapFields();
        SetShell(node);
        ShellView(v2, v4, Snap(), node);
        SnapFields();
        OpenedShell(v0, v2, Snap(), node);
      } else {
        ghost var v3, q3 := Snap(), queue;
        Reclaim(node);
        AftermathTrans(v2, v3, WithHusk(Snap(), node, v2.husks[node]));
        EndsWithTrans(queue, q3, q2);
        SnapFields();
        OpenedFreed(v0, v2, Snap(), node);
      }
    }

    method DrainAll()
      requires Valid() && Settled() && draining
      modifies this, heap`word, heap`color, heap`buffered, heap`index, heap`dying
      ensures Valid() && Settled() && Aftermath(old(Snap()), Snap()) && queue == []
      ensures heap <= old(heap) && draining && collecting == old(collecting)
      ensures leaving == old(leaving) && region == old(region) && held == old(held)
      ensures dead == old(dead) && zeroed == old(zeroed)
      ensures immortals == old(immortals) && allocations == old(allocations) && epoch == old(epoch) && collectAt == old(collectAt) && began == old(began)
      ensures foreign <= old(foreign)
      decreases (if collecting then 0 else 2) + (if draining then 0 else 1), 11
    {
      hide *;
      ghost var v0 := Snap();
      AftermathSelf(v0);
      QueueHead();
      while dyingHead != null
        invariant Valid() && Settled() && Aftermath(v0, Snap())
        invariant heap <= old(heap) && draining && collecting == old(collecting)
        invariant leaving == old(leaving) && region == old(region) && held == old(held)
        invariant dead == old(dead) && zeroed == old(zeroed)
        invariant immortals == old(immortals) && allocations == old(allocations) && epoch == old(epoch) && collectAt == old(collectAt) && began == old(began)
        invariant foreign <= old(foreign)
        invariant dyingHead == null <==> queue == []
        decreases Living()
      {
        ghost var v1 := Snap();
        DrainOne();
        AftermathTrans(v0, v1, Snap());
        QueueHead();
      }
    }

    lemma QueueHead()
      requires Valid()
      ensures dyingHead == null <==> queue == []
    {
    }

    method MaybeCollect()
      requires Valid() && Settled()
      modifies this, heap`word, heap`color, heap`buffered, heap`index, heap`dying
      ensures Valid() && Settled() && Aftermath(old(Snap()), Snap()) && EndsWith(queue, old(queue))
      ensures heap <= old(heap) && draining == old(draining) && collecting == old(collecting)
      ensures leaving == old(leaving) && region == old(region)
      ensures dead == old(dead) && zeroed == old(zeroed)
      ensures immortals == old(immortals) && allocations == old(allocations) && epoch >= old(epoch)
      ensures draining || collecting || region ==> epoch == old(epoch)
      ensures epoch == old(epoch) ==> collectAt == old(collectAt) && began == old(began)
      ensures epoch != old(epoch) ==>
                && epoch == old(epoch) + 1 && began >= 10000 && began >= old(collectAt)
                && roots == [] && heap == Live() && collectAt == |heap|
      ensures foreign <= old(foreign)
      ensures held == old(held) && queue == old(queue)
      ensures epoch != old(epoch) <==> old(!draining && !collecting && !region && |roots| >= 10000 && |roots| >= collectAt)
      ensures epoch == old(epoch) ==> roots == old(roots) && heap == old(heap)
      ensures !draining && !collecting && !region ==> |roots| < 10000 || |roots| < collectAt
      decreases (if collecting then 0 else 2) + (if draining then 0 else 1), 3
    {
      hide *;
      AftermathSelf(Snap());
      EndsWithSelf(queue);
      ThresholdIs();
      if !draining && !collecting && |roots| >= CollectThreshold() {
        CollectCycles();
      }
    }

    function CollectThreshold(): nat
      reads this`collectAt
    {
      if collectAt > COLLECT_THRESHOLD then collectAt else COLLECT_THRESHOLD
    }

    lemma ThresholdIs()
      ensures CollectThreshold() == if collectAt > 10000 then collectAt else 10000
    {
    }

    // ---- a collection ----

    method DoomDead(ghost W: set<Header>)
      requires Lists(dead, W) && W <= heap
      modifies this`g, heap`dying
      ensures g == Hollow(old(g), W)
      ensures forall n :: n in heap ==> n.dying == (old(n.dying) || n in W)
    {
      hide *;
      ListsItems(dead, W);
      ItemsNone(dead[..0]);
      for index := 0 to |dead|
        invariant g == old(g)
        invariant forall n :: n in heap ==> n.dying == (old(n.dying) || n in Items(dead[..index]))
      {
        ItemsNext(dead, index);
        dead[index].dying := true;
      }
      assert dead[..|dead|] == dead;
      g := Hollow(g, W);
    }

    /** dead[i..] and zeroed[j..] wait to be freed, what came before them is
        gone, and any other husk is a shell the buffer names. */
    ghost predicate FreePhase(i: int, j: int)
      reads this`heap, this`queue, this`dead, this`zeroed, heap`dying, heap`buffered, heap`word
    {
      && 0 <= i <= |dead| && 0 <= j <= |zeroed|
      && (forall k :: 0 <= k < |dead| ==>
            if k < i then dead[k] !in heap else dead[k] in heap && Husk(dead[k]) && !dead[k].buffered)
      && (forall k :: 0 <= k < |zeroed| ==>
            if k < j then zeroed[k] !in heap else zeroed[k] in heap && Husk(zeroed[k]) && !zeroed[k].buffered)
      && (forall k, l :: 0 <= k < l < |dead| ==> dead[k] != dead[l])
      && (forall k, l :: 0 <= k < l < |zeroed| ==> zeroed[k] != zeroed[l])
      && (forall k, l :: 0 <= k < |dead| && 0 <= l < |zeroed| ==> dead[k] != zeroed[l])
      && (forall n :: n in heap && Husk(n) ==> n in dead || n in zeroed || (n.buffered && n.word == Count(0)))
    }

    /** What tracing leaves. */
    ghost predicate Traced0()
      reads this`heap, this`g, this`queue, this`held, this`foreign, this`immortals, this`dyingHead, this`roots
      reads this`allocations, this`reclaimed, this`leaving, this`dead, this`zeroed
      reads heap`dying, heap`word, heap`slots, heap`color, heap`buffered, heap`index
    {
      && Lists(dead, Unreachable()) && Lists(zeroed, DyingSet())
      && Ground() && Named() && HeldIn() && Tally(heap - Unreachable()) && Shades({}, {})
      && NoneBuffered() && RootsOk() && roots == [] && queue == [] && dyingHead == null
      && NoCycles(g, heap) && Strings() && Conserved()
    }

    twostate lemma DoomedIs(W: set<Header>)
      requires heap == old(heap) && immortals == old(immortals) && held == old(held) && foreign == old(foreign)
      requires queue == old(queue) && queue == [] && W == old(Unreachable()) && g == Hollow(old(g), W)
      requires forall n :: n in heap ==> n.dying == (old(n.dying) || n in W) && n.slots == old(n.slots)
                                         && n.word == old(n.word) && n.color == old(n.color)
      ensures Doomed(W)
    {
    }

    twostate lemma DoomedPhase(W: set<Header>)
      requires W == old(Unreachable()) && Lists(dead, W) && Lists(zeroed, old(DyingSet())) && queue == []
      requires heap == old(heap) && forall n :: n in heap ==> n.dying == (old(n.dying) || n in W) && !n.buffered
      ensures FreePhase(0, 0)
      ensures forall n :: n in heap && !n.dying ==> n in old(Live())
      ensures forall n :: n in heap && n in old(Live()) ==> n in zeroed || !n.dying
    {
      forall k | 0 <= k < |dead|
        ensures dead[k] in heap && Husk(dead[k])
      {
        assert dead[k] in W;
      }
      forall k | 0 <= k < |zeroed|
        ensures zeroed[k] in heap && Husk(zeroed[k]) && zeroed[k] !in W
      {
        assert zeroed[k] in old(DyingSet());
      }
      assert forall n :: n in heap && old(n.dying) ==> n in old(DyingSet());
      assert forall n :: n in W ==> n !in old(Live());
    }

    lemma TracedParts()
      requires Traced0()
      ensures Ground() && Named() && HeldIn() && Tally(heap - Unreachable()) && Conserved() && Strings()
      ensures Shades({}, {}) && NoneBuffered() && RootsOk() && roots == [] && queue == [] && dyingHead == null
      ensures NoCycles(g, heap) && Lists(dead, Unreachable()) && Lists(zeroed, DyingSet())
      ensures Unreachable() <= heap && forall n :: n in heap ==> !n.buffered
    {
    }

    /** Mark what was gathered as dying, all of it before any of it is freed. */
    method DoomPhase()
      requires Traced0()
      modifies this`g, heap`dying
      ensures Valid() && FreePhase(0, 0)
      ensures forall n :: n in heap && !n.dying ==> n in old(Live())
      ensures forall n :: n in heap && n in old(Live()) ==> n in zeroed || !n.dying
    {
      hide *;
      TracedParts();
      ghost var W := Unreachable();
      DoomDead(W);
      DoomedIs(W);
      DoomedBooks(W);
      DoomedSight(W);
      PlainMarks();
      DoomedPhase(W);
      ValidFrom();
    }

    lemma ValidFrom()
      requires Books() && Marks() && Sight() && Conserved()
      ensures Valid()
    {
    }

    twostate lemma FreedDead(i: nat)
      requires old(FreePhase(i, 0)) && i < |dead|
      requires dead == old(dead) && zeroed == old(zeroed) && collecting && queue == old(queue) && queue == []
      requires heap <= old(heap) && dead[i] !in heap
      requires Aftermath(old(Snap()), WithHusk(Snap(), dead[i], (old(dead[i].word), false)))
      ensures FreePhase(i + 1, 0)
    {
      hide Clean;
      KeptRows(dead[i]);
    }

    twostate lemma FreedZeroed(j: nat)
      requires old(FreePhase(0, j)) && j < |zeroed|
      requires dead == old(dead) && zeroed == old(zeroed) && collecting && queue == old(queue) && queue == []
      requires heap <= old(heap) && zeroed[j] !in heap
      requires Aftermath(old(Snap()), WithHusk(Snap(), zeroed[j], (old(zeroed[j].word), false)))
      ensures FreePhase(0, j + 1)
    {
      hide Clean;
      KeptRows(zeroed[j]);
    }

    twostate lemma KeptRows(node: Header)
      requires Aftermath(old(Snap()), WithHusk(Snap(), node, (old(node.word), false))) && node !in heap
      ensures forall n :: n in old(heap) && n != node && old(Husk(n)) ==>
                n in heap && Husk(n) && n.buffered == old(n.buffered) && n.word == old(n.word)
      ensures forall n :: n in heap && Husk(n) && (n !in old(heap) || !old(Husk(n))) ==> n.buffered && n.word == Count(0)
    {
      var b := WithHusk(Snap(), node, (old(node.word), false));
      forall n | n in old(heap) && n != node && old(Husk(n))
        ensures n in heap && Husk(n) && n.buffered == old(n.buffered) && n.word == old(n.word)
      {
        assert n in old(Snap()).husks;
        assert n in b.husks && n in Snap().husks;
      }
      forall n | n in heap && Husk(n) && (n !in old(heap) || !old(Husk(n)))
        ensures n.buffered && n.word == Count(0)
      {
        assert n in Snap().husks && n in b.husks && n !in old(Snap()).husks;
      }
    }

    lemma RestTraced()
      requires Valid() && AtRest()
      ensures HeldIn() && NoCycles(g, heap) && Strings() && Conserved() && queue == [] && dyingHead == null
      ensures dead == [] && zeroed == []
    {
    }

    lemma TracedFrom()
      requires Lists(dead, Unreachable()) && Lists(zeroed, DyingSet())
      requires Ground() && Named() && HeldIn() && Tally(heap - Unreachable()) && Shades({}, {})
      requires NoneBuffered() && RootsOk() && roots == [] && queue == [] && dyingHead == null
      requires NoCycles(g, heap) && Strings() && Conserved()
      ensures Traced0()
    {
    }

    lemma PhaseAt(i: int, j: int)
      requires FreePhase(i, j)
      ensures 0 <= i <= |dead| && 0 <= j <= |zeroed|
      ensures i < |dead| ==> dead[i] in heap && Husk(dead[i]) && !dead[i].buffered
      ensures j < |zeroed| ==> zeroed[j] in heap && Husk(zeroed[j]) && !zeroed[j].buffered
    {
    }

    method FreeDeadAt(i: nat)
      requires Valid() && Settled() && collecting && !draining && queue == []
      requires i < |dead| && FreePhase(i, 0)
      modifies this, heap`word, heap`color, heap`buffered, heap`index, heap`dying
      ensures Valid() && Settled() && collecting && !draining && queue == []
      ensures heap <= old(heap) && held == old(held) && leaving == old(leaving) && region == old(region)
      ensures dead == old(dead) && zeroed == old(zeroed) && FreePhase(i + 1, 0)
      ensures immortals == old(immortals) && allocations == old(allocations) && epoch == old(epoch) && collectAt == old(collectAt) && began == old(began)
      ensures foreign <= old(foreign)
      ensures old(foreign) == multiset{} ==> foreign == multiset{} && roots == old(roots) && heap == old(heap) - {old(dead[i])}
      decreases (if collecting then 0 else 2) + (if draining then 0 else 1), 12
    {
      hide *;
      var node := dead[i];
      PhaseAt(i, 0);
      Reclaim(node);
      SettledLists();
      FreedDead(i);
    }

    method FreeAsideAt(j: nat)
      requires Valid() && Settled() && collecting && !draining && queue == []
      requires j < |zeroed| && FreePhase(0, j)
      modifies this, heap`word, heap`color, heap`buffered, heap`index, heap`dying
      ensures Valid() && Settled() && collecting && !draining && queue == []
      ensures heap <= old(heap) && held == old(held) && leaving == old(leaving) && region == old(region)
      ensures dead == old(dead) && zeroed == old(zeroed) && FreePhase(0, j + 1)
      ensures immortals == old(immortals) && allocations == old(allocations) && epoch == old(epoch) && collectAt == old(collectAt) && began == old(began)
      ensures foreign <= old(foreign)
      ensures old(foreign) == multiset{} ==> foreign == multiset{} && roots == old(roots) && heap == old(heap) - {old(zeroed[j])}
      decreases (if collecting then 0 else 2) + (if draining then 0 else 1), 12
    {
      hide *;
      var node := zeroed[j];
      PhaseAt(0, j);
      HuskIs(node);
      assert node.dying;
      Reclaim(node);
      SettledLists();
      FreedZeroed(j);
    }

    /** Free what was gathered. */
    method FreeGathered()
      requires Valid() && Settled() && FreePhase(0, 0) && collecting && !draining && queue == []
      modifies this, heap`word, heap`color, heap`buffered, heap`index, heap`dying
      ensures Valid() && Settled() && FreePhase(0, 0) && collecting && !draining && queue == []
      ensures heap <= old(heap) && held == old(held) && leaving == old(leaving) && region == old(region)
      ensures dead == [] && zeroed == old(zeroed)
      ensures immortals == old(immortals) && allocations == old(allocations) && epoch == old(epoch) && collectAt == old(collectAt) && began == old(began)
      ensures foreign <= old(foreign)
      ensures forall n :: n in old(dead) ==> n !in heap
      ensures old(foreign) == multiset{} ==> foreign == multiset{} && roots == old(roots) && heap == old(heap) - Items(old(dead))
      ensures old(dead) == [] ==> heap == old(heap) && roots == old(roots)
      decreases (if collecting then 0 else 2) + (if draining then 0 else 1), 20
    {
      hide *;
      ghost var d := dead;
      var index := 0;
      PhaseAt(0, 0);
      ItemsNone(d[..0]);
      while index < |dead|
        invariant Valid() && Settled() && FreePhase(index, 0) && collecting && !draining && queue == []
        invariant 0 <= index <= |dead|
        invariant heap <= old(heap) && held == old(held) && leaving == old(leaving) && region == old(region)
        invariant immortals == old(immortals) && allocations == old(allocations) && epoch == old(epoch) && collectAt == old(collectAt) && began == old(began)
        invariant foreign <= old(foreign)
        invariant dead == d && zeroed == old(zeroed)
        invariant old(foreign) == multiset{} ==> foreign == multiset{} && roots == old(roots) && heap == old(heap) - Items(d[..index])
        invariant d == [] ==> heap == old(heap) && roots == old(roots)
      {
        ItemsNext(d, index);
        FreeDeadAt(index);
        PhaseAt(index + 1, 0);
        index := index + 1;
      }
      assert d[..index] == d;
      ClearDead();
      SettledBusy();
    }

    method ClearDead()
      requires FreePhase(|dead|, 0)
      modifies this`dead
      ensures dead == [] && FreePhase(0, 0) && forall n :: n in old(dead) ==> n !in heap
    {
      dead := [];
    }

    method ClearZeroed()
      requires FreePhase(0, |zeroed|) && dead == [] && queue == []
      modifies this`zeroed
      ensures zeroed == [] && forall n :: n in old(zeroed) ==> n !in heap
      ensures forall n :: n in heap && n.dying ==> n.buffered && n.word == Count(0)
    {
      zeroed := [];
    }

    /** Free the shells set aside while marking. Each is dying: what its count
        reached zero for was done then. */
    method FreeAside()
      requires Valid() && Settled() && FreePhase(0, 0) && collecting && !draining && queue == [] && dead == []
      modifies this, heap`word, heap`color, heap`buffered, heap`index, heap`dying
      ensures Valid() && collecting && !draining && queue == [] && dead == [] && zeroed == []
      ensures forall n :: n in heap && n.dying ==> n.buffered && n.word == Count(0)
      ensures heap <= old(heap) && held == old(held) && leaving == old(leaving) && region == old(region)
      ensures immortals == old(immortals) && allocations == old(allocations) && epoch == old(epoch) && collectAt == old(collectAt) && began == old(began)
      ensures foreign <= old(foreign)
      ensures forall n :: n in old(zeroed) ==> n !in heap
      ensures old(foreign) == multiset{} ==> foreign == multiset{} && roots == old(roots) && heap == old(heap) - Items(old(zeroed))
      ensures old(zeroed) == [] ==> heap == old(heap) && roots == old(roots)
      decreases (if collecting then 0 else 2) + (if draining then 0 else 1), 20
    {
      hide *;
      ghost var z := zeroed;
      var index := 0;
      PhaseAt(0, 0);
      ItemsNone(z[..0]);
      while index < |zeroed|
        invariant Valid() && Settled() && FreePhase(0, index) && collecting && !draining && queue == []
        invariant 0 <= index <= |zeroed|
        invariant heap <= old(heap) && held == old(held) && leaving == old(leaving) && region == old(region)
        invariant immortals == old(immortals) && allocations == old(allocations) && epoch == old(epoch) && collectAt == old(collectAt) && began == old(began)
        invariant foreign <= old(foreign)
        invariant dead == [] && zeroed == z
        invariant old(foreign) == multiset{} ==> foreign == multiset{} && roots == old(roots) && heap == old(heap) - Items(z[..index])
        invariant z == [] ==> heap == old(heap) && roots == old(roots)
      {
        ItemsNext(z, index);
        FreeAsideAt(index);
        PhaseAt(0, index + 1);
        index := index + 1;
      }
      assert z[..index] == z;
      ClearZeroed();
    }

    lemma ItemsNext(d: seq<Header>, i: nat)
      requires i < |d|
      ensures Items(d[..i + 1]) == Items(d[..i]) + {d[i]}
    {
      assert d[..i + 1] == d[..i] + [d[i]];
    }


    lemma RestFrom()
      requires Valid() && queue == [] && dead == [] && zeroed == []
      requires forall n :: n in heap && n.dying ==> n.buffered && n.word == Count(0)
      ensures AtRest()
    {
    }

    lemma TracedCovers()
      requires Traced0()
      ensures Items(dead) == Unreachable() && Items(zeroed) == DyingSet()
      ensures forall n :: n in heap ==> (n in Items(dead) || n in Items(zeroed) || (!n.dying && n in Live()))
      ensures forall n :: n in Items(dead) ==> n in dead
      ensures forall n :: n in Items(zeroed) ==> n in zeroed
      ensures forall n :: n in Live() && n in heap && !n.dying ==> n !in Items(dead) && n !in Items(zeroed)
      ensures dead != [] ==> dead[0] in heap
      ensures zeroed != [] ==> zeroed[0] in heap
    {
      ListsItems(dead, Unreachable());
      ListsItems(zeroed, DyingSet());
      if dead != [] {
        assert dead[0] in Unreachable();
      }
      if zeroed != [] {
        assert zeroed[0] in DyingSet();
      }
    }

    /** Free what tracing found, and no more, unless foreign code lets go of more. */
    method Sweep()
      requires Traced0() && collecting && !draining
      modifies this, heap`word, heap`color, heap`buffered, heap`index, heap`dying
      ensures Valid() && AtRest() && collecting && !draining
      ensures heap <= old(heap) && held == old(held) && leaving == old(leaving) && region == old(region)
      ensures immortals == old(immortals) && allocations == old(allocations) && epoch == old(epoch) && collectAt == old(collectAt) && began == old(began)
      ensures foreign <= old(foreign)
      ensures old(dead != [] || zeroed != []) ==> heap < old(heap)
      ensures old(dead == [] && zeroed == []) ==> heap == old(heap) && roots == []
      ensures forall n :: n in heap ==> n in old(Live())
      ensures old(foreign) == multiset{} ==>
                && foreign == multiset{} && roots == []
                && forall n :: n in old(heap) && n in old(Live()) && !old(n.dying) ==> n in heap
      decreases (if collecting then 0 else 2) + (if draining then 0 else 1), 21
    {
      hide *;
      TracedParts();
      TracedCovers();
      DoomPhase();
      SettledBusy();
      FreeGathered();
      FreeAside();
      RestFrom();
    }

    method TracePhase()
      requires Valid() && AtRest()
      modifies this`roots, this`work, this`dead, this`zeroed
      modifies heap`word, heap`color, heap`buffered, heap`index
      ensures Traced0()
    {
      hide *;
      RestTraced();
      Trace();
      TracedFrom();
    }

    /** One pass. What is allocated and unreachable is freed; whatever else goes
        goes because foreign code let go of it meanwhile. */
    method CollectPass() returns (freed: bool)
      requires Valid() && AtRest() && !draining && !collecting
      modifies this, heap`word, heap`color, heap`buffered, heap`index, heap`dying
      ensures Valid() && AtRest() && !draining && !collecting
      ensures heap <= old(heap) && held == old(held) && leaving == old(leaving) && region == old(region)
      ensures immortals == old(immortals) && allocations == old(allocations) && epoch == old(epoch) && collectAt == old(collectAt) && began == old(began)
      ensures foreign <= old(foreign)
      ensures freed ==> heap < old(heap)
      ensures !freed ==> roots == [] && heap == old(heap)
      ensures forall n :: n in heap ==> n in old(Live())
      ensures old(foreign) == multiset{} ==>
                && foreign == multiset{} && roots == []
                && forall n :: n in old(heap) && n in old(Live()) && !old(n.dying) ==> n in heap
      decreases (if collecting then 0 else 2) + (if draining then 0 else 1), 1
    {
      hide *;
      collecting := true;
      TracePhase();
      freed := |dead| > 0 || |zeroed| > 0;
      Sweep();
      collecting := false;
    }

    lemma RestSettled()
      requires Valid() && Settled() && !draining && !collecting
      ensures AtRest() && leaving == 0 && forall n :: n in heap ==> !n.dying
    {
    }

    lemma LiveInside()
      requires Valid()
      ensures Live() <= heap
    {
      ReachInside(g, Anchors());
    }

    /** With the candidate buffer empty, everything allocated is reachable. */
    lemma NothingLeft()
      requires Valid() && AtRest() && roots == []
      ensures heap == Live() && forall n :: n in heap ==> !n.dying
    {
      LiveInside();
      forall n | n in heap
        ensures !n.dying && n in Live()
      {
        assert !n.buffered;
        assert Candidates() == {};
        assert Seeds() == Anchors();
      }
    }

    lemma ConservedAt()
      requires Valid() && leaving == 0
      ensures allocations == reclaimed + |heap|
    {
    }

    twostate lemma CollectedView()
      requires old(Settled()) && !old(draining) && !old(collecting) && old(queue) == queue == []
      requires heap <= old(heap) && immortals == old(immortals) && (forall n :: n in heap ==> !n.dying)
      requires draining == old(draining) && collecting == old(collecting) && region == old(region)
      requires allocations == old(allocations) && leaving == old(leaving) && epoch > old(epoch)
      requires dead == old(dead) && zeroed == old(zeroed)
      ensures Aftermath(old(Snap()), Snap()) && Settled()
    {
      hide Clean;
      assert Living() == heap && old(Living()) == old(heap);
    }

    /** Passes, until one frees nothing or leaves no candidate. */
    method Passes()
      requires Valid() && AtRest() && !draining && !collecting
      requires forall n :: n in heap ==> !n.dying
      modifies this, heap`word, heap`color, heap`buffered, heap`index, heap`dying
      ensures Valid() && AtRest() && !draining && !collecting
      ensures heap <= old(heap) && held == old(held) && leaving == old(leaving) && region == old(region)
      ensures immortals == old(immortals) && allocations == old(allocations) && epoch == old(epoch) && collectAt == old(collectAt) && began == old(began)
      ensures foreign <= old(foreign) && roots == []
      ensures forall n :: n in heap ==> n in old(Live())
      ensures old(foreign) == multiset{} ==> forall n :: n in old(heap) && n in old(Live()) ==> n in heap
      decreases (if collecting then 0 else 2) + (if draining then 0 else 1), 2, 0
    {
      hide *;
      var freed := CollectPass();
      while freed && |roots| > 0
        invariant Valid() && AtRest() && !draining && !collecting
        invariant heap <= old(heap) && held == old(held) && leaving == old(leaving) && region == old(region)
        invariant immortals == old(immortals) && allocations == old(allocations) && epoch == old(epoch) && collectAt == old(collectAt) && began == old(began)
        invariant foreign <= old(foreign)
        invariant !freed ==> roots == []
        invariant forall n :: n in heap ==> n in old(Live())
        invariant old(foreign) == multiset{} ==> roots == [] && forall n :: n in old(heap) && n in old(Live()) ==> n in heap
        decreases heap, freed
      {
        freed := CollectPass();
      }
    }

    /** Run passes until nothing the collector could free is left. */
    method CollectCycles()
      requires Valid() && Settled() && !draining
      modifies this, heap`word, heap`color, heap`buffered, heap`index, heap`dying
      ensures Valid() && Settled() && Aftermath(old(Snap()), Snap()) && queue == old(queue)
      ensures heap <= old(heap) && draining == old(draining) && collecting == old(collecting)
      ensures leaving == old(leaving) && region == old(region) && held == old(held)
      ensures dead == old(dead) && zeroed == old(zeroed)
      ensures immortals == old(immortals) && allocations == old(allocations) && epoch >= old(epoch)
      ensures foreign <= old(foreign)
      ensures old(collecting || region) ==> heap == old(heap) && roots == old(roots) && epoch == old(epoch) && collectAt == old(collectAt) && began == old(began)
      ensures !old(collecting || region) ==>
                && roots == [] && heap == Live() && heap <= old(Live())
                && collectAt == |heap| && epoch == old(epoch) + 1 && began == |old(roots)|
      ensures !old(collecting || region) && old(foreign) == multiset{} ==> heap == old(Live())
      decreases (if collecting then 0 else 2) + (if draining then 0 else 1), 2
    {
      hide *;
      AftermathSelf(Snap());
      if collecting {
        return;
      }
      if region {
        return;
      }
      RestSettled();
      RestFacts();
      LiveInside();
      began := |roots|;
      Passes();
      NothingLeft();
      ConservedAt();
      RestFacts();
      collectAt := allocations - reclaimed;
      epoch := epoch + 1;
      CollectedView();
    }

    // ---- the program's other two moves: allocate, and store into a slot ----

    /** The count a new object starts with: the caller's reference, or in a
        region none to count. */
    method New(size: nat, cyclic: bool, isString: bool, foreignContents: bool) returns (node: Header)
      requires Valid() && Settled() && !draining && !collecting
      requires isString ==> size == 0 && !cyclic && !foreignContents
      modifies this`heap, this`g, this`held, this`immortals, this`allocations
      ensures Valid() && Settled()
      ensures fresh(node) && heap == old(heap) + {node} && held == old(held)[node := 1]
      ensures node.slots == seq(size, i => null) && node.cyclic == cyclic && node.isString == isString
      ensures node.foreignContents == foreignContents && node.color == Black && !node.buffered && !node.dying
      ensures node.word == if region then Immortal else Count(1)
    {
      hide *;
      node := new Header(if region then Immortal else Count(1), seq(size, i => null), cyclic, isString, foreignContents);
      Adopt(node);
    }

    /** A new header joins the heap, the program holding it. */
    method Adopt(node: Header)
      requires Valid() && Settled() && node !in heap
      requires node.word == if region then Immortal else Count(1)
      requires forall i :: 0 <= i < |node.slots| ==> node.slots[i] == null
      requires node.isString ==> node.slots == [] && !node.cyclic && !node.foreignContents
      requires node.color == Black && !node.buffered && !node.dying && node.index == ROOT_NONE
      modifies this`heap, this`g, this`held, this`immortals, this`allocations
      ensures Valid() && Settled() && heap == old(heap) + {node} && held == old(held)[node := 1]
    {
      hide *;
      NewFacts(node);
      heap := heap + {node};
      g := g[node := node.slots];
      held := held[node := 1];
      if region {
        immortals := immortals + {node};
      }
      allocations := allocations + 1;
      FreshIs(node);
      FreshAll(node);
    }

    lemma NewFacts(node: Header)
      requires Valid() && node !in heap
      ensures held[node] == 0 && foreign[node] == 0 && node !in g && node !in immortals
    {
    }

    /** A fresh object, named once by the program and naming nobody. */
    twostate predicate Fresh(new node: Header)
      reads this`heap, this`g, this`held, this`immortals, this`foreign, this`queue, this`dyingHead, this`roots
      reads heap`dying, heap`slots, heap`word, heap`color, heap`buffered, heap`index
    {
      && node !in old(heap) && heap == old(heap) + {node} && g == old(g)[node := node.slots]
      && old(held[node]) == 0 && old(foreign[node]) == 0
      && held == old(held)[node := 1] && foreign == old(foreign)
      && queue == old(queue) && dyingHead == old(dyingHead) && roots == old(roots)
      && immortals == old(immortals) + (if node.word == Immortal then {node} else {})
      && (node.word == Immortal || node.word == Count(1))
      && (forall c :: c in node.slots ==> c == null)
      && (node.isString ==> node.slots == [] && !node.cyclic && !node.foreignContents)
      && node.color == Black && !node.buffered && !node.dying && node.index == ROOT_NONE
      && (forall n :: n in old(heap) ==>
            n.dying == old(n.dying) && n.slots == old(n.slots) && n.word == old(n.word)
            && n.color == old(n.color) && n.buffered == old(n.buffered) && n.index == old(n.index))
    }

    twostate lemma FreshIs(new node: Header)
      requires node !in old(heap) && heap == old(heap) + {node} && g == old(g)[node := node.slots]
      requires old(held[node]) == 0 && old(foreign[node]) == 0
      requires held == old(held)[node := 1] && foreign == old(foreign)
      requires queue == old(queue) && dyingHead == old(dyingHead) && roots == old(roots)
      requires immortals == old(immortals) + (if node.word == Immortal then {node} else {})
      requires node.word == Immortal || node.word == Count(1)
      requires forall i :: 0 <= i < |node.slots| ==> node.slots[i] == null
      requires node.isString ==> node.slots == [] && !node.cyclic && !node.foreignContents
      requires node.color == Black && !node.buffered && !node.dying && node.index == ROOT_NONE
      requires forall n :: n in old(heap) ==>
                 n.dying == old(n.dying) && n.slots == old(n.slots) && n.word == old(n.word)
                 && n.color == old(n.color) && n.buffered == old(n.buffered) && n.index == old(n.index)
      ensures Fresh(node)
    {
    }

    twostate lemma FreshOwed(new node: Header)
      requires Fresh(node) && old(Books())
      ensures forall o :: o in heap ==> Owed(g, heap, o) == if o == node then 0 else Owed(old(g), old(heap), o)
    {
      forall o | o in heap
        ensures Owed(g, heap, o) == if o == node then 0 else Owed(old(g), old(heap), o)
      {
        OwedAdd(g, old(heap), node, o);
        OutIff(g, node, o);
        OwedAgree(old(g), g, old(heap), o);
        if o == node {
          OwedIff(old(g), old(heap), o);
        }
      }
    }

    twostate lemma FreshShape(new node: Header)
      requires Fresh(node) && old(Shape() && HeldIn() && QueueOk())
      ensures Shape() && HeldIn()
    {
    }

    twostate lemma FreshRefs(new node: Header)
      requires Fresh(node) && old(Books())
      ensures Refs(node) == 1
      ensures forall o :: o in old(heap) ==> Refs(o) == old(Refs(o))
    {
      hide Owed;
      FreshOwed(node);
    }

    twostate lemma FreshBooks(new node: Header)
      requires Fresh(node) && old(Books() && QueueOk())
      ensures Books()
    {
      hide Refs, Shape, HeldIn;
      FreshRefs(node);
      FreshShape(node);
      FreshGround();
    }

    twostate lemma FreshGround()
      requires old(Books() && QueueOk())
      ensures old(Shape() && HeldIn() && QueueOk())
    {
    }

    twostate lemma FreshQueue(new node: Header)
      requires Fresh(node) && old(QueueOk())
      ensures QueueOk() && node !in queue
    {
      forall i | 0 <= i < |queue|
        ensures queue[i] in heap && queue[i].word == old(queue[i].word)
      {
        assert old(queue[i]) in old(heap);
      }
    }

    twostate lemma FreshMarks(new node: Header)
      requires Fresh(node) && old(Marks())
      ensures Marks()
    {
      hide QueueOk;
      FreshQueue(node);
      forall k | 0 <= k < |roots|
        ensures roots[k] in old(heap)
      {
        assert old(roots[k].buffered);
      }
    }

    lemma KidsFresh(g0: Graph<Header?>, node: Header, slots: seq<Header?>, n: Header)
      requires n in g0 && n != node && node !in g0 && node !in g0[n]
      ensures Kids(g0[node := slots], {n}) == Kids(g0, {n})
    {
      var h := g0[node := slots];
      var K: set<Header?> := {n};
      assert h[n] == g0[n];
      assert Kids(g0, K) <= Kids(h, K) by {
        forall c | c in Kids(g0, K)
          ensures c in Kids(h, K)
        {
          assert n in K && n in h && c in h[n] && c in h;
        }
      }
      assert Kids(h, K) <= Kids(g0, K) by {
        forall c | c in Kids(h, K)
          ensures c in Kids(g0, K)
        {
          assert n in K && n in g0 && c in g0[n] && c != node;
        }
      }
    }

    /** Edges to null lead nowhere: what was reached still is, and no more. */
    lemma ReachFresh(g0: Graph<Header?>, node: Header, slots: seq<Header?>, A: set<Header?>)
      requires node !in g0 && null !in g0 && (forall c :: c in slots ==> c == null) && A <= g0.Keys
      requires forall n, c :: n in g0 && c in g0[n] ==> c != node
      ensures Reach(g0[node := slots], A) == Reach(g0, A)
    {
      hide Reach;
      var h := g0[node := slots];
      ReachInside(g0, A);
      ReachClosed(g0, A);
      FreshCloses(g0, node, slots, Reach(g0, A));
      ReachLeast(h, A, Reach(g0, A));
      ReachClosed(h, A);
      ReachLeast(g0, A, Reach(h, A));
    }

    lemma FreshCloses(g0: Graph<Header?>, node: Header, slots: seq<Header?>, X: set<Header?>)
      requires node !in g0 && X <= g0.Keys && forall n, c :: n in g0 && c in g0[n] ==> c != node
      requires Closed(g0, X)
      ensures Closed(g0[node := slots], X)
    {
    }

    twostate lemma FreshCovered(new node: Header)
      requires Fresh(node) && old(Shape() && Covered())
      ensures Covered()
    {
      hide Reach;
      assert old(Seeds()) <= Seeds() && node in Seeds();
      ReachFresh(old(g), node, node.slots, old(Seeds()));
      ReachMono(g, old(Seeds()), Seeds());
    }

    twostate lemma FreshAcyclic(new node: Header)
      requires Fresh(node) && old(Shape() && AcyclicOk())
      ensures AcyclicOk()
    {
      hide Reach;
      forall n | n in heap && !n.cyclic
        ensures n !in Reach(g, Kids(g, {n}))
      {
        if n == node {
          assert forall c :: c in g[n] ==> c == null;
          assert Kids(g, {n}) == {};
          ReachNothing(g);
        } else {
          KidsFresh(old(g), node, node.slots, n);
          ReachFresh(old(g), node, node.slots, Kids(old(g), {n}));
        }
      }
    }

    twostate lemma FreshSight(new node: Header)
      requires Fresh(node) && old(Books() && Sight())
      ensures Sight()
    {
      hide Covered, AcyclicOk, Fresh;
      FreshSightParts();
      FreshCovered(node);
      FreshAcyclic(node);
    }

    twostate lemma FreshSightParts()
      requires old(Books() && Sight())
      ensures old(Shape() && Covered() && AcyclicOk())
    {
    }

    twostate lemma FreshAll(new node: Header)
      requires Fresh(node) && old(Valid() && Settled())
      requires allocations == old(allocations) + 1 && reclaimed == old(reclaimed) && leaving == old(leaving)
      requires draining == old(draining) && collecting == old(collecting)
      requires dead == old(dead) && zeroed == old(zeroed)
      ensures Valid() && Settled()
    {
      hide Books, Marks, Sight, Fresh;
      FreshParts(node);
      FreshBooks(node);
      FreshMarks(node);
      FreshSight(node);
      FreshSettled(node);
    }

    twostate lemma FreshParts(new node: Header)
      requires Fresh(node) && old(Valid())
      ensures old(Books() && Marks() && Sight() && QueueOk())
      ensures |heap| == |old(heap)| + 1
    {
    }

    twostate lemma FreshSettled(new node: Header)
      requires Fresh(node) && old(Settled()) && leaving == old(leaving)
      requires draining == old(draining) && collecting == old(collecting)
      requires dead == old(dead) && zeroed == old(zeroed)
      ensures Settled()
    {
    }

    /** Move one reference the program holds into a slot, and what the slot held
        into the program's hands. The program reaches node by some other way
        than the reference it gives; and the types keep their word: no cycle
        comes about through an object of a type that cannot lead to itself. */
    method Store(node: Header, i: nat, v: Header?) returns (was: Header?)
      requires Valid() && Settled() && !draining && !collecting
      requires node in heap && i < |node.slots| && (v != null ==> held[v] > 0)
      requires node in Reach(g, AnchorsWithout(v))
      requires NoCycles(g[node := node.slots[i := v]], heap)
      modifies this`g, this`held, node`slots
      ensures Valid() && Settled()
      ensures node.slots == old(node.slots)[i := v] && was == old(node.slots)[i] && heap == old(heap)
      ensures held == MovedHeld(old(held), Move(node, i, v, was))
    {
      hide *;
      StoreFacts(node, i, v);
      was := node.slots[i];
      node.slots := node.slots[i := v];
      g := g[node := node.slots];
      held := MovedHeld(held, Move(node, i, v, was));
      StoredIs(Move(node, i, v, was));
      StoredAll(Move(node, i, v, was));
    }

    lemma StoreFacts(node: Header, i: nat, v: Header?)
      requires Valid() && Settled() && !draining && !collecting && node in heap && i < |node.slots|
      requires v != null ==> held[v] > 0
      ensures v != null ==> v in heap
      ensures node.slots[i] != null ==> node.slots[i] in heap
      ensures g[node] == node.slots && node in g && !node.isString && queue == []
      ensures forall n :: n in heap ==> !n.dying
    {
    }

    twostate predicate Stored(m: Move)
      reads this`heap, this`g, this`held, this`immortals, this`foreign, this`queue, this`dyingHead, this`roots
      reads heap`dying, heap`slots, heap`word, heap`color, heap`buffered, heap`index
    {
      && heap == old(heap) && immortals == old(immortals) && foreign == old(foreign)
      && queue == old(queue) && dyingHead == old(dyingHead) && roots == old(roots)
      && m.node in heap && !m.node.dying && !m.node.isString && old(m.i < |m.node.slots| && m.node.slots[m.i] == m.was)
      && m.node.slots == old(m.node.slots)[m.i := m.v] && g == old(g)[m.node := m.node.slots]
      && (m.v != null ==> m.v in heap && !m.v.dying && old(held[m.v]) > 0) && (m.was != null ==> m.was in heap)
      && held == MovedHeld(old(held), m)
      && (forall n :: n in heap ==>
            n.dying == old(n.dying) && n.word == old(n.word)
            && n.color == old(n.color) && n.buffered == old(n.buffered) && n.index == old(n.index))
      && (forall n :: n in heap && n != m.node ==> n.slots == old(n.slots))
    }

    twostate lemma StoredIs(m: Move)
      requires heap == old(heap) && immortals == old(immortals) && foreign == old(foreign)
      requires queue == old(queue) && dyingHead == old(dyingHead) && roots == old(roots)
      requires m.node in heap && !m.node.dying && !m.node.isString
      requires old(m.i < |m.node.slots| && m.node.slots[m.i] == m.was)
      requires m.node.slots == old(m.node.slots)[m.i := m.v] && g == old(g)[m.node := m.node.slots]
      requires (m.v != null ==> m.v in heap && !m.v.dying && old(held[m.v]) > 0) && (m.was != null ==> m.was in heap)
      requires held == MovedHeld(old(held), m)
      requires forall n :: n in heap ==>
                 n.dying == old(n.dying) && n.word == old(n.word)
                 && n.color == old(n.color) && n.buffered == old(n.buffered) && n.index == old(n.index)
      requires forall n :: n in heap && n != m.node ==> n.slots == old(n.slots)
      ensures Stored(m)
    {
    }

    twostate lemma StoredRefs(m: Move)
      requires Stored(m) && old(Shape())
      ensures forall o :: o in heap ==> Refs(o) == old(Refs(o))
    {
      forall o | o in heap
        ensures Refs(o) == old(Refs(o))
      {
        OwedRemove(g, heap, m.node, o);
        OwedRemove(old(g), heap, m.node, o);
        OwedAgree(old(g), g, heap - {m.node}, o);
        OccursUpdate(old(m.node.slots), m.i, m.v, 0, o);
      }
    }

    twostate lemma StoredShape(m: Move)
      requires Stored(m) && old(Shape() && HeldIn())
      ensures Shape() && HeldIn()
    {
    }

    twostate lemma StoredBooks(m: Move)
      requires Stored(m) && old(Books())
      ensures Books()
    {
      hide Refs, Shape, HeldIn, Stored;
      StoredParts(m);
      StoredRefs(m);
      StoredShape(m);
    }

    twostate lemma StoredParts(m: Move)
      requires Stored(m) && old(Books())
      ensures old(Shape() && HeldIn()) && heap == old(heap) && immortals == old(immortals)
      ensures forall n :: n in heap ==> n.dying == old(n.dying) && n.word == old(n.word)
    {
    }

    twostate lemma StoredQueue(m: Move)
      requires Stored(m) && old(QueueOk())
      ensures QueueOk()
    {
      forall i | 0 <= i < |queue|
        ensures queue[i].word == old(queue[i].word)
      {
        assert queue[i] in heap && queue[i].dying;
      }
    }

    twostate lemma StoredMarks(m: Move)
      requires Stored(m) && old(Marks())
      ensures Marks()
    {
      hide QueueOk;
      StoredQueue(m);
    }

    /** The store keeps everything in sight: node is reached some other way, so
        what it now names is; and what it named is in the program's hands. */
    twostate lemma StoredSeeds(m: Move)
      requires Stored(m) && old(Shape())
      ensures old(AnchorsWithout(m.v)) <= Seeds()
      ensures forall n :: n in old(Seeds()) ==> n in Seeds() || n == m.v
    {
      hide Shape;
    }

    /** An edge is there as before, or leads to what the program now holds. */
    twostate lemma StoredEdges(m: Move)
      requires Stored(m) && old(Shape())
      ensures forall n, c :: n in old(g) && c in old(g)[n] && c in old(g) ==> n in g && c in g && (c in g[n] || c in Seeds())
      ensures m.node in g && m.v in g[m.node] && (m.v != null ==> m.v in g)
    {
      forall n, c | n in old(g) && c in old(g)[n] && c in old(g)
        ensures n in g && c in g && (c in g[n] || c in Seeds())
      {
        if n == m.node && c !in g[n] {
          SlotMembers(old(m.node.slots), m.i, m.v, c);
          assert held[c] > 0;
        }
      }
      SlotMembers(old(m.node.slots), m.i, m.v, m.v);
    }

    twostate lemma StoredCovered(m: Move)
      requires Stored(m) && old(Shape() && Covered())
      requires m.node in Reach(old(g), old(AnchorsWithout(m.v)))
      ensures Covered()
    {
      hide Reach, Shape, Seeds, AnchorsWithout;
      var X := Reach(g, Seeds());
      ReachClosed(g, Seeds());
      StoredSeeds(m);
      StoredEdges(m);
      ReachLeast(old(g), old(AnchorsWithout(m.v)), X);
      assert m.v != null ==> m.v in X;
      ReachLeast(old(g), old(Seeds()), X);
    }

    twostate lemma StoredAll(m: Move)
      requires Stored(m) && old(Valid() && Settled())
      requires m.node in Reach(old(g), old(AnchorsWithout(m.v)))
      requires NoCycles(g, heap)
      requires allocations == old(allocations) && reclaimed == old(reclaimed) && leaving == old(leaving)
      requires draining == old(draining) && collecting == old(collecting)
      requires dead == old(dead) && zeroed == old(zeroed)
      ensures Valid() && Settled()
    {
      hide Books, Marks, Stored, Covered, NoCycles, Reach;
      StoredWhole(m);
      StoredBooks(m);
      StoredMarks(m);
      StoredCovered(m);
      SettledFewer();
    }

    twostate lemma StoredWhole(m: Move)
      requires Stored(m) && old(Valid())
      ensures old(Books() && Marks() && Shape() && Covered()) && heap == old(heap) && queue == old(queue)
      ensures forall n :: n in heap ==> n.dying == old(n.dying)
    {
    }
  }
}
