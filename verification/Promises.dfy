/** The promises, reactions and queues themselves, updated in place: every
    operation is the one Jobs describes. */
module Promises {
  import opened Basics
  import opened Jobs

  // ---- the growable ring of tasks ----

  lemma WrapIs(x: nat, n: nat)
    requires x < 2 * n
    ensures n > 0 && x % n == if x < n then x else x - n
  {
  }

  class Ring<T(0)> {
    var items: array<T>
    var head: nat
    var len: nat

    ghost predicate Valid()
      reads this, items
    {
      len <= items.Length && if items.Length == 0 then head == 0 else head < items.Length
    }

    /** The queued tasks, the oldest first. */
    ghost function Contents(): (s: seq<T>)
      requires Valid()
      ensures |s| == len
      reads this, items
    {
      seq(len, i requires 0 <= i < len && Valid() reads this, items => items[(head + i) % items.Length])
    }

    constructor ()
      ensures Valid() && Contents() == [] && fresh(items)
    {
      items := new T[0];
      head, len := 0, 0;
    }

    lemma At(i: nat)
      requires Valid() && i < len
      ensures items.Length > 0 && Contents()[i] == items[if head + i < items.Length then head + i else head + i - items.Length]
    {
      WrapIs(head + i, items.Length);
    }

    /** Twice the room, or sixteen: unrolled, so that the ring starts at zero. */
    method Grow()
      requires Valid() && len == items.Length
      modifies this
      ensures Valid() && len == old(len) < items.Length && fresh(items) && Contents() == old(Contents())
      ensures items.Length == if old(items.Length) == 0 then 16 else 2 * old(items.Length)
    {
      ghost var was := Contents();
      var more := new T[if items.Length == 0 then 16 else 2 * items.Length];
      for i := 0 to len
        invariant Valid() && Contents() == was
        invariant forall k :: 0 <= k < i ==> more[k] == was[k]
        modifies more
      {
        At(i);
        WrapIs(head + i, items.Length);
        more[i] := items[(head + i) % items.Length];
      }
      items := more;
      head := 0;
      forall i | 0 <= i < len
        ensures Contents()[i] == was[i]
      {
        At(i);
      }
    }

    method Push(x: T)
      requires Valid()
      modifies this, items
      ensures Valid() && (items == old(items) || fresh(items)) && Contents() == old(Contents()) + [x]
      ensures old(len < items.Length) ==> items == old(items)
    {
      ghost var was := Contents();
      if len == items.Length {
        Grow();
      }
      ghost var now := items[..];
      WrapIs(head + len, items.Length);
      var end := (head + len) % items.Length;
      forall i | 0 <= i < len
        ensures was[i] == now[if head + i < items.Length then head + i else head + i - items.Length]
        ensures (if head + i < items.Length then head + i else head + i - items.Length) != end
      {
        At(i);
      }
      items[end] := x;
      len := len + 1;
      forall i | 0 <= i < len
        ensures Contents()[i] == (was + [x])[i]
      {
        At(i);
      }
    }

    method Shift() returns (x: T)
      requires Valid() && len > 0
      modifies this
      ensures Valid() && items == old(items) && [x] + Contents() == old(Contents())
    {
      ghost var was := Contents();
      At(0);
      x := items[head];
      WrapIs(head + 1, items.Length);
      forall i | 1 <= i < len
        ensures was[i] == items[if head + i < items.Length then head + i else head + i - items.Length]
      {
        At(i);
      }
      head := (head + 1) % items.Length;
      len := len - 1;
      forall i | 0 <= i < len
        ensures Contents()[i] == was[i + 1]
      {
        At(i);
      }
    }
  }

  // ---- promises and their reactions ----

  type Work = Task<Promise, Combinator>

  type State = World<Promise, Combinator>

  /** A subscription waiting: which promise's and which of its subscriptions it
      is are kept for the proof alone. */
  class Reaction {
    const task: Work
    var next: Reaction?
    ghost const owner: Promise
    ghost const idx: nat

    constructor (task: Work, next: Reaction?, ghost owner: Promise, ghost idx: nat)
      ensures this.task == task && this.next == next && this.owner == owner && this.idx == idx
    {
      this.task := task;
      this.next := next;
      this.owner := owner;
      this.idx := idx;
    }
  }

  class Promise {
    var settlement: Settlement<Combinator>
    var reactions: Reaction?
    var handled: bool
    ghost var chain: seq<Reaction>

    constructor ()
      ensures settlement == Pending && reactions == null && !handled && chain == []
    {
      settlement := Pending;
      reactions := null;
      handled := false;
      chain := [];
    }
  }

  class Combinator {
    const result: Promise
    const values: array?<Option<Payload<Combinator>>>
    var remaining: nat

    constructor (result: Promise, values: array?<Option<Payload<Combinator>>>, remaining: nat)
      ensures this.result == result && this.values == values && this.remaining == remaining
    {
      this.result := result;
      this.values := values;
      this.remaining := remaining;
    }
  }

  ghost function Link(chain: seq<Reaction>, i: nat): Reaction? {
    if i < |chain| then chain[i] else null
  }

  ghost function Back(chain: seq<Reaction>, i: nat): Reaction?
    requires i <= |chain|
  {
    if i > 0 then chain[i - 1] else null
  }

  lemma BackIs(chain: seq<Reaction>, i: nat)
    requires i <= |chain|
    ensures Back(chain, i) == if i > 0 then chain[i - 1] else null
  {
  }

  lemma OldestNext(chain: seq<Reaction>, n: nat)
    requires n <= |chain|
    ensures Oldest(chain, 0) == []
    ensures n < |chain| ==> Oldest(chain, n + 1) == Oldest(chain, n) + [chain[|chain| - 1 - n].task]
  {
  }

  /** The tasks of the n oldest reactions of a chain. */
  ghost function Oldest(chain: seq<Reaction>, n: nat): seq<Work>
    requires n <= |chain|
  {
    seq(n, k requires 0 <= k < n => chain[|chain| - 1 - k].task)
  }

  /** The promise is what s says: its chain holds the waiting subscriptions, the
      newest first. */
  ghost predicate Ties(p: Promise, s: PromiseState<Promise, Combinator>)
    reads p, p.chain
  {
    && p.settlement == s.settlement && (p.handled <==> s.subscribed != []) && p.reactions == Link(p.chain, 0)
    && |p.chain| == (if s.settlement.Pending? then |s.subscribed| else 0)
    && forall i :: 0 <= i < |p.chain| ==> Waits(p, s, i)
  }

  ghost predicate Waits(p: Promise, s: PromiseState<Promise, Combinator>, i: nat)
    requires i < |p.chain| <= |s.subscribed|
    reads p, p.chain
  {
    var r := p.chain[i];
    && r.owner == p && r.idx == |p.chain| - 1 - i && r.task == s.subscribed[|p.chain| - 1 - i]
    && r.next == Link(p.chain, i + 1)
  }

  ghost predicate Holds(c: Combinator, v: CombinatorState<Promise, Combinator>)
    reads c, c.values
  {
    && c.result == v.result && c.remaining == v.remaining && (c.values != null <==> v.keeps)
    && (c.values != null ==> c.values[..] == v.values)
  }

  ghost function Queue(w: State): seq<Work>
    requires w.taken <= |w.jobs|
  {
    seq(|w.jobs| - w.taken, i requires 0 <= i < |w.jobs| - w.taken => w.jobs[w.taken + i].task)
  }

  datatype Phase = Ticking | Draining | Ended

  class Loop {
    const micro: Ring<Work>
    const ticks: Ring<Work>
    var rejected: seq<Promise>
    ghost var world: State

    ghost function Chains(): (all: set<Reaction>)
      ensures forall p, r :: p in world.promises.Keys && r in p.chain ==> r in all
      reads this`world, world.promises.Keys
    {
      set p, r | p in world.promises.Keys && r in p.chain :: r
    }

    ghost function Arrays(): (all: set<array?<Option<Payload<Combinator>>>>)
      ensures forall c :: c in world.combinators.Keys && c.values != null ==> c.values in all
      reads this`world
    {
      set c | c in world.combinators.Keys && c.values != null :: c.values
    }

    ghost predicate QueuesTied()
      reads this`world, this`rejected, micro, micro.items, ticks, ticks.items
    {
      && micro.Valid() && ticks.Valid() && micro != ticks && micro.items != ticks.items
      && world.taken <= |world.jobs| && micro.Contents() == Queue(world)
      && rejected == world.rejected
    }

    ghost predicate PromisesTied()
      reads this`world, world.promises.Keys, Chains()
    {
      forall p :: p in world.promises ==> Ties(p, world.promises[p])
    }

    ghost predicate CombinatorsTied()
      reads this`world, world.combinators.Keys, Arrays()
    {
      && (forall c :: c in world.combinators ==> Holds(c, world.combinators[c]))
      && (forall c, d :: c in world.combinators && d in world.combinators && c != d && c.values != null ==> c.values != d.values)
    }

    /** The heap is the world the ghost field holds. */
    ghost predicate Tied()
      reads this, micro, micro.items, ticks, ticks.items, world.promises.Keys, Chains(), world.combinators.Keys, Arrays()
    {
      QueuesTied() && PromisesTied() && CombinatorsTied()
    }

    ghost predicate TicksAreCallbacks()
      requires ticks.Valid()
      reads ticks, ticks.items
    {
      forall k :: 0 <= k < |ticks.Contents()| ==> ticks.Contents()[k].Callback?
    }

    ghost predicate Valid()
      reads this, micro, micro.items, ticks, ticks.items, world.promises.Keys, Chains(), world.combinators.Keys, Arrays()
    {
      Tied() && Good(world) && TicksAreCallbacks()
    }

    /** Every object the loop is made of. */
    ghost function Repr(): (all: set<object?>)
      reads this`world, micro`items, ticks`items, world.promises.Keys
    {
      {micro, micro.items, ticks, ticks.items} + world.promises.Keys + Chains() + world.combinators.Keys + Arrays()
    }

    /** It is made of what it was and of what has been allocated since, when
        each promise is an old one with no other old reactions, or a new one. */
    twostate lemma ReprGrows()
      requires forall q :: q in world.promises && q in old(world).promises ==>
                 forall r :: r in q.chain ==> r in old(q.chain) || fresh(r)
      requires forall q :: q in world.promises && q !in old(world).promises ==> fresh(q) && q.chain == []
      requires forall c :: c in world.combinators ==> c in old(world).combinators
      requires (micro.items == old(micro.items) || fresh(micro.items)) && ticks.items == old(ticks.items)
      ensures forall o :: o in Repr() ==> o in old(Repr()) || fresh(o)
    {
    }

    twostate lemma ReprAdds(c: Combinator)
      requires world.promises == old(world).promises && forall q :: q in world.promises ==> q.chain == old(q.chain)
      requires forall d :: d in world.combinators ==> d == c || d in old(world).combinators
      requires micro.items == old(micro.items) && ticks.items == old(ticks.items)
      ensures forall o :: o in Repr() ==> o in old(Repr()) || o == c || (c.values != null && o == c.values)
    {
    }

    constructor ()
      ensures Valid() && world == World(map[], map[], [], 0, [], {}) && ticks.Contents() == []
      ensures forall o :: o in Repr() ==> fresh(o)
    {
      hide *;
      micro := new Ring();
      ticks := new Ring();
      rejected := [];
      world := World(map[], map[], [], 0, [], {});
      new;
      NothingYet<Promise, Combinator>();
      Empty();
    }

    lemma Empty()
      requires world == World(map[], map[], [], 0, [], {}) && Good(world) && rejected == []
      requires micro.Valid() && micro.Contents() == [] && ticks.Valid() && ticks.Contents() == []
      requires micro != ticks && micro.items != ticks.items
      ensures Valid() && Repr() == {micro, micro.items, ticks, ticks.items}
    {
      hide Good;
      assert Queue(world) == [];
    }

    /** A task at the end of the microtask queue. */
    method Enqueue(task: Work, ghost from: Origin<Promise>)
      requires Tied()
      modifies this`world, micro, micro.items
      ensures Tied() && (micro.items == old(micro.items) || fresh(micro.items))
      ensures world == Jobs.Enqueue(old(world), task, from)
      ensures forall o :: o in Repr() ==> o in old(Repr()) || fresh(o)
    {
      hide *;
      Parts();
      QueueGrows(world, task, from);
      micro.Push(task);
      world := Jobs.Enqueue(world, task, from);
      PromisesStay();
      CombinatorsStay();
      Whole();
      ReprGrows();
    }

    /** A promise nothing has happened to. */
    method NewPromise() returns (p: Promise)
      requires Tied()
      modifies this`world
      ensures Tied() && fresh(p) && p !in old(world).promises
      ensures world == Create(old(world), p)
      ensures forall o :: o in Repr() ==> o in old(Repr()) || fresh(o)
    {
      hide *;
      Parts();
      p := new Promise();
      CreateIs(world, p);
      world := Create(world, p);
      QueueAlone(old(world), world);
      Untouched(p, world.promises[p]);
      StillTied(p);
      CombinatorsStay();
      Whole();
      ReprGrows();
    }

    lemma Untouched(p: Promise, s: PromiseState<Promise, Combinator>)
      requires p.settlement == Pending && p.reactions == null && !p.handled && p.chain == [] && s == PromiseState(Pending, [], [])
      ensures Ties(p, s)
    {
    }

    /** The chain the other way round, in place. */
    static method Reverse(first: Reaction?, ghost chain: seq<Reaction>) returns (ordered: Reaction?)
      requires first == Link(chain, 0)
      requires forall i :: 0 <= i < |chain| ==> chain[i].next == Link(chain, i + 1) && chain[i].idx == |chain| - 1 - i
      modifies chain
      ensures ordered == Back(chain, |chain|)
      ensures forall i :: 0 <= i < |chain| ==> chain[i].next == Back(chain, i)
    {
      var reaction := first;
      ghost var k := 0;
      ordered := null;
      while reaction != null
        invariant 0 <= k <= |chain| && reaction == Link(chain, k) && ordered == Back(chain, k)
        invariant forall i :: 0 <= i < k ==> chain[i].next == Back(chain, i)
        invariant forall i :: k <= i < |chain| ==> chain[i].next == Link(chain, i + 1)
        decreases |chain| - k
      {
        var next := reaction.next;
        reaction.next := ordered;
        ordered := reaction;
        reaction := next;
        k := k + 1;
      }
    }

    method QueueAll(first: Reaction?, ghost chain: seq<Reaction>)
      requires micro.Valid() && first == Back(chain, |chain|)
      requires forall i :: 0 <= i < |chain| ==> chain[i].next == Back(chain, i) && chain[i].idx == |chain| - 1 - i
      modifies chain, micro, micro.items
      ensures micro.Valid() && (micro.items == old(micro.items) || fresh(micro.items))
      ensures micro.Contents() == old(micro.Contents()) + Oldest(chain, |chain|)
    {
      hide *;
      BackIs(chain, |chain|);
      OldestNext(chain, 0);
      var ordered := first;
      ghost var k := |chain|;
      while ordered != null
        invariant 0 <= k <= |chain| && ordered == Back(chain, k)
        invariant forall i :: 0 <= i < k ==> chain[i].next == Back(chain, i)
        invariant micro.Valid() && (micro.items == old(micro.items) || fresh(micro.items))
        invariant micro.Contents() == old(micro.Contents()) + Oldest(chain, |chain| - k)
        decreases k
      {
        BackIs(chain, k);
        OldestNext(chain, |chain| - k);
        var next := ordered.next;
        ordered.next := null;
        micro.Push(ordered.task);
        ordered := next;
        k := k - 1;
      }
      BackIs(chain, k);
    }

    /** Every reaction to the microtask queue, the oldest subscription first: the
        chain is newest first, and is reversed in place. */
    method Schedule(p: Promise)
      requires micro.Valid() && p.reactions == Link(p.chain, 0)
      requires forall i :: 0 <= i < |p.chain| ==> p.chain[i].next == Link(p.chain, i + 1) && p.chain[i].idx == |p.chain| - 1 - i
      modifies p`reactions, p`chain, p.chain, micro, micro.items
      ensures micro.Valid() && (micro.items == old(micro.items) || fresh(micro.items))
      ensures p.reactions == null && p.chain == []
      ensures micro.Contents() == old(micro.Contents()) + old(Oldest(p.chain, |p.chain|))
    {
      var reaction := p.reactions;
      p.reactions := null;
      var ordered := Reverse(reaction, p.chain);
      QueueAll(ordered, p.chain);
      p.chain := [];
    }

    /** What settling writes. A rejection is a candidate for the report when
        nobody had listened: asked before the list is consumed. */
    method WriteSettled(p: Promise, s: Settlement<Combinator>)
      requires micro.Valid() && p.reactions == Link(p.chain, 0)
      requires forall i :: 0 <= i < |p.chain| ==> p.chain[i].next == Link(p.chain, i + 1) && p.chain[i].idx == |p.chain| - 1 - i
      modifies this`rejected, p, p.chain, micro, micro.items
      ensures micro.Valid() && (micro.items == old(micro.items) || fresh(micro.items))
      ensures p.settlement == s && p.reactions == null && p.chain == [] && p.handled == old(p.handled)
      ensures micro.Contents() == old(micro.Contents()) + old(Oldest(p.chain, |p.chain|))
      ensures rejected == if s.Rejected? && !old(p.reactions != null || p.handled) then old(rejected) + [p] else old(rejected)
    {
      hide *;
      var listened := p.reactions != null || p.handled;
      p.settlement := s;
      Schedule(p);
      if s.Rejected? && !listened {
        rejected := rejected + [p];
      }
    }

    /** A pending promise is settled, and its reactions queued. */
    method Settle(p: Promise, s: Settlement<Combinator>)
      requires Tied() && p in world.promises && p.settlement.Pending? && !s.Pending?
      modifies this`world, this`rejected, p, p.chain, micro, micro.items
      ensures Tied() && (micro.items == old(micro.items) || fresh(micro.items))
      ensures world == Jobs.Settle(old(world), p, s)
      ensures forall o :: o in Repr() ==> o in old(Repr()) || fresh(o)
    {
      hide *;
      Parts();
      TiesNow(p);
      SettleIs(world, p, s);
      QueueSettles(world, p, s);
      WriteSettled(p, s);
      world := Jobs.Settle(world, p, s);
      TiesSettled(p, world.promises[p]);
      StillTied(p);
      CombinatorsStay();
      Whole();
      ReprGrows();
    }

    lemma Parts()
      requires Tied()
      ensures PromisesTied() && CombinatorsTied() && world.taken <= |world.jobs|
      ensures micro.Valid() && ticks.Valid() && micro != ticks && micro.items != ticks.items
      ensures micro.Contents() == Queue(world) && rejected == world.rejected
    {
    }

    lemma Whole()
      requires PromisesTied() && CombinatorsTied() && world.taken <= |world.jobs|
      requires micro.Valid() && ticks.Valid() && micro != ticks && micro.items != ticks.items
      requires micro.Contents() == Queue(world) && rejected == world.rejected
      ensures Tied()
    {
    }

    lemma TiesNow(p: Promise)
      requires Tied() && p in world.promises
      ensures Ties(p, world.promises[p]) && p.settlement == world.promises[p].settlement
      ensures p.reactions == Link(p.chain, 0) && (p.handled <==> world.promises[p].subscribed != [])
      ensures p.settlement.Pending? ==> Oldest(p.chain, |p.chain|) == world.promises[p].subscribed
      ensures |p.chain| == if p.settlement.Pending? then |world.promises[p].subscribed| else 0
      ensures forall i :: 0 <= i < |p.chain| ==>
                p.chain[i].owner == p && p.chain[i].next == Link(p.chain, i + 1) && p.chain[i].idx == |p.chain| - 1 - i
      ensures p.reactions != null ==> world.promises[p].subscribed != []
    {
      assert Ties(p, world.promises[p]);
      forall i | 0 <= i < |p.chain|
        ensures p.chain[i].owner == p && p.chain[i].next == Link(p.chain, i + 1) && p.chain[i].idx == |p.chain| - 1 - i
        ensures p.chain[i].task == world.promises[p].subscribed[|p.chain| - 1 - i]
      {
        assert Waits(p, world.promises[p], i);
      }
    }

    twostate lemma CombinatorsStay()
      requires old(CombinatorsTied()) && world.combinators == old(world).combinators
      requires forall c :: c in world.combinators ==> unchanged(c) && (c.values != null ==> unchanged(c.values))
      ensures CombinatorsTied()
    {
      forall c | c in world.combinators
        ensures Holds(c, world.combinators[c])
      {
        assert old(Holds(c, world.combinators[c]));
      }
    }

    twostate lemma StillTied(new p: Promise)
      requires old(PromisesTied()) && p in world.promises
      requires forall q :: q in world.promises && q != p ==> q in old(world).promises && world.promises[q] == old(world).promises[q]
      requires forall q :: q in world.promises && q != p ==> unchanged(q) && forall r :: r in q.chain && r.owner == q ==> unchanged(r)
      requires Ties(p, world.promises[p])
      ensures PromisesTied()
    {
      forall q | q in world.promises
        ensures Ties(q, world.promises[q])
      {
        if q != p {
          assert old(Ties(q, world.promises[q]));
          forall i | 0 <= i < |q.chain|
            ensures Waits(q, world.promises[q], i)
          {
            assert old(Waits(q, world.promises[q], i));
          }
        }
      }
    }

    /** What subscribing writes: a settled promise's reaction goes to the queue,
        a pending one's before its chain. */
    method WriteSubscribed(p: Promise, task: Work)
      requires micro.Valid()
      modifies p, micro, micro.items
      ensures micro.Valid() && (micro.items == old(micro.items) || fresh(micro.items))
      ensures forall r :: r in p.chain ==> r in old(p.chain) || fresh(r)
      ensures p.handled && p.settlement == old(p.settlement)
      ensures !p.settlement.Pending? ==>
                micro.Contents() == old(micro.Contents()) + [task] && p.chain == old(p.chain) && p.reactions == old(p.reactions)
      ensures p.settlement.Pending? ==>
                && micro.Contents() == old(micro.Contents())
                && |p.chain| == |old(p.chain)| + 1 && p.chain[1..] == old(p.chain) && fresh(p.chain[0]) && p.reactions == p.chain[0]
                && p.chain[0].task == task && p.chain[0].next == old(p.reactions) && p.chain[0].owner == p && p.chain[0].idx == |old(p.chain)|
    {
      hide *;
      p.handled := true;
      if !p.settlement.Pending? {
        micro.Push(task);
        return;
      }
      var entry := new Reaction(task, p.reactions, p, |p.chain|);
      p.reactions := entry;
      p.chain := [entry] + p.chain;
    }

    method Subscribe(p: Promise, task: Work)
      requires Tied() && p in world.promises
      modifies this`world, p, micro, micro.items
      ensures Tied() && (micro.items == old(micro.items) || fresh(micro.items))
      ensures world == Jobs.Subscribe(old(world), p, task) && p.settlement == old(p.settlement)
      ensures forall o :: o in Repr() ==> o in old(Repr()) || fresh(o)
    {
      hide *;
      Parts();
      TiesNow(p);
      SubscribeIs(world, p, task);
      WriteSubscribed(p, task);
      world := Jobs.Subscribe(world, p, task);
      TiesSubscribed(p);
      StillTied(p);
      CombinatorsStay();
      Whole();
      ReprGrows();
    }

    twostate lemma TiesSubscribed(p: Promise)
      requires p in old(world).promises && p in world.promises
      requires old(Ties(p, world.promises[p])) && p.handled && p.settlement == old(p.settlement)
      requires var s, t := old(world).promises[p], world.promises[p];
               && t.settlement == s.settlement && |t.subscribed| == |s.subscribed| + 1 && t.subscribed[..|s.subscribed|] == s.subscribed
               && if !s.settlement.Pending? then p.chain == old(p.chain) && p.reactions == old(p.reactions)
                  else
                    && |p.chain| == |old(p.chain)| + 1 && p.chain[1..] == old(p.chain) && p.reactions == p.chain[0]
                    && p.chain[0].task == t.subscribed[|s.subscribed|] && p.chain[0].next == old(p.reactions)
                    && p.chain[0].owner == p && p.chain[0].idx == |old(p.chain)|
      requires forall r :: r in old(p.chain) ==> unchanged(r)
      ensures Ties(p, world.promises[p])
    {
      var s, t := old(world).promises[p], world.promises[p];
      forall i | 0 <= i < |p.chain|
        ensures Waits(p, t, i)
      {
        assert i + 1 < |p.chain| ==> p.chain[i + 1] == p.chain[1..][i];
        assert Link(p.chain, i + 1) == Link(old(p.chain), i);
        if i == 0 {
          assert old(p.reactions) == Link(old(p.chain), 0);
        } else {
          assert old(Waits(p, world.promises[p], i - 1));
          assert p.chain[i] in old(p.chain);
          assert p.chain[i] == p.chain[1..][i - 1];
          assert t.subscribed[|p.chain| - 1 - i] == t.subscribed[..|s.subscribed|][|p.chain| - 1 - i];
        }
      }
    }

    lemma SameState(p: Promise)
      requires Tied() && p in world.promises
      ensures p.settlement == world.promises[p].settlement
    {
      TiesNow(p);
    }

    /** The first settlement wins. */
    method Fulfill(p: Promise, value: Payload<Combinator>)
      requires Tied() && p in world.promises
      modifies this`world, this`rejected, p, p.chain, micro, micro.items
      ensures Tied() && (micro.items == old(micro.items) || fresh(micro.items))
      ensures world == Resolve(old(world), p, Fulfilled(value))
      ensures forall o :: o in Repr() ==> o in old(Repr()) || fresh(o)
    {
      hide *;
      SameState(p);
      ResolveIs(world, p, Fulfilled(value));
      if !p.settlement.Pending? {
        return;
      }
      Settle(p, Fulfilled(value));
    }

    method Reject(p: Promise, reason: Payload<Combinator>)
      requires Tied() && p in world.promises
      modifies this`world, this`rejected, p, p.chain, micro, micro.items
      ensures Tied() && (micro.items == old(micro.items) || fresh(micro.items))
      ensures world == Resolve(old(world), p, Rejected(reason))
      ensures forall o :: o in Repr() ==> o in old(Repr()) || fresh(o)
    {
      hide *;
      SameState(p);
      ResolveIs(world, p, Rejected(reason));
      if !p.settlement.Pending? {
        return;
      }
      Settle(p, Rejected(reason));
    }

    /** Copy a settled promise's payload onto another. */
    method ForwardTo(to: Promise, from: Promise)
      requires Tied() && to in world.promises && from in world.promises && !from.settlement.Pending?
      modifies this`world, this`rejected, to, to.chain, micro, micro.items
      ensures Tied() && (micro.items == old(micro.items) || fresh(micro.items))
      ensures world == Resolve(old(world), to, old(world).promises[from].settlement)
      ensures forall o :: o in Repr() ==> o in old(Repr()) || fresh(o)
    {
      hide *;
      SameState(from);
      if from.settlement.Rejected? {
        Reject(to, from.settlement.reason);
      } else {
        Fulfill(to, from.settlement.value);
      }
    }

    method Adopt(outer: Promise, inner: Promise)
      requires Tied()
      modifies this`world, micro, micro.items
      ensures Tied() && (micro.items == old(micro.items) || fresh(micro.items))
      ensures world == Jobs.Adopt(old(world), outer, inner)
      ensures forall o :: o in Repr() ==> o in old(Repr()) || fresh(o)
    {
      Enqueue(Begin(outer, inner), Direct);
    }

    // ---- Promise.all and Promise.race ----

    method Attach(c: Combinator, p: Promise, i: nat)
      requires Tied() && c in world.combinators && p in world.promises && i == |world.combinators[c].sources|
      modifies this`world, p, micro, micro.items
      ensures Tied() && (micro.items == old(micro.items) || fresh(micro.items))
      ensures world == Jobs.Attach(old(world), c, p)
      ensures forall o :: o in Repr() ==> o in old(Repr()) || fresh(o)
    {
      hide *;
      AttachIs(world, c, p);
      Parts();
      ghost var v := world.combinators[c];
      ghost var u := v.(sources := v.sources + [p], at := v.at + [|world.promises[p].subscribed|]);
      world := world.(combinators := world.combinators[c := u]);
      QueueAlone(old(world), world);
      PromisesStay();
      Relinked(c);
      Whole();
      ReprGrows();
      Subscribe(p, Element(c, p, i));
    }

    twostate lemma PromisesStay()
      requires old(PromisesTied()) && world.promises == old(world).promises
      requires forall p :: p in world.promises ==> unchanged(p) && forall r :: r in p.chain ==> unchanged(r)
      ensures PromisesTied()
    {
      forall p | p in world.promises
        ensures Ties(p, world.promises[p])
      {
        assert old(Ties(p, world.promises[p]));
        forall i | 0 <= i < |p.chain|
          ensures Waits(p, world.promises[p], i)
        {
          assert old(Waits(p, world.promises[p], i)) && p.chain[i] in p.chain;
        }
      }
    }

    twostate lemma Relinked(c: Combinator)
      requires old(CombinatorsTied()) && c in old(world).combinators && c in world.combinators
      requires world == old(world).(combinators := old(world).combinators[c := world.combinators[c]])
      requires var v, u := old(world).combinators[c], world.combinators[c];
               u.result == v.result && u.keeps == v.keeps && u.values == v.values && u.remaining == v.remaining
      requires forall d :: d in world.combinators ==> unchanged(d) && (d.values != null ==> unchanged(d.values))
      ensures CombinatorsTied()
    {
      forall d | d in world.combinators
        ensures Holds(d, world.combinators[d])
      {
        assert old(Holds(d, world.combinators[d]));
      }
    }

    /** Subscribe to every element, in order, before returning: `values` is the
        array to fill, or null for a race. */
    method Combine(ps: seq<Promise>, values: array?<Option<Payload<Combinator>>>) returns (result: Promise, ghost c: Combinator)
      requires Tied() && forall i :: 0 <= i < |ps| ==> ps[i] in world.promises
      requires values != null ==> values.Length == |ps| && forall i :: 0 <= i < |ps| ==> values[i] == None
      requires values != null ==> forall d :: d in world.combinators ==> d.values != values
      modifies this`world, this`rejected, ps, micro, micro.items
      ensures Tied() && (micro.items == old(micro.items) || fresh(micro.items))
      ensures fresh(result) && fresh(c) && result !in old(world).promises && c !in old(world).combinators
      ensures world == AttachAll(Jobs.Combine(old(world), c, result, values != null, |ps|), c, ps)
      ensures forall o :: o in Repr() ==> o in old(Repr()) || fresh(o) || (values != null && o == values)
    {
      hide *;
      var all;
      result, all := NewCombinator(values, |ps|);
      c := all;
      ghost var start := world;
      CombineIs(old(world), c, result, values != null, |ps|);
      AttachNone(start, c, ps);
      var i := 0;
      while i < |ps|
        invariant 0 <= i <= |ps| && Tied() && (micro.items == old(micro.items) || fresh(micro.items))
        invariant c in start.combinators && start.combinators[c].sources == []
        invariant forall k :: 0 <= k < |ps| ==> ps[k] in start.promises
        invariant world == AttachAll(start, c, ps[..i])
        invariant forall o :: o in Repr() ==> o in old(Repr()) || fresh(o) || (values != null && o == values)
      {
        AttachNext(start, c, ps, i);
        Attach(all, ps[i], i);
        i := i + 1;
      }
      assert ps[..i] == ps;
    }

    /** A combinator for a promise just made; with nothing to wait for, `all` is
        fulfilled already. */
    method NewCombinator(values: array?<Option<Payload<Combinator>>>, n: nat) returns (result: Promise, c: Combinator)
      requires Tied()
      requires values != null ==> values.Length == n && forall i :: 0 <= i < n ==> values[i] == None
      requires values != null ==> forall d :: d in world.combinators ==> d.values != values
      modifies this`world, this`rejected, micro, micro.items
      ensures Tied() && fresh(result) && fresh(c) && result !in old(world).promises && c !in old(world).combinators
      ensures micro.items == old(micro.items) || fresh(micro.items)
      ensures world == Jobs.Combine(old(world), c, result, values != null, n)
      ensures forall o :: o in Repr() ==> o in old(Repr()) || fresh(o) || (values != null && o == values)
    {
      hide *;
      result := NewPromise();
      CreateIs(old(world), result);
      c := MakeCombinator(result, values, n);
      AddCombinator(c, values != null, n);
      CombineTwice(old(world), c, result, values != null, n);
      if values != null && n == 0 {
        TiesNow(result);
        Fulfill(result, Results(c));
      }
    }

    method MakeCombinator(result: Promise, values: array?<Option<Payload<Combinator>>>, n: nat) returns (c: Combinator)
      requires Tied()
      ensures Tied() && fresh(c) && c.result == result && c.values == values && c.remaining == n
    {
      c := new Combinator(result, values, n);
    }

    ghost method AddCombinator(c: Combinator, keeps: bool, n: nat)
      requires Tied() && c !in world.combinators && c.remaining == n && (c.values != null <==> keeps)
      requires keeps ==> c.values.Length == n && forall i :: 0 <= i < n ==> c.values[i] == None
      requires keeps ==> forall d :: d in world.combinators ==> d.values != c.values
      modifies this`world
      ensures Tied()
      ensures forall o :: o in Repr() ==> o in old(Repr()) || o == c || (c.values != null && o == c.values)
      ensures world == Joining(old(world), c, c.result, keeps, n)
    {
      hide *;
      Parts();
      world := Joining(world, c, c.result, keeps, n);
      JoiningIs(old(world), c, c.result, keeps, n);
      NewHolds(c, c.result, keeps, n, old(world));
      PromisesStay();
      Added(c);
      Whole();
      ReprAdds(c);
    }

    twostate lemma Added(c: Combinator)
      requires old(CombinatorsTied()) && c in world.combinators
      requires world.combinators == old(world).combinators[c := world.combinators[c]]
      requires forall d :: d in old(world).combinators ==> unchanged(d) && (d.values != null ==> unchanged(d.values))
      requires Holds(c, world.combinators[c])
      requires c.values != null ==> forall d :: d in old(world).combinators ==> d.values != c.values
      ensures CombinatorsTied()
    {
      forall d | d in world.combinators
        ensures Holds(d, world.combinators[d])
      {
        if d != c {
          assert old(Holds(d, world.combinators[d]));
        }
      }
    }

    // ---- running ----

    /** A fulfilment goes to its slot, and one less is waited for. */
    method Count(c: Combinator, source: Promise, i: nat)
      requires Tied() && c in world.combinators && source in world.promises && c.values != null && source.settlement.Fulfilled?
      requires i < c.values.Length && c.remaining > 0 && i < |world.combinators[c].values| && world.combinators[c].remaining > 0
      modifies this`world, c`remaining, c.values
      ensures Tied() && source.settlement == old(source.settlement) && c.remaining == old(c.remaining) - 1
      ensures world == Counted(old(world), c, source, i)
      ensures forall o :: o in Repr() ==> o in old(Repr()) || fresh(o)
    {
      hide *;
      Parts();
      SameState(source);
      CountedIs(world, c, source, i);
      HoldsNow(c);
      ghost var was := c.values[..];
      c.values[i] := Some(source.settlement.value);
      c.remaining := c.remaining - 1;
      world := Counted(world, c, source, i);
      assert c.values[..] == was[i := Some(source.settlement.value)];
      QueueAlone(old(world), world);
      HoldsCounted(c, world.combinators[c]);
      PromisesStay();
      Recounted(c);
      Whole();
      ReprGrows();
    }

    lemma HoldsNow(c: Combinator)
      requires CombinatorsTied() && c in world.combinators
      ensures var v := world.combinators[c];
              && c.result == v.result && c.remaining == v.remaining && (c.values != null <==> v.keeps)
              && (c.values != null ==> c.values[..] == v.values)
      ensures c.values != null ==> forall d :: d in world.combinators && d != c ==> d.values != c.values
    {
      assert Holds(c, world.combinators[c]);
    }

    twostate lemma Recounted(c: Combinator)
      requires old(CombinatorsTied()) && c in old(world).combinators && c in world.combinators
      requires world.combinators == old(world).combinators[c := world.combinators[c]]
      requires Holds(c, world.combinators[c])
      requires forall d :: d in world.combinators && d != c ==> unchanged(d) && (d.values != null ==> unchanged(d.values))
      ensures CombinatorsTied()
    {
      forall d | d in world.combinators
        ensures Holds(d, world.combinators[d])
      {
        if d != c {
          assert old(Holds(d, world.combinators[d]));
        }
      }
    }

    /** One element's source is settled. */
    method RunElement(c: Combinator, source: Promise, i: nat)
      requires Tied() && c in world.combinators && source in world.promises && !source.settlement.Pending?
      requires c.result in world.promises && c.result == world.combinators[c].result && (c.values != null <==> world.combinators[c].keeps)
      requires c.remaining == world.combinators[c].remaining
      requires c.values != null ==> i < c.values.Length == |world.combinators[c].values| && c.remaining > 0
      modifies this`world, this`rejected, c`remaining, if c.values != null then {c.values} else {}
      modifies c.result, c.result.chain, micro, micro.items
      ensures Tied() && (micro.items == old(micro.items) || fresh(micro.items))
      ensures world == Deliver(old(world), c, source, i)
      ensures forall o :: o in Repr() ==> o in old(Repr()) || fresh(o)
    {
      hide *;
      SameState(source);
      DeliverCases(world, c, source, i);
      if c.values == null {
        ForwardTo(c.result, source);
      } else if source.settlement.Rejected? {
        Reject(c.result, source.settlement.reason);
      } else {
        CountedIs(world, c, source, i);
        Count(c, source, i);
        if c.remaining == 0 {
          Fulfill(c.result, Results(c));
        }
      }
    }

    /** The oldest microtask leaves the queue. */
    method Take() returns (task: Work)
      requires Tied() && world.taken < |world.jobs|
      modifies this`world, micro
      ensures Tied() && micro.items == old(micro.items)
      ensures task == old(world).jobs[old(world).taken].task && world == Taken(old(world))
      ensures forall o :: o in Repr() ==> o in old(Repr()) || fresh(o)
    {
      hide *;
      Parts();
      QueueTaken(world);
      task := micro.Shift();
      SameTail(task, micro.Contents(), world.jobs[world.taken].task, Queue(Taken(world)));
      world := Taken(world);
      PromisesStay();
      CombinatorsStay();
      Whole();
      ReprGrows();
    }

    /** The oldest microtask runs; what a callback of the program's does comes
        after, as events of its own. */
    method Turn() returns (task: Work)
      requires Tied() && Good(world) && world.taken < |world.jobs|
      modifies this`world, this`rejected, micro, micro.items, world.promises.Keys, Chains(), world.combinators.Keys, Arrays()
      ensures Tied() && Good(world) && (micro.items == old(micro.items) || fresh(micro.items))
      ensures task == old(world).jobs[old(world).taken].task
      ensures Runs(old(world)) && world == RunJob(old(world))
      ensures forall o :: o in Repr() ==> o in old(Repr()) || fresh(o)
    {
      hide *;
      GoodRuns(world);
      task := Take();
      RunCases(old(world));
      match task {
        case Callback(_) =>
        case Element(c, source, i) =>
          Parts();
          HoldsNow(c);
          SameState(source);
          RunElement(c, source, i);
        case Begin(outer, inner) => Subscribe(inner, Forward(outer, inner));
        case Forward(outer, inner) =>
          SameState(inner);
          ForwardTo(outer, inner);
      }
    }

    /** The checkpoint's report: the rejections nobody listened for meanwhile. */
    method ReportUnhandled() returns (unhandled: seq<Promise>)
      requires Tied() && Good(world)
      modifies this`world, this`rejected
      ensures Tied() && Good(world) && world == Jobs.Report(old(world))
      ensures unhandled == Unheard(old(world), old(rejected)) && old(rejected) == old(world).rejected
      ensures forall p :: p in unhandled <==> p in Unhandled(old(world))
      ensures forall i, j :: 0 <= i < j < |unhandled| ==> unhandled[i] != unhandled[j]
      ensures forall o :: o in Repr() ==> o in old(Repr()) || fresh(o)
    {
      hide *;
      unhandled := [];
      Parts();
      ghost var w := world;
      NoneHeard(w, rejected);
      for at := 0 to |rejected|
        invariant Tied() && Good(world) && world == w && rejected == old(rejected) == w.rejected
        invariant unhandled == Unheard(w, rejected[..at])
      {
        var promise := rejected[at];
        UnheardNext(w, rejected, at);
        RejectedIs(promise, at);
        if promise.settlement.Rejected? && !promise.handled {
          unhandled := unhandled + [promise];
        }
      }
      assert rejected[..|rejected|] == rejected;
      UnheardOnce(w, |w.rejected|);
      UnhandledListed(w);
      ForgetRejected();
    }

    lemma RejectedIs(p: Promise, at: nat)
      requires Tied() && Good(world) && at < |world.rejected| && p == world.rejected[at]
      ensures p in world.promises && p.settlement == world.promises[p].settlement
      ensures p.handled <==> world.promises[p].subscribed != []
    {
      TiesNow(p);
    }

    method ForgetRejected()
      requires Tied() && Good(world)
      modifies this`world, this`rejected
      ensures Tied() && Good(world) && world == Jobs.Report(old(world))
      ensures forall o :: o in Repr() ==> o in old(Repr()) || fresh(o)
    {
      hide *;
      Parts();
      GoodReport(world);
      rejected := [];
      world := Jobs.Report(world);
      QueueAlone(old(world), world);
      PromisesStay();
      CombinatorsStay();
      Whole();
      ReprGrows();
    }

    // ---- the checkpoint ----

    /** One round of the checkpoint's loops: a tick while there are ticks, then a
        microtask while there are any, then ticks again if any came; when both
        queues are empty, the report. */
    method CheckpointStep(phase: Phase) returns (next: Phase, unhandled: seq<Promise>, ran: Option<Work>)
      requires Valid() && !phase.Ended?
      modifies this`world, this`rejected, micro, micro.items, ticks, world.promises.Keys, Chains(), world.combinators.Keys, Arrays()
      ensures Valid()
      ensures next.Ended? <==> phase.Draining? && old(world).taken == |old(world).jobs| && old(ticks.Contents()) == []
      ensures next.Ended? ==> world == Jobs.Report(old(world)) && unhandled == Unheard(old(world), old(rejected))
      ensures !next.Ended? ==> unhandled == []
      ensures ran == if phase.Ticking? && old(ticks.Contents()) != [] then Some(old(ticks.Contents())[0])
                     else if phase.Draining? && old(world).taken < |old(world).jobs| then Some(old(world).jobs[old(world).taken].task)
                     else None
      ensures phase.Draining? && old(world).taken < |old(world).jobs| ==>
                next.Draining? && Runs(old(world)) && world == RunJob(old(world)) && ticks.Contents() == old(ticks.Contents())
      ensures phase.Draining? && old(world).taken == |old(world).jobs| && old(ticks.Contents()) != [] ==> next.Ticking? && world == old(world)
      ensures phase.Ticking? ==> world == old(world)
      ensures phase.Ticking? && old(ticks.Contents()) == [] ==> next.Draining?
      ensures phase.Ticking? && old(ticks.Contents()) != [] ==> next.Ticking? && ticks.Contents() == old(ticks.Contents())[1..]
      ensures forall o :: o in Repr() ==> o in old(Repr()) || fresh(o)
    {
      hide *;
      unhandled, ran := [], None;
      ValidParts();
      Parts();
      QueueLength(world);
      if phase.Ticking? {
        if ticks.len > 0 {
          var tick := RunTick();
          ran := Some(tick);
          next := Ticking;
        } else {
          next := Draining;
        }
      } else if micro.len > 0 {
        var task := Turn();
        ran := Some(task);
        next := Draining;
      } else if ticks.len != 0 {
        next := Ticking;
      } else {
        unhandled := ReportUnhandled();
        next := Ended;
      }
      Parts();
      FewerTicks();
    }

    twostate lemma FewerTicks()
      requires old(Valid()) && Tied() && Good(world)
      requires ticks.Valid() && (ticks.Contents() == old(ticks.Contents()) || (old(ticks.Contents()) != [] && ticks.Contents() == old(ticks.Contents())[1..]))
      ensures Valid()
    {
    }

    lemma ValidParts()
      requires Valid()
      ensures Tied() && Good(world)
    {
    }

    /** A tick runs: the program's own, so it does nothing here by itself. */
    method RunTick() returns (task: Work)
      requires Tied() && ticks.len > 0
      modifies ticks
      ensures Tied() && [task] + ticks.Contents() == old(ticks.Contents()) && ticks.Contents() == old(ticks.Contents())[1..]
      ensures forall o :: o in Repr() ==> o in old(Repr()) || fresh(o)
    {
      hide *;
      Parts();
      task := ticks.Shift();
      PromisesStay();
      CombinatorsStay();
      Whole();
      assert ([task] + ticks.Contents())[1..] == ticks.Contents();
    }

    // ---- the program's moves ----

    /** A move was event e of the machine. */
    twostate lemma Moved(new e: Event<Promise, Combinator>)
      requires old(Valid()) && Tied() && Legal(old(world), e) && world == Apply(old(world), e)
      requires ticks.Valid() && ticks.Contents() == old(ticks.Contents())
      ensures Valid() && Later(old(world), world)
    {
      hide Apply, Legal, Later, Tied, Inv, Adopted, Attached;
      ApplyKeeps(old(world), e);
    }

    method Make() returns (p: Promise)
      requires Valid()
      modifies this`world
      ensures Valid() && fresh(p) && Legal(old(world), Made(p)) && world == Apply(old(world), Made(p))
      ensures forall o :: o in Repr() ==> o in old(Repr()) || fresh(o)
    {
      hide *;
      ValidParts();
      Parts();
      p := NewPromise();
      Parts();
      IsMade(old(world), p);
      Moved(Made(p));
    }

    method Listen(p: Promise, id: nat)
      requires Valid() && p in world.promises
      modifies this`world, p, micro, micro.items
      ensures Valid() && Legal(old(world), Listened(p, id)) && world == Apply(old(world), Listened(p, id))
      ensures forall o :: o in Repr() ==> o in old(Repr()) || fresh(o)
    {
      hide *;
      ValidParts();
      Parts();
      Subscribe(p, Callback(id));
      Parts();
      IsListened(old(world), p, id);
      Moved(Listened(p, id));
    }

    method Give(p: Promise, s: Settlement<Combinator>)
      requires Valid() && p in world.promises && !IsResult(world, p) && !s.Pending?
      modifies this`world, this`rejected, p, p.chain, micro, micro.items
      ensures Valid() && Legal(old(world), Given(p, s)) && world == Apply(old(world), Given(p, s))
      ensures forall o :: o in Repr() ==> o in old(Repr()) || fresh(o)
    {
      hide *;
      ValidParts();
      Parts();
      IsGiven(world, p, s);
      if s.Rejected? {
        Reject(p, s.reason);
      } else {
        Fulfill(p, s.value);
      }
      Parts();
      Moved(Given(p, s));
    }

    method Return(outer: Promise, inner: Promise)
      requires Valid() && outer in world.promises && inner in world.promises && !IsResult(world, outer)
      modifies this`world, micro, micro.items
      ensures Valid() && Legal(old(world), GivenPromise(outer, inner)) && world == Apply(old(world), GivenPromise(outer, inner))
      ensures forall o :: o in Repr() ==> o in old(Repr()) || fresh(o)
    {
      hide *;
      ValidParts();
      Parts();
      Adopt(outer, inner);
      Parts();
      IsGivenPromise(old(world), outer, inner);
      Moved(GivenPromise(outer, inner));
    }

    /** Promise.all, or a race. */
    method Join(ps: seq<Promise>, keeps: bool) returns (result: Promise, ghost c: Combinator)
      requires Valid() && forall i :: 0 <= i < |ps| ==> ps[i] in world.promises
      modifies this`world, this`rejected, ps, micro, micro.items
      ensures Valid() && Legal(old(world), Joined(c, result, keeps, ps)) && world == Apply(old(world), Joined(c, result, keeps, ps))
      ensures forall o :: o in Repr() ==> o in old(Repr()) || fresh(o)
    {
      hide *;
      ValidParts();
      Parts();
      var values := Slots(|ps|, keeps);
      result, c := Combine(ps, values);
      Parts();
      IsJoined(old(world), c, result, keeps, ps);
      Moved(Joined(c, result, keeps, ps));
    }

    method Slots(n: nat, keeps: bool) returns (values: array?<Option<Payload<Combinator>>>)
      requires Tied()
      ensures Tied() && (values != null <==> keeps)
      ensures values != null ==> fresh(values) && values.Length == n && forall i :: 0 <= i < n ==> values[i] == None
      ensures values != null ==> forall d :: d in world.combinators ==> d.values != values
    {
      if keeps {
        values := new Option<Payload<Combinator>>[n](_ => None);
      } else {
        values := null;
      }
    }

    method QueueMicrotask(id: nat)
      requires Valid()
      modifies this`world, micro, micro.items
      ensures Valid() && Legal(old(world), Queued(id)) && world == Apply(old(world), Queued(id))
      ensures forall o :: o in Repr() ==> o in old(Repr()) || fresh(o)
    {
      hide *;
      ValidParts();
      Parts();
      Enqueue(Callback(id), Direct);
      Parts();
      IsQueued(old(world), id);
      Moved(Queued(id));
    }

    /** A tick goes to its own queue: the world of promises is as it was. */
    method QueueTick(id: nat)
      requires Valid()
      modifies ticks, ticks.items
      ensures Valid() && world == old(world) && ticks.Contents() == old(ticks.Contents()) + [Callback(id)]
      ensures forall o :: o in Repr() ==> o in old(Repr()) || fresh(o)
    {
      hide *;
      ValidParts();
      Parts();
      ghost var was := ticks.Contents();
      ticks.Push(Callback(id));
      PromisesStay();
      CombinatorsStay();
      Whole();
      MoreTicks(id);
      ReprTicks();
    }

    /** Any program: at each step it makes a move with promises it knows, or the
        checkpoint takes its next step. What the loop has then done is a run of
        the machine. */
    method Run(script: seq<Action>) returns (known: seq<Promise>, ghost es: seq<Event<Promise, Combinator>>)
      requires Valid()
      modifies this, Repr()
      ensures Valid() && LegalRun(old(world), es) && world == After(old(world), es)
      ensures forall i :: 0 <= i < |known| ==> known[i] in world.promises
      ensures forall o :: o in Repr() ==> o in old(Repr()) || fresh(o)
    {
      hide *;
      known, es := [], [];
      var mine: seq<Promise> := [];
      var phase := Ticking;
      NoRun(world);
      for n := 0 to |script|
        invariant Valid() && LegalRun(old(world), es) && world == After(old(world), es) && Knows(world, known, mine)
        invariant forall o :: o in Repr() ==> o in old(Repr()) || fresh(o)
      {
        ghost var e;
        known, mine, phase, e := Act(script[n], known, mine, phase);
        if e.Some? {
          RunOn(old(world), es, e.value);
          es := es + [e.value];
        }
      }
      KnowsAt(world, known, mine);
    }

    /** One action, if the program can take it: a move is one event, a step of the
        checkpoint one or none. */
    method Act(a: Action, known: seq<Promise>, mine: seq<Promise>, phase: Phase)
        returns (known': seq<Promise>, mine': seq<Promise>, phase': Phase, ghost e: Option<Event<Promise, Combinator>>)
      requires Valid() && Knows(world, known, mine)
      modifies this, Repr()
      ensures Valid() && Knows(world, known', mine')
      ensures if e.Some? then Legal(old(world), e.value) && world == Apply(old(world), e.value) else world == old(world)
      ensures forall o :: o in Repr() ==> o in old(Repr()) || fresh(o)
    {
      hide *;
      known', mine', phase', e := known, mine, phase, None;
      KnowsAt(world, known, mine);
      InRepr();
      ValidParts();
      match a {
        case Make =>
          var p := Make();
          known', mine' := known + [p], mine + [p];
          e := Some(Made(p));
          KnowsAfter(old(world), Made(p), known, mine);
          IsMade(old(world), p);
          ValidParts();
          MadeOwn(old(world), p);
          KnowsNew(world, p, known, mine);
        case Listen(p, id) =>
          if p < |known| {
            Listen(known[p], id);
            e := Some(Listened(known[p], id));
            KnowsAfter(old(world), Listened(known[p], id), known, mine);
          }
        case Give(p, s) =>
          if p < |mine| && !s.Pending? {
            Give(mine[p], s);
            e := Some(Given(mine[p], s));
            KnowsAfter(old(world), Given(mine[p], s), known, mine);
          }
        case Return(outer, inner) =>
          if outer < |mine| && inner < |known| {
            Return(mine[outer], known[inner]);
            e := Some(GivenPromise(mine[outer], known[inner]));
            KnowsAfter(old(world), GivenPromise(mine[outer], known[inner]), known, mine);
          }
        case Join(ps, keeps) =>
          var qs := Pick(known, ps);
          ghost var c;
          var result;
          result, c := Join(qs, keeps);
          known' := known + [result];
          e := Some(Joined(c, result, keeps, qs));
          KnowsAfter(old(world), Joined(c, result, keeps, qs), known, mine);
          JoinedKnown(old(world), c, result, keeps, qs);
          KnowsNew(world, result, known, mine);
        case Microtask(id) =>
          QueueMicrotask(id);
          e := Some(Queued(id));
          KnowsAfter(old(world), Queued(id), known, mine);
        case Tick(id) =>
          QueueTick(id);
        case Step =>
          e, phase' := Advance(phase);
          if e.Some? {
            KnowsAfter(old(world), e.value, known, mine);
          }
      }
    }

    /** The checkpoint's next step, and another checkpoint after the report. */
    method Advance(phase: Phase) returns (ghost e: Option<Event<Promise, Combinator>>, phase': Phase)
      requires Valid()
      modifies this`world, this`rejected, micro, micro.items, ticks, world.promises.Keys, Chains(), world.combinators.Keys, Arrays()
      ensures Valid()
      ensures if e.Some? then Legal(old(world), e.value) && world == Apply(old(world), e.value) else world == old(world)
      ensures forall o :: o in Repr() ==> o in old(Repr()) || fresh(o)
    {
      hide *;
      ghost var w := world;
      e := None;
      phase' := phase;
      if phase.Ended? {
        phase' := Ticking;
      }
      ValidParts();
      Parts();
      var unhandled, ran;
      ghost var draining, left := phase'.Draining?, world.taken < |world.jobs|;
      phase', unhandled, ran := CheckpointStep(phase');
      if phase'.Ended? {
        e := Some(Reported);
        IsReported(w);
      } else if draining && left {
        e := Some(Event.Turn);
        IsTurn(w);
      }
    }

    lemma InRepr()
      ensures micro in Repr() && micro.items in Repr() && ticks in Repr() && ticks.items in Repr()
      ensures world.promises.Keys <= Repr() && world.combinators.Keys <= Repr() && Chains() <= Repr() && Arrays() <= Repr()
      ensures forall p :: p in world.promises ==> p in Repr() && forall r :: r in p.chain ==> r in Repr()
    {
    }

    twostate lemma MoreTicks(id: nat)
      requires old(Valid()) && Tied() && world == old(world) && ticks.Contents() == old(ticks.Contents()) + [Callback(id)]
      ensures Valid()
    {
    }

    twostate lemma ReprTicks()
      requires world == old(world) && (forall q :: q in world.promises ==> q.chain == old(q.chain))
      requires micro.items == old(micro.items) && (ticks.items == old(ticks.items) || fresh(ticks.items))
      ensures forall o :: o in Repr() ==> o in old(Repr()) || fresh(o)
    {
    }
  }

  /** What a program may do, its promises named by when it came to know them. */
  datatype Action =
    | Make
    | Listen(p: nat, id: nat)
    | Give(p: nat, settlement: Settlement<Combinator>)
    | Return(outer: nat, inner: nat)
    | Join(ps: seq<nat>, keeps: bool)
    | Microtask(id: nat)
    | Tick(id: nat)
    | Step

  lemma OwnStays(w: State, u: State, p: Promise)
    requires Later(w, u) && p in w.promises && !IsResult(w, p)
    ensures p in u.promises && !IsResult(u, p)
  {
    forall c | c in u.combinators
      ensures u.combinators[c].result != p
    {
      if c in w.combinators {
        assert CombinatorLater(w.combinators[c], u.combinators[c]);
      }
    }
  }

  /** known holds promises of w, mine those of them the program may settle. */
  ghost predicate Knows(w: State, known: seq<Promise>, mine: seq<Promise>) {
    && (forall i :: 0 <= i < |known| ==> known[i] in w.promises)
    && (forall i :: 0 <= i < |mine| ==> mine[i] in w.promises && !IsResult(w, mine[i]))
  }

  lemma KnowsStill(w: State, u: State, known: seq<Promise>, mine: seq<Promise>)
    requires Knows(w, known, mine) && Later(w, u)
    ensures Knows(u, known, mine)
  {
    forall i | 0 <= i < |mine|
      ensures mine[i] in u.promises && !IsResult(u, mine[i])
    {
      OwnStays(w, u, mine[i]);
    }
  }

  lemma KnowsNew(w: State, p: Promise, known: seq<Promise>, mine: seq<Promise>)
    requires Knows(w, known, mine) && p in w.promises
    ensures Knows(w, known + [p], mine)
    ensures !IsResult(w, p) ==> Knows(w, known + [p], mine + [p])
  {
  }

  lemma KnowsAt(w: State, known: seq<Promise>, mine: seq<Promise>)
    requires Knows(w, known, mine)
    ensures forall i :: 0 <= i < |known| ==> known[i] in w.promises
    ensures forall i :: 0 <= i < |mine| ==> mine[i] in w.promises && !IsResult(w, mine[i])
  {
  }

  lemma MadeOwn(w: State, p: Promise)
    requires Good(w) && p !in w.promises
    ensures p in Create(w, p).promises && !IsResult(Create(w, p), p)
  {
    forall c | c in w.combinators
      ensures w.combinators[c].result != p
    {
      assert Shaped(w, c);
    }
  }

  lemma KnowsAfter(w: State, e: Event<Promise, Combinator>, known: seq<Promise>, mine: seq<Promise>)
    requires Good(w) && Legal(w, e) && Knows(w, known, mine)
    ensures Knows(Apply(w, e), known, mine)
  {
    hide *;
    ApplyKeeps(w, e);
    KnowsStill(w, Apply(w, e), known, mine);
  }

  lemma JoinedKnown(w: State, c: Combinator, result: Promise, keeps: bool, ps: seq<Promise>)
    requires Legal(w, Joined(c, result, keeps, ps))
    ensures result in Apply(w, Joined(c, result, keeps, ps)).promises
  {
  }

  /** The promises known by these numbers; other numbers name none. */
  function Pick(known: seq<Promise>, ps: seq<nat>): (qs: seq<Promise>)
    ensures forall i :: 0 <= i < |qs| ==> qs[i] in known
  {
    if ps == [] then [] else if ps[0] < |known| then [known[ps[0]]] + Pick(known, ps[1..]) else Pick(known, ps[1..])
  }

  lemma IsTurn(w: State)
    requires Runs(w)
    ensures Legal(w, Event.Turn) && Apply(w, Event.Turn) == RunJob(w)
  {
  }

  lemma IsReported(w: State)
    ensures Legal(w, Reported) && Apply(w, Reported) == Jobs.Report(w)
  {
  }

  lemma {:induction false} RunOn(w: State, es: seq<Event<Promise, Combinator>>, e: Event<Promise, Combinator>)
    requires LegalRun(w, es) && Legal(After(w, es), e)
    ensures LegalRun(w, es + [e]) && After(w, es + [e]) == Apply(After(w, es), e)
    decreases |es|
  {
    if es == [] {
      assert es + [e] == [e];
      assert LegalRun(Apply(w, e), []);
    } else {
      assert (es + [e])[0] == es[0] && (es + [e])[1..] == es[1..] + [e];
      RunOn(Apply(w, es[0]), es[1..], e);
    }
  }

  lemma NoRun(w: State)
    ensures LegalRun(w, []) && After(w, []) == w && Knows(w, [], [])
  {
  }

  lemma IsMade(w: State, p: Promise)
    requires p !in w.promises
    ensures Legal(w, Made(p)) && Apply(w, Made(p)) == Create(w, p)
  {
  }

  lemma IsListened(w: State, p: Promise, id: nat)
    requires p in w.promises
    ensures Legal(w, Listened(p, id)) && Apply(w, Listened(p, id)) == Jobs.Subscribe(w, p, Callback(id))
  {
  }

  lemma IsGiven(w: State, p: Promise, s: Settlement<Combinator>)
    requires p in w.promises && !IsResult(w, p) && !s.Pending?
    ensures Legal(w, Given(p, s)) && Apply(w, Given(p, s)) == Resolve(w, p, s)
  {
  }

  lemma IsGivenPromise(w: State, outer: Promise, inner: Promise)
    requires outer in w.promises && inner in w.promises && !IsResult(w, outer)
    ensures Legal(w, GivenPromise(outer, inner)) && Apply(w, GivenPromise(outer, inner)) == Jobs.Adopt(w, outer, inner)
  {
  }

  lemma IsJoined(w: State, c: Combinator, result: Promise, keeps: bool, ps: seq<Promise>)
    requires c !in w.combinators && result !in w.promises && forall i :: 0 <= i < |ps| ==> ps[i] in w.promises
    ensures Legal(w, Joined(c, result, keeps, ps))
    ensures Apply(w, Joined(c, result, keeps, ps)) == AttachAll(Jobs.Combine(w, c, result, keeps, |ps|), c, ps)
  {
  }

  lemma IsQueued(w: State, id: nat)
    ensures Legal(w, Queued(id)) && Apply(w, Queued(id)) == Jobs.Enqueue(w, Callback(id), Direct)
  {
  }

  lemma QueueGrows(w: State, task: Work, from: Origin<Promise>)
    requires w.taken <= |w.jobs|
    ensures var u := Jobs.Enqueue(w, task, from);
            && u.promises == w.promises && u.combinators == w.combinators && u.rejected == w.rejected && u.taken <= |u.jobs|
            && Queue(u) == Queue(w) + [task]
  {
  }

  lemma QueueSettles(w: State, p: Promise, s: Settlement<Combinator>)
    requires w.taken <= |w.jobs| && p in w.promises
    ensures Queue(Jobs.Settle(w, p, s)) == Queue(w) + w.promises[p].subscribed
  {
  }

  lemma SettleIs(w: State, p: Promise, s: Settlement<Combinator>)
    requires p in w.promises
    ensures var u := Jobs.Settle(w, p, s);
            && u.promises.Keys == w.promises.Keys && u.combinators == w.combinators && u.taken == w.taken
            && (forall q :: q in w.promises && q != p ==> u.promises[q] == w.promises[q])
            && u.promises[p].settlement == s && u.promises[p].subscribed == w.promises[p].subscribed
            && (w.taken <= |w.jobs| ==> u.taken <= |u.jobs|)
            && u.rejected == if s.Rejected? && w.promises[p].subscribed == [] then w.rejected + [p] else w.rejected
  {
  }

  lemma TiesSettled(p: Promise, s: PromiseState<Promise, Combinator>)
    requires p.settlement == s.settlement && !s.settlement.Pending? && (p.handled <==> s.subscribed != [])
    requires p.chain == [] && p.reactions == null
    ensures Ties(p, s)
  {
  }

  lemma SubscribeIs(w: State, p: Promise, task: Work)
    requires p in w.promises && w.taken <= |w.jobs|
    ensures var u := Jobs.Subscribe(w, p, task);
            && u.promises.Keys == w.promises.Keys && u.combinators == w.combinators && u.taken <= |u.jobs| && u.rejected == w.rejected
            && (forall q :: q in w.promises && q != p ==> u.promises[q] == w.promises[q])
            && u.promises[p].settlement == w.promises[p].settlement && u.promises[p].subscribed == w.promises[p].subscribed + [task]
            && Queue(u) == if w.promises[p].settlement.Pending? then Queue(w) else Queue(w) + [task]
  {
    var u := Jobs.Subscribe(w, p, task);
    assert w.promises[p].settlement.Pending? ==> u.jobs == w.jobs;
  }

  lemma ResolveIs(w: State, p: Promise, s: Settlement<Combinator>)
    requires p in w.promises
    ensures Resolve(w, p, s) == if w.promises[p].settlement.Pending? then Jobs.Settle(w, p, s) else w
  {
  }

  lemma AttachNone(w: State, c: Combinator, ps: seq<Promise>)
    requires c in w.combinators
    ensures AttachAll(w, c, ps[..0]) == w
  {
  }

  lemma AttachNext(w: State, c: Combinator, ps: seq<Promise>, i: nat)
    requires c in w.combinators && i < |ps| && (forall k :: 0 <= k < |ps| ==> ps[k] in w.promises)
    requires w.combinators[c].sources == []
    ensures var u := AttachAll(w, c, ps[..i]);
            && c in u.combinators && ps[i] in u.promises && |u.combinators[c].sources| == i
            && AttachAll(w, c, ps[..i + 1]) == Jobs.Attach(u, c, ps[i])
  {
    AttachedSources(w, c, ps[..i]);
    assert ps[..i + 1][..i] == ps[..i];
  }

  lemma QueueAlone(w: State, u: State)
    requires w.taken <= |w.jobs| && u.jobs == w.jobs && u.taken == w.taken
    ensures Queue(u) == Queue(w)
  {
  }

  lemma CreateIs(w: State, p: Promise)
    ensures Create(w, p).combinators == w.combinators && Create(w, p).promises.Keys == w.promises.Keys + {p}
    ensures forall q :: q in w.promises && q != p ==> Create(w, p).promises[q] == w.promises[q]
    ensures Create(w, p).jobs == w.jobs && Create(w, p).taken == w.taken && Create(w, p).rejected == w.rejected
    ensures Create(w, p).promises[p] == PromiseState(Pending, [], [])
  {
  }

  ghost function Joining(w: State, c: Combinator, result: Promise, keeps: bool, n: nat): State {
    w.(combinators := w.combinators[c := CombinatorState(result, keeps, n, [], [], if keeps then seq(n, _ => None) else [], n)])
  }

  lemma JoiningIs(w: State, c: Combinator, result: Promise, keeps: bool, n: nat)
    requires w.taken <= |w.jobs|
    ensures var u := Joining(w, c, result, keeps, n);
            && u.promises == w.promises && c in u.combinators && u.combinators == w.combinators[c := u.combinators[c]]
            && u.taken == w.taken && u.jobs == w.jobs && u.rejected == w.rejected && Queue(u) == Queue(w)
  {
  }

  lemma CombineTwice(w: State, c: Combinator, result: Promise, keeps: bool, n: nat)
    ensures var u := Joining(Create(w, result), c, result, keeps, n);
            && result in u.promises && u.promises[result] == PromiseState(Pending, [], [])
            && Jobs.Combine(w, c, result, keeps, n) ==
               if keeps && n == 0 then Resolve(u, result, Fulfilled(Results(c))) else u
  {
    var u := Joining(Create(w, result), c, result, keeps, n);
    if keeps && n == 0 {
      var t := Jobs.Settle(u, result, Fulfilled(Results(c)));
      assert t.jobs == w.jobs && t.promises[result].placed == [];
      assert t.promises == Jobs.Combine(w, c, result, keeps, n).promises;
    }
  }

  lemma NewHolds(c: Combinator, result: Promise, keeps: bool, n: nat, w: State)
    requires c.result == result && c.remaining == n && (c.values != null <==> keeps)
    requires c.values != null ==> c.values.Length == n && forall i :: 0 <= i < n ==> c.values[i] == None
    ensures Holds(c, Joining(w, c, result, keeps, n).combinators[c])
  {
  }

  lemma CountedIs(w: State, c: Combinator, source: Promise, i: nat)
    requires c in w.combinators && source in w.promises && w.promises[source].settlement.Fulfilled?
    requires i < |w.combinators[c].values| && w.combinators[c].remaining > 0
    ensures var v := w.combinators[c];
            var u := Counted(w, c, source, i);
            && u.promises == w.promises && u.jobs == w.jobs && u.taken == w.taken && u.rejected == w.rejected
            && c in u.combinators && u.combinators == w.combinators[c := u.combinators[c]]
            && (v.keeps ==> u.combinators[c] == v.(values := v.values[i := Some(w.promises[source].settlement.value)], remaining := v.remaining - 1))
  {
  }

  lemma HoldsCounted(c: Combinator, v: CombinatorState<Promise, Combinator>)
    requires c.result == v.result && c.remaining == v.remaining && (c.values != null <==> v.keeps)
    requires c.values != null ==> c.values[..] == v.values
    ensures Holds(c, v)
  {
  }

  lemma DeliverCases(w: State, c: Combinator, source: Promise, i: nat)
    requires c in w.combinators && source in w.promises && w.combinators[c].result in w.promises
    requires w.combinators[c].keeps ==> i < |w.combinators[c].values| && w.combinators[c].remaining > 0
    requires !w.promises[source].settlement.Pending?
    ensures var v := w.combinators[c];
            Deliver(w, c, source, i) ==
              if !v.keeps || w.promises[source].settlement.Rejected? then Resolve(w, v.result, w.promises[source].settlement)
              else if v.remaining == 1 then Resolve(Counted(w, c, source, i), v.result, Fulfilled(Results(c)))
              else Counted(w, c, source, i)
    ensures Counted(w, c, source, i).promises == w.promises
  {
  }

  lemma NoneHeard(w: State, ps: seq<Promise>)
    ensures Unheard(w, ps[..0]) == []
  {
  }

  lemma UnhandledListed(w: State)
    ensures forall p :: p in Unhandled(w) ==> p in w.rejected
  {
  }

  lemma QueueTaken(w: State)
    requires w.taken < |w.jobs|
    ensures var u := Taken(w);
            && Queue(w) == [w.jobs[w.taken].task] + Queue(u) && u.taken <= |u.jobs|
            && u.promises == w.promises && u.combinators == w.combinators && u.rejected == w.rejected
  {
  }

  lemma GoodRuns(w: State)
    requires Good(w) && w.taken < |w.jobs|
    ensures Runs(w) && Good(RunJob(w))
  {
    RunKeeps(w);
    ApplyKeeps(w, Event.Turn);
  }

  lemma RunCases(w: State)
    requires Good(w) && w.taken < |w.jobs| && Runs(w)
    ensures var u := Taken(w);
            u.promises == w.promises && u.combinators == w.combinators &&
            match w.jobs[w.taken].task
            case Callback(_) => RunJob(w) == u
            case Element(c, source, i) =>
              && c in w.combinators && source in w.promises && w.combinators[c].result in w.promises
              && !w.promises[source].settlement.Pending?
              && (w.combinators[c].keeps ==> i < |w.combinators[c].values| && w.combinators[c].remaining > 0)
              && RunJob(w) == Deliver(u, c, source, i)
            case Begin(outer, inner) => inner in w.promises && RunJob(w) == Jobs.Subscribe(u, inner, Forward(outer, inner))
            case Forward(outer, inner) =>
              && outer in w.promises && inner in w.promises && !w.promises[inner].settlement.Pending?
              && RunJob(w) == Resolve(u, outer, w.promises[inner].settlement)
  {
    RunsParts(w);
    match w.jobs[w.taken].task {
      case Element(c, source, i) => ElementIs(w, c, source, i);
      case _ =>
    }
  }

  lemma GoodReport(w: State)
    requires Good(w)
    ensures var u := Jobs.Report(w);
            && Good(u) && u.promises == w.promises && u.combinators == w.combinators && u.jobs == w.jobs && u.taken == w.taken
            && u.rejected == []
  {
    ApplyKeeps(w, Reported);
  }

  lemma SameTail<T>(x: T, a: seq<T>, y: T, b: seq<T>)
    requires [x] + a == [y] + b
    ensures x == y && a == b
  {
    assert ([x] + a)[0] == x && ([y] + b)[0] == y;
    assert ([x] + a)[1..] == a && ([y] + b)[1..] == b;
  }

  lemma QueueLength(w: State)
    requires w.taken <= |w.jobs|
    ensures |Queue(w)| == |w.jobs| - w.taken
  {
  }
}
