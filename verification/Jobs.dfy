/** Promises and the jobs they queue, as values: what each operation does to
    every promise, every combinator and the microtask queue at once, and what
    holds after any run of them (ECMA-262 section 27.2). */
module Jobs {
  import opened Basics
  import opened Graphs

  /** What a promise is settled with: a value of the program's, or the array a
      combinator filled. */
  datatype Payload<C> = Plain(id: nat) | Results(of: C)

  datatype Settlement<C> = Pending | Fulfilled(value: Payload<C>) | Rejected(reason: Payload<C>)

  /** A queued function with its state: the program's, an element of a
      combinator, and the two hops of an adoption. */
  datatype Task<P, C> =
    | Callback(id: nat)
    | Element(all: C, source: P, i: nat)
    | Begin(outer: P, inner: P)
    | Forward(outer: P, inner: P)

  /** A queued task remembers the subscription it came from, if any. */
  datatype Origin<P> = Direct | Subscription(of: P, idx: nat)

  datatype Job<P, C> = Job(task: Task<P, C>, from: Origin<P>)

  /** placed[k], once there is one, is where in the queue's whole history
      subscription k went. */
  datatype PromiseState<P, C> = PromiseState(settlement: Settlement<C>, subscribed: seq<Task<P, C>>, placed: seq<nat>)

  /** at[i] is which subscription of sources[i] is element i's. */
  datatype CombinatorState<P, C> = CombinatorState(
    result: P, keeps: bool, total: nat, sources: seq<P>, at: seq<nat>, values: seq<Option<Payload<C>>>, remaining: nat)

  /** jobs is every microtask ever queued, the first taken of them run. */
  datatype World<P, C> = World(
    promises: map<P, PromiseState<P, C>>, combinators: map<C, CombinatorState<P, C>>,
    jobs: seq<Job<P, C>>, taken: nat, rejected: seq<P>, reported: set<P>)

  // ---- the operations ----

  ghost function Enqueue<P, C>(w: World<P, C>, task: Task<P, C>, from: Origin<P>): World<P, C> {
    w.(jobs := w.jobs + [Job(task, from)])
  }

  /** A settled promise queues the reaction at once, and never runs it inline. */
  ghost function Subscribe<P, C>(w: World<P, C>, p: P, task: Task<P, C>): World<P, C>
    requires p in w.promises
  {
    var s := w.promises[p];
    var idx := |s.subscribed|;
    if s.settlement.Pending? then
      w.(promises := w.promises[p := s.(subscribed := s.subscribed + [task])])
    else
      Enqueue(w.(promises := w.promises[p := s.(subscribed := s.subscribed + [task], placed := s.placed + [|w.jobs|])]),
              task, Subscription(p, idx))
  }

  ghost function Reactions<P, C>(p: P, tasks: seq<Task<P, C>>): seq<Job<P, C>> {
    seq(|tasks|, k requires 0 <= k < |tasks| => Job(tasks[k], Subscription(p, k)))
  }

  /** Every reaction queued, the oldest subscription first. A rejection nobody
      listens for is remembered. */
  ghost function Settle<P, C>(w: World<P, C>, p: P, s: Settlement<C>): World<P, C>
    requires p in w.promises
  {
    var v := w.promises[p];
    w.(promises := w.promises[p := PromiseState(s, v.subscribed, seq(|v.subscribed|, k => |w.jobs| + k))],
       jobs := w.jobs + Reactions(p, v.subscribed),
       rejected := if s.Rejected? && v.subscribed == [] then w.rejected + [p] else w.rejected)
  }

  /** The first settlement wins. */
  ghost function Resolve<P, C>(w: World<P, C>, p: P, s: Settlement<C>): World<P, C>
    requires p in w.promises
  {
    if w.promises[p].settlement.Pending? then Settle(w, p, s) else w
  }

  ghost function Create<P, C>(w: World<P, C>, p: P): World<P, C> {
    w.(promises := w.promises[p := PromiseState(Pending, [], [])])
  }

  ghost function Adopt<P, C>(w: World<P, C>, outer: P, inner: P): World<P, C> {
    Enqueue(w, Begin(outer, inner), Direct)
  }

  /** A combinator over n promises, none subscribed to yet; with none to wait
      for, `all` is fulfilled already. */
  ghost function Combine<P, C>(w: World<P, C>, c: C, result: P, keeps: bool, n: nat): World<P, C> {
    var s := if keeps && n == 0 then Fulfilled(Results(c)) else Pending;
    w.(promises := w.promises[result := PromiseState(s, [], [])],
       combinators := w.combinators[c := CombinatorState(result, keeps, n, [], [], if keeps then seq(n, _ => None) else [], n)])
  }

  /** Element |sources| of combinator c subscribes to p. */
  ghost function Attach<P, C>(w: World<P, C>, c: C, p: P): World<P, C>
    requires c in w.combinators && p in w.promises
  {
    var v := w.combinators[c];
    var u := v.(sources := v.sources + [p], at := v.at + [|w.promises[p].subscribed|]);
    Subscribe(w.(combinators := w.combinators[c := u]), p, Element(c, p, |v.sources|))
  }

  ghost function AttachAll<P, C>(w: World<P, C>, c: C, ps: seq<P>): (u: World<P, C>)
    requires c in w.combinators && forall i :: 0 <= i < |ps| ==> ps[i] in w.promises
    ensures c in u.combinators && u.promises.Keys == w.promises.Keys
    decreases |ps|
  {
    if ps == [] then w else Attach(AttachAll(w, c, ps[..|ps| - 1]), c, ps[|ps| - 1])
  }

  /** One element's source is settled. */
  ghost function Deliver<P, C>(w: World<P, C>, c: C, source: P, i: nat): World<P, C>
    requires c in w.combinators && source in w.promises && w.combinators[c].result in w.promises
    requires w.combinators[c].keeps ==> i < |w.combinators[c].values| && w.combinators[c].remaining > 0
  {
    var v := w.combinators[c];
    var s := w.promises[source].settlement;
    if !v.keeps || !s.Fulfilled? then Resolve(w, v.result, s)
    else
      var u := w.(combinators := w.combinators[c := v.(values := v.values[i := Some(s.value)], remaining := v.remaining - 1)]);
      if v.remaining == 1 then Resolve(u, v.result, Fulfilled(Results(c))) else u
  }

  /** What the oldest job needs of the world it runs in. */
  ghost predicate Runs<P, C>(w: World<P, C>) {
    w.taken < |w.jobs| &&
    match w.jobs[w.taken].task
    case Callback(_) => true
    case Element(c, source, i) =>
      && c in w.combinators && source in w.promises && w.combinators[c].result in w.promises
      && (w.combinators[c].keeps ==> i < |w.combinators[c].values| && w.combinators[c].remaining > 0)
    case Begin(outer, inner) => inner in w.promises
    case Forward(outer, inner) => outer in w.promises && inner in w.promises
  }

  /** The oldest job runs. What a callback of the program's does is events of
      its own. */
  ghost function RunJob<P, C>(w: World<P, C>): World<P, C>
    requires Runs(w)
  {
    var u := w.(taken := w.taken + 1);
    match w.jobs[w.taken].task
    case Callback(_) => u
    case Element(c, source, i) => Deliver(u, c, source, i)
    case Begin(outer, inner) => Subscribe(u, inner, Forward(outer, inner))
    case Forward(outer, inner) => Resolve(u, outer, u.promises[inner].settlement)
  }

  /** The rejections still unhandled when a checkpoint ends. */
  ghost function Unhandled<P, C>(w: World<P, C>): set<P> {
    set p | p in w.rejected && p in w.promises && w.promises[p].settlement.Rejected? && w.promises[p].subscribed == []
  }

  ghost function Report<P, C>(w: World<P, C>): World<P, C> {
    w.(rejected := [], reported := w.reported + Unhandled(w))
  }

  // ---- what holds of every world a run reaches ----

  /** Every subscription of a settled promise is one job, and every job that
      came from a subscription is that one: in subscription order. */
  ghost predicate Ordered<P, C>(w: World<P, C>) {
    && w.taken <= |w.jobs|
    && (forall p :: p in w.promises ==> PlacedOk(w.promises[p], p, w.jobs))
    && (forall k :: 0 <= k < |w.jobs| && w.jobs[k].from.Subscription? ==> CameFrom(w, k))
  }

  ghost predicate PlacedOk<P, C>(s: PromiseState<P, C>, p: P, jobs: seq<Job<P, C>>) {
    && |s.placed| == (if s.settlement.Pending? then 0 else |s.subscribed|)
    && (forall i :: 0 <= i < |s.placed| ==>
          s.placed[i] < |jobs| && jobs[s.placed[i]] == Job(s.subscribed[i], Subscription(p, i)))
    && (forall i, j :: 0 <= i < j < |s.placed| ==> s.placed[i] < s.placed[j])
  }

  ghost predicate CameFrom<P, C>(w: World<P, C>, k: nat)
    requires k < |w.jobs| && w.jobs[k].from.Subscription?
  {
    var Subscription(p, idx) := w.jobs[k].from;
    p in w.promises && idx < |w.promises[p].placed| && w.promises[p].placed[idx] == k
  }

  /** Every task names promises and combinators there are, and its own. */
  ghost predicate Tasks<P, C>(w: World<P, C>) {
    && (forall p, idx :: p in w.promises && 0 <= idx < |w.promises[p].subscribed| ==>
          SubscribedOk(w, p, idx, w.promises[p].subscribed[idx]))
    && (forall k :: 0 <= k < |w.jobs| && w.jobs[k].from.Direct? ==> DirectOk(w, w.jobs[k].task))
  }

  ghost predicate SubscribedOk<P, C>(w: World<P, C>, p: P, idx: nat, task: Task<P, C>) {
    match task
    case Callback(_) => true
    case Element(c, source, i) =>
      && source == p && c in w.combinators && i < |w.combinators[c].sources| && i < |w.combinators[c].at|
      && w.combinators[c].sources[i] == p && w.combinators[c].at[i] == idx
    case Begin(_, _) => false
    case Forward(outer, inner) => inner == p && outer in w.promises && !IsResult(w, outer)
  }

  ghost predicate DirectOk<P, C>(w: World<P, C>, task: Task<P, C>) {
    match task
    case Callback(_) => true
    case Begin(outer, inner) => outer in w.promises && inner in w.promises && !IsResult(w, outer)
    case _ => false
  }

  /** A combinator alone settles its result. */
  ghost predicate IsResult<P, C>(w: World<P, C>, p: P) {
    exists c :: c in w.combinators && w.combinators[c].result == p
  }

  ghost predicate Shaped<P, C>(w: World<P, C>, c: C)
    requires c in w.combinators
  {
    var v := w.combinators[c];
    && v.result in w.promises
    && |v.at| == |v.sources| <= v.total && |v.values| == (if v.keeps then v.total else 0) && v.remaining <= v.total
    && (forall i :: 0 <= i < |v.sources| ==>
          && v.sources[i] in w.promises && v.at[i] < |w.promises[v.sources[i]].subscribed|
          && w.promises[v.sources[i]].subscribed[v.at[i]] == Element(c, v.sources[i], i))
  }

  /** Where element i's job is in the queue's history, or -1. */
  ghost function Pos<P, C>(w: World<P, C>, c: C, i: nat): int
    requires c in w.combinators && Shaped(w, c) && i < |w.combinators[c].sources|
  {
    var v := w.combinators[c];
    var s := w.promises[v.sources[i]];
    if v.at[i] < |s.placed| then s.placed[v.at[i]] else -1
  }

  /** Element i's job has run. */
  ghost predicate Heard<P, C>(w: World<P, C>, c: C, i: int)
    requires c in w.combinators && Shaped(w, c)
  {
    0 <= i < |w.combinators[c].sources| && 0 <= Pos(w, c, i) < w.taken
  }

  ghost function SourceOf<P, C>(w: World<P, C>, c: C, i: nat): Settlement<C>
    requires c in w.combinators && Shaped(w, c) && i < |w.combinators[c].sources|
  {
    w.promises[w.combinators[c].sources[i]].settlement
  }

  /** The sources delivered as fulfilled. */
  ghost function Delivered<P, C>(w: World<P, C>, c: C): set<int>
    requires c in w.combinators && Shaped(w, c)
  {
    set i | 0 <= i < |w.combinators[c].sources| && Heard(w, c, i) && SourceOf(w, c, i).Fulfilled?
  }

  /** A delivery that settles the result whatever else comes: a rejection, or
      in a race any. */
  ghost predicate Decides<P, C>(w: World<P, C>, c: C, i: int)
    requires c in w.combinators && Shaped(w, c)
  {
    Heard(w, c, i) && (w.combinators[c].keeps ==> SourceOf(w, c, i).Rejected?)
  }

  ghost predicate First<P, C>(w: World<P, C>, c: C, i: int)
    requires c in w.combinators && Shaped(w, c)
  {
    Decides(w, c, i) && forall j :: Decides(w, c, j) ==> Pos(w, c, i) <= Pos(w, c, j)
  }

  /** What a combinator's result, count and values must be. */
  ghost predicate AnswersAs<P, C>(w: World<P, C>, c: C, s: Settlement<C>, remaining: nat, values: seq<Option<Payload<C>>>)
    requires c in w.combinators && Shaped(w, c)
  {
    var v := w.combinators[c];
    && (v.keeps ==> |values| == v.total && remaining + |Delivered(w, c)| == v.total)
    && (v.keeps ==> forall i :: 0 <= i < v.total ==>
          values[i] == if i in Delivered(w, c) then Some(SourceOf(w, c, i).value) else None)
    && (v.keeps && remaining == 0 ==> s == Fulfilled(Results(c)))
    && (forall i :: First(w, c, i) ==> s == SourceOf(w, c, i))
    && (s.Pending? ==> forall i :: !Decides(w, c, i))
    && (!s.Pending? ==> (v.keeps && remaining == 0) || exists i :: First(w, c, i))
  }

  /** It keeps the count of the fulfilments it still waits for and each value at
      its element's place; its result is settled by the last of them, or by the
      first delivery that decides. */
  ghost predicate Answers<P, C>(w: World<P, C>, c: C)
    requires c in w.combinators && Shaped(w, c)
  {
    var v := w.combinators[c];
    AnswersAs(w, c, w.promises[v.result].settlement, v.remaining, v.values)
  }

  ghost predicate Combinators<P, C>(w: World<P, C>) {
    && (forall c :: c in w.combinators ==> Shaped(w, c) && Answers(w, c))
    && (forall c, d :: c in w.combinators && d in w.combinators && c != d ==> w.combinators[c].result != w.combinators[d].result)
  }

  /** A rejection nobody listens for is on the list, or was reported. */
  ghost predicate Remembered<P, C>(w: World<P, C>) {
    && (forall p :: p in w.promises && w.promises[p].settlement.Rejected? && w.promises[p].subscribed == [] ==>
          p in w.rejected || p in w.reported)
    && (forall p :: p in w.rejected ==> p in w.promises && w.promises[p].settlement.Rejected?)
    && (forall p :: p in w.reported ==> p in w.promises && w.promises[p].settlement.Rejected?)
  }

  ghost predicate Inv<P, C>(w: World<P, C>) {
    Ordered(w) && Tasks(w) && Combinators(w) && Remembered(w)
  }

  // ---- nothing is ever taken back ----

  ghost predicate PromiseLater<P, C>(s: PromiseState<P, C>, t: PromiseState<P, C>) {
    && (!s.settlement.Pending? ==> t.settlement == s.settlement)
    && s.subscribed <= t.subscribed && s.placed <= t.placed
  }

  ghost predicate CombinatorLater<P, C>(v: CombinatorState<P, C>, u: CombinatorState<P, C>) {
    && u.result == v.result && u.keeps == v.keeps && u.total == v.total
    && v.sources <= u.sources && v.at <= u.at
  }

  /** u is w some events later: a settled promise is as it was, every
      subscription and every queued job is still there in its place. */
  ghost predicate Later<P, C>(w: World<P, C>, u: World<P, C>) {
    && (forall p :: p in w.promises ==> p in u.promises && PromiseLater(w.promises[p], u.promises[p]))
    && (forall c :: c in w.combinators ==> c in u.combinators && CombinatorLater(w.combinators[c], u.combinators[c]))
    && (forall c :: c in u.combinators && c !in w.combinators ==> u.combinators[c].result !in w.promises)
    && w.jobs <= u.jobs && w.taken <= u.taken && w.reported <= u.reported
  }

  lemma LaterTrans<P, C>(a: World<P, C>, b: World<P, C>, c: World<P, C>)
    requires Later(a, b) && Later(b, c)
    ensures Later(a, c)
  {
    forall p | p in a.promises
      ensures p in c.promises && PromiseLater(a.promises[p], c.promises[p])
    {
      assert PromiseLater(a.promises[p], b.promises[p]) && PromiseLater(b.promises[p], c.promises[p]);
    }
    forall x | x in a.combinators
      ensures x in c.combinators && CombinatorLater(a.combinators[x], c.combinators[x])
    {
      assert CombinatorLater(a.combinators[x], b.combinators[x]) && CombinatorLater(b.combinators[x], c.combinators[x]);
    }
  }

  lemma NotResultLater<P, C>(w: World<P, C>, u: World<P, C>, p: P)
    requires Later(w, u) && p in w.promises && !IsResult(w, p)
    ensures !IsResult(u, p)
  {
    forall c | c in u.combinators
      ensures u.combinators[c].result != p
    {
      if c in w.combinators {
        assert CombinatorLater(w.combinators[c], u.combinators[c]);
      }
    }
  }

  lemma SubscribedLater<P, C>(w: World<P, C>, u: World<P, C>, p: P, idx: nat, task: Task<P, C>)
    requires Later(w, u) && SubscribedOk(w, p, idx, task)
    ensures SubscribedOk(u, p, idx, task)
  {
    match task
    case Forward(outer, _) => NotResultLater(w, u, outer);
    case Element(c, _, _) => assert CombinatorLater(w.combinators[c], u.combinators[c]);
    case _ =>
  }

  lemma DirectLater<P, C>(w: World<P, C>, u: World<P, C>, task: Task<P, C>)
    requires Later(w, u) && DirectOk(w, task)
    ensures DirectOk(u, task)
  {
    match task
    case Begin(outer, _) => NotResultLater(w, u, outer);
    case _ =>
  }

  // ---- growth that delivers nothing keeps every combinator's answer ----

  /** Later, with nothing run: what is placed now is placed at the end. */
  ghost predicate Grows<P, C>(w: World<P, C>, u: World<P, C>) {
    && Later(w, u) && u.taken == w.taken
    && (forall p :: p in w.promises ==> PlacedAfter(w.promises[p].placed, u.promises[p].placed, |w.jobs|))
  }

  ghost predicate PlacedAfter(a: seq<nat>, b: seq<nat>, n: nat) {
    forall k :: |a| <= k < |b| ==> b[k] >= n
  }

  lemma GrowsTrans<P, C>(a: World<P, C>, b: World<P, C>, c: World<P, C>)
    requires Grows(a, b) && Grows(b, c)
    ensures Grows(a, c)
  {
    LaterTrans(a, b, c);
    forall p | p in a.promises
      ensures PlacedAfter(a.promises[p].placed, c.promises[p].placed, |a.jobs|)
    {
      assert PlacedAfter(a.promises[p].placed, b.promises[p].placed, |a.jobs|);
      assert PlacedAfter(b.promises[p].placed, c.promises[p].placed, |b.jobs|);
      assert PromiseLater(a.promises[p], b.promises[p]) && PromiseLater(b.promises[p], c.promises[p]);
    }
  }

  lemma GrowsShaped<P, C>(w: World<P, C>, u: World<P, C>, c: C)
    requires Later(w, u) && c in w.combinators && Shaped(w, c)
    requires u.combinators[c] == w.combinators[c].(values := u.combinators[c].values, remaining := u.combinators[c].remaining)
    requires |u.combinators[c].values| == |w.combinators[c].values| && u.combinators[c].remaining <= w.combinators[c].remaining
    ensures Shaped(u, c)
  {
    var v := w.combinators[c];
    forall i | 0 <= i < |v.sources|
      ensures v.at[i] < |u.promises[v.sources[i]].subscribed|
      ensures u.promises[v.sources[i]].subscribed[v.at[i]] == Element(c, v.sources[i], i)
    {
      assert PromiseLater(w.promises[v.sources[i]], u.promises[v.sources[i]]);
    }
  }

  lemma GrowsHeard<P, C>(w: World<P, C>, u: World<P, C>, c: C, i: int)
    requires Ordered(w) && Grows(w, u) && c in w.combinators && Shaped(w, c) && Shaped(u, c)
    requires i < |w.combinators[c].sources|
    ensures Heard(w, c, i) <==> Heard(u, c, i)
    ensures Heard(w, c, i) ==> Pos(w, c, i) == Pos(u, c, i) && SourceOf(w, c, i) == SourceOf(u, c, i) && !SourceOf(w, c, i).Pending?
    ensures Decides(w, c, i) <==> Decides(u, c, i)
  {
    var v := w.combinators[c];
    assert CombinatorLater(v, u.combinators[c]);
    if 0 <= i < |v.sources| {
      var p := v.sources[i];
      assert PromiseLater(w.promises[p], u.promises[p]);
      assert PlacedAfter(w.promises[p].placed, u.promises[p].placed, |w.jobs|);
      assert PlacedOk(w.promises[p], p, w.jobs);
    }
  }

  /** A combinator whose new elements have not been heard answers as before. */
  lemma GrowsAnswersAs<P, C>(w: World<P, C>, u: World<P, C>, c: C, s: Settlement<C>, remaining: nat, values: seq<Option<Payload<C>>>)
    requires Ordered(w) && Grows(w, u) && c in w.combinators && Shaped(w, c) && Shaped(u, c)
    requires forall i :: |w.combinators[c].sources| <= i < |u.combinators[c].sources| ==> !Heard(u, c, i)
    requires AnswersAs(w, c, s, remaining, values)
    ensures AnswersAs(u, c, s, remaining, values)
  {
    forall i: int
      ensures Heard(w, c, i) <==> Heard(u, c, i)
      ensures Decides(w, c, i) <==> Decides(u, c, i)
      ensures Heard(w, c, i) ==> Pos(w, c, i) == Pos(u, c, i) && SourceOf(w, c, i) == SourceOf(u, c, i)
    {
      if i < |w.combinators[c].sources| {
        GrowsHeard(w, u, c, i);
      }
    }
    assert CombinatorLater(w.combinators[c], u.combinators[c]);
    assert Delivered(w, c) == Delivered(u, c);
    assert forall i :: First(w, c, i) <==> First(u, c, i);
  }

  lemma GrowsAnswers<P, C>(w: World<P, C>, u: World<P, C>, c: C)
    requires Ordered(w) && Grows(w, u) && c in w.combinators && Shaped(w, c) && Shaped(u, c)
    requires u.combinators[c] == w.combinators[c].(sources := u.combinators[c].sources, at := u.combinators[c].at)
    requires forall i :: |w.combinators[c].sources| <= i < |u.combinators[c].sources| ==> !Heard(u, c, i)
    requires Answers(w, c)
    requires u.promises[w.combinators[c].result].settlement == w.promises[w.combinators[c].result].settlement
    ensures Answers(u, c)
  {
    var v := w.combinators[c];
    GrowsAnswersAs(w, u, c, w.promises[v.result].settlement, v.remaining, v.values);
  }

  ghost function Had<P, C>(w: World<P, C>, p: P): nat {
    if p in w.promises then |w.promises[p].subscribed| else 0
  }

  lemma TasksLater<P, C>(w: World<P, C>, u: World<P, C>)
    requires Tasks(w) && Later(w, u)
    requires forall p, idx :: p in u.promises && Had(w, p) <= idx < |u.promises[p].subscribed| ==>
               SubscribedOk(u, p, idx, u.promises[p].subscribed[idx])
    requires forall k :: |w.jobs| <= k < |u.jobs| && u.jobs[k].from.Direct? ==> DirectOk(u, u.jobs[k].task)
    ensures Tasks(u)
  {
    forall p, idx | p in u.promises && 0 <= idx < |u.promises[p].subscribed|
      ensures SubscribedOk(u, p, idx, u.promises[p].subscribed[idx])
    {
      if idx < Had(w, p) {
        assert PromiseLater(w.promises[p], u.promises[p]);
        SubscribedLater(w, u, p, idx, w.promises[p].subscribed[idx]);
      }
    }
    forall k | 0 <= k < |u.jobs| && u.jobs[k].from.Direct?
      ensures DirectOk(u, u.jobs[k].task)
    {
      if k < |w.jobs| {
        DirectLater(w, u, w.jobs[k].task);
      }
    }
  }

  // ---- the three primitives ----

  lemma EnqueueGrows<P, C>(w: World<P, C>, task: Task<P, C>)
    requires Ordered(w)
    ensures Grows(w, Enqueue(w, task, Direct)) && Ordered(Enqueue(w, task, Direct))
  {
    var u := Enqueue(w, task, Direct);
    forall k | 0 <= k < |u.jobs| && u.jobs[k].from.Subscription?
      ensures CameFrom(u, k)
    {
      assert CameFrom(w, k);
    }
    forall p | p in u.promises
      ensures PlacedOk(u.promises[p], p, u.jobs)
    {
      assert PlacedOk(w.promises[p], p, w.jobs);
    }
  }

  /** One promise is changed, and jobs are queued for it. */
  lemma OneChanged<P, C>(w: World<P, C>, u: World<P, C>, p: P, t: PromiseState<P, C>, more: seq<Job<P, C>>)
    requires Ordered(w) && p in w.promises
    requires u.promises == w.promises[p := t] && u.jobs == w.jobs + more
    requires u.combinators == w.combinators && u.taken == w.taken && u.reported == w.reported
    requires PromiseLater(w.promises[p], t) && PlacedAfter(w.promises[p].placed, t.placed, |w.jobs|)
    requires PlacedOk(t, p, u.jobs)
    requires forall k :: 0 <= k < |more| && more[k].from.Subscription? ==>
               more[k].from.of == p && more[k].from.idx < |t.placed| && t.placed[more[k].from.idx] == |w.jobs| + k
    ensures Grows(w, u) && Ordered(u)
  {
    hide CameFrom;
    forall q | q in u.promises
      ensures PlacedOk(u.promises[q], q, u.jobs)
    {
      PlacedIs(w, if q == p then p else q);
    }
    forall k | 0 <= k < |u.jobs| && u.jobs[k].from.Subscription?
      ensures CameFrom(u, k)
    {
      OneCameFrom(w, u, p, t, more, k);
    }
  }

  lemma OneCameFrom<P, C>(w: World<P, C>, u: World<P, C>, p: P, t: PromiseState<P, C>, more: seq<Job<P, C>>, k: nat)
    requires Ordered(w) && p in w.promises
    requires u.promises == w.promises[p := t] && u.jobs == w.jobs + more && w.promises[p].placed <= t.placed
    requires forall k :: 0 <= k < |more| && more[k].from.Subscription? ==>
               more[k].from.of == p && more[k].from.idx < |t.placed| && t.placed[more[k].from.idx] == |w.jobs| + k
    requires k < |u.jobs| && u.jobs[k].from.Subscription?
    ensures CameFrom(u, k)
  {
    hide PlacedOk;
    if k < |w.jobs| {
      assert CameFrom(w, k);
      assert w.jobs[k].from == u.jobs[k].from;
    } else {
      assert u.jobs[k] == more[k - |w.jobs|];
    }
  }

  lemma SubscribeGrows<P, C>(w: World<P, C>, p: P, task: Task<P, C>)
    requires Ordered(w) && p in w.promises
    ensures Grows(w, Subscribe(w, p, task)) && Ordered(Subscribe(w, p, task))
  {
    hide CameFrom, Later, Grows, Ordered;
    var u := Subscribe(w, p, task);
    PlacedIs(w, p);
    if w.promises[p].settlement.Pending? {
      OneChanged(w, u, p, u.promises[p], []);
    } else {
      OneChanged(w, u, p, u.promises[p], [Job(task, Subscription(p, |w.promises[p].subscribed|))]);
    }
  }

  lemma PlacedIs<P, C>(w: World<P, C>, p: P)
    requires Ordered(w) && p in w.promises
    ensures PlacedOk(w.promises[p], p, w.jobs)
  {
  }

  lemma SettleGrows<P, C>(w: World<P, C>, p: P, s: Settlement<C>)
    requires Ordered(w) && p in w.promises && w.promises[p].settlement.Pending? && !s.Pending?
    ensures Grows(w, Settle(w, p, s)) && Ordered(Settle(w, p, s))
  {
    hide CameFrom, Later, Grows, Ordered;
    var u := Settle(w, p, s);
    PlacedIs(w, p);
    OneChanged(w, u, p, u.promises[p], Reactions(p, w.promises[p].subscribed));
  }

  /** Growth in which no promise that answers for a combinator is settled. */
  lemma GrowsCombinators<P, C>(w: World<P, C>, u: World<P, C>)
    requires Ordered(w) && Grows(w, u) && Combinators(w) && u.combinators == w.combinators
    requires forall c :: c in w.combinators ==> SameAnswer(w, u, c)
    ensures Combinators(u)
  {
    forall c | c in u.combinators
      ensures Shaped(u, c) && Answers(u, c)
    {
      assert Shaped(w, c) && Answers(w, c) && SameAnswer(w, u, c);
      GrowsShaped(w, u, c);
      GrowsAnswers(w, u, c);
    }
  }

  lemma ResultThere<P, C>(w: World<P, C>)
    requires Combinators(w)
    ensures forall c :: c in w.combinators ==> w.combinators[c].result in w.promises
  {
    forall c | c in w.combinators
      ensures w.combinators[c].result in w.promises
    {
      assert Shaped(w, c);
    }
  }

  ghost predicate SameAnswer<P, C>(w: World<P, C>, u: World<P, C>, c: C)
    requires c in w.combinators
  {
    var r := w.combinators[c].result;
    r in w.promises && r in u.promises && u.promises[r].settlement == w.promises[r].settlement
  }

  lemma SubscribeKeeps<P, C>(w: World<P, C>, p: P, task: Task<P, C>)
    requires Inv(w) && p in w.promises
    requires SubscribedOk(w, p, |w.promises[p].subscribed|, task)
    ensures Inv(Subscribe(w, p, task)) && Grows(w, Subscribe(w, p, task))
  {
    hide SubscribedOk, DirectOk, Shaped, Answers, PlacedOk, CameFrom, Later, Tasks, Grows;
    var u := Subscribe(w, p, task);
    SubscribeGrows(w, p, task);
    GrowsIsLater(w, u);
    SubscribedLater(w, u, p, |w.promises[p].subscribed|, task);
    OneSubscribed(w, u, p, task);
    ResultThere(w);
    GrowsCombinators(w, u);
  }

  lemma EnqueueKeeps<P, C>(w: World<P, C>, task: Task<P, C>)
    requires Inv(w) && DirectOk(w, task)
    ensures Inv(Enqueue(w, task, Direct)) && Grows(w, Enqueue(w, task, Direct))
  {
    var u := Enqueue(w, task, Direct);
    EnqueueGrows(w, task);
    DirectLater(w, u, task);
    TasksLater(w, u);
    ResultThere(w);
    GrowsCombinators(w, u);
  }

  lemma SettleRest<P, C>(w: World<P, C>, p: P, s: Settlement<C>)
    requires Ordered(w) && Tasks(w) && Remembered(w) && p in w.promises && w.promises[p].settlement.Pending? && !s.Pending?
    ensures var u := Settle(w, p, s); Ordered(u) && Tasks(u) && Remembered(u) && Grows(w, u)
  {
    hide Ordered, Tasks, Later, Grows;
    SettleGrows(w, p, s);
    GrowsIsLater(w, Settle(w, p, s));
    TasksLater(w, Settle(w, p, s));
  }

  lemma ResolveKeeps<P, C>(w: World<P, C>, p: P, s: Settlement<C>)
    requires Inv(w) && p in w.promises && !s.Pending? && !IsResult(w, p)
    ensures Inv(Resolve(w, p, s)) && Grows(w, Resolve(w, p, s))
  {
    if w.promises[p].settlement.Pending? {
      var u := Settle(w, p, s);
      SettleRest(w, p, s);
      forall c | c in w.combinators
        ensures SameAnswer(w, u, c)
      {
        assert Shaped(w, c);
      }
      GrowsCombinators(w, u);
    } else {
      GrowsSelf(w);
    }
  }

  lemma GrowsSelf<P, C>(w: World<P, C>)
    ensures Grows(w, w)
  {
  }

  // ---- new promises and combinators ----

  lemma CreateKeeps<P, C>(w: World<P, C>, p: P)
    requires Inv(w) && p !in w.promises
    ensures Inv(Create(w, p)) && Grows(w, Create(w, p))
  {
    hide Ordered, Tasks, Combinators, Grows, PromiseLater;
    var u := Create(w, p);
    AddedGrows(w, u, p);
    GrowsIsLater(w, u);
    TasksLater(w, u);
    ResultThere(w);
    GrowsCombinators(w, u);
  }

  /** A promise nobody has subscribed to is added. */
  lemma AddedGrows<P, C>(w: World<P, C>, u: World<P, C>, p: P)
    requires Ordered(w) && p !in w.promises && u.jobs == w.jobs && u.taken == w.taken && u.reported == w.reported
    requires p in u.promises && u.promises == w.promises[p := u.promises[p]]
    requires u.promises[p].subscribed == [] && u.promises[p].placed == []
    requires forall c :: c in w.combinators ==> c in u.combinators && u.combinators[c] == w.combinators[c]
    requires forall c :: c in u.combinators && c !in w.combinators ==> u.combinators[c].result !in w.promises
    ensures Grows(w, u) && Ordered(u)
  {
    hide CameFrom;
    forall q | q in u.promises
      ensures PlacedOk(u.promises[q], q, u.jobs)
    {
      assert q in w.promises ==> PlacedOk(w.promises[q], q, w.jobs);
    }
    forall k | 0 <= k < |u.jobs| && u.jobs[k].from.Subscription?
      ensures CameFrom(u, k)
    {
      StillCame(w, u, k);
    }
  }

  lemma StillCame<P, C>(w: World<P, C>, u: World<P, C>, k: nat)
    requires Ordered(w) && u.jobs == w.jobs && k < |u.jobs| && u.jobs[k].from.Subscription?
    requires forall p :: p in w.promises ==> p in u.promises && u.promises[p] == w.promises[p]
    ensures CameFrom(u, k)
  {
    assert CameFrom(w, k);
  }

  lemma CombineKeeps<P, C>(w: World<P, C>, c: C, result: P, keeps: bool, n: nat)
    requires Inv(w) && c !in w.combinators && result !in w.promises
    ensures Inv(Combine(w, c, result, keeps, n)) && Grows(w, Combine(w, c, result, keeps, n))
  {
    hide SubscribedOk, DirectOk, PlacedOk, CameFrom, Answers, Shaped, Grows, Ordered, Later;
    var u := Combine(w, c, result, keeps, n);
    AddedGrows(w, u, result);
    GrowsIsLater(w, u);
    TasksLater(w, u);
    ResultThere(w);
    CombineNew(w, c, result, keeps, n);
    forall d | d in u.combinators
      ensures Shaped(u, d) && Answers(u, d)
    {
      if d != c {
        GrowsShaped(w, u, d);
        GrowsAnswers(w, u, d);
      }
    }
  }

  lemma CombineNew<P, C>(w: World<P, C>, c: C, result: P, keeps: bool, n: nat)
    ensures var u := Combine(w, c, result, keeps, n); Shaped(u, c) && Answers(u, c)
  {
    var u := Combine(w, c, result, keeps, n);
    assert Delivered(u, c) == {};
  }

  lemma AttachIs<P, C>(w: World<P, C>, c: C, p: P)
    requires c in w.combinators && p in w.promises
    ensures var v := w.combinators[c];
            var u := v.(sources := v.sources + [p], at := v.at + [|w.promises[p].subscribed|]);
            Attach(w, c, p) == Subscribe(w.(combinators := w.combinators[c := u]), p, Element(c, p, |v.sources|))
    ensures Attach(w, c, p).combinators == w.combinators[c := Attach(w, c, p).combinators[c]]
    ensures var s := w.promises[p];
            Attach(w, c, p).promises[p].subscribed == s.subscribed + [Element(c, p, |w.combinators[c].sources|)]
  {
  }

  /** Growth, but for one combinator having more elements. */
  lemma AttachGrows<P, C>(w: World<P, C>, c: C, p: P)
    requires Inv(w) && c in w.combinators && p in w.promises
    ensures var u := Attach(w, c, p); Grows(w, u) && Ordered(u)
  {
    hide PlacedOk, SubscribedOk, DirectOk, Answers, Shaped;
    var v := w.combinators[c];
    var mid := w.(combinators := w.combinators[c := v.(sources := v.sources + [p], at := v.at + [|w.promises[p].subscribed|])]);
    forall k | 0 <= k < |mid.jobs| && mid.jobs[k].from.Subscription?
      ensures CameFrom(mid, k)
    {
      assert CameFrom(w, k);
    }
    SubscribeGrows(mid, p, Element(c, p, |v.sources|));
    AttachIs(w, c, p);
    MidLater(w, mid, c);
    GrowsTrans(w, mid, Attach(w, c, p));
  }

  lemma MidLater<P, C>(w: World<P, C>, mid: World<P, C>, c: C)
    requires c in w.combinators && c in mid.combinators && mid == w.(combinators := w.combinators[c := mid.combinators[c]])
    requires CombinatorLater(w.combinators[c], mid.combinators[c])
    ensures Grows(w, mid)
  {
  }

  /** Element number |sources| is there now, and has not been heard. */
  lemma AttachShaped<P, C>(w: World<P, C>, c: C, p: P)
    requires Inv(w) && c in w.combinators && p in w.promises && |w.combinators[c].sources| < w.combinators[c].total
    ensures var u := Attach(w, c, p);
            && c in u.combinators && Shaped(w, c) && Shaped(u, c)
            && !Heard(u, c, |w.combinators[c].sources|)
            && u.combinators[c] == w.combinators[c].(sources := u.combinators[c].sources, at := u.combinators[c].at)
            && u.combinators[c].sources == w.combinators[c].sources + [p]
  {
    hide SubscribedOk, DirectOk, Answers, CameFrom, Attach, Subscribe, Shaped, Tasks, Remembered, Grows, PlacedOk;
    assert Shaped(w, c);
    AttachGrows(w, c, p);
    GrowsIsLater(w, Attach(w, c, p));
    AttachedAt(w, c, p);
    AttachedShaped(w, Attach(w, c, p), c, p);
  }

  lemma AttachedShaped<P, C>(w: World<P, C>, u: World<P, C>, c: C, p: P)
    requires c in w.combinators && Shaped(w, c) && p in w.promises && c in u.combinators && Later(w, u)
    requires var v := w.combinators[c];
             && |v.sources| < v.total
             && u.combinators[c] == v.(sources := v.sources + [p], at := v.at + [|w.promises[p].subscribed|])
             && u.promises[p].subscribed == w.promises[p].subscribed + [Element(c, p, |v.sources|)]
    ensures Shaped(u, c)
  {
    var v, n := u.combinators[c], |w.combinators[c].sources|;
    assert PromiseLater(w.promises[v.result], u.promises[v.result]);
    forall i | 0 <= i < |v.sources|
      ensures v.sources[i] in u.promises && v.at[i] < |u.promises[v.sources[i]].subscribed|
      ensures u.promises[v.sources[i]].subscribed[v.at[i]] == Element(c, v.sources[i], i)
    {
      if i < n {
        assert v.sources[i] == w.combinators[c].sources[i] && v.at[i] == w.combinators[c].at[i];
        assert PromiseLater(w.promises[v.sources[i]], u.promises[v.sources[i]]);
      }
    }
  }

  lemma AttachedAt<P, C>(w: World<P, C>, c: C, p: P)
    requires Ordered(w) && c in w.combinators && p in w.promises
    ensures var v := w.combinators[c];
            var u := Attach(w, c, p);
            && p in u.promises && c in u.combinators
            && u.combinators[c] == v.(sources := v.sources + [p], at := v.at + [|w.promises[p].subscribed|])
            && u.promises[p].subscribed == w.promises[p].subscribed + [Element(c, p, |v.sources|)]
            && (|w.promises[p].subscribed| < |u.promises[p].placed| ==> u.promises[p].placed[|w.promises[p].subscribed|] >= u.taken)
  {
    assert PlacedOk(w.promises[p], p, w.jobs);
  }

  lemma AttachKeeps<P, C>(w: World<P, C>, c: C, p: P)
    requires Inv(w) && c in w.combinators && p in w.promises && |w.combinators[c].sources| < w.combinators[c].total
    ensures var u := Attach(w, c, p);
            && Inv(u) && Grows(w, u) && c in u.combinators && u.promises.Keys == w.promises.Keys
            && u.combinators[c].sources == w.combinators[c].sources + [p] && u.combinators[c].total == w.combinators[c].total
  {
    hide SubscribedOk, DirectOk, Answers, Shaped, PlacedOk, CameFrom, Grows, Attach, Later, Heard, Ordered;
    var u := Attach(w, c, p);
    AttachGrows(w, c, p);
    AttachShaped(w, c, p);
    AttachIs(w, c, p);
    AttachTasks(w, c, p);
    ResultThere(w);
    AttachResults(w, c, p);
    forall d | d in u.combinators
      ensures Shaped(u, d) && Answers(u, d)
    {
      assert Shaped(w, d) && Answers(w, d);
      if d != c {
        GrowsIsLater(w, u);
        GrowsShaped(w, u, d);
      }
      GrowsAnswers(w, u, d);
    }
  }

  lemma GrowsIsLater<P, C>(w: World<P, C>, u: World<P, C>)
    requires Grows(w, u)
    ensures Later(w, u)
  {
  }

  lemma AttachResults<P, C>(w: World<P, C>, c: C, p: P)
    requires Inv(w) && c in w.combinators && p in w.promises && |w.combinators[c].sources| < w.combinators[c].total
    ensures var u := Attach(w, c, p);
            && u.promises.Keys == w.promises.Keys && Remembered(u)
            && forall q :: q in w.promises ==> u.promises[q].settlement == w.promises[q].settlement
    ensures c in Attach(w, c, p).combinators
  {
    hide Ordered, Tasks, Combinators;
  }

  lemma AttachTasks<P, C>(w: World<P, C>, c: C, p: P)
    requires Inv(w) && c in w.combinators && p in w.promises && |w.combinators[c].sources| < w.combinators[c].total
    ensures Tasks(Attach(w, c, p))
  {
    hide Answers, PlacedOk, CameFrom, Grows, Tasks, Ordered, Remembered, Later;
    var u := Attach(w, c, p);
    AttachGrows(w, c, p);
    GrowsIsLater(w, u);
    assert Shaped(w, c);
    OneSubscribed(w, u, p, Element(c, p, |w.combinators[c].sources|));
  }

  /** One promise is subscribed to, and nothing else is queued directly. */
  lemma OneSubscribed<P, C>(w: World<P, C>, u: World<P, C>, p: P, task: Task<P, C>)
    requires Tasks(w) && Later(w, u) && p in w.promises && u.promises.Keys == w.promises.Keys
    requires forall q :: q in w.promises && q != p ==> u.promises[q] == w.promises[q]
    requires u.promises[p].subscribed == w.promises[p].subscribed + [task]
    requires SubscribedOk(u, p, |w.promises[p].subscribed|, task)
    requires forall k :: |w.jobs| <= k < |u.jobs| ==> u.jobs[k].from.Subscription?
    ensures Tasks(u)
  {
    hide SubscribedOk, DirectOk, Later, Tasks;
    TasksLater(w, u);
  }

  lemma {:induction false} AttachAllKeeps<P, C>(w: World<P, C>, c: C, ps: seq<P>)
    requires Inv(w) && c in w.combinators && forall i :: 0 <= i < |ps| ==> ps[i] in w.promises
    requires |w.combinators[c].sources| + |ps| <= w.combinators[c].total
    ensures var u := AttachAll(w, c, ps);
            && Inv(u) && Grows(w, u) && c in u.combinators
            && u.combinators[c].sources == w.combinators[c].sources + ps && u.combinators[c].total == w.combinators[c].total
    decreases |ps|
  {
    hide Inv, Grows, Attach;
    if ps == [] {
      GrowsSelf(w);
    } else {
      var n := |ps| - 1;
      AttachAllKeeps(w, c, ps[..n]);
      var mid := AttachAll(w, c, ps[..n]);
      AttachKeeps(mid, c, ps[n]);
      GrowsTrans(w, mid, Attach(mid, c, ps[n]));
      assert ps[..n] + [ps[n]] == ps;
    }
  }

  // ---- a job runs ----

  ghost function Taken<P, C>(w: World<P, C>): World<P, C> {
    w.(taken := w.taken + 1)
  }

  /** The oldest job is what its subscription says, of a settled promise. */
  lemma JobIs<P, C>(w: World<P, C>)
    requires Ordered(w) && Tasks(w) && w.taken < |w.jobs|
    ensures var job := w.jobs[w.taken];
            match job.from
            case Direct => DirectOk(w, job.task)
            case Subscription(p, idx) =>
              && p in w.promises && idx < |w.promises[p].placed| && idx < |w.promises[p].subscribed|
              && w.promises[p].placed[idx] == w.taken && w.promises[p].subscribed[idx] == job.task
              && !w.promises[p].settlement.Pending? && SubscribedOk(w, p, idx, job.task)
  {
    var job := w.jobs[w.taken];
    if job.from.Subscription? {
      assert CameFrom(w, w.taken);
      assert PlacedOk(w.promises[job.from.of], job.from.of, w.jobs);
    }
  }

  lemma TakenKeeps<P, C>(w: World<P, C>)
    requires Ordered(w) && Tasks(w) && Remembered(w) && w.taken < |w.jobs|
    ensures var u := Taken(w); Ordered(u) && Tasks(u) && Remembered(u) && Later(w, u)
  {
    var u := Taken(w);
    forall k | 0 <= k < |u.jobs| && u.jobs[k].from.Subscription?
      ensures CameFrom(u, k)
    {
      assert CameFrom(w, k);
    }
    TasksLater(w, u);
  }

  /** Taking a job is hearing the element it is for, and nothing else. */
  lemma TakenHeard<P, C>(w: World<P, C>, c: C, i: int)
    requires Ordered(w) && Tasks(w) && w.taken < |w.jobs| && c in w.combinators && Shaped(w, c)
    requires 0 <= i < |w.combinators[c].sources|
    ensures Shaped(Taken(w), c) && SourceOf(Taken(w), c, i) == SourceOf(w, c, i) && Pos(Taken(w), c, i) == Pos(w, c, i)
    ensures w.jobs[w.taken].task == Element(c, w.combinators[c].sources[i], i) <==> Pos(w, c, i) == w.taken
    ensures Heard(Taken(w), c, i) <==> Heard(w, c, i) || Pos(w, c, i) == w.taken
    ensures Pos(w, c, i) == w.taken ==> !SourceOf(w, c, i).Pending?
  {
    var v := w.combinators[c];
    var p := v.sources[i];
    assert PlacedOk(w.promises[p], p, w.jobs);
    JobIs(w);
  }

  lemma TakenOther<P, C>(w: World<P, C>, c: C)
    requires Ordered(w) && Tasks(w) && w.taken < |w.jobs| && c in w.combinators && Shaped(w, c) && Answers(w, c)
    requires w.jobs[w.taken].task.Element? ==> w.jobs[w.taken].task.all != c
    ensures Shaped(Taken(w), c) && Answers(Taken(w), c)
  {
    var u := Taken(w);
    assert Shaped(u, c);
    forall i: int
      ensures Heard(u, c, i) <==> Heard(w, c, i)
      ensures Decides(u, c, i) <==> Decides(w, c, i)
    {
      if 0 <= i < |w.combinators[c].sources| {
        TakenHeard(w, c, i);
      }
    }
    assert Delivered(u, c) == Delivered(w, c);
    assert forall i :: First(u, c, i) <==> First(w, c, i);
  }

  /** The element whose turn it is has not been heard, so something is still
      waited for. */
  lemma Waiting<P, C>(w: World<P, C>, c: C, i: int)
    requires c in w.combinators && Shaped(w, c) && Answers(w, c) && w.combinators[c].keeps
    requires 0 <= i < |w.combinators[c].sources| && i !in Delivered(w, c)
    ensures w.combinators[c].remaining > 0
  {
    var all := Below(w.combinators[c].total);
    assert i in all;
    SubsetSmaller(Delivered(w, c), all);
  }

  ghost function Below(n: nat): (s: set<int>)
    ensures |s| == n && forall k :: k in s <==> 0 <= k < n
  {
    if n == 0 then {} else Below(n - 1) + {n - 1}
  }

  /** What Deliver leaves of the result, the count and the values. */
  ghost function Settled<P, C>(w: World<P, C>, c: C, i: nat): Settlement<C>
    requires c in w.combinators && Shaped(w, c) && i < |w.combinators[c].sources|
  {
    var v := w.combinators[c];
    var s := w.promises[v.result].settlement;
    if !s.Pending? then s
    else if !v.keeps || !SourceOf(w, c, i).Fulfilled? then SourceOf(w, c, i)
    else if v.remaining == 1 then Fulfilled(Results(c))
    else Pending
  }

  lemma SizesIs<P, C>(w: World<P, C>, c: C)
    requires Inv(w) && c in w.combinators
    ensures Shaped(w, c) && Answers(w, c) && w.combinators[c].result in w.promises
    ensures |w.combinators[c].sources| <= w.combinators[c].total
    ensures |w.combinators[c].values| == (if w.combinators[c].keeps then w.combinators[c].total else 0)
  {
  }

  lemma TakenRejects<P, C>(w: World<P, C>, c: C, i: nat)
    requires Inv(w) && w.taken < |w.jobs| && c in w.combinators && Shaped(w, c) && i < |w.combinators[c].sources|
    requires w.jobs[w.taken].task == Element(c, w.combinators[c].sources[i], i)
    requires !w.combinators[c].keeps || !SourceOf(w, c, i).Fulfilled?
    ensures Shaped(Taken(w), c)
    ensures AnswersAs(Taken(w), c, Settled(w, c, i), w.combinators[c].remaining, w.combinators[c].values)
  {
    hide SubscribedOk, DirectOk, PlacedOk, CameFrom, Remembered, Shaped, Ordered, Tasks, Combinators;
    var u, v := Taken(w), w.combinators[c];
    SizesIs(w, c);
    TakenHeard(w, c, i);
    forall j: int
      ensures j == i ==> Decides(u, c, j) && !Heard(w, c, j)
      ensures j != i ==> (Heard(u, c, j) <==> Heard(w, c, j)) && (Decides(u, c, j) <==> Decides(w, c, j))
      ensures Decides(w, c, j) ==> Pos(u, c, j) == Pos(w, c, j) < Pos(u, c, i) && SourceOf(u, c, j) == SourceOf(w, c, j)
    {
      if 0 <= j < |v.sources| {
        TakenHeard(w, c, j);
      }
    }
    if v.keeps {
      assert Delivered(u, c) == Delivered(w, c);
      Waiting(w, c, i);
    }
    if w.promises[v.result].settlement.Pending? {
      assert First(u, c, i);
    } else {
      assert forall j :: First(u, c, j) <==> First(w, c, j);
    }
  }

  lemma HeardAfter<P, C>(w: World<P, C>, c: C, i: nat, j: int)
    requires Inv(w) && w.taken < |w.jobs| && c in w.combinators && Shaped(w, c) && i < |w.combinators[c].sources|
    requires w.jobs[w.taken].task == Element(c, w.combinators[c].sources[i], i)
    requires w.combinators[c].keeps && SourceOf(w, c, i).Fulfilled?
    ensures Shaped(Taken(w), c)
    ensures j == i ==> Heard(Taken(w), c, j) && !Heard(w, c, j)
    ensures j != i ==> (Heard(Taken(w), c, j) <==> Heard(w, c, j))
    ensures Decides(Taken(w), c, j) <==> Decides(w, c, j)
    ensures 0 <= j < |w.combinators[c].sources| ==>
              Pos(Taken(w), c, j) == Pos(w, c, j) && SourceOf(Taken(w), c, j) == SourceOf(w, c, j)
  {
    hide SubscribedOk, DirectOk, PlacedOk, CameFrom, Remembered, Shaped, Ordered, Tasks, Combinators;
    SizesIs(w, c);
    TakenHeard(w, c, i);
    if 0 <= j < |w.combinators[c].sources| {
      TakenHeard(w, c, j);
    }
  }

  lemma TakenFulfilsSets<P, C>(w: World<P, C>, c: C, i: nat)
    requires Inv(w) && w.taken < |w.jobs| && c in w.combinators && Shaped(w, c) && i < |w.combinators[c].sources|
    requires w.jobs[w.taken].task == Element(c, w.combinators[c].sources[i], i)
    requires w.combinators[c].keeps && SourceOf(w, c, i).Fulfilled?
    ensures Shaped(Taken(w), c) && i !in Delivered(w, c) && Delivered(Taken(w), c) == Delivered(w, c) + {i as int}
    ensures forall j :: Decides(Taken(w), c, j) <==> Decides(w, c, j)
    ensures forall j :: First(Taken(w), c, j) <==> First(w, c, j)
  {
    hide Inv, Shaped, Pos, SourceOf;
    var u := Taken(w);
    HeardAfter(w, c, i, i);
    forall j: int
      ensures j == i ==> Heard(u, c, j) && !Heard(w, c, j)
      ensures j != i ==> (Heard(u, c, j) <==> Heard(w, c, j))
      ensures Decides(u, c, j) <==> Decides(w, c, j)
      ensures 0 <= j < |w.combinators[c].sources| ==> Pos(u, c, j) == Pos(w, c, j) && SourceOf(u, c, j) == SourceOf(w, c, j)
    {
      HeardAfter(w, c, i, j);
    }
    assert Delivered(u, c) == Delivered(w, c) + {i as int};
    assert forall j :: First(u, c, j) <==> First(w, c, j);
  }

  lemma TakenFulfils<P, C>(w: World<P, C>, c: C, i: nat)
    requires Inv(w) && w.taken < |w.jobs| && c in w.combinators && Shaped(w, c) && i < |w.combinators[c].sources|
    requires w.jobs[w.taken].task == Element(c, w.combinators[c].sources[i], i)
    requires w.combinators[c].keeps && SourceOf(w, c, i).Fulfilled?
    ensures Shaped(Taken(w), c) && w.combinators[c].remaining > 0
    ensures AnswersAs(Taken(w), c, Settled(w, c, i), w.combinators[c].remaining - 1,
                      w.combinators[c].values[i := Some(SourceOf(w, c, i).value)])
  {
    hide SubscribedOk, DirectOk, PlacedOk, CameFrom, Remembered, Shaped, Inv, Heard, Pos, First, Decides, Delivered;
    var u, v := Taken(w), w.combinators[c];
    SizesIs(w, c);
    TakenFulfilsSets(w, c, i);
    Waiting(w, c, i);
    FirstIs(u, c);
    if v.remaining == 1 {
      AllDelivered(u, c);
    }
  }

  lemma FirstIs<P, C>(w: World<P, C>, c: C)
    requires c in w.combinators && Shaped(w, c)
    ensures forall i :: First(w, c, i) ==> Decides(w, c, i) && 0 <= i < |w.combinators[c].sources|
    ensures forall i :: i in Delivered(w, c) ==> 0 <= i < |w.combinators[c].sources|
  {
  }

  /** All delivered as fulfilled, none decides otherwise. */
  lemma AllDelivered<P, C>(w: World<P, C>, c: C)
    requires c in w.combinators && Shaped(w, c) && w.combinators[c].keeps && |Delivered(w, c)| == w.combinators[c].total
    ensures forall i :: 0 <= i < w.combinators[c].total ==> i in Delivered(w, c)
    ensures forall i :: !Decides(w, c, i)
  {
    var all := Below(w.combinators[c].total);
    if Delivered(w, c) < all {
      SubsetSmaller(Delivered(w, c), all);
    }
    assert Delivered(w, c) == all;
    assert forall i :: Decides(w, c, i) ==> i !in Delivered(w, c);
  }

  /** A combinator's values and count alone are changed. */
  lemma MidKeeps<P, C>(w: World<P, C>, u: World<P, C>, c: C)
    requires Ordered(w) && Tasks(w) && Remembered(w) && c in w.combinators && c in u.combinators
    requires u == w.(combinators := w.combinators[c := u.combinators[c]])
    requires CombinatorLater(w.combinators[c], u.combinators[c])
    ensures Ordered(u) && Tasks(u) && Remembered(u) && Grows(w, u)
  {
    MidLater(w, u, c);
    forall k | 0 <= k < |u.jobs| && u.jobs[k].from.Subscription?
      ensures CameFrom(u, k)
    {
      assert CameFrom(w, k);
    }
    TasksLater(w, u);
  }

  lemma ElementIs<P, C>(w: World<P, C>, c: C, source: P, i: nat)
    requires Inv(w) && w.taken < |w.jobs| && w.jobs[w.taken].task == Element(c, source, i)
    ensures c in w.combinators && Shaped(w, c) && Answers(w, c)
    ensures i < |w.combinators[c].sources| && w.combinators[c].sources[i] == source && source in w.promises
    ensures !w.promises[source].settlement.Pending? && w.promises[source].settlement == SourceOf(w, c, i)
    ensures w.combinators[c].result in w.promises
    ensures w.combinators[c].keeps ==> i < |w.combinators[c].values| && w.combinators[c].remaining > 0
  {
    JobIs(w);
    TakenHeard(w, c, i);
    SizesIs(w, c);
    if w.combinators[c].keeps {
      Waiting(w, c, i);
    }
  }

  /** The world once an element's count and value are in, and the settlement its
      combinator's result is then given, if any. */
  ghost function Counted<P, C>(w: World<P, C>, c: C, source: P, i: nat): World<P, C>
    requires c in w.combinators && source in w.promises
    requires w.combinators[c].keeps ==> i < |w.combinators[c].values| && w.combinators[c].remaining > 0
  {
    var v := w.combinators[c];
    var s := w.promises[source].settlement;
    if !v.keeps || !s.Fulfilled? then w
    else w.(combinators := w.combinators[c := v.(values := v.values[i := Some(s.value)], remaining := v.remaining - 1)])
  }

  lemma DeliverIs<P, C>(w: World<P, C>, c: C, source: P, i: nat)
    requires c in w.combinators && Shaped(w, c) && i < |w.combinators[c].sources| && w.combinators[c].sources[i] == source
    requires source in w.promises && w.combinators[c].result in w.promises && !SourceOf(w, c, i).Pending?
    requires w.combinators[c].keeps ==> i < |w.combinators[c].values| && w.combinators[c].remaining > 0
    ensures var mid := Counted(w, c, source, i);
            var r := w.combinators[c].result;
            Deliver(w, c, source, i) ==
              if mid.promises[r].settlement.Pending? && !Settled(w, c, i).Pending? then Settle(mid, r, Settled(w, c, i)) else mid
  {
  }

  lemma CountedKeeps<P, C>(w: World<P, C>, c: C, source: P, i: nat)
    requires Ordered(w) && Tasks(w) && Remembered(w) && c in w.combinators && source in w.promises
    requires w.combinators[c].keeps ==> i < |w.combinators[c].values| && w.combinators[c].remaining > 0
    ensures var u := Counted(w, c, source, i);
            && Ordered(u) && Tasks(u) && Remembered(u) && Grows(w, u) && c in u.combinators
            && u.promises == w.promises && u.combinators == w.combinators[c := u.combinators[c]]
            && u.combinators[c] == w.combinators[c].(values := u.combinators[c].values, remaining := u.combinators[c].remaining)
            && |u.combinators[c].values| == |w.combinators[c].values| && u.combinators[c].remaining <= w.combinators[c].remaining
  {
    var u := Counted(w, c, source, i);
    if u == w {
      GrowsSelf(w);
    } else {
      MidKeeps(w, u, c);
    }
  }

  /** Delivering from u0, the world with the job taken, to u. */
  lemma DeliverGrows<P, C>(w: World<P, C>, c: C, source: P, i: nat)
    requires Ordered(w) && Tasks(w) && Remembered(w) && c in w.combinators && Shaped(w, c)
    requires i < |w.combinators[c].sources| && w.combinators[c].sources[i] == source
    requires source in w.promises && w.combinators[c].result in w.promises && !SourceOf(w, c, i).Pending?
    requires w.combinators[c].keeps ==> i < |w.combinators[c].values| && w.combinators[c].remaining > 0
    ensures var u := Deliver(w, c, source, i);
            && Ordered(u) && Tasks(u) && Remembered(u) && Grows(w, u) && c in u.combinators && u.promises.Keys == w.promises.Keys
            && u.combinators[c].result == w.combinators[c].result
            && u.combinators == w.combinators[c := u.combinators[c]] && u.combinators[c] == Counted(w, c, source, i).combinators[c]
            && (forall p :: p in w.promises && p != w.combinators[c].result ==> u.promises[p].settlement == w.promises[p].settlement)
            && u.promises[w.combinators[c].result].settlement == Settled(w, c, i)
  {
    hide Ordered, Tasks, Remembered, Grows, Shaped, Deliver;
    CountedKeeps(w, c, source, i);
    DeliverIs(w, c, source, i);
    var mid, r := Counted(w, c, source, i), w.combinators[c].result;
    if mid.promises[r].settlement.Pending? && !Settled(w, c, i).Pending? {
      SettleRest(mid, r, Settled(w, c, i));
      GrowsTrans(w, mid, Deliver(w, c, source, i));
    }
  }

  lemma DeliverKeeps<P, C>(w: World<P, C>, c: C, source: P, i: nat)
    requires Inv(w) && w.taken < |w.jobs| && w.jobs[w.taken].task == Element(c, source, i)
    ensures Runs(w) && Inv(RunJob(w)) && Later(w, RunJob(w))
  {
    hide Ordered, Tasks, Remembered, Grows, Shaped, Deliver, Later, Answers, AnswersAs, Settled, Counted;
    ElementIs(w, c, source, i);
    TakenKeeps(w);
    var u0 := Taken(w);
    var u := RunJob(w);
    TakenHeard(w, c, i);
    DeliverGrows(u0, c, source, i);
    GrowsIsLater(u0, u);
    LaterTrans(w, u0, u);
    DeliverAnswers(w, c, source, i, u);
    forall d | d in u.combinators
      ensures Shaped(u, d) && Answers(u, d)
    {
      if d != c {
        assert Shaped(w, d) && Answers(w, d);
        SizesIs(w, d);
        TakenOther(w, d);
        GrowsShaped(u0, u, d);
        GrowsAnswers(u0, u, d);
      }
    }
  }

  lemma DeliverAnswers<P, C>(w: World<P, C>, c: C, source: P, i: nat, u: World<P, C>)
    requires Inv(w) && w.taken < |w.jobs| && w.jobs[w.taken].task == Element(c, source, i)
    requires c in w.combinators && Shaped(w, c) && i < |w.combinators[c].sources| && w.combinators[c].sources[i] == source && source in w.promises
    requires w.combinators[c].keeps ==> i < |w.combinators[c].values| && w.combinators[c].remaining > 0
    requires Shaped(Taken(w), c) && Ordered(Taken(w)) && Grows(Taken(w), u)
    requires c in u.combinators && u.combinators[c] == Counted(Taken(w), c, source, i).combinators[c]
    requires u.promises[w.combinators[c].result].settlement == Settled(Taken(w), c, i)
    ensures Shaped(u, c) && Answers(u, c)
  {
    hide Ordered, Tasks, Remembered, Grows, Shaped, Deliver, Inv, AnswersAs;
    var u0 := Taken(w);
    SizesIs(w, c);
    if !w.combinators[c].keeps || !SourceOf(w, c, i).Fulfilled? {
      TakenRejects(w, c, i);
    } else {
      TakenFulfils(w, c, i);
    }
    GrowsIsLater(u0, u);
    GrowsShaped(u0, u, c);
    GrowsAnswersAs(u0, u, c, Settled(u0, c, i), u.combinators[c].remaining, u.combinators[c].values);
  }

  lemma TakenInv<P, C>(w: World<P, C>)
    requires Inv(w) && w.taken < |w.jobs| && !w.jobs[w.taken].task.Element?
    ensures Inv(Taken(w)) && Later(w, Taken(w))
  {
    hide Answers, Shaped, Ordered, Tasks, Remembered, Later;
    TakenKeeps(w);
    forall c | c in w.combinators
      ensures Shaped(Taken(w), c) && Answers(Taken(w), c)
    {
      assert Shaped(w, c) && Answers(w, c);
      TakenOther(w, c);
    }
  }

  /** Running the oldest job is always possible, and keeps everything. */
  lemma RunKeeps<P, C>(w: World<P, C>)
    requires Inv(w) && w.taken < |w.jobs|
    ensures Runs(w) && Inv(RunJob(w)) && Later(w, RunJob(w))
  {
    hide Inv, Later, Grows, Resolve, Subscribe;
    var u := Taken(w);
    RunsParts(w);
    match w.jobs[w.taken].task
    case Element(c, source, i) => DeliverKeeps(w, c, source, i);
    case Callback(_) => TakenInv(w);
    case Begin(outer, inner) =>
      TakenInv(w);
      SubscribeKeeps(u, inner, Forward(outer, inner));
      GrowsIsLater(u, RunJob(w));
      LaterTrans(w, u, RunJob(w));
    case Forward(outer, inner) =>
      TakenInv(w);
      ResolveKeeps(u, outer, u.promises[inner].settlement);
      GrowsIsLater(u, RunJob(w));
      LaterTrans(w, u, RunJob(w));
  }

  lemma RunsParts<P, C>(w: World<P, C>)
    requires Inv(w) && w.taken < |w.jobs|
    ensures match w.jobs[w.taken].task
            case Begin(outer, inner) => inner in w.promises && outer in w.promises && !IsResult(w, outer) && !IsResult(Taken(w), outer)
            case Forward(outer, inner) =>
              && outer in w.promises && inner in w.promises && !IsResult(w, outer) && !IsResult(Taken(w), outer)
              && !w.promises[inner].settlement.Pending?
            case _ => true
  {
    JobIs(w);
  }

  lemma ReportKeeps<P, C>(w: World<P, C>)
    requires Inv(w)
    ensures Inv(Report(w)) && Later(w, Report(w))
  {
    var u := Report(w);
    assert forall k :: 0 <= k < |u.jobs| && u.jobs[k].from.Subscription? ==> CameFrom(w, k) ==> CameFrom(u, k);
    GrowsReport(w);
    TasksLater(w, u);
    ResultThere(w);
    GrowsCombinators(w, u);
  }

  lemma GrowsReport<P, C>(w: World<P, C>)
    ensures Grows(w, Report(w))
  {
  }

  // ---- adoption: two hops ----

  /** Whatever ran as a first hop has subscribed its second, which was not in
      the queue by then; whatever ran as a second has settled its promise. */
  ghost predicate Adopted<P, C>(w: World<P, C>) {
    && w.taken <= |w.jobs|
    && (forall k :: 0 <= k < w.taken && w.jobs[k].task.Begin? ==>
          exists idx :: Hopped(w, k, w.jobs[k].task.outer, w.jobs[k].task.inner, idx))
    && (forall k :: 0 <= k < w.taken && w.jobs[k].task.Forward? ==> Closed(w, w.jobs[k].task.outer))
  }

  ghost predicate Hopped<P, C>(w: World<P, C>, k: nat, outer: P, inner: P, idx: int) {
    && inner in w.promises && 0 <= idx < |w.promises[inner].subscribed| && k < |w.jobs|
    && w.promises[inner].subscribed[idx] == Forward(outer, inner)
    && forall j :: 0 <= j <= k ==> w.jobs[j].from != Subscription(inner, idx)
  }

  ghost predicate Closed<P, C>(w: World<P, C>, p: P) {
    p in w.promises && !w.promises[p].settlement.Pending?
  }

  lemma AdoptedLater<P, C>(w: World<P, C>, u: World<P, C>)
    requires Adopted(w) && Later(w, u) && u.taken == w.taken
    ensures Adopted(u)
  {
    AdoptedEarlier(w, u);
  }

  lemma AdoptedEarlier<P, C>(w: World<P, C>, u: World<P, C>)
    requires Adopted(w) && Later(w, u)
    ensures forall k :: 0 <= k < w.taken && u.jobs[k].task.Begin? ==>
              exists idx :: Hopped(u, k, u.jobs[k].task.outer, u.jobs[k].task.inner, idx)
    ensures forall k :: 0 <= k < w.taken && u.jobs[k].task.Forward? ==> Closed(u, u.jobs[k].task.outer)
  {
    forall k | 0 <= k < w.taken && u.jobs[k].task.Begin?
      ensures exists idx :: Hopped(u, k, u.jobs[k].task.outer, u.jobs[k].task.inner, idx)
    {
      var Begin(outer, inner) := w.jobs[k].task;
      var idx :| Hopped(w, k, outer, inner, idx);
      assert PromiseLater(w.promises[inner], u.promises[inner]);
      assert Hopped(u, k, outer, inner, idx);
    }
    forall k | 0 <= k < w.taken && u.jobs[k].task.Forward?
      ensures Closed(u, u.jobs[k].task.outer)
    {
      var outer := w.jobs[k].task.outer;
      assert Closed(w, outer) && PromiseLater(w.promises[outer], u.promises[outer]);
    }
  }

  lemma RunAdopts<P, C>(w: World<P, C>)
    requires Inv(w) && Adopted(w) && w.taken < |w.jobs|
    ensures Runs(w) && Adopted(RunJob(w))
  {
    hide Inv, Later, SubscribedOk, DirectOk, Answers;
    RunKeeps(w);
    var u := RunJob(w);
    AdoptedEarlier(w, u);
    RunsParts(w);
    RunTaken(w);
    match w.jobs[w.taken].task
    case Begin(outer, inner) =>
      NotPlacedYet(w, inner);
      assert Hopped(u, w.taken, outer, inner, |w.promises[inner].subscribed|);
    case Forward(outer, inner) =>
      assert Closed(u, outer);
    case _ =>
  }

  lemma RunTaken<P, C>(w: World<P, C>)
    requires Runs(w)
    ensures RunJob(w).taken == w.taken + 1 && w.jobs <= RunJob(w).jobs
  {
  }

  lemma NotPlacedYet<P, C>(w: World<P, C>, p: P)
    requires Inv(w) && p in w.promises
    ensures forall j :: 0 <= j < |w.jobs| ==> w.jobs[j].from != Subscription(p, |w.promises[p].subscribed|)
  {
    assert PlacedOk(w.promises[p], p, w.jobs);
    forall j | 0 <= j < |w.jobs|
      ensures w.jobs[j].from != Subscription(p, |w.promises[p].subscribed|)
    {
      if w.jobs[j].from.Subscription? {
        assert CameFrom(w, j);
      }
    }
  }

  // ---- any run ----

  /** What can happen: what a program may do between two jobs, and a job's turn.
      The program settles only promises of its own. */
  datatype Event<P, C> =
    | Made(p: P)
    | Listened(p: P, id: nat)
    | Given(p: P, s: Settlement<C>)
    | GivenPromise(outer: P, inner: P)
    | Joined(c: C, result: P, keeps: bool, ps: seq<P>)
    | Queued(id: nat)
    | Turn
    | Reported

  ghost predicate Legal<P, C>(w: World<P, C>, e: Event<P, C>) {
    match e
    case Made(p) => p !in w.promises
    case Listened(p, _) => p in w.promises
    case Given(p, s) => p in w.promises && !IsResult(w, p) && !s.Pending?
    case GivenPromise(outer, inner) => outer in w.promises && inner in w.promises && !IsResult(w, outer)
    case Joined(c, result, _, ps) =>
      c !in w.combinators && result !in w.promises && forall i :: 0 <= i < |ps| ==> ps[i] in w.promises
    case Queued(_) => true
    case Turn => Runs(w)
    case Reported => true
  }

  ghost function Apply<P, C>(w: World<P, C>, e: Event<P, C>): World<P, C>
    requires Legal(w, e)
  {
    match e
    case Made(p) => Create(w, p)
    case Listened(p, id) => Subscribe(w, p, Callback(id))
    case Given(p, s) => Resolve(w, p, s)
    case GivenPromise(outer, inner) => Adopt(w, outer, inner)
    case Joined(c, result, keeps, ps) => AttachAll(Combine(w, c, result, keeps, |ps|), c, ps)
    case Queued(id) => Enqueue(w, Callback(id), Direct)
    case Turn => RunJob(w)
    case Reported => Report(w)
  }

  ghost predicate Good<P, C>(w: World<P, C>) {
    Inv(w) && Adopted(w) && Attached(w) && Named(w)
  }

  /** A rejection is on the list once, and not when it has been reported. */
  ghost predicate Named<P, C>(w: World<P, C>) {
    && (forall i, j :: 0 <= i < j < |w.rejected| ==> w.rejected[i] != w.rejected[j])
    && (forall i :: 0 <= i < |w.rejected| ==>
          w.rejected[i] in w.promises && !w.promises[w.rejected[i]].settlement.Pending? && w.rejected[i] !in w.reported)
    && (forall p :: p in w.reported ==> p in w.promises && !w.promises[p].settlement.Pending?)
  }

  lemma NamedLater<P, C>(w: World<P, C>, u: World<P, C>)
    requires Named(w) && Later(w, u) && u.rejected == w.rejected && u.reported == w.reported
    ensures Named(u)
  {
    forall p | p in w.promises && !w.promises[p].settlement.Pending?
      ensures p in u.promises && !u.promises[p].settlement.Pending?
    {
      assert PromiseLater(w.promises[p], u.promises[p]);
    }
  }

  /** w with more rejections on its list. */
  lemma NamedResolve<P, C>(w: World<P, C>, p: P, s: Settlement<C>)
    requires Named(w) && p in w.promises && !s.Pending?
    ensures Named(Resolve(w, p, s))
  {
  }

  lemma {:induction false} AttachAllNames<P, C>(w: World<P, C>, c: C, ps: seq<P>)
    requires c in w.combinators && forall i :: 0 <= i < |ps| ==> ps[i] in w.promises
    ensures AttachAll(w, c, ps).rejected == w.rejected && AttachAll(w, c, ps).reported == w.reported
    decreases |ps|
  {
    if ps != [] {
      AttachAllNames(w, c, ps[..|ps| - 1]);
    }
  }

  /** Worlds that differ in nothing a report looks at. */
  lemma NamedSame<P, C>(w: World<P, C>, u: World<P, C>)
    requires Named(w) && u.rejected == w.rejected && u.reported == w.reported
    requires forall p :: p in w.promises ==> p in u.promises && u.promises[p].settlement == w.promises[p].settlement
    ensures Named(u)
  {
  }

  lemma DeliverNamed<P, C>(w: World<P, C>, c: C, source: P, i: nat)
    requires Named(w) && c in w.combinators && source in w.promises && w.combinators[c].result in w.promises
    requires !w.promises[source].settlement.Pending?
    requires w.combinators[c].keeps ==> i < |w.combinators[c].values| && w.combinators[c].remaining > 0
    ensures Named(Deliver(w, c, source, i))
  {
    hide Resolve, Named;
    var v, s := w.combinators[c], w.promises[source].settlement;
    NamedSame(w, Counted(w, c, source, i));
    if !v.keeps || !s.Fulfilled? {
      NamedResolve(w, v.result, s);
    } else if v.remaining == 1 {
      NamedResolve(Counted(w, c, source, i), v.result, Fulfilled(Results(c)));
    }
  }

  lemma TurnNames<P, C>(w: World<P, C>)
    requires Inv(w) && Named(w) && Runs(w)
    ensures Named(RunJob(w))
  {
    hide Inv, Named, Resolve, Deliver;
    RunsParts(w);
    NamedSame(w, Taken(w));
    match w.jobs[w.taken].task
    case Element(c, source, i) =>
      ElementIs(w, c, source, i);
      DeliverNamed(Taken(w), c, source, i);
    case Begin(outer, inner) =>
      NamedSame(Taken(w), RunJob(w));
    case Forward(outer, inner) =>
      NamedResolve(Taken(w), outer, w.promises[inner].settlement);
    case _ =>
  }

  lemma ApplyNames<P, C>(w: World<P, C>, e: Event<P, C>)
    requires Inv(w) && Named(w) && Legal(w, e) && Later(w, Apply(w, e))
    ensures Named(Apply(w, e))
  {
    hide Inv, Later, RunJob, AttachAll, Named, Resolve;
    match e
    case Given(p, s) => NamedResolve(w, p, s);
    case Turn => TurnNames(w);
    case Reported => NamedReport(w);
    case Joined(c, result, keeps, ps) =>
      AttachAllNames(Combine(w, c, result, keeps, |ps|), c, ps);
      NamedLater(w, Apply(w, e));
    case _ => NamedLater(w, Apply(w, e));
  }

  lemma NamedReport<P, C>(w: World<P, C>)
    requires Named(w)
    ensures Named(Report(w))
  {
  }

  /** Between two events every combinator has subscribed to all its elements. */
  ghost predicate Attached<P, C>(w: World<P, C>) {
    forall c :: c in w.combinators ==> |w.combinators[c].sources| == w.combinators[c].total
  }

  lemma AttachedLater<P, C>(w: World<P, C>, u: World<P, C>)
    requires Attached(w) && Later(w, u) && Inv(u)
    ensures forall c :: c in w.combinators ==> c in u.combinators && |u.combinators[c].sources| == u.combinators[c].total
  {
    forall c | c in w.combinators
      ensures c in u.combinators && |u.combinators[c].sources| == u.combinators[c].total
    {
      assert Shaped(u, c) && CombinatorLater(w.combinators[c], u.combinators[c]);
    }
  }

  /** Only joining makes a combinator. */
  lemma SameCombinators<P, C>(w: World<P, C>, e: Event<P, C>)
    requires Legal(w, e) && !e.Joined?
    ensures Apply(w, e).combinators.Keys == w.combinators.Keys
  {
  }

  lemma {:induction false} AttachedSources<P, C>(w: World<P, C>, c: C, ps: seq<P>)
    requires c in w.combinators && forall i :: 0 <= i < |ps| ==> ps[i] in w.promises
    ensures |AttachAll(w, c, ps).combinators[c].sources| == |w.combinators[c].sources| + |ps|
    ensures AttachAll(w, c, ps).combinators[c].total == w.combinators[c].total
    ensures AttachAll(w, c, ps).combinators.Keys == w.combinators.Keys
    decreases |ps|
  {
    if ps != [] {
      AttachedSources(w, c, ps[..|ps| - 1]);
    }
  }

  lemma ApplyAttaches<P, C>(w: World<P, C>, e: Event<P, C>)
    requires Attached(w) && Legal(w, e) && Inv(Apply(w, e)) && Later(w, Apply(w, e))
    ensures Attached(Apply(w, e))
  {
    hide Inv, Later, AttachAll, Combine, Apply;
    AttachedLater(w, Apply(w, e));
    if e.Joined? {
      JoinedIs(w, e);
      CombineIs(w, e.c, e.result, e.keeps, |e.ps|);
      AttachedSources(Combine(w, e.c, e.result, e.keeps, |e.ps|), e.c, e.ps);
    } else {
      SameCombinators(w, e);
    }
  }

  lemma JoinedIs<P, C>(w: World<P, C>, e: Event<P, C>)
    requires Legal(w, e) && e.Joined?
    ensures var mid := Combine(w, e.c, e.result, e.keeps, |e.ps|);
            && mid.combinators.Keys == w.combinators.Keys + {e.c} && e.c !in w.combinators
            && e.c in mid.combinators && (forall i :: 0 <= i < |e.ps| ==> e.ps[i] in mid.promises)
            && Apply(w, e) == AttachAll(mid, e.c, e.ps)
  {
  }

  lemma ApplyKeeps<P, C>(w: World<P, C>, e: Event<P, C>)
    requires Good(w) && Legal(w, e)
    ensures Good(Apply(w, e)) && Later(w, Apply(w, e))
  {
    hide Inv, Adopted, Attached, Named, Later, Grows, Subscribe, Resolve, AttachAll, Combine, Create, RunJob, Runs;
    var u := Apply(w, e);
    match e {
      case Made(p) => CreateKeeps(w, p);
      case Listened(p, id) => SubscribeKeeps(w, p, Callback(id));
      case Given(p, s) => ResolveKeeps(w, p, s);
      case GivenPromise(outer, inner) => EnqueueKeeps(w, Begin(outer, inner));
      case Joined(c, result, keeps, ps) =>
        CombineKeeps(w, c, result, keeps, |ps|);
        var mid := Combine(w, c, result, keeps, |ps|);
        CombineIs(w, c, result, keeps, |ps|);
        AttachAllKeeps(mid, c, ps);
        GrowsTrans(w, mid, u);
      case Queued(id) => EnqueueKeeps(w, Callback(id));
      case Turn =>
        RunsIs(w);
        RunKeeps(w);
        RunAdopts(w);
      case Reported =>
        ReportKeeps(w);
        GrowsReport(w);
    }
    if !e.Turn? {
      GrowsIsLater(w, u);
      GrowsTaken(w, u);
      AdoptedLater(w, u);
    }
    ApplyAttaches(w, e);
    ApplyNames(w, e);
  }

  lemma RunsIs<P, C>(w: World<P, C>)
    requires Runs(w)
    ensures w.taken < |w.jobs|
  {
  }

  lemma GrowsTaken<P, C>(w: World<P, C>, u: World<P, C>)
    requires Grows(w, u)
    ensures u.taken == w.taken
  {
  }

  lemma CombineIs<P, C>(w: World<P, C>, c: C, result: P, keeps: bool, n: nat)
    ensures var u := Combine(w, c, result, keeps, n);
            && c in u.combinators && u.combinators[c].sources == [] && u.combinators[c].total == n
            && u.combinators[c].result == result && u.combinators[c].keeps == keeps && u.promises.Keys == w.promises.Keys + {result}
  {
  }

  ghost predicate LegalRun<P, C>(w: World<P, C>, es: seq<Event<P, C>>)
    decreases |es|
  {
    es == [] || (Legal(w, es[0]) && LegalRun(Apply(w, es[0]), es[1..]))
  }

  ghost function After<P, C>(w: World<P, C>, es: seq<Event<P, C>>): World<P, C>
    requires LegalRun(w, es)
    decreases |es|
  {
    if es == [] then w else After(Apply(w, es[0]), es[1..])
  }

  /** Every world any run reaches is good, and takes back nothing of any world
      before it: what was settled stays so. */
  lemma {:induction false} RunsKeep<P, C>(w: World<P, C>, es: seq<Event<P, C>>)
    requires Good(w) && LegalRun(w, es)
    ensures Good(After(w, es)) && Later(w, After(w, es))
    decreases |es|
  {
    if es != [] {
      hide Good, Apply, Legal, Later;
      ApplyKeeps(w, es[0]);
      RunsKeep(Apply(w, es[0]), es[1..]);
      LaterTrans(w, Apply(w, es[0]), After(w, es));
    } else {
      GrowsSelf(w);
    }
  }

  lemma NothingYet<P, C>()
    ensures Good<P, C>(World(map[], map[], [], 0, [], {}))
  {
  }

  // ---- what that means ----

  /** Job k is the one reaction i of p became, and no other job is. */
  ghost predicate IsReaction<P, C>(w: World<P, C>, p: P, i: nat, k: int)
    requires p in w.promises && i < |w.promises[p].subscribed|
  {
    && 0 <= k < |w.jobs| && w.jobs[k] == Job(w.promises[p].subscribed[i], Subscription(p, i))
    && forall m :: 0 <= m < |w.jobs| && w.jobs[m].from == Subscription(p, i) ==> m == k
  }

  /** Of two reactions of p the one that subscribed earlier is earlier. */
  ghost predicate InOrder<P>(a: Origin<P>, b: Origin<P>, p: P, k: int, l: int) {
    a.Subscription? && b.Subscription? && a.of == b.of == p && a.idx < b.idx ==> k < l
  }

  ghost predicate QueuedOnce<P, C>(w: World<P, C>, p: P, i: int)
    requires p in w.promises && 0 <= i < |w.promises[p].subscribed|
  {
    exists k :: IsReaction(w, p, i, k)
  }

  /** Every reaction of a settled promise is in the queue once, and none of a
      pending one's; those of one promise are there in the order they subscribed. */
  lemma ReactionsOnceInOrder<P, C>(w: World<P, C>, p: P)
    requires Good(w) && p in w.promises
    ensures w.promises[p].settlement.Pending? ==> forall k, i :: 0 <= k < |w.jobs| ==> w.jobs[k].from != Subscription(p, i)
    ensures !w.promises[p].settlement.Pending? ==>
              forall i :: 0 <= i < |w.promises[p].subscribed| ==> QueuedOnce(w, p, i)
    ensures forall k, l :: 0 <= k < |w.jobs| && 0 <= l < |w.jobs| ==> InOrder(w.jobs[k].from, w.jobs[l].from, p, k, l)
  {
    var s := w.promises[p];
    assert PlacedOk(s, p, w.jobs);
    assert forall m :: 0 <= m < |w.jobs| && w.jobs[m].from.Subscription? ==> CameFrom(w, m);
    if !s.settlement.Pending? {
      forall i | 0 <= i < |s.subscribed|
        ensures QueuedOnce(w, p, i)
      {
        assert IsReaction(w, p, i, s.placed[i]);
      }
    }
  }

  // ---- combinators ----

  /** At any time, a fulfilled `all` has every source fulfilled and value i of
      source i in slot i; a rejected one has the reason of the rejection that was
      delivered first. */
  lemma AllSettled<P, C>(w: World<P, C>, c: C)
    requires Good(w) && c in w.combinators && w.combinators[c].keeps
    ensures var v := w.combinators[c];
            && v.result in w.promises && |v.values| == v.total
            && (forall i :: 0 <= i < v.total ==> v.sources[i] in w.promises)
            && match w.promises[v.result].settlement
               case Fulfilled(x) => x == Results(c) && forall i :: 0 <= i < v.total ==>
                 w.promises[v.sources[i]].settlement.Fulfilled? && v.values[i] == Some(w.promises[v.sources[i]].settlement.value)
               case Rejected(r) => exists i :: First(w, c, i) && w.promises[v.sources[i]].settlement == Rejected(r)
               case Pending => true
  {
    SizesIs(w, c);
    if w.combinators[c].remaining == 0 {
      AllDelivered(w, c);
    }
    assert forall i :: 0 <= i < w.combinators[c].total ==> SourceOf(w, c, i) == w.promises[w.combinators[c].sources[i]].settlement;
  }

  /** With the queue empty every settled source has been heard. */
  lemma AtRestHeard<P, C>(w: World<P, C>, c: C, i: int)
    requires Good(w) && c in w.combinators && Shaped(w, c) && w.taken == |w.jobs| && 0 <= i < w.combinators[c].total
    ensures Heard(w, c, i) <==> !SourceOf(w, c, i).Pending?
  {
    var p := w.combinators[c].sources[i];
    assert PlacedOk(w.promises[p], p, w.jobs);
  }

  /** With the queue empty, `all` is fulfilled exactly when every source is, and
      rejected exactly when some source is. */
  lemma AllAtRest<P, C>(w: World<P, C>, c: C)
    requires Good(w) && c in w.combinators && w.combinators[c].keeps && w.taken == |w.jobs|
    ensures Shaped(w, c)
    ensures var s := w.promises[w.combinators[c].result].settlement;
            && (s.Fulfilled? <==> forall i :: 0 <= i < w.combinators[c].total ==> SourceOf(w, c, i).Fulfilled?)
            && (s.Rejected? <==> exists i :: 0 <= i < w.combinators[c].total && SourceOf(w, c, i).Rejected?)
  {
    SizesIs(w, c);
    AllSettled(w, c);
    AllAtRestRejected(w, c);
    var v := w.combinators[c];
    if forall i :: 0 <= i < v.total ==> SourceOf(w, c, i).Fulfilled? {
      forall i | 0 <= i < v.total
        ensures i in Delivered(w, c)
      {
        AtRestHeard(w, c, i);
      }
      assert Delivered(w, c) == Below(v.total);
    }
  }

  lemma AllAtRestRejected<P, C>(w: World<P, C>, c: C)
    requires Good(w) && c in w.combinators && w.combinators[c].keeps && w.taken == |w.jobs| && Shaped(w, c)
    ensures forall i :: 0 <= i < w.combinators[c].total && SourceOf(w, c, i).Rejected? ==> Decides(w, c, i)
    ensures (exists i :: 0 <= i < w.combinators[c].total && SourceOf(w, c, i).Rejected?) ==>
              w.promises[w.combinators[c].result].settlement.Rejected?
  {
    SizesIs(w, c);
    forall i | 0 <= i < w.combinators[c].total && SourceOf(w, c, i).Rejected?
      ensures Decides(w, c, i)
    {
      AtRestHeard(w, c, i);
    }
    AllSettled(w, c);
  }

  /** With the queue empty a race is pending only while every source is, and
      else as the source that was delivered first. */
  lemma RaceAtRest<P, C>(w: World<P, C>, c: C)
    requires Good(w) && c in w.combinators && !w.combinators[c].keeps && w.taken == |w.jobs|
    ensures Shaped(w, c)
    ensures var s := w.promises[w.combinators[c].result].settlement;
            if s.Pending? then forall i :: 0 <= i < w.combinators[c].total ==> SourceOf(w, c, i).Pending?
            else exists i :: First(w, c, i) && s == SourceOf(w, c, i)
  {
    SizesIs(w, c);
    forall i | 0 <= i < w.combinators[c].total
      ensures Heard(w, c, i) <==> !SourceOf(w, c, i).Pending?
    {
      AtRestHeard(w, c, i);
    }
    var s := w.promises[w.combinators[c].result].settlement;
    if s.Pending? {
      assert forall i :: 0 <= i < w.combinators[c].total && !SourceOf(w, c, i).Pending? ==> Decides(w, c, i);
    }
  }

  /** An adoption is over once its promise's inner is settled and the queue is
      empty: by its second hop. */
  lemma AdoptionAtRest<P, C>(w: World<P, C>, k: nat, outer: P, inner: P)
    requires Good(w) && w.taken == |w.jobs| && k < |w.jobs| && w.jobs[k].task == Begin(outer, inner)
    ensures inner in w.promises && outer in w.promises
    ensures !w.promises[inner].settlement.Pending? ==>
              && !w.promises[outer].settlement.Pending?
              && exists l :: k < l < |w.jobs| && w.jobs[l].task == Forward(outer, inner)
  {
    var idx :| Hopped(w, k, outer, inner, idx);
    assert SubscribedOk(w, inner, idx, Forward(outer, inner));
    if !w.promises[inner].settlement.Pending? {
      var s := w.promises[inner];
      assert PlacedOk(s, inner, w.jobs);
      var l := s.placed[idx];
      assert w.jobs[l].task == Forward(outer, inner) && w.jobs[l].from == Subscription(inner, idx);
      assert Closed(w, w.jobs[l].task.outer);
    }
  }

  /** Two hops, in two turns of the queue. The first hop's turn subscribes the
      second; in whatever world a run then reaches, the second hop is not among
      the jobs that were queued when the first began to run, and it is queued,
      once, exactly when the inner promise is settled. */
  lemma AdoptionHops<P, C>(w: World<P, C>, outer: P, inner: P, es: seq<Event<P, C>>)
    requires Good(w) && w.taken < |w.jobs| && w.jobs[w.taken].task == Begin(outer, inner)
    ensures Runs(w) && inner in w.promises
    ensures LegalRun(RunJob(w), es) ==>
              var u, idx := After(RunJob(w), es), |w.promises[inner].subscribed|;
              && inner in u.promises && idx < |u.promises[inner].subscribed|
              && u.promises[inner].subscribed[idx] == Forward(outer, inner)
              && w.jobs <= u.jobs && (forall l :: 0 <= l < |w.jobs| ==> u.jobs[l].from != Subscription(inner, idx))
              && (!u.promises[inner].settlement.Pending? <==> exists l :: |w.jobs| <= l < |u.jobs| && IsReaction(u, inner, idx, l))
  {
    hide Good, LegalRun, After, Later, IsReaction, Apply, Legal;
    FirstHop(w, outer, inner);
    if LegalRun(RunJob(w), es) {
      RunsKeep(RunJob(w), es);
      SecondHop(w, After(RunJob(w), es), outer, inner);
    }
  }

  lemma FirstHop<P, C>(w: World<P, C>, outer: P, inner: P)
    requires Good(w) && w.taken < |w.jobs| && w.jobs[w.taken].task == Begin(outer, inner)
    ensures Runs(w) && Good(RunJob(w)) && Later(w, RunJob(w)) && inner in w.promises
    ensures inner in RunJob(w).promises && RunJob(w).promises[inner].subscribed == w.promises[inner].subscribed + [Forward(outer, inner)]
  {
    hide Inv, Adopted, Attached, Named, Later;
    RunKeeps(w);
    ApplyKeeps(w, Turn);
  }

  lemma SecondHop<P, C>(w: World<P, C>, u: World<P, C>, outer: P, inner: P)
    requires Good(w) && Good(u) && Runs(w) && Later(w, RunJob(w)) && Later(RunJob(w), u) && inner in w.promises
    requires inner in RunJob(w).promises && RunJob(w).promises[inner].subscribed == w.promises[inner].subscribed + [Forward(outer, inner)]
    ensures var idx := |w.promises[inner].subscribed|;
            && inner in u.promises && idx < |u.promises[inner].subscribed|
            && u.promises[inner].subscribed[idx] == Forward(outer, inner)
            && w.jobs <= u.jobs && (forall l :: 0 <= l < |w.jobs| ==> u.jobs[l].from != Subscription(inner, idx))
            && (!u.promises[inner].settlement.Pending? <==> exists l :: |w.jobs| <= l < |u.jobs| && IsReaction(u, inner, idx, l))
  {
    hide Inv, Adopted, Attached, Named, RunJob, Runs;
    var idx := |w.promises[inner].subscribed|;
    LaterTrans(w, RunJob(w), u);
    assert PromiseLater(RunJob(w).promises[inner], u.promises[inner]);
    NotPlacedYet(w, inner);
    forall l | 0 <= l < |w.jobs|
      ensures u.jobs[l].from != Subscription(inner, idx)
    {
      assert u.jobs[l] == w.jobs[l];
    }
    ReactionsOnceInOrder(u, inner);
    if !u.promises[inner].settlement.Pending? {
      assert QueuedOnce(u, inner, idx);
      var l :| IsReaction(u, inner, idx, l);
      assert l >= |w.jobs|;
    }
  }

  // ---- what each event does, in fields ----

  /** Every promise but p is as it was, and no combinator, report or run is
      touched. */
  ghost predicate OnlyChanges<P, C>(w: World<P, C>, u: World<P, C>, p: P) {
    && u.promises.Keys == w.promises.Keys + {p}
    && (forall q :: q in w.promises && q != p ==> u.promises[q] == w.promises[q])
    && u.combinators == w.combinators && u.taken == w.taken && u.reported == w.reported
  }

  /** A new promise is pending and nobody listens to it. */
  lemma MakingIs<P, C>(w: World<P, C>, p: P)
    requires Legal(w, Made(p))
    ensures var u := Apply(w, Made(p));
            && OnlyChanges(w, u, p) && u.jobs == w.jobs && u.rejected == w.rejected
            && u.promises[p] == PromiseState(Pending, [], [])
  {
  }

  /** A listener is one subscription more; of a settled promise it is queued at
      once, and otherwise nothing is. */
  lemma ListeningIs<P, C>(w: World<P, C>, p: P, id: nat)
    requires Legal(w, Listened(p, id))
    ensures var u, s := Apply(w, Listened(p, id)), w.promises[p];
            && OnlyChanges(w, u, p) && u.rejected == w.rejected
            && u.promises[p].settlement == s.settlement && u.promises[p].subscribed == s.subscribed + [Callback(id)]
            && u.jobs == if s.settlement.Pending? then w.jobs else w.jobs + [Job(Callback(id), Subscription(p, |s.subscribed|))]
  {
  }

  /** A pending promise takes the settlement and queues a job for each of its
      subscriptions, in order; one nobody listens to is remembered if rejected.
      A settled promise takes nothing. */
  lemma GivingIs<P, C>(w: World<P, C>, p: P, t: Settlement<C>)
    requires Legal(w, Given(p, t))
    ensures var u, s := Apply(w, Given(p, t)), w.promises[p];
            if !s.settlement.Pending? then u == w
            else
              && OnlyChanges(w, u, p) && u.promises[p].settlement == t && u.promises[p].subscribed == s.subscribed
              && |u.jobs| == |w.jobs| + |s.subscribed| && w.jobs <= u.jobs
              && (forall i :: 0 <= i < |s.subscribed| ==> u.jobs[|w.jobs| + i] == Job(s.subscribed[i], Subscription(p, i)))
              && u.rejected == if t.Rejected? && s.subscribed == [] then w.rejected + [p] else w.rejected
  {
  }

  /** A promise given a promise queues the first hop, and nothing else happens. */
  lemma ReturningIs<P, C>(w: World<P, C>, outer: P, inner: P)
    requires Legal(w, GivenPromise(outer, inner))
    ensures var u := Apply(w, GivenPromise(outer, inner));
            && u.jobs == w.jobs + [Job(Begin(outer, inner), Direct)]
            && u.promises == w.promises && u.combinators == w.combinators
            && u.taken == w.taken && u.rejected == w.rejected && u.reported == w.reported
  {
  }

  lemma QueuingIs<P, C>(w: World<P, C>, id: nat)
    requires Legal(w, Queued(id))
    ensures var u := Apply(w, Queued(id));
            && u.jobs == w.jobs + [Job(Callback(id), Direct)]
            && u.promises == w.promises && u.combinators == w.combinators
            && u.taken == w.taken && u.rejected == w.rejected && u.reported == w.reported
  {
  }

  /** A job's turn takes the oldest job, and no other. */
  lemma TurnIs<P, C>(w: World<P, C>)
    requires Legal(w, Event<P, C>.Turn)
    ensures var u := Apply(w, Event<P, C>.Turn);
            && u.taken == w.taken + 1 && w.jobs <= u.jobs && u.reported == w.reported
            && (w.jobs[w.taken].task.Callback? ==>
                  u.promises == w.promises && u.combinators == w.combinators && u.jobs == w.jobs && u.rejected == w.rejected)
  {
  }

  /** A combinator knows its result, its kind and its elements, in order, and each
      element's subscription is its source's. */
  lemma JoiningWith<P, C>(w: World<P, C>, c: C, result: P, keeps: bool, ps: seq<P>)
    requires Good(w) && Legal(w, Joined(c, result, keeps, ps))
    ensures var u := Apply(w, Joined(c, result, keeps, ps));
            && u.combinators.Keys == w.combinators.Keys + {c} && (forall d :: d in w.combinators ==> u.combinators[d] == w.combinators[d])
            && u.combinators[c].result == result && u.combinators[c].keeps == keeps && u.combinators[c].total == |ps|
            && u.combinators[c].sources == ps && |u.combinators[c].at| == |ps|
            && (forall i :: 0 <= i < |ps| ==>
                  ps[i] in u.promises && u.combinators[c].at[i] < |u.promises[ps[i]].subscribed|
                  && u.promises[ps[i]].subscribed[u.combinators[c].at[i]] == Element(c, ps[i], i))
  {
    hide Inv, Adopted, Attached, Named, Apply, AttachAll, Combine, Later, Legal;
    JoinedIs(w, Joined(c, result, keeps, ps));
    CombineIs(w, c, result, keeps, |ps|);
    CombineOthers(w, c, result, keeps, |ps|);
    AttachedWith(Combine(w, c, result, keeps, |ps|), c, ps);
  }

  lemma CombineOthers<P, C>(w: World<P, C>, c: C, result: P, keeps: bool, n: nat)
    ensures var u := Combine(w, c, result, keeps, n);
            && u.combinators.Keys == w.combinators.Keys + {c} && u.combinators[c].at == []
            && forall d :: d in w.combinators && d != c ==> u.combinators[d] == w.combinators[d]
  {
  }

  lemma {:induction false} AttachedWith<P, C>(w: World<P, C>, c: C, ps: seq<P>)
    requires c in w.combinators && (forall i :: 0 <= i < |ps| ==> ps[i] in w.promises)
    requires w.combinators[c].sources == [] && w.combinators[c].at == []
    ensures var u, v := AttachAll(w, c, ps), w.combinators[c];
            && u.combinators.Keys == w.combinators.Keys && (forall d :: d in w.combinators && d != c ==> u.combinators[d] == w.combinators[d])
            && u.combinators[c] == v.(sources := ps, at := u.combinators[c].at) && |u.combinators[c].at| == |ps|
            && (forall i :: 0 <= i < |ps| ==>
                  ps[i] in u.promises && u.combinators[c].at[i] < |u.promises[ps[i]].subscribed|
                  && u.promises[ps[i]].subscribed[u.combinators[c].at[i]] == Element(c, ps[i], i))
    decreases |ps|
  {
    if ps != [] {
      var n := |ps| - 1;
      AttachedWith(w, c, ps[..n]);
      AttachOne(AttachAll(w, c, ps[..n]), c, ps[n], ps[..n]);
      assert ps == ps[..n] + [ps[n]];
    }
  }

  lemma AttachOne<P, C>(w: World<P, C>, c: C, p: P, qs: seq<P>)
    requires c in w.combinators && p in w.promises
    requires w.combinators[c].sources == qs && |w.combinators[c].at| == |qs|
    requires forall i :: 0 <= i < |qs| ==>
               qs[i] in w.promises && w.combinators[c].at[i] < |w.promises[qs[i]].subscribed|
               && w.promises[qs[i]].subscribed[w.combinators[c].at[i]] == Element(c, qs[i], i)
    ensures var u, ps := Attach(w, c, p), qs + [p];
            && u.combinators.Keys == w.combinators.Keys && (forall d :: d in w.combinators && d != c ==> u.combinators[d] == w.combinators[d])
            && u.combinators[c] == w.combinators[c].(sources := ps, at := u.combinators[c].at) && |u.combinators[c].at| == |ps|
            && (forall i :: 0 <= i < |ps| ==>
                  ps[i] in u.promises && u.combinators[c].at[i] < |u.promises[ps[i]].subscribed|
                  && u.promises[ps[i]].subscribed[u.combinators[c].at[i]] == Element(c, ps[i], i))
  {
  }

  // ---- a promise that is given one promise, and nothing else ----

  /** An adoption of outer is one of inner. */
  ghost predicate NoOther<P, C>(task: Task<P, C>, outer: P, inner: P) {
    (task.Begin? || task.Forward?) && task.outer == outer ==> task.inner == inner
  }

  /** Nothing but inner's settlement is on its way to outer. */
  ghost predicate Sole<P, C>(w: World<P, C>, outer: P, inner: P) {
    && outer in w.promises && inner in w.promises && !IsResult(w, outer)
    && (forall k :: 0 <= k < |w.jobs| ==> NoOther(w.jobs[k].task, outer, inner))
    && (forall p, i :: p in w.promises && 0 <= i < |w.promises[p].subscribed| ==> NoOther(w.promises[p].subscribed[i], outer, inner))
    && (!w.promises[outer].settlement.Pending? ==> w.promises[outer].settlement == w.promises[inner].settlement)
  }

  /** The event gives outer nothing but inner. */
  ghost predicate Spares<P, C>(e: Event<P, C>, outer: P, inner: P) {
    match e
    case Given(p, _) => p != outer
    case GivenPromise(o, i) => o == outer ==> i == inner
    case _ => true
  }

  lemma EnqueueSole<P, C>(w: World<P, C>, task: Task<P, C>, from: Origin<P>, outer: P, inner: P)
    requires Sole(w, outer, inner) && NoOther(task, outer, inner)
    ensures Sole(Enqueue(w, task, from), outer, inner)
  {
  }

  lemma SubscribeSole<P, C>(w: World<P, C>, p: P, task: Task<P, C>, outer: P, inner: P)
    requires Sole(w, outer, inner) && NoOther(task, outer, inner) && p in w.promises
    ensures Sole(Subscribe(w, p, task), outer, inner)
  {
  }

  lemma ResolveSole<P, C>(w: World<P, C>, p: P, s: Settlement<C>, outer: P, inner: P)
    requires Sole(w, outer, inner) && p in w.promises && !s.Pending?
    requires p == outer ==> s == w.promises[inner].settlement
    ensures Sole(Resolve(w, p, s), outer, inner)
  {
    hide NoOther;
    var u := Resolve(w, p, s);
    forall k | 0 <= k < |u.jobs|
      ensures NoOther(u.jobs[k].task, outer, inner)
    {
      if k >= |w.jobs| {
        assert u.jobs[k].task == w.promises[p].subscribed[k - |w.jobs|];
      }
    }
  }

  lemma CombineSole<P, C>(w: World<P, C>, c: C, result: P, keeps: bool, n: nat, outer: P, inner: P)
    requires Sole(w, outer, inner) && c !in w.combinators && result !in w.promises
    ensures Sole(Combine(w, c, result, keeps, n), outer, inner)
  {
    hide NoOther;
    var u := Combine(w, c, result, keeps, n);
    forall d | d in u.combinators
      ensures u.combinators[d].result != outer
    {
    }
  }

  lemma AttachSole<P, C>(w: World<P, C>, c: C, p: P, outer: P, inner: P)
    requires Sole(w, outer, inner) && c in w.combinators && p in w.promises
    ensures Sole(Attach(w, c, p), outer, inner)
  {
    var v := w.combinators[c];
    var u := v.(sources := v.sources + [p], at := v.at + [|w.promises[p].subscribed|]);
    var x := w.(combinators := w.combinators[c := u]);
    forall d | d in x.combinators
      ensures x.combinators[d].result != outer
    {
      assert d in w.combinators && x.combinators[d].result == w.combinators[d].result;
    }
    assert Sole(x, outer, inner);
    SubscribeSole(x, p, Element(c, p, |v.sources|), outer, inner);
  }

  lemma {:induction false} AttachAllSole<P, C>(w: World<P, C>, c: C, ps: seq<P>, outer: P, inner: P)
    requires Sole(w, outer, inner) && c in w.combinators && forall i :: 0 <= i < |ps| ==> ps[i] in w.promises
    ensures Sole(AttachAll(w, c, ps), outer, inner)
    decreases |ps|
  {
    hide Sole;
    if ps != [] {
      var n := |ps| - 1;
      AttachAllSole(w, c, ps[..n], outer, inner);
      AttachSole(AttachAll(w, c, ps[..n]), c, ps[n], outer, inner);
    }
  }

  lemma TakenSole<P, C>(w: World<P, C>, outer: P, inner: P)
    requires Sole(w, outer, inner)
    ensures Sole(Taken(w), outer, inner)
  {
  }

  lemma CountedSole<P, C>(w: World<P, C>, c: C, source: P, i: nat, outer: P, inner: P)
    requires Sole(w, outer, inner) && c in w.combinators && source in w.promises
    requires w.combinators[c].keeps ==> i < |w.combinators[c].values| && w.combinators[c].remaining > 0
    ensures Sole(Counted(w, c, source, i), outer, inner)
    ensures Counted(w, c, source, i).promises == w.promises
  {
    var u := Counted(w, c, source, i);
    forall d | d in u.combinators
      ensures u.combinators[d].result != outer
    {
      assert d in w.combinators && u.combinators[d].result == w.combinators[d].result;
    }
  }

  lemma DeliverSole<P, C>(w: World<P, C>, c: C, source: P, i: nat, outer: P, inner: P)
    requires Sole(w, outer, inner) && c in w.combinators && source in w.promises && w.combinators[c].result in w.promises
    requires !w.promises[source].settlement.Pending?
    requires w.combinators[c].keeps ==> i < |w.combinators[c].values| && w.combinators[c].remaining > 0
    ensures Sole(Deliver(w, c, source, i), outer, inner)
  {
    hide NoOther, Resolve;
    assert w.combinators[c].result != outer;
    CountedSole(w, c, source, i, outer, inner);
    hide Sole;
    var v := w.combinators[c];
    if !v.keeps || !w.promises[source].settlement.Fulfilled? {
      ResolveSole(w, v.result, w.promises[source].settlement, outer, inner);
    } else if v.remaining == 1 {
      ResolveSole(Counted(w, c, source, i), v.result, Fulfilled(Results(c)), outer, inner);
    }
  }

  lemma TurnSole<P, C>(w: World<P, C>, outer: P, inner: P)
    requires Good(w) && Runs(w) && Sole(w, outer, inner)
    ensures Sole(RunJob(w), outer, inner)
  {
    var job := w.jobs[w.taken].task;
    assert NoOther(job, outer, inner);
    hide Inv, Adopted, Attached, Named, Sole, NoOther, Subscribe, Resolve, Deliver;
    TakenSole(w, outer, inner);
    RunsParts(w);
    match job
    case Callback(_) =>
    case Element(c, source, i) =>
      ElementIs(w, c, source, i);
      DeliverSole(Taken(w), c, source, i, outer, inner);
    case Begin(o, i) =>
      HopSole<P, C>(o, i, outer, inner);
      SubscribeSole(Taken(w), i, Forward(o, i), outer, inner);
    case Forward(o, i) =>
      HopIs<P, C>(o, i, outer, inner);
      ResolveSole(Taken(w), o, w.promises[i].settlement, outer, inner);
  }

  lemma HopSole<P, C>(o: P, i: P, outer: P, inner: P)
    requires NoOther(Task<P, C>.Begin(o, i), outer, inner)
    ensures NoOther(Task<P, C>.Forward(o, i), outer, inner)
  {
  }

  lemma HopIs<P, C>(o: P, i: P, outer: P, inner: P)
    requires NoOther(Task<P, C>.Forward(o, i), outer, inner)
    ensures o == outer ==> i == inner
  {
  }

  lemma ApplySole<P, C>(w: World<P, C>, e: Event<P, C>, outer: P, inner: P)
    requires Good(w) && Legal(w, e) && Sole(w, outer, inner) && Spares(e, outer, inner)
    ensures Sole(Apply(w, e), outer, inner)
  {
    match e
    case Made(p) =>
    case Listened(p, id) => SubscribeSole(w, p, Callback(id), outer, inner);
    case Given(p, s) => ResolveSole(w, p, s, outer, inner);
    case GivenPromise(o, i) => EnqueueSole(w, Begin(o, i), Direct, outer, inner);
    case Joined(c, result, keeps, ps) =>
      CombineSole(w, c, result, keeps, |ps|, outer, inner);
      AttachAllSole(Combine(w, c, result, keeps, |ps|), c, ps, outer, inner);
    case Queued(id) => EnqueueSole(w, Callback(id), Direct, outer, inner);
    case Turn => TurnSole(w, outer, inner);
    case Reported =>
  }

  lemma {:induction false} RunSole<P, C>(w: World<P, C>, es: seq<Event<P, C>>, outer: P, inner: P)
    requires Good(w) && LegalRun(w, es) && Sole(w, outer, inner) && forall i :: 0 <= i < |es| ==> Spares(es[i], outer, inner)
    ensures Sole(After(w, es), outer, inner)
    decreases |es|
  {
    if es != [] {
      hide Good, Apply, Legal, Sole, Spares, Later;
      ApplyKeeps(w, es[0]);
      ApplySole(w, es[0], outer, inner);
      forall i | 0 <= i < |es[1..]|
        ensures Spares(es[1..][i], outer, inner)
      {
        assert es[1..][i] == es[i + 1];
      }
      RunSole(Apply(w, es[0]), es[1..], outer, inner);
    }
  }

  /** A promise given a promise: whatever a run does after that, once the queue is
      empty and the inner promise is settled, so is the outer; and with the inner's
      settlement, if nothing else was on its way to the outer or came later. */
  lemma AdoptionSettles<P, C>(w: World<P, C>, outer: P, inner: P, es: seq<Event<P, C>>)
    requires Good(w) && Legal(w, GivenPromise(outer, inner)) && LegalRun(Apply(w, GivenPromise(outer, inner)), es)
    ensures var u := After(Apply(w, GivenPromise(outer, inner)), es);
            && outer in u.promises && inner in u.promises
            && (u.taken == |u.jobs| && !u.promises[inner].settlement.Pending? ==>
                  && !u.promises[outer].settlement.Pending?
                  && (Sole(w, outer, inner) && (forall i :: 0 <= i < |es| ==> Spares(es[i], outer, inner)) ==>
                        u.promises[outer].settlement == u.promises[inner].settlement))
  {
    var e := GivenPromise(outer, inner);
    var v := Apply(w, e);
    var u := After(v, es);
    ReturningIs(w, outer, inner);
    assert Spares(e, outer, inner);
    hide Good, Apply, Legal, LegalRun, After, Sole, Spares;
    ApplyKeeps(w, e);
    RunsKeep(v, es);
    LaterTrans(w, v, u);
    assert u.jobs[|w.jobs|] == v.jobs[|w.jobs|];
    StillThere(w, u, outer);
    StillThere(w, u, inner);
    if u.taken == |u.jobs| && !u.promises[inner].settlement.Pending? {
      AdoptionAtRest(u, |w.jobs|, outer, inner);
      if Sole(w, outer, inner) && forall i :: 0 <= i < |es| ==> Spares(es[i], outer, inner) {
        ApplySole(w, e, outer, inner);
        RunSole(v, es, outer, inner);
        SoleIs(u, outer, inner);
      }
    }
  }

  lemma StillThere<P, C>(w: World<P, C>, u: World<P, C>, p: P)
    requires Later(w, u) && p in w.promises
    ensures p in u.promises
  {
  }

  lemma SoleIs<P, C>(w: World<P, C>, outer: P, inner: P)
    requires Sole(w, outer, inner) && !w.promises[outer].settlement.Pending?
    ensures w.promises[outer].settlement == w.promises[inner].settlement
  {
  }

  /** The second hop gives the outer promise the inner's settlement, unless it
      has one of its own already. */
  lemma ForwardCopies<P, C>(w: World<P, C>, outer: P, inner: P)
    requires Good(w) && w.taken < |w.jobs| && w.jobs[w.taken].task == Forward(outer, inner)
    ensures Runs(w)
    ensures var u := RunJob(w);
            && outer in w.promises && inner in w.promises && outer in u.promises && !w.promises[inner].settlement.Pending?
            && u.promises[outer].settlement ==
               if w.promises[outer].settlement.Pending? then w.promises[inner].settlement else w.promises[outer].settlement
  {
    RunKeeps(w);
    RunsParts(w);
  }

  /** The report names exactly the rejections with nobody listening that were not
      reported before, and leaves nothing to report again. */
  lemma ReportsUnhandled<P, C>(w: World<P, C>, p: P)
    requires Good(w) && p in w.promises && p !in w.reported
    ensures p in Report(w).reported <==> w.promises[p].settlement.Rejected? && w.promises[p].subscribed == []
    ensures Report(w).rejected == [] && Unhandled(w) !! w.reported
    ensures Report(w).promises == w.promises && Report(w).jobs == w.jobs && Report(w).taken == w.taken
    ensures Report(w).combinators == w.combinators
  {
  }

  /** Those of ps a report names, in their order. */
  ghost function Unheard<P, C>(w: World<P, C>, ps: seq<P>): (named: seq<P>)
    ensures |named| <= |ps| && forall p :: p in named ==> p in ps
  {
    if ps == [] then []
    else
      var p := ps[|ps| - 1];
      Unheard(w, ps[..|ps| - 1]) +
        if p in w.promises && w.promises[p].settlement.Rejected? && w.promises[p].subscribed == [] then [p] else []
  }

  lemma UnheardNext<P, C>(w: World<P, C>, ps: seq<P>, i: nat)
    requires i < |ps|
    ensures Unheard(w, ps[..0]) == []
    ensures Unheard(w, ps[..i + 1]) == Unheard(w, ps[..i]) +
              if ps[i] in w.promises && w.promises[ps[i]].settlement.Rejected? && w.promises[ps[i]].subscribed == [] then [ps[i]] else []
  {
    assert ps[..i + 1][..i] == ps[..i];
  }

  /** A report goes through the list as the rejections came: each unhandled one is
      named once. */
  lemma {:induction false} UnheardOnce<P, C>(w: World<P, C>, n: nat)
    requires Good(w) && n <= |w.rejected|
    ensures forall p :: p in Unheard(w, w.rejected[..n]) <==> p in w.rejected[..n] && p in Unhandled(w)
    ensures var named := Unheard(w, w.rejected[..n]); forall i, j :: 0 <= i < j < |named| ==> named[i] != named[j]
  {
    hide Inv, Adopted, Attached;
    if n > 0 {
      UnheardOnce(w, n - 1);
      UnheardNext(w, w.rejected, n - 1);
      var before, named := Unheard(w, w.rejected[..n - 1]), Unheard(w, w.rejected[..n]);
      forall i, j | 0 <= i < j < |named|
        ensures named[i] != named[j]
      {
        assert named[i] == before[i] && before[i] in before;
        if j == |before| {
          var k :| 0 <= k < n - 1 && w.rejected[..n - 1][k] == before[i];
          assert w.rejected[k] != w.rejected[n - 1];
        }
      }
    }
  }
}
