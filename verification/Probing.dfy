/** The open-addressed index of a table: words, the chain a probe follows, and
    what keeps every entry findable. */
module Probing {
  import opened Basics
  import opened Bits
  import opened MapData

  const EMPTY: nat := 0
  const DELETED: nat := 0xFFFF_FFFF_FFFF_FFFF
  const TOP: nat := 0x8000_0000

  datatype Cell = Hole | Key(v: Value)

  /** A hash with its top bit set: never 0. */
  function Tag(hash: U32): (t: U32)
    ensures t >= TOP
  {
    if hash < TOP then hash + TOP else hash
  }

  /** A word of the index: the entry's tag above its position plus one. */
  function Pack(tag: U32, at: nat): nat {
    tag * WORD + at + 1
  }

  function TagOf(word: nat): nat { word / WORD }

  function PositionOf(word: nat): int { word % WORD - 1 }

  /** A packed word is read back exactly, and is neither mark. */
  lemma PackRoundTrip(tag: U32, at: nat)
    requires at < WORD - 2 && tag >= TOP
    ensures TagOf(Pack(tag, at)) == tag && PositionOf(Pack(tag, at)) == at
    ensures Pack(tag, at) != EMPTY && Pack(tag, at) != DELETED
    ensures Pack(tag, at) < WORD * WORD
  {
  }

  /** The slot a chain starts at: hash & (slots - 1), slots a power of two. */
  function Home(hash: nat, slots: nat): (s: nat)
    requires slots > 0
    ensures s < slots
  {
    hash % slots
  }

  /** Setting the top bit does not move the home: no mask reads it. */
  lemma TagHome(hash: U32, slots: nat)
    requires slots > 0 && TOP % slots == 0
    ensures Home(Tag(hash), slots) == Home(hash, slots)
  {
    if hash < TOP {
      var k := TOP / slots;
      assert TOP == k * slots;
      ModShift(hash, k, slots);
    }
  }

  lemma MulAtLeast(d: nat, m: nat)
    requires d > 0
    ensures d * m >= m
  {
  }

  lemma DivModUnique(x: nat, q: nat, r: nat, m: nat)
    requires m > 0 && r < m && x == q * m + r
    ensures x % m == r
  {
    var p, t := x / m, x % m;
    assert x == p * m + t;
    assert (q - p) * m == q * m - p * m;
    if p < q {
      MulAtLeast(q - p, m);
    } else if q < p {
      MulAtLeast(p - q, m);
    }
  }

  lemma ModShift(a: nat, k: nat, m: nat)
    requires m > 0
    ensures (a + k * m) % m == a % m
  {
    var q := a / m;
    assert a == q * m + a % m;
    assert a + k * m == (q + k) * m + a % m;
    DivModUnique(a + k * m, q + k, a % m, m);
  }

  /** How many steps along the chain from home slot x is. */
  function Dist(home: nat, x: nat, slots: nat): (d: nat)
    requires home < slots && x < slots
    ensures d < slots
  {
    if x >= home then x - home else x - home + slots
  }

  function After(slot: nat, slots: nat): nat {
    if slot + 1 == slots then 0 else slot + 1
  }

  predicate Free(word: nat) { word == EMPTY || word == DELETED }

  /** No chain from home ends before s. */
  ghost predicate Path(index: seq<nat>, home: nat, s: nat)
    requires home < |index| && s < |index|
  {
    forall x :: 0 <= x < |index| && Dist(home, x, |index|) < Dist(home, s, |index|) ==> index[x] != EMPTY
  }

  /** The first free slot of the chain from home. */
  ghost predicate FirstFree(index: seq<nat>, home: nat, s: nat)
    requires home < |index|
  {
    && s < |index| && Free(index[s])
    && forall x :: 0 <= x < |index| && Dist(home, x, |index|) < Dist(home, s, |index|) ==> !Free(index[x])
  }

  /** How many words are not EMPTY. */
  ghost function Taken(index: seq<nat>): nat {
    if index == [] then 0 else Taken(index[..|index| - 1]) + if index[|index| - 1] != EMPTY then 1 else 0
  }

  lemma {:induction false} TakenUpdate(index: seq<nat>, s: nat, w: nat)
    requires s < |index|
    ensures Taken(index[s := w]) + (if index[s] != EMPTY then 1 else 0) == Taken(index) + (if w != EMPTY then 1 else 0)
  {
    var n := |index| - 1;
    if s == n {
      assert index[s := w][..n] == index[..n];
    } else {
      assert index[s := w][..n] == index[..n][s := w];
      TakenUpdate(index[..n], s, w);
    }
  }

  lemma {:induction false} TakenAll(index: seq<nat>)
    requires forall s :: 0 <= s < |index| ==> index[s] != EMPTY
    ensures Taken(index) == |index|
  {
    if index != [] {
      TakenAll(index[..|index| - 1]);
    }
  }

  lemma {:induction false} TakenNone(index: seq<nat>)
    requires forall s :: 0 <= s < |index| ==> index[s] == EMPTY
    ensures Taken(index) == 0
  {
    if index != [] {
      TakenNone(index[..|index| - 1]);
    }
  }

  // ---- the columns of a table ----

  /** where[at], kept for the proof alone, is the slot of entry at. */
  datatype Columns = Columns(index: seq<nat>, keys: seq<Cell>, hashes: seq<nat>, where: seq<nat>)

  /** The first m entries keep their keys' hashes, and a hole keeps 0. */
  ghost predicate HashesOk(h: Hasher, keys: seq<Cell>, hashes: seq<nat>, m: nat, kind: Kind) {
    && m <= |keys| == |hashes|
    && forall at :: 0 <= at < m ==>
         if keys[at].Hole? then hashes[at] == 0
         else Fits(kind, keys[at].v) && hashes[at] == Tag(HashKey(h, keys[at].v, kind))
  }

  /** The first m entries are in the index: each at one slot its chain leads to. */
  ghost predicate Placed(c: Columns, m: nat) {
    && m <= |c.keys| == |c.hashes| == |c.where| && m < WORD - 2
    && (forall at :: 0 <= at < m && c.keys[at].Key? ==>
          && c.where[at] < |c.index| && TOP <= c.hashes[at] < WORD
          && c.index[c.where[at]] == Pack(c.hashes[at], at)
          && Path(c.index, Home(c.hashes[at], |c.index|), c.where[at]))
    && (forall s :: 0 <= s < |c.index| && !Free(c.index[s]) ==>
          var at := PositionOf(c.index[s]);
          0 <= at < m && c.keys[at].Key? && c.where[at] == s && c.index[s] == Pack(c.hashes[at], at))
    && Taken(c.index) <= m
  }

  /** Entry m goes to a free slot its chain leads to. */
  lemma PlaceOne(c: Columns, m: nat, s: nat)
    requires Placed(c, m) && m < |c.keys| && m < WORD - 3 && c.keys[m].Key? && TOP <= c.hashes[m] < WORD
    requires s < |c.index| && Free(c.index[s]) && Path(c.index, Home(c.hashes[m], |c.index|), s)
    ensures Placed(c.(index := c.index[s := Pack(c.hashes[m], m)], where := c.where[m := s]), m + 1)
  {
    hide Home;
    var w := Pack(c.hashes[m], m);
    PackRoundTrip(c.hashes[m], m);
    TakenUpdate(c.index, s, w);
  }

  /** A hole takes no slot. */
  lemma PlaceHole(c: Columns, m: nat)
    requires Placed(c, m) && m < |c.keys| && m < WORD - 3 && c.keys[m].Hole?
    ensures Placed(c, m + 1)
  {
  }

  ghost function Unplaced(c: Columns, at: nat): Columns
    requires at < |c.keys| == |c.hashes| == |c.where| && c.where[at] < |c.index|
  {
    c.(index := c.index[c.where[at] := DELETED], keys := c.keys[at := Hole], hashes := c.hashes[at := 0])
  }

  /** Entry at leaves a DELETED mark and a hole. */
  lemma Unplace(c: Columns, m: nat, at: nat)
    requires Placed(c, m) && at < m && c.keys[at].Key?
    ensures Placed(Unplaced(c, at), m)
  {
    TakenUpdate(c.index, c.where[at], DELETED);
    var d := Unplaced(c, at);
    PackRoundTrip(c.hashes[at], at);
    forall s | 0 <= s < |d.index| && !Free(d.index[s])
      ensures var a := PositionOf(d.index[s]);
              0 <= a < m && d.keys[a].Key? && d.where[a] == s && d.index[s] == Pack(d.hashes[a], a)
    {
      assert s != c.where[at] && d.index[s] == c.index[s];
    }
    forall a | 0 <= a < m && d.keys[a].Key?
      ensures d.where[a] < |d.index| && TOP <= d.hashes[a] < WORD
      ensures d.index[d.where[a]] == Pack(d.hashes[a], a)
      ensures Path(d.index, Home(d.hashes[a], |d.index|), d.where[a])
    {
      assert a != at && c.keys[a].Key?;
      PackRoundTrip(c.hashes[a], a);
      assert c.where[a] != c.where[at];
    }
  }

  /** Follow the chain from home to its first EMPTY slot. */
  method ProbeEmpty(index: array<nat>, home: nat) returns (slot: nat)
    requires home < index.Length && Taken(index[..]) < index.Length
    ensures slot < index.Length && index[slot] == EMPTY && Path(index[..], home, slot)
  {
    slot := home;
    ghost var step := 0;
    while index[slot] != EMPTY
      invariant slot < index.Length && step <= index.Length
      invariant step < index.Length ==> Dist(home, slot, index.Length) == step
      invariant forall x :: 0 <= x < index.Length && Dist(home, x, index.Length) < step ==> index[x] != EMPTY
      invariant step < index.Length
      decreases index.Length - step
    {
      slot := After(slot, index.Length);
      step := step + 1;
      if step == index.Length {
        assert forall s :: 0 <= s < |index[..]| ==> index[..][s] != EMPTY;
        TakenAll(index[..]);
      }
    }
  }

  /** A power of two up to 2^31 divides it: no mask reads the top bit of a hash. */
  lemma Pow2Divides(e: nat)
    requires e <= 31
    ensures TOP % Pow2(e) == 0 && Pow2(e) <= TOP
  {
    Pow2Add(31 - e, e);
    Pow31();
    DivModUnique(TOP, Pow2(31 - e), 0, Pow2(e));
    MulAtLeast(Pow2(31 - e), Pow2(e));
  }

  /** The smallest power of two from 8 up that is at least n. */
  method SlotsFor(n: nat) returns (slots: nat)
    requires n <= TOP
    ensures slots >= n && slots >= 8 && TOP % slots == 0
    ensures slots > 8 ==> slots / 2 < n
  {
    slots := 8;
    ghost var e := 3;
    assert Pow2(3) == 8;
    while slots < n
      invariant slots == Pow2(e) && 3 <= e <= 31 && slots >= 8
      invariant slots > 8 ==> slots / 2 < n
      decreases n - slots
    {
      Pow31();
      slots := slots * 2;
      e := e + 1;
    }
    Pow2Divides(e);
  }

  lemma Pow31()
    ensures Pow2(31) == TOP
  {
    assert Pow2(8) == 256;
    Pow2Add(8, 8);
    Pow2Add(16, 8);
    Pow2Add(24, 7);
    assert Pow2(7) == 128;
  }
}
