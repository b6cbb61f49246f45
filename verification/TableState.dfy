/** A table's columns and index as values: when they agree with the list the
    table stands for, what each operation makes of them, and the lookup tokens
    that stay good across writes. */
module TableState {
  import opened Basics
  import opened MapData
  import opened Probing

  /** What the columns say, holes as empty places. */
  ghost function DataOf(keys: seq<Cell>, values: seq<Value>, used: nat, holds: bool): Data
    requires used <= |keys| && (holds ==> used <= |values|)
  {
    seq(used, i requires 0 <= i < used =>
      if keys[i].Hole? then Empty else Pair(keys[i].v, if holds then values[i] else Undefined))
  }

  /** The index at one generation, as a lookup token remembers it. */
  datatype Moment = Moment(cols: Columns, used: nat, kind: Kind)

  lemma InsertedPlaced(c: Columns, m: nat, key: Value, tag: U32, s: nat)
    requires Placed(c, m) && m < |c.keys| && m < WORD - 3 && tag >= TOP
    requires s < |c.index| && FirstFree(c.index, Home(tag, |c.index|), s)
    ensures Placed(Columns(c.index[s := Pack(tag, m)], c.keys[m := Key(key)], c.hashes[m := tag], c.where[m := s]), m + 1)
  {
    var d := c.(keys := c.keys[m := Key(key)], hashes := c.hashes[m := tag]);
    assert Placed(d, m);
    PlaceOne(d, m, s);
  }

  lemma InsertedData(keys: seq<Cell>, values: seq<Value>, used: nat, holds: bool, key: Value, value: Value)
    requires used < |keys| && (holds ==> used < |values|)
    ensures DataOf(keys[used := Key(key)], if holds then values[used := value] else values, used + 1, holds)
         == DataOf(keys, values, used, holds) + [Pair(key, if holds then value else Undefined)]
  {
  }

  lemma AppendedUnique(data: Data, key: Value, value: Value, kind: Kind)
    requires AllFit(data, kind) && Unique(data, kind) && Fits(kind, key) && Find(data, key, kind) == -1
    ensures AllFit(data + [Pair(key, value)], kind) && Unique(data + [Pair(key, value)], kind)
    ensures Size(data + [Pair(key, value)]) == Size(data) + 1
  {
    SizeAppend(data, Pair(key, value));
    forall i | 0 <= i < |data| && data[i].Pair?
      ensures !KeyEq(data[i].key, key, kind)
    {
      assert !Hits(data, i, key, kind);
    }
  }

  /** A table's state, as values: what Valid says of the columns. */
  datatype State = State(h: Hasher, holds: bool, cols: Columns, values: seq<Value>, used: nat, length: nat, kind: Kind)
  {
    ghost predicate Shaped() {
      && |cols.hashes| == |cols.keys| == |cols.where|
      && |values| == (if holds then |cols.keys| else 0)
      && used <= |cols.keys| && 2 * |cols.keys| <= |cols.index|
      && (|cols.index| > 0 ==> TOP % |cols.index| == 0)
      && (|cols.keys| == 0 ==> |cols.index| == 0)
    }

    ghost function Data(): Data
      requires Shaped()
    {
      DataOf(cols.keys, values, used, holds)
    }

    ghost predicate Sound() {
      Ready() && Placed(cols, used)
    }

    /** Sound, but for the index. */
    ghost predicate Ready() {
      && Shaped()
      && HashesOk(h, cols.keys, cols.hashes, used, kind)
      && AllFit(Data(), kind) && Unique(Data(), kind) && AllStored(Data())
      && length == Size(Data())
    }
  }

  /** The last of the moments is the present one: a table without an index
      alone may change its kind and stay at its generation. */
  ghost predicate Remembered(past: seq<Moment>, generation: nat, t: State) {
    && |past| == generation + 1
    && past[generation].cols.index == t.cols.index
    && (|t.cols.index| > 0 ==> past[generation] == Moment(t.cols, t.used, t.kind))
  }

  ghost function Inserted(t: State, key: Value, value: Value, slot: nat, hash: U32): State
    requires t.Shaped() && t.used < |t.cols.keys| && slot < |t.cols.index|
  {
    var tag := Tag(hash);
    State(t.h, t.holds,
          Columns(t.cols.index[slot := Pack(tag, t.used)], t.cols.keys[t.used := Key(key)],
                  t.cols.hashes[t.used := tag], t.cols.where[t.used := slot]),
          if t.holds then t.values[t.used := value] else t.values, t.used + 1, t.length + 1, t.kind)
  }

  lemma RoomLeft(t: State)
    requires t.Shaped()
    ensures t.used <= |t.cols.keys| <= TOP / 2
  {
  }

  lemma InsertedSound(t: State, key: Value, value: Value, slot: nat, hash: U32)
    requires t.Sound() && t.used < |t.cols.keys| && Fits(t.kind, key) && Normalize(key) == key && hash == HashKey(t.h, key, t.kind)
    requires Find(t.Data(), key, t.kind) == -1
    requires slot < |t.cols.index| && FirstFree(t.cols.index, Home(hash, |t.cols.index|), slot)
    ensures var u := Inserted(t, key, value, slot, hash);
            u.Sound() && u.Data() == t.Data() + [Pair(key, if t.holds then value else Undefined)]
  {
    hide Placed, HashesOk, DataOf, Home, Tag, FirstFree;
    RoomLeft(t);
    AppendedUnique(t.Data(), key, if t.holds then value else Undefined, t.kind);
    TagHome(hash, |t.cols.index|);
    InsertedPlaced(t.cols, t.used, key, Tag(hash), slot);
    InsertedHashes(t.h, t.cols.keys, t.cols.hashes, t.used, t.kind, key);
    InsertedData(t.cols.keys, t.values, t.used, t.holds, key, value);
  }

  lemma InsertedHashes(h: Hasher, keys: seq<Cell>, hashes: seq<nat>, m: nat, kind: Kind, key: Value)
    requires HashesOk(h, keys, hashes, m, kind) && m < |keys| && Fits(kind, key)
    ensures HashesOk(h, keys[m := Key(key)], hashes[m := Tag(HashKey(h, key, kind))], m + 1, kind)
  {
  }

  lemma Extended(past: seq<Moment>, generation: nat, t: State)
    requires |past| == generation + 1
    ensures Remembered(past + [Moment(t.cols, t.used, t.kind)], generation + 1, t)
  {
  }

  lemma InsertedIs(t: State, key: Value, value: Value, slot: nat, hash: U32)
    requires t.Shaped() && t.used < |t.cols.keys| && slot < |t.cols.index|
    ensures Inserted(t, key, value, slot, hash) ==
            State(t.h, t.holds,
                  Columns(t.cols.index[slot := Pack(Tag(hash), t.used)], t.cols.keys[t.used := Key(key)],
                          t.cols.hashes[t.used := Tag(hash)], t.cols.where[t.used := slot]),
                  if t.holds then t.values[t.used := value] else t.values, t.used + 1, t.length + 1, t.kind)
  {
  }

  lemma DistHome(home: nat, n: nat)
    requires home < n
    ensures Dist(home, home, n) == 0
  {
  }

  lemma FreeIs(word: nat)
    ensures Free(word) <==> word == EMPTY || word == DELETED
  {
  }

  // ---- overwriting, deleting, clearing ----

  /** What a table keeps of a value: a Set keeps none. */
  function Kept(value: Value, holds: bool): Value {
    if holds then value else Undefined
  }

  ghost function Overwritten(t: State, at: nat, value: Value): State
    requires t.Shaped() && at < t.used
  {
    if t.holds then t.(values := t.values[at := value]) else t
  }

  lemma OverwrittenSound(t: State, at: nat, value: Value)
    requires t.Sound() && at < t.used && t.cols.keys[at].Key?
    ensures var u := Overwritten(t, at, value);
            && u.Sound() && u.cols == t.cols && u.used == t.used && u.kind == t.kind
            && u.Data() == t.Data()[at := Pair(t.Data()[at].key, Kept(value, t.holds))]
  {
    hide Placed, HashesOk;
    var data := t.Data();
    var u := Overwritten(t, at, value);
    assert u.Data() == data[at := Pair(data[at].key, Kept(value, t.holds))];
    SizeUpdate(data, at, Pair(data[at].key, Kept(value, t.holds)));
    RevaluedUnique(data, at, Kept(value, t.holds), t.kind);
  }

  lemma RevaluedUnique(data: Data, at: nat, value: Value, kind: Kind)
    requires AllFit(data, kind) && Unique(data, kind) && at < |data| && data[at].Pair?
    ensures var d := data[at := Pair(data[at].key, value)]; AllFit(d, kind) && Unique(d, kind)
  {
  }

  ghost function Removed(t: State, at: nat): State
    requires t.Shaped() && at < t.used && t.cols.where[at] < |t.cols.index| && t.length > 0
  {
    t.(cols := Unplaced(t.cols, at), values := if t.holds then t.values[at := Undefined] else t.values, length := t.length - 1)
  }

  lemma RemovedSound(t: State, at: nat)
    requires t.Sound() && at < t.used && t.cols.keys[at].Key?
    ensures t.cols.where[at] < |t.cols.index| && t.length > 0
    ensures var u := Removed(t, at); u.Sound() && u.Data() == t.Data()[at := Empty]
  {
    SizeUpdate(t.Data(), at, Empty);
    Unplace(t.cols, t.used, at);
    RemovedRest(t, at);
  }

  lemma RemovedRest(t: State, at: nat)
    requires t.Sound() && at < t.used && t.cols.keys[at].Key? && t.cols.where[at] < |t.cols.index| && t.length > 0
    ensures var u := Removed(t, at);
            && u.Shaped() && u.Data() == t.Data()[at := Empty]
            && HashesOk(u.h, u.cols.keys, u.cols.hashes, u.used, u.kind)
            && AllFit(u.Data(), u.kind) && Unique(u.Data(), u.kind)
  {
    hide Placed;
  }

  /** u is t with every entry a hole and no word in the index. */
  ghost predicate Emptied(t: State, u: State) {
    && u.h == t.h && u.holds == t.holds && u.used == t.used && u.kind == t.kind && u.length == 0
    && u.Shaped()
    && (forall at :: 0 <= at < u.used ==> u.cols.keys[at].Hole? && u.cols.hashes[at] == 0)
    && (forall s :: 0 <= s < |u.cols.index| ==> u.cols.index[s] == EMPTY)
  }

  lemma EmptiedSound(t: State, u: State)
    requires t.Sound() && Emptied(t, u)
    ensures u.Sound() && u.Data() == Clear(t.Data())
  {
    SizeZero(u.Data());
    TakenNone(u.cols.index);
    RoomLeft(u);
  }

  // ---- growing and widening ----

  /** u holds t's entries where they were, with room for more. */
  ghost predicate Grown(t: State, u: State) {
    && t.Shaped() && u.Shaped()
    && u.h == t.h && u.holds == t.holds && u.used == t.used && u.kind == t.kind && u.length == t.length
    && (forall at :: 0 <= at < t.used ==>
          && u.cols.keys[at] == t.cols.keys[at] && u.cols.hashes[at] == t.cols.hashes[at]
          && (t.holds ==> u.values[at] == t.values[at]))
  }

  lemma GrownReady(t: State, u: State)
    requires t.Ready() && Grown(t, u)
    ensures u.Ready() && u.Data() == t.Data()
  {
    assert u.Data() == t.Data();
  }

  /** u is t with every live entry's hash taken again, as an erased table's. */
  ghost predicate Widened(t: State, u: State) {
    && t.Shaped() && u.Shaped() && u.kind == Erased
    && u == t.(cols := t.cols.(hashes := u.cols.hashes), kind := Erased)
    && HashesOk(u.h, u.cols.keys, u.cols.hashes, u.used, Erased)
  }

  lemma WidenedReady(t: State, u: State)
    requires t.Ready() && Widened(t, u)
    ensures u.Ready() && u.Data() == t.Data()
  {
    if t.kind != Erased {
      assert AllFit(u.Data(), Erased);
      UniqueErased(t.Data(), t.kind);
    }
  }

  lemma UniqueErased(data: Data, kind: Kind)
    requires AllFit(data, kind) && Unique(data, kind) && kind != Erased
    ensures AllFit(data, Erased) && Unique(data, Erased)
  {
  }

  /** Without an index there are no entries to place. */
  lemma NoIndexSound(t: State)
    requires t.Ready() && |t.cols.index| == 0
    ensures t.Sound()
  {
  }

  // ---- the same facts, where definitions are hidden ----

  lemma OverwrittenIs(t: State, at: nat, value: Value)
    requires t.Shaped() && at < t.used
    ensures Overwritten(t, at, value) == if t.holds then t.(values := t.values[at := value]) else t
  {
  }

  lemma SameMoment(past: seq<Moment>, generation: nat, t: State, u: State)
    requires Remembered(past, generation, t) && u.cols == t.cols && u.used == t.used && u.kind == t.kind
    ensures Remembered(past, generation, u)
  {
  }

  lemma ReadyParts(t: State)
    requires t.Ready()
    ensures t.Shaped() && t.used <= |t.cols.keys| == |t.cols.hashes| == |t.cols.where|
    ensures 2 * |t.cols.keys| <= |t.cols.index| && t.used <= TOP / 2
    ensures |t.cols.index| > 0 ==> t.used < |t.cols.index|
  {
    RoomLeft(t);
  }

  lemma NonePlaced(t: State, index: seq<nat>)
    requires t.Ready() && forall s :: 0 <= s < |index| ==> index[s] == EMPTY
    ensures Placed(t.cols.(index := index), 0)
  {
    TakenNone(index);
  }

  lemma HashesAt(t: State, at: nat)
    requires t.Ready() && at < t.used
    ensures at < |t.cols.keys| == |t.cols.hashes| && at < WORD - 3
    ensures t.cols.hashes[at] < 0x1_0000_0000
    ensures if t.cols.hashes[at] == 0 then t.cols.keys[at].Hole? else t.cols.keys[at].Key? && TOP <= t.cols.hashes[at] < WORD
  {
    RoomLeft(t);
  }

  lemma PlacedRoom(t: State, c: Columns, at: nat)
    requires t.Ready() && at < t.used && Placed(c, at) && |c.index| == |t.cols.index| > 0
    ensures Taken(c.index) < |c.index|
  {
  }

  lemma PlaceNext(t: State, c: Columns, at: nat, s: nat)
    requires t.Ready() && at < t.used && |c.index| == |t.cols.index| && c.keys == t.cols.keys && c.hashes == t.cols.hashes
    requires Placed(c, at) && t.cols.hashes[at] != 0
    requires s < |c.index| && c.index[s] == EMPTY && Path(c.index, Home(c.hashes[at], |c.index|), s)
    ensures Placed(c.(index := c.index[s := Pack(c.hashes[at], at)], where := c.where[at := s]), at + 1)
  {
    RoomLeft(t);
    HashesAt(t, at);
    PlaceOne(c, at, s);
  }

  lemma Reindexed(t: State, u: State)
    requires t.Ready() && u == t.(cols := u.cols) && u.cols.keys == t.cols.keys && u.cols.hashes == t.cols.hashes
    requires |u.cols.index| == |t.cols.index| && |u.cols.where| == |t.cols.where| && Placed(u.cols, u.used)
    ensures u.Sound() && u.Data() == t.Data()
  {
  }

  lemma SetIs(data: Data, key: Value, value: Value, kind: Kind)
    requires AllFit(data, kind) && Fits(kind, key)
    ensures var at := Find(data, key, kind);
            && at < |data|
            && (at >= 0 ==> data[at].Pair? && Set(data, key, value, kind) == data[at := Pair(data[at].key, value)])
            && (at < 0 ==> at == -1 && Set(data, key, value, kind) == data + [Pair(Normalize(key), value)])
  {
  }

  lemma KeptIs(value: Value, holds: bool)
    ensures Kept(value, holds) == if holds then value else Undefined
  {
  }

  /** A key a table stores: -0 as +0, which only a number can be. */
  function Stored(key: Value, kind: Kind): Value {
    if kind == NumberKey || kind == Erased then Normalize(key) else key
  }

  lemma StoredIs(h: Hasher, data: Data, key: Value, kind: Kind)
    requires AllFit(data, kind) && Unique(data, kind) && Fits(kind, key)
    ensures Stored(key, kind) == Normalize(key) && Fits(kind, Normalize(key))
    ensures HashKey(h, Normalize(key), kind) == HashKey(h, key, kind) && Normalize(Normalize(key)) == Normalize(key)
    ensures Find(data, Normalize(key), kind) == Find(data, key, kind)
  {
    NormalizeKeeps(h, key, kind);
    FindSame(data, key, Normalize(key), kind);
  }

  /** The bound past which doubling the slots would leave 32 bits. */
  const MOST: nat := 0x2000_0000

  lemma RoomToGrow(used: nat)
    requires used <= MOST
    ensures var doubled := used * 2;
            && doubled <= MAX_LENGTH && 2 * doubled <= TOP && 16 <= TOP
  {
  }

  // ---- lookup tokens ----

  /** The generation a lookup was made at, and the slot it found. */
  datatype Token = Token(generation: nat, slot: nat)

  ghost predicate Holds(m: Moment, at: int, key: Value) {
    && 0 <= at < m.used <= |m.cols.keys| && m.cols.keys[at].Key?
    && Fits(m.kind, m.cols.keys[at].v) && Fits(m.kind, key) && KeyEq(m.cols.keys[at].v, key, m.kind)
  }

  /** At that moment the slot was the one key had, or would have taken; a slot
      past the index says nothing. */
  ghost predicate Names(h: Hasher, m: Moment, key: Value, slot: nat) {
    slot < |m.cols.index| ==>
      && Fits(m.kind, key)
      && if Free(m.cols.index[slot])
         then (forall at :: 0 <= at < m.used ==> !Holds(m, at, key))
              && FirstFree(m.cols.index, Home(HashKey(h, key, m.kind), |m.cols.index|), slot)
         else Holds(m, PositionOf(m.cols.index[slot]), key)
  }

  /** The token was taken for key from a table with this past. */
  ghost predicate Issued(h: Hasher, past: seq<Moment>, token: Token, key: Value) {
    token.generation < |past| && Names(h, past[token.generation], key, token.slot)
  }

  /** Nothing that happens to the table later takes a token back. */
  lemma IssuedStays(h: Hasher, earlier: seq<Moment>, later: seq<Moment>, token: Token, key: Value)
    requires Issued(h, earlier, token, key) && earlier <= later
    ensures Issued(h, later, token, key)
  {
  }

  lemma HeldEntry(t: State, at: int, key: Value)
    requires t.Sound() && Holds(Moment(t.cols, t.used, t.kind), at, key)
    ensures Find(t.Data(), key, t.kind) == at && t.cols.keys[at].Key?
  {
    assert Hits(t.Data(), at, key, t.kind);
    FindUnique(t.Data(), key, t.kind, at);
  }

  lemma HeldNone(t: State, key: Value)
    requires t.Sound() && Fits(t.kind, key)
    requires forall at :: 0 <= at < t.used ==> !Holds(Moment(t.cols, t.used, t.kind), at, key)
    ensures Find(t.Data(), key, t.kind) == -1
  {
    forall i | 0 <= i < |t.Data()|
      ensures !Hits(t.Data(), i, key, t.kind)
    {
      assert !Holds(Moment(t.cols, t.used, t.kind), i, key);
    }
    FindNone(t.Data(), key, t.kind);
  }

  /** A current token says where its key is now. */
  lemma CurrentToken(t: State, past: seq<Moment>, generation: nat, token: Token, key: Value)
    requires t.Sound() && Remembered(past, generation, t) && Issued(t.h, past, token, key)
    requires token.generation == generation && token.slot < |t.cols.index|
    ensures Fits(t.kind, key)
    ensures var word := t.cols.index[token.slot];
            if Free(word) then
              && Find(t.Data(), key, t.kind) == -1
              && FirstFree(t.cols.index, Home(HashKey(t.h, key, t.kind), |t.cols.index|), token.slot)
            else
              && Find(t.Data(), key, t.kind) == PositionOf(word) && 0 <= PositionOf(word) < t.used
              && t.cols.keys[PositionOf(word)].Key?
  {
    var word := t.cols.index[token.slot];
    if Free(word) {
      HeldNone(t, key);
    } else {
      HeldEntry(t, PositionOf(word), key);
    }
  }

  /** What a lookup found is a token for its key. */
  lemma TokenTaken(t: State, past: seq<Moment>, generation: nat, key: Value, at: int, slot: nat)
    requires t.Sound() && Remembered(past, generation, t) && Fits(t.kind, key)
    requires at == Find(t.Data(), key, t.kind) && |t.cols.index| > 0 && slot < |t.cols.index|
    requires if at >= 0 then at < |t.cols.where| && slot == t.cols.where[at]
             else FirstFree(t.cols.index, Home(HashKey(t.h, key, t.kind), |t.cols.index|), slot)
    ensures Issued(t.h, past, Token(generation, slot), key)
  {
    var m := Moment(t.cols, t.used, t.kind);
    if at >= 0 {
      assert Hits(t.Data(), at, key, t.kind);
      PackRoundTrip(t.cols.hashes[at], at);
      assert Holds(m, at, key);
    } else {
      forall a | 0 <= a < m.used
        ensures !Holds(m, a, key)
      {
        assert !Hits(t.Data(), a, key, t.kind);
      }
    }
  }

  lemma TokenForNothing(h: Hasher, past: seq<Moment>, generation: nat, t: State, key: Value, slot: nat)
    requires Remembered(past, generation, t) && slot >= |t.cols.index|
    ensures Issued(h, past, Token(generation, slot), key)
  {
  }

  lemma GrownIs(t: State, u: State)
    requires t.Shaped()
    requires u.h == t.h && u.holds == t.holds && u.used == t.used && u.kind == t.kind && u.length == t.length
    requires |u.cols.hashes| == |u.cols.keys| == |u.cols.where| && |u.values| == (if u.holds then |u.cols.keys| else 0)
    requires u.used <= |u.cols.keys| && |u.cols.keys| > 0 && 2 * |u.cols.keys| <= |u.cols.index| && TOP % |u.cols.index| == 0
    requires forall at :: 0 <= at < t.used ==> at < |t.cols.keys| && u.cols.keys[at] == t.cols.keys[at] && u.cols.hashes[at] == t.cols.hashes[at]
    requires t.holds ==> forall at :: 0 <= at < t.used ==> u.values[at] == t.values[at]
    ensures Grown(t, u)
  {
  }

  lemma HoleHashes(t: State)
    requires t.Sound()
    ensures t.used <= |t.cols.keys| == |t.cols.hashes|
    ensures forall at :: 0 <= at < t.used ==> (t.cols.keys[at].Hole? <==> t.cols.hashes[at] == 0)
  {
  }

  lemma WidenedIs(t: State, u: State)
    requires t.Sound() && u == t.(cols := t.cols.(hashes := u.cols.hashes), kind := Erased)
    requires |u.cols.hashes| == |t.cols.hashes| && HashesOk(u.h, u.cols.keys, u.cols.hashes, u.used, Erased)
    ensures Widened(t, u)
  {
  }

  lemma NoIndexMoment(past: seq<Moment>, generation: nat, t: State, u: State)
    requires Remembered(past, generation, t) && u.cols.index == t.cols.index && |t.cols.index| == 0
    ensures Remembered(past, generation, u)
  {
  }

  lemma GetIs(data: Data, key: Value, kind: Kind)
    requires AllFit(data, kind)
    ensures MapData.Get(data, key, kind) == var at := Find(data, key, kind); if at >= 0 && data[at].Pair? then data[at].value else Undefined
  {
  }

  lemma StepsNone(data: Data, kind: Kind, ops: seq<Op>)
    requires AllFit(data, kind)
    ensures Steps(data, kind, ops[..0]) == (data, kind)
  {
  }

  lemma StepIs(data: Data, kind: Kind, op: Op)
    requires AllFit(data, kind)
    ensures match op
            case Write(key, value) =>
              var k := if Fits(kind, key) then kind else Erased;
              && AllFit(data, k) && Fits(k, key) && Step(data, kind, op) == (MapData.Set(data, key, value, k), k)
              && |MapData.Set(data, key, value, k)| <= |data| + 1
            case Remove(key) => Step(data, kind, op) == (MapData.Delete(data, key, kind), kind) && |MapData.Delete(data, key, kind)| == |data|
            case Wipe => Step(data, kind, op) == (MapData.Clear(data), kind) && |MapData.Clear(data)| == |data|
  {
  }

  lemma FitsErased(key: Value)
    ensures Fits(Erased, key)
  {
  }

  lemma DeleteIs(data: Data, key: Value, kind: Kind)
    requires AllFit(data, kind)
    ensures var at := Find(data, key, kind);
            at < |data| && MapData.Delete(data, key, kind) == if at >= 0 then data[at := Empty] else data
  {
  }

  lemma Unfit(data: Data, key: Value, kind: Kind)
    requires AllFit(data, kind) && !Fits(kind, key)
    ensures Find(data, key, kind) == -1
  {
  }

  lemma RemovedIs(t: State, at: nat)
    requires t.Shaped() && at < t.used && t.cols.where[at] < |t.cols.index| && t.length > 0
    ensures Removed(t, at) ==
            t.(cols := t.cols.(index := t.cols.index[t.cols.where[at] := DELETED], keys := t.cols.keys[at := Hole], hashes := t.cols.hashes[at := 0]),
               values := if t.holds then t.values[at := Undefined] else t.values, length := t.length - 1)
  {
  }

  lemma EmptiedIs(t: State, u: State)
    requires t.Shaped() && u.h == t.h && u.holds == t.holds && u.used == t.used && u.kind == t.kind && u.length == 0
    requires |u.cols.keys| == |t.cols.keys| == |u.cols.hashes| && u.cols.where == t.cols.where && |u.values| == |t.values|
    requires |u.cols.index| == |t.cols.index|
    requires forall at :: 0 <= at < u.used ==> u.cols.keys[at].Hole? && u.cols.hashes[at] == 0
    requires forall s :: 0 <= s < |u.cols.index| ==> u.cols.index[s] == EMPTY
    ensures Emptied(t, u)
  {
  }

  /** A table as it is allocated: no columns yet. */
  lemma FreshSound(h: Hasher, holds: bool, kind: Kind, t: State)
    requires t == State(h, holds, Columns([], [], [], []), [], 0, 0, kind)
    ensures t.Sound() && t.Data() == [] && Remembered([Moment(t.cols, 0, kind)], 0, t)
  {
  }

  lemma NextIs(data: Data, i: nat)
    ensures MapData.Next(data, i) == if i >= |data| then -1 else if data[i].Pair? then i else MapData.Next(data, i + 1)
  {
  }

  lemma CopyNothing(data: Data)
    ensures Live(data[..0]) == []
  {
  }

  lemma Found(data: Data, done: nat, at: int)
    requires at == MapData.Next(data, done) && at >= 0
    ensures done <= at < |data| && data[at].Pair? && |Live(data[..done])| <= done
    ensures forall j :: done <= j < at ==> data[j] == Empty
  {
  }

  lemma CopyEnd(data: Data, done: nat)
    requires done <= |data| && MapData.Next(data, done) < 0
    ensures Live(data[..done]) == Live(data)
  {
    CopySkips(data, done, |data|);
    assert data[..|data|] == data;
  }
}
