/** The hash table behind Map, Set and dictionary objects, updated in place:
    every operation is the one of the ordered association list. */
module HashTable {
  import opened Basics
  import opened MapData
  import opened Probing
  import opened TableState

  /** Dense columns of entries with holes, and an open-addressed index of words
      over them. Data() is the list they stand for. */
  class Table {
    const h: Hasher
    const holdsValues: bool
    var kind: Kind
    var used: nat
    var length: nat
    var generation: nat
    var index: array<nat>
    var keys: array<Cell>
    var values: array<Value>
    var hashes: array<nat>
    ghost var where: seq<nat>
    ghost var past: seq<Moment>

    /** An empty table: no index and no entries yet. */
    constructor (h: Hasher, kind: Kind, holdsValues: bool)
      ensures Valid() && this.h == h && this.kind == kind && this.holdsValues == holdsValues
      ensures fresh(index) && fresh(keys) && fresh(values) && fresh(hashes)
      ensures Data() == [] && used == 0
    {
      this.h := h;
      this.kind := kind;
      this.holdsValues := holdsValues;
      used, length, generation := 0, 0, 0;
      index := new nat[0];
      keys := new Cell[0];
      values := new Value[0];
      hashes := new nat[0];
      where := [];
      past := [Moment(Columns([], [], [], []), 0, kind)];
      new;
      FreshSound(h, holdsValues, kind, Snap());
      Close(Snap());
    }

    /** The columns, as values. */
    ghost function Snap(): State
      reads this, index, keys, values, hashes
    {
      State(h, holdsValues, Columns(index[..], keys[..], hashes[..], where), values[..], used, length, kind)
    }

    ghost predicate Shaped()
      reads this, index, keys, values, hashes
    {
      index != hashes && Snap().Shaped()
    }

    ghost function Data(): Data
      requires Shaped()
      reads this, index, keys, values, hashes
    {
      Snap().Data()
    }

    ghost predicate Valid()
      reads this, index, keys, values, hashes
    {
      index != hashes && Snap().Sound() && Remembered(past, generation, Snap())
    }

    /** Entry at is the one key would have. */
    ghost predicate Match(at: int, key: Value)
      requires Shaped()
      reads this, index, keys, values, hashes
    {
      0 <= at < used && keys[at].Key? && Fits(kind, keys[at].v) && Fits(kind, key) && KeyEq(keys[at].v, key, kind)
    }

    lemma MatchIsHit(at: int, key: Value)
      requires Valid() && Fits(kind, key) && Match(at, key)
      ensures Find(Data(), key, kind) == at
    {
      assert Hits(Data(), at, key, kind);
      FindUnique(Data(), key, kind, at);
    }

    lemma NoMatch(key: Value)
      requires Valid() && Fits(kind, key)
      requires forall at :: 0 <= at < used ==> !Match(at, key)
      ensures Find(Data(), key, kind) == -1
    {
      forall i | 0 <= i < |Data()|
        ensures !Hits(Data(), i, key, kind)
      {
        assert !Match(i, key);
      }
      FindNone(Data(), key, kind);
    }

    /** A match can only sit on the chain of its key's hash, before its first
        EMPTY slot. */
    lemma MatchOnChain(at: int, key: Value, slot: nat)
      requires Valid() && Fits(kind, key) && index.Length > 0 && slot < index.Length && index[slot] == EMPTY
      requires Match(at, key)
      ensures var home := Home(HashKey(h, key, kind), index.Length);
              && where[at] < index.Length && index[where[at]] == Pack(hashes[at], at)
              && Dist(home, where[at], index.Length) < Dist(home, slot, index.Length)
    {
      EqualKeysHashAlike(h, keys[at].v, key, kind);
      TagHome(HashKey(h, key, kind), index.Length);
      PackRoundTrip(hashes[at], at);
    }

    /** The first `step` slots of the chain from home hold something, and not key. */
    ghost predicate Seen(key: Value, home: nat, step: nat)
      requires Shaped() && home < index.Length
      reads this, index, keys, values, hashes
    {
      forall x :: 0 <= x < index.Length && Dist(home, x, index.Length) < step ==>
        index[x] != EMPTY && (index[x] != DELETED ==> !Match(PositionOf(index[x]), key))
    }

    /** reuse is the first DELETED slot among them, or the slot count for none. */
    ghost predicate Reusable(home: nat, step: nat, reuse: nat)
      requires home < index.Length
      reads this, index
    {
      if reuse < index.Length then index[reuse] == DELETED && FirstFree(index[..], home, reuse)
      else reuse == index.Length && forall x :: 0 <= x < index.Length && Dist(home, x, index.Length) < step ==> !Free(index[x])
    }

    lemma SeenNone(key: Value, home: nat)
      requires Shaped() && home < index.Length
      ensures Seen(key, home, 0) && Reusable(home, 0, index.Length)
    {
    }

    /** A word that is not a mark names an entry, and carries its hash's tag. */
    lemma WordAt(slot: nat)
      requires Valid() && slot < index.Length && !Free(index[slot])
      ensures var at := PositionOf(index[slot]);
              && 0 <= at < used && keys[at].Key? && Fits(kind, keys[at].v)
              && TagOf(index[slot]) == Tag(HashKey(h, keys[at].v, kind)) && where[at] == slot
    {
      var at := PositionOf(index[slot]);
      PackRoundTrip(hashes[at], at);
    }

    lemma OtherTag(key: Value, slot: nat)
      requires Valid() && Fits(kind, key) && slot < index.Length && !Free(index[slot])
      requires TagOf(index[slot]) != Tag(HashKey(h, key, kind))
      ensures !Match(PositionOf(index[slot]), key)
    {
      WordAt(slot);
      var at := PositionOf(index[slot]);
      if KeyEq(keys[at].v, key, kind) {
        EqualKeysHashAlike(h, keys[at].v, key, kind);
      }
    }

    lemma SeenStep(key: Value, home: nat, step: nat, slot: nat, reuse: nat)
      requires Shaped() && home < index.Length && slot < index.Length && Dist(home, slot, index.Length) == step
      requires Seen(key, home, step) && Reusable(home, step, reuse)
      requires index[slot] != EMPTY && (index[slot] != DELETED ==> !Match(PositionOf(index[slot]), key))
      ensures Seen(key, home, step + 1)
      ensures Reusable(home, step + 1, if index[slot] == DELETED && reuse == index.Length then slot else reuse)
      ensures After(slot, index.Length) < index.Length
      ensures step + 1 < index.Length ==> Dist(home, After(slot, index.Length), index.Length) == step + 1
    {
      forall x | 0 <= x < index.Length && Dist(home, x, index.Length) < step + 1
        ensures x == slot || Dist(home, x, index.Length) < step
      {
      }
    }

    lemma SeenToEnd(key: Value, home: nat, step: nat, slot: nat, reuse: nat)
      requires Valid() && Fits(kind, key) && index.Length > 0 && home == Home(HashKey(h, key, kind), index.Length)
      requires slot < index.Length && Dist(home, slot, index.Length) == step && index[slot] == EMPTY
      requires Seen(key, home, step) && Reusable(home, step, reuse)
      ensures Find(Data(), key, kind) == -1
      ensures FirstFree(index[..], home, if reuse < index.Length then reuse else slot)
    {
      forall at | 0 <= at < used
        ensures !Match(at, key)
      {
        if Match(at, key) {
          MatchOnChain(at, key, slot);
          PackRoundTrip(hashes[at], at);
        }
      }
      NoMatch(key);
    }

    /** The chain cannot go all the way round: an EMPTY slot is always left. */
    lemma SomeEmpty(key: Value, home: nat)
      requires Valid() && home < index.Length
      ensures !Seen(key, home, index.Length)
    {
      if forall s :: 0 <= s < |index[..]| ==> index[..][s] != EMPTY {
        TakenAll(index[..]);
      } else {
        var s :| 0 <= s < |index[..]| && index[..][s] == EMPTY;
        assert index[s] == EMPTY && Dist(home, s, index.Length) < index.Length;
      }
    }

    ghost predicate Lands(hash: U32, at: int, slot: nat)
      requires Shaped()
      reads this, index, keys, values, hashes
    {
      if index.Length == 0 then at == -1 && slot == 0
      else
        slot < index.Length &&
        if at >= 0 then at < |where| && slot == where[at]
        else FirstFree(index[..], Home(hash, index.Length), slot)
    }

    lemma EmptyTable(key: Value)
      requires Valid() && Fits(kind, key) && index.Length == 0
      ensures Find(Data(), key, kind) == -1
    {
      NoMatch(key);
    }

    lemma Landed(slot: nat, key: Value)
      requires Valid() && Fits(kind, key) && slot < index.Length && !Free(index[slot]) && Match(PositionOf(index[slot]), key)
      ensures Find(Data(), key, kind) == PositionOf(index[slot])
      ensures Lands(HashKey(h, key, kind), PositionOf(index[slot]), slot)
    {
      WordAt(slot);
      MatchIsHit(PositionOf(index[slot]), key);
    }

    lemma LandsFree(hash: U32, slot: nat)
      requires Shaped() && index.Length > 0 && FirstFree(index[..], Home(hash, index.Length), slot)
      ensures Lands(hash, -1, slot)
    {
    }

    lemma MatchIs(at: int, key: Value)
      requires Shaped() && 0 <= at < used && keys[at].Key? && Fits(kind, keys[at].v) && Fits(kind, key)
      ensures Match(at, key) <==> KeyEq(keys[at].v, key, kind)
    {
    }

    /** Where key lives, or -1; and the slot it has, or would take: the first
        free one of its chain. */
    method FindSlot(key: Value, hash: U32) returns (at: int, slot: nat)
      requires Valid() && Fits(kind, key) && hash == HashKey(h, key, kind)
      ensures at == Find(Data(), key, kind)
      ensures Lands(hash, at, slot)
    {
      hide *;
      Open();
      if index.Length == 0 {
        EmptyTable(key);
        LandsNowhere(hash);
        return -1, 0;
      }
      var n := index.Length;
      slot := Home(hash, n);
      ghost var home := slot;
      var reuse: nat := n;
      SeenNone(key, home);
      DistHome(home, n);
      for step := 0 to n
        invariant slot < n && 0 <= reuse && (step < n ==> Dist(home, slot, n) == step)
        invariant Seen(key, home, step) && Reusable(home, step, reuse)
      {
        var word := index[slot];
        if word == EMPTY {
          SeenToEnd(key, home, step, slot, reuse);
          LandsFree(hash, if reuse < n then reuse else slot);
          return -1, if reuse < n then reuse else slot;
        }
        if word == DELETED {
          SeenStep(key, home, step, slot, reuse);
          if reuse == n {
            reuse := slot;
          }
        } else {
          FreeIs(word);
          WordAt(slot);
          if TagOf(word) == Tag(hash) {
            var pos := PositionOf(word);
            MatchIs(pos, key);
            if KeyEq(keys[pos].v, key, kind) {
              Landed(slot, key);
              return pos, slot;
            }
          } else {
            OtherTag(key, slot);
          }
          SeenStep(key, home, step, slot, reuse);
        }
        slot := After(slot, n);
      }
      SomeEmpty(key, home);
      assert false;
    }

    lemma LandsNowhere(hash: U32)
      requires Shaped() && index.Length == 0
      ensures Lands(hash, -1, 0)
    {
    }

    lemma Open()
      requires Valid()
      ensures Snap().Sound() && Snap().Shaped() && Shaped() && Data() == Snap().Data() && index != hashes
      ensures Snap() == State(h, holdsValues, Columns(index[..], keys[..], hashes[..], where), values[..], used, length, kind)
      ensures hashes.Length == keys.Length && values.Length == (if holdsValues then keys.Length else 0)
      ensures used <= keys.Length && 2 * keys.Length <= index.Length && |where| == keys.Length
      ensures |past| == generation + 1 && AllFit(Data(), kind) && |Data()| == used
      ensures Remembered(past, generation, Snap())
    {
    }

    lemma SnapIs()
      ensures Snap() == State(h, holdsValues, Columns(index[..], keys[..], hashes[..], where), values[..], used, length, kind)
    {
    }

    lemma Close(t: State)
      requires t == State(h, holdsValues, Columns(index[..], keys[..], hashes[..], where), values[..], used, length, kind)
      requires t.Sound() && index != hashes && Remembered(past, generation, t)
      ensures Valid() && Shaped() && Data() == t.Data() && AllFit(Data(), kind)
    {
    }

    /** The four columns of a fresh entry. */
    method WriteEntry(key: Value, value: Value, slot: nat, tag: U32)
      requires index != hashes && used < keys.Length == hashes.Length && slot < index.Length
      requires holdsValues ==> used < values.Length
      modifies index, keys, values, hashes
      ensures index[..] == old(index[..])[slot := Pack(tag, used)]
      ensures keys[..] == old(keys[..])[used := Key(key)]
      ensures hashes[..] == old(hashes[..])[used := tag]
      ensures values[..] == if holdsValues then old(values[..])[used := value] else old(values[..])
    {
      hide *;
      if holdsValues {
        values[used] := value;
      }
      keys[used] := Key(key);
      hashes[used] := tag;
      index[slot] := Pack(tag, used);
    }

    /** A fresh key at the slot a lookup said it would take. */
    method InsertAt(key: Value, value: Value, slot: nat, hash: U32)
      requires Valid() && used < keys.Length && Fits(kind, key) && hash == HashKey(h, key, kind)
      requires Find(Data(), key, kind) == -1 && Normalize(key) == key
      requires slot < index.Length && FirstFree(index[..], Home(hash, index.Length), slot)
      modifies this, index, keys, values, hashes
      ensures Valid() && kind == old(kind) && old(past) < past
      ensures index == old(index) && keys == old(keys) && values == old(values) && hashes == old(hashes)
      ensures AllFit(Data(), kind) && Data() == old(Data()) + [Pair(key, if holdsValues then value else Undefined)]
    {
      hide *;
      ghost var t := Snap();
      Open();
      InsertedSound(t, key, value, slot, hash);
      InsertedIs(t, key, value, slot, hash);
      ghost var u := Inserted(t, key, value, slot, hash);
      Extended(past, generation, u);
      WriteEntry(key, value, slot, Tag(hash));
      where := where[used := slot];
      used := used + 1;
      length := length + 1;
      generation := generation + 1;
      past := past + [Moment(u.cols, u.used, u.kind)];
      Close(u);
    }

    /** A present key's new value: the key stays as it was. */
    method Overwrite(at: nat, value: Value)
      requires Valid() && at < used && keys[at].Key?
      modifies values
      ensures Valid() && AllFit(Data(), kind)
      ensures Data() == old(Data())[at := Pair(old(Data())[at].key, Kept(value, holdsValues))]
    {
      hide *;
      ghost var t := Snap();
      Open();
      OverwrittenSound(t, at, value);
      OverwrittenIs(t, at, value);
      ghost var u := Overwritten(t, at, value);
      if holdsValues {
        values[at] := value;
      }
      assert values[..] == u.values;
      SameMoment(past, generation, t, u);
      Close(u);
    }

    /** The index rebuilt from the hashes the entries kept. */
    method Reindex()
      requires index != hashes && Snap().Ready() && index.Length > 0 && |past| == generation + 1
      modifies this`where, this`generation, this`past, index
      ensures Valid() && old(past) < past && AllFit(Data(), kind) && Data() == old(Snap().Data())
    {
      hide *;
      ghost var t := Snap();
      SnapIs();
      ReadyParts(t);
      var slot := 0;
      while slot < index.Length
        invariant 0 <= slot <= index.Length && hashes[..] == t.cols.hashes
        invariant forall s :: 0 <= s < slot ==> index[s] == EMPTY
        modifies index
      {
        index[slot] := EMPTY;
        slot := slot + 1;
      }
      NonePlaced(t, index[..]);
      var at := 0;
      while at < used
        invariant 0 <= at <= used && hashes[..] == t.cols.hashes && |where| == |t.cols.where|
        invariant Placed(Columns(index[..], t.cols.keys, t.cols.hashes, where), at)
        modifies index, `where
      {
        var hash := hashes[at];
        ghost var c := Columns(index[..], t.cols.keys, t.cols.hashes, where);
        assert hash == t.cols.hashes[at];
        HashesAt(t, at);
        if hash != 0 {
          PlacedRoom(t, c, at);
          var s := ProbeEmpty(index, Home(hash, index.Length));
          PlaceNext(t, c, at, s);
          index[s] := Pack(hash, at);
          where := where[at := s];
          assert index[..] == c.index[s := Pack(hash, at)];
        } else {
          PlaceHole(c, at);
        }
        at := at + 1;
      }
      generation := generation + 1;
      ghost var u := t.(cols := Columns(index[..], t.cols.keys, t.cols.hashes, where));
      Reindexed(t, u);
      past := past + [Moment(u.cols, u.used, u.kind)];
      Extended(old(past), old(generation), u);
      Close(u);
    }

    /** Grow the columns and rebuild the index: every entry, holes included,
        stays where it is. */
    method Rehash()
      requires Valid() && used <= MOST
      modifies this
      ensures Valid() && old(past) < past && kind == old(kind)
      ensures fresh(index) && fresh(keys) && fresh(values) && fresh(hashes)
      ensures used < keys.Length && AllFit(Data(), kind) && Data() == old(Data())
      ensures keys.Length == (if used <= 4 then 8 else 2 * used) && 2 * keys.Length <= index.Length < 4 * keys.Length
    {
      hide *;
      ghost var t := Snap();
      Open();
      RoomToGrow(used);
      var doubled := used * 2;
      var wanted := if doubled > MAX_LENGTH then MAX_LENGTH else doubled;
      if wanted < 8 {
        wanted := 8;
      }
      var slots := SlotsFor(2 * wanted);
      Reallocate(wanted, slots);
      SnapIs();
      GrownIs(t, Snap());
      GrownReady(t, Snap());
      Reindex();
    }

    /** New columns of these sizes, holding the old entries. */
    method Reallocate(wanted: nat, slots: nat)
      requires used <= keys.Length && used <= hashes.Length && used <= wanted && (holdsValues ==> used <= values.Length)
      modifies `keys, `values, `index, `hashes, `where
      ensures fresh(index) && fresh(keys) && fresh(values) && fresh(hashes) && index != hashes
      ensures keys.Length == hashes.Length == |where| == wanted && index.Length == slots
      ensures values.Length == if holdsValues then wanted else 0
      ensures forall i :: 0 <= i < used ==> keys[..][i] == old(keys[..])[i] && hashes[..][i] == old(hashes[..])[i]
      ensures holdsValues ==> forall i :: 0 <= i < used ==> values[..][i] == old(values[..])[i]
    {
      var newKeys := new Cell[wanted];
      var newValues := new Value[if holdsValues then wanted else 0];
      var newIndex := new nat[slots];
      var newHashes := new nat[wanted];
      CopyEntries(newKeys, newValues, newHashes);
      keys := newKeys;
      values := newValues;
      index := newIndex;
      hashes := newHashes;
      where := newHashes[..];
    }

    /** The columns copied up to used: no entry, and no hole, changes its position. */
    method CopyEntries(newKeys: array<Cell>, newValues: array<Value>, newHashes: array<nat>)
      requires used <= keys.Length && used <= hashes.Length && used <= newKeys.Length && used <= newHashes.Length
      requires holdsValues ==> used <= values.Length && used <= newValues.Length
      requires newKeys != keys && newValues != values && newHashes != hashes && newHashes != index
      modifies newKeys, newValues, newHashes
      ensures forall i :: 0 <= i < used ==> newKeys[i] == keys[i] && newHashes[i] == hashes[i]
      ensures holdsValues ==> forall i :: 0 <= i < used ==> newValues[i] == values[i]
    {
      for at := 0 to used
        invariant forall i :: 0 <= i < at ==> newKeys[i] == keys[i] && newHashes[i] == hashes[i]
        invariant holdsValues ==> forall i :: 0 <= i < at ==> newValues[i] == values[i]
      {
        newKeys[at] := keys[at];
        if holdsValues {
          newValues[at] := values[at];
        }
        newHashes[at] := hashes[at];
      }
    }

    /** Every live entry's hash, taken again as an erased table takes it. */
    method TakeHashes()
      requires index != hashes && used <= keys.Length == hashes.Length
      requires forall at :: 0 <= at < used ==> (keys[at].Hole? <==> hashes[at] == 0)
      modifies hashes
      ensures HashesOk(h, keys[..], hashes[..], used, Erased)
    {
      for at := 0 to used
        invariant forall i :: at <= i < used ==> (keys[i].Hole? <==> hashes[i] == 0)
        invariant HashesOk(h, keys[..], hashes[..], at, Erased)
      {
        if hashes[at] != 0 {
          hashes[at] := Tag(HashKey(h, keys[at].v, Erased));
        }
      }
    }

    /** A table that a key of another sort is written to becomes erased: every
        live entry's hash is taken again, and the index rebuilt. */
    method Widen()
      requires Valid()
      modifies this, index, hashes
      ensures Valid() && kind == Erased && old(past) <= past
      ensures index == old(index) && keys == old(keys) && values == old(values) && hashes == old(hashes)
      ensures used == old(used)
      ensures AllFit(Data(), kind) && Data() == old(Data())
    {
      hide *;
      ghost var t := Snap();
      Open();
      HoleHashes(t);
      kind := Erased;
      TakeHashes();
      SnapIs();
      ghost var u := Snap();
      WidenedIs(t, u);
      WidenedReady(t, u);
      if index.Length > 0 {
        Reindex();
      } else {
        NoIndexSound(u);
        NoIndexMoment(past, generation, t, u);
        Close(u);
      }
    }

    lemma At(at: nat)
      requires Valid() && at < used
      ensures used <= keys.Length && at < |Data()| && (holdsValues ==> at < values.Length)
      ensures keys[at].Key? <==> Data()[at].Pair?
      ensures Data()[at].Pair? ==> Data()[at] == Pair(keys[at].v, if holdsValues then values[at] else Undefined)
      ensures keys[at].Key? <==> hashes.Length == keys.Length && hashes[at] != 0
    {
    }

    /** Map.get and what follows it, by the table's own kind. */
    method GetAs(key: Value) returns (v: Value)
      requires Valid() && Fits(kind, key)
      ensures v == MapData.Get(Data(), key, kind)
    {
      hide *;
      Open();
      GetIs(Data(), key, kind);
      var at, slot := FindSlot(key, HashKey(h, key, kind));
      if at < 0 {
        return Undefined;
      }
      At(at);
      return if holdsValues then values[at] else Undefined;
    }

    /** `asked` is the kind the caller's static type promised: when it is the
        table's the key is known to fit. */
    method Get(key: Value, asked: Kind) returns (v: Value)
      requires Valid() && (asked == kind ==> Fits(kind, key))
      ensures v == MapData.Get(Data(), key, kind)
    {
      if asked != kind && !Fits(kind, key) {
        return Undefined;
      }
      v := GetAs(key);
    }

    method Has(key: Value, asked: Kind) returns (has: bool)
      requires Valid() && (asked == kind ==> Fits(kind, key))
      ensures has <==> Find(Data(), key, kind) >= 0
    {
      if asked != kind && !Fits(kind, key) {
        return false;
      }
      var at, slot := FindSlot(key, HashKey(h, key, kind));
      has := at >= 0;
    }

    lemma LandsIs(hash: U32, at: int, slot: nat)
      requires Shaped() && index.Length > 0 && Lands(hash, at, slot)
      ensures slot < index.Length
      ensures if at >= 0 then at < |where| && slot == where[at] else FirstFree(index[..], Home(hash, index.Length), slot)
    {
    }

    method SetAs(key: Value, value: Value)
      requires Valid() && Fits(kind, key) && (used < keys.Length || used <= MOST)
      modifies this, index, keys, values, hashes
      ensures Valid() && kind == old(kind) && old(past) <= past
      ensures || (index == old(index) && keys == old(keys) && values == old(values) && hashes == old(hashes))
              || (fresh(index) && fresh(keys) && fresh(values) && fresh(hashes))
      ensures AllFit(old(Data()), kind) && AllFit(Data(), kind)
      ensures Data() == MapData.Set(old(Data()), key, Kept(value, holdsValues), kind)
      ensures old(used < keys.Length) ==> keys == old(keys)
    {
      hide *;
      Open();
      ghost var data := Data();
      SetIs(data, key, Kept(value, holdsValues), kind);
      KeptIs(value, holdsValues);
      ReadyData();
      StoredIs(h, data, key, kind);
      var stored := Stored(key, kind);
      var hash := HashKey(h, stored, kind);
      var at, slot := FindSlot(stored, hash);
      if at >= 0 {
        At(at);
        Overwrite(at, value);
        return;
      }
      if used == keys.Length {
        Rehash();
        at, slot := FindSlot(stored, hash);
      }
      Open();
      LandsIs(hash, at, slot);
      InsertAt(stored, value, slot, hash);
    }

    lemma ReadyData()
      requires Valid()
      ensures AllFit(Data(), kind) && Unique(Data(), kind)
    {
    }

    /** Map.set, Set.add and a table's write. */
    method Set(key: Value, value: Value, asked: Kind)
      requires Valid() && (asked == kind ==> Fits(kind, key)) && (used < keys.Length || used <= MOST)
      modifies this, index, keys, values, hashes
      ensures Valid() && old(past) <= past
      ensures || (index == old(index) && keys == old(keys) && values == old(values) && hashes == old(hashes))
              || (fresh(index) && fresh(keys) && fresh(values) && fresh(hashes))
      ensures kind == if Fits(old(kind), key) then old(kind) else Erased
      ensures AllFit(old(Data()), kind) && AllFit(Data(), kind)
      ensures Data() == MapData.Set(old(Data()), key, Kept(value, holdsValues), kind)
      ensures var at := Find(old(Data()), key, kind);
              var v := if holdsValues then value else Undefined;
              Data() ==
                if at >= 0 then old(Data())[at := Pair(old(Data())[at].key, v)]
                else old(Data()) + [Pair(if key == Number(Zero(true)) || key == Number(Zero(false)) then Number(Zero(false)) else key, v)]
      ensures old(used < keys.Length) ==> keys == old(keys)
    {
      hide *;
      if asked != kind && !Fits(kind, key) {
        Widen();
        FitsErased(key);
      }
      CopyRoom();
      ghost var data := Data();
      KeptIs(value, holdsValues);
      SetAs(key, value);
      SetWrites(data, key, Kept(value, holdsValues), kind);
    }

    /** The entry goes: a hole in the columns and a DELETED mark in the index. */
    method RemoveAt(at: nat, slot: nat)
      requires Valid() && at < used && keys[at].Key? && at < |where| && slot == where[at]
      modifies this, index, keys, values, hashes
      ensures Valid() && kind == old(kind) && old(past) < past
      ensures index == old(index) && keys == old(keys) && values == old(values) && hashes == old(hashes)
      ensures AllFit(Data(), kind) && |old(Data())| == old(used) && Data() == old(Data())[at := Empty]
    {
      hide *;
      ghost var t := Snap();
      Open();
      RemovedSound(t, at);
      RemovedIs(t, at);
      ghost var u := Removed(t, at);
      Extended(past, generation, u);
      WriteHole(at, slot);
      length := length - 1;
      generation := generation + 1;
      past := past + [Moment(u.cols, u.used, u.kind)];
      Close(u);
    }

    method WriteHole(at: nat, slot: nat)
      requires index != hashes && at < keys.Length == hashes.Length && slot < index.Length
      requires holdsValues ==> at < values.Length
      modifies index, keys, values, hashes
      ensures index[..] == old(index[..])[slot := DELETED]
      ensures keys[..] == old(keys[..])[at := Hole]
      ensures hashes[..] == old(hashes[..])[at := 0]
      ensures values[..] == if holdsValues then old(values[..])[at := Undefined] else old(values[..])
    {
      hide *;
      keys[at] := Hole;
      if holdsValues {
        values[at] := Undefined;
      }
      hashes[at] := 0;
      index[slot] := DELETED;
    }

    method Delete(key: Value, asked: Kind) returns (was: bool)
      requires Valid() && (asked == kind ==> Fits(kind, key))
      modifies this, index, keys, values, hashes
      ensures Valid() && kind == old(kind) && old(past) <= past
      ensures index == old(index) && keys == old(keys) && values == old(values) && hashes == old(hashes)
      ensures AllFit(old(Data()), kind) && AllFit(Data(), kind)
      ensures was <==> Find(old(Data()), key, kind) >= 0
      ensures Data() == MapData.Delete(old(Data()), key, kind)
    {
      hide *;
      Open();
      DeleteIs(Data(), key, kind);
      if asked != kind && !Fits(kind, key) {
        Unfit(Data(), key, kind);
        return false;
      }
      var hash := HashKey(h, key, kind);
      var at, slot := FindSlot(key, hash);
      if at < 0 {
        return false;
      }
      FoundThere(key, hash, at, slot);
      RemoveAt(at, slot);
      return true;
    }

    lemma FoundThere(key: Value, hash: U32, at: int, slot: nat)
      requires Valid() && AllFit(Data(), kind) && Lands(hash, at, slot) && at >= 0 && at == Find(Data(), key, kind)
      ensures at < used <= keys.Length && keys[at].Key? && index.Length > 0 && at < |where| && slot == where[at]
    {
    }

    /** Every entry a hole and the index empty, and the next entry where it
        would have gone: used stays. */
    method Clear()
      requires Valid()
      modifies this, index, keys, values, hashes
      ensures Valid() && kind == old(kind) && used == old(used) && old(past) < past
      ensures index == old(index) && keys == old(keys) && values == old(values) && hashes == old(hashes)
      ensures AllFit(Data(), kind) && Data() == MapData.Clear(old(Data()))
    {
      hide *;
      ghost var t := Snap();
      Open();
      HoleHashes(t);
      EmptyEntries();
      EmptyIndex();
      length := 0;
      generation := generation + 1;
      SnapIs();
      ghost var u := Snap();
      EmptiedIs(t, u);
      EmptiedSound(t, u);
      Extended(past, old(generation), u);
      past := past + [Moment(u.cols, u.used, u.kind)];
      Close(u);
    }

    method EmptyEntries()
      requires index != hashes && used <= keys.Length == hashes.Length && (holdsValues ==> used <= values.Length)
      requires forall at :: 0 <= at < used ==> (keys[at].Hole? <==> hashes[at] == 0)
      modifies keys, values, hashes
      ensures forall at :: 0 <= at < used ==> keys[at].Hole? && hashes[at] == 0
    {
      for at := 0 to used
        invariant forall i :: 0 <= i < at ==> keys[i].Hole? && hashes[i] == 0
        invariant forall i :: at <= i < used ==> (keys[i].Hole? <==> hashes[i] == 0)
      {
        if keys[at].Hole? {
          continue;
        }
        keys[at] := Hole;
        hashes[at] := 0;
        if holdsValues {
          values[at] := Undefined;
        }
      }
    }

    method EmptyIndex()
      modifies index
      ensures forall s :: 0 <= s < index.Length ==> index[s] == EMPTY
    {
      for slot := 0 to index.Length
        invariant forall s :: 0 <= s < slot ==> index[s] == EMPTY
      {
        index[slot] := EMPTY;
      }
    }

    /** The next live entry at or after from, or -1: `used` is read at every call. */
    method Next(from: int) returns (at: int)
      requires Valid()
      ensures at == if from < 0 then -1 else MapData.Next(Data(), from)
    {
      hide *;
      Open();
      if from < 0 {
        return -1;
      }
      at := from;
      while at < used
        invariant from <= at && MapData.Next(Data(), from) == MapData.Next(Data(), at)
        decreases used - at
      {
        At(at);
        NextIs(Data(), at);
        if hashes[at] != 0 {
          return at;
        }
        at := at + 1;
      }
      NextIs(Data(), at);
      return -1;
    }

    lemma StoredData()
      requires Valid()
      ensures AllFit(Data(), kind) && Unique(Data(), kind) && AllStored(Data()) && |Data()| == used
    {
    }

    /** A copy holds the live entries in their order, and no holes. */
    method Copy() returns (out: Table)
      requires Valid() && used <= MOST
      ensures fresh(out) && out.Valid() && out.kind == kind && out.holdsValues == holdsValues
      ensures out.Data() == Live(Data()) && Data() == old(Data())
      ensures fresh(out.index) && fresh(out.keys) && fresh(out.values) && fresh(out.hashes)
    {
      hide *;
      Open();
      StoredData();
      ghost var data := Data();
      out := new Table(h, kind, holdsValues);
      out.CopyRoom();
      ghost var done := 0;
      CopyNothing(data);
      var at := Next(0);
      while at >= 0
        invariant fresh(out) && fresh(out.index) && fresh(out.keys) && fresh(out.values) && fresh(out.hashes)
        invariant Valid() && Data() == data && out.Valid() && out.kind == kind && out.holdsValues == holdsValues
        invariant Shaped() && out.Shaped()
        invariant 0 <= done <= used && out.Data() == Live(data[..done]) && at == MapData.Next(data, done)
        decreases used - done
      {
        Found(data, done, at);
        CopyEntry(out, data, done, at);
        done := at + 1;
        at := Next(at + 1);
      }
      CopyEnd(data, done);
    }

    /** The live entry at `at` joins a copy of those before it. */
    method CopyEntry(out: Table, ghost data: Data, ghost done: nat, at: nat)
      requires Valid() && used <= MOST && out != this && Data() == data && done <= at < used && at == MapData.Next(data, done)
      requires out.Valid() && out.kind == kind && out.holdsValues == holdsValues && out.Data() == Live(data[..done])
      requires AllFit(data, kind) && MapData.Unique(data, kind) && AllStored(data) && |data| == used && data[at].Pair?
      requires Shaped() && index !in {out.index, out.hashes} && keys != out.keys && values != out.values && hashes !in {out.index, out.hashes}
      modifies out, out.index, out.keys, out.values, out.hashes
      ensures Valid() && Shaped() && Data() == data
      ensures out.Valid() && out.Shaped() && out.kind == kind && out.holdsValues == holdsValues
      ensures out.Data() == Live(data[..at + 1])
      ensures fresh(out.index) || out.index == old(out.index)
      ensures fresh(out.keys) || out.keys == old(out.keys)
      ensures fresh(out.values) || out.values == old(out.values)
      ensures fresh(out.hashes) || out.hashes == old(out.hashes)
    {
      hide *;
      At(at);
      CopySkips(data, done, at);
      CopyStep(data, at, kind);
      out.CopyRoom();
      KeptIs(data[at].value, holdsValues);
      out.Set(keys[at].v, if holdsValues then values[at] else Undefined, kind);
      out.CopyRoom();
    }

    /** What holds of every table: no -0 among its keys, and its size is the number
        of its live entries. */
    lemma Always()
      requires Valid()
      ensures PlainZeros(Data()) && length == |Live(Data())|
    {
      LiveSize(Data());
      assert AllStored(Data());
    }

    lemma CopyRoom()
      requires Valid()
      ensures Shaped() && |Data()| == used && AllFit(Data(), kind)
    {
    }

    /** Any sequence of writes, deletions and clears: the list after the same. */
    method Perform(ops: seq<Op>)
      requires Valid() && holdsValues && used + |ops| <= MOST
      modifies this, index, keys, values, hashes
      ensures Valid() && AllFit(old(Data()), old(kind)) && (Data(), kind) == Steps(old(Data()), old(kind), ops)
      ensures || (index == old(index) && keys == old(keys) && values == old(values) && hashes == old(hashes))
              || (fresh(index) && fresh(keys) && fresh(values) && fresh(hashes))
    {
      hide *;
      CopyRoom();
      ghost var data, was := Data(), kind;
      StepsNone(data, was, ops);
      for i := 0 to |ops|
        invariant Valid() && Shaped() && |Data()| == used <= old(used) + i && AllFit(Data(), kind)
        invariant (Data(), kind) == Steps(data, was, ops[..i])
        invariant || (index == old(index) && keys == old(keys) && values == old(values) && hashes == old(hashes))
                  || (fresh(index) && fresh(keys) && fresh(values) && fresh(hashes))
      {
        StepsNext(data, was, ops[..i], ops[i]);
        assert ops[..i + 1] == ops[..i] + [ops[i]];
        StepIs(Data(), kind, ops[i]);
        FitsErased(if ops[i].Wipe? then Undefined else ops[i].key);
        match ops[i] {
          case Write(key, value) =>
            KeptIs(value, holdsValues);
            Set(key, value, Erased);
          case Remove(key) =>
            var _ := Delete(key, Erased);
          case Wipe =>
            Clear();
        }
        CopyRoom();
      }
      assert ops[..|ops|] == ops;
    }

    /** What is done to a copy is not done to the table. */
    method CopyAndPerform(ops: seq<Op>) returns (out: Table)
      requires Valid() && holdsValues && used + |ops| <= MOST
      ensures fresh(out) && out.Valid() && Valid() && Data() == old(Data())
      ensures AllFit(Live(Data()), kind) && (out.Data(), out.kind) == Steps(Live(Data()), kind, ops)
    {
      hide *;
      CopyRoom();
      out := Copy();
      out.CopyRoom();
      out.Perform(ops);
    }

    // ---- lookup tokens ----

    method Entry(key: Value, asked: Kind) returns (token: Token)
      requires Valid() && (asked == kind ==> Fits(kind, key))
      ensures Issued(h, past, token, key)
    {
      hide *;
      Open();
      if asked != kind {
        TokenForNothing(h, past, generation, Snap(), key, index.Length);
        return Token(generation, index.Length);
      }
      var hash := HashKey(h, key, kind);
      var at, slot := FindSlot(key, hash);
      token := Token(generation, slot);
      if index.Length == 0 {
        TokenForNothing(h, past, generation, Snap(), key, slot);
      } else {
        LandsIs(hash, at, slot);
        TokenTaken(Snap(), past, generation, key, at, slot);
      }
    }

    /** Get through a token, whatever was done to the table since it was taken. */
    method EntryGet(token: Token, key: Value, asked: Kind) returns (v: Value)
      requires Valid() && (asked == kind ==> Fits(kind, key)) && Issued(h, past, token, key)
      ensures v == MapData.Get(Data(), key, kind)
    {
      hide *;
      if asked != kind || !(token.generation == generation && token.slot < index.Length) {
        v := Get(key, asked);
        return;
      }
      Open();
      CurrentToken(Snap(), past, generation, token, key);
      GetIs(Data(), key, kind);
      var held := index[token.slot];
      FreeIs(held);
      if held == EMPTY || held == DELETED || !holdsValues {
        if held != EMPTY && held != DELETED {
          At(PositionOf(held));
        }
        return Undefined;
      }
      var at := PositionOf(held);
      At(at);
      v := values[at];
    }

    /** Set through a token: in place, or at the slot the lookup found, with no
        second probe. */
    method EntrySet(token: Token, key: Value, value: Value, asked: Kind)
      requires Valid() && (asked == kind ==> Fits(kind, key)) && (used < keys.Length || used <= MOST)
      requires Issued(h, past, token, key)
      modifies this, index, keys, values, hashes
      ensures Valid() && old(past) <= past
      ensures || (index == old(index) && keys == old(keys) && values == old(values) && hashes == old(hashes))
              || (fresh(index) && fresh(keys) && fresh(values) && fresh(hashes))
      ensures kind == if Fits(old(kind), key) then old(kind) else Erased
      ensures AllFit(old(Data()), kind) && AllFit(Data(), kind)
      ensures Data() == MapData.Set(old(Data()), key, Kept(value, holdsValues), kind)
      ensures var at := Find(old(Data()), key, kind);
              var v := if holdsValues then value else Undefined;
              Data() ==
                if at >= 0 then old(Data())[at := Pair(old(Data())[at].key, v)]
                else old(Data()) + [Pair(if key == Number(Zero(true)) || key == Number(Zero(false)) then Number(Zero(false)) else key, v)]
      ensures old(used < keys.Length) ==> keys == old(keys)
    {
      hide *;
      if asked != kind || !(token.generation == generation && token.slot < index.Length) {
        Set(key, value, asked);
        return;
      }
      Open();
      ghost var data := Data();
      CurrentToken(Snap(), past, generation, token, key);
      SetWrites(data, key, Kept(value, holdsValues), kind);
      SetIs(data, key, Kept(value, holdsValues), kind);
      KeptIs(value, holdsValues);
      var held := index[token.slot];
      FreeIs(held);
      if held != EMPTY && held != DELETED {
        Overwrite(PositionOf(held), value);
      } else if used == keys.Length {
        SetAs(key, value);
      } else {
        ReadyData();
        StoredIs(h, data, key, kind);
        var stored := Stored(key, kind);
        InsertAt(stored, value, token.slot, HashKey(h, stored, kind));
      }
    }
  }
}
