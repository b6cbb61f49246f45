/** Keys, their equality and hash, and the ordered association list a Map or a
    Set is (ECMA-262 section 24.1): a list whose removed entries stay as empty
    places. */
module MapData {
  import opened Basics
  import opened Bits

  // ---- values ----

  /** A double, as far as a key can tell one from another. */
  datatype Num = NaN(payload: nat) | Zero(negative: bool) | Other(bits: nat)

  datatype RefTag = FunctionTag | SymbolTag | ObjectTag | HandleTag

  /** An erased value. What a representation may differ in without being another
      key is kept: a string's width, a bigint's box, the tag a reference was
      erased with. */
  datatype Value =
    | Undefined
    | Null
    | Boolean(b: bool)
    | Number(n: Num)
    | BigInt(i: int, box: nat)
    | Str(text: seq<nat>, wide: bool)
    | Ref(tag: RefTag, id: nat)

  /** Which hash and comparison a table uses. */
  datatype Kind = Erased | StringKey | NumberKey | ReferenceKey

  predicate Fits(kind: Kind, key: Value) {
    match kind
    case StringKey => key.Str?
    case NumberKey => key.Number?
    case ReferenceKey => key.Ref? && key.tag != HandleTag
    case Erased => true
  }

  // ---- equality ----

  predicate SameNumber(a: Num, b: Num) {
    match (a, b)
    case (NaN(_), NaN(_)) => true
    case (Zero(_), Zero(_)) => true
    case (Other(x), Other(y)) => x == y
    case _ => false
  }

  /** SameValueZero (ECMA-262 section 7.2.11): a reference is its object. */
  predicate SameValueZero(a: Value, b: Value) {
    match (a, b)
    case (Undefined, Undefined) => true
    case (Null, Null) => true
    case (Boolean(x), Boolean(y)) => x == y
    case (Number(x), Number(y)) => SameNumber(x, y)
    case (BigInt(x, _), BigInt(y, _)) => x == y
    case (Str(x, _), Str(y, _)) => x == y
    case (Ref(_, x), Ref(_, y)) => x == y
    case _ => false
  }

  /** The comparison of a table of this kind. The erased one asks the tag of a
      reference before it asks which object it is. */
  predicate KeyEq(a: Value, b: Value, kind: Kind)
    requires Fits(kind, a) && Fits(kind, b)
  {
    match kind
    case StringKey => a.text == b.text
    case NumberKey => SameNumber(a.n, b.n)
    case ReferenceKey => a.id == b.id
    case Erased =>
      match (a, b)
      case (Undefined, Undefined) => true
      case (Null, Null) => true
      case (Boolean(x), Boolean(y)) => x == y
      case (Number(x), Number(y)) => SameNumber(x, y)
      case (BigInt(x, _), BigInt(y, _)) => x == y
      case (Str(x, _), Str(y, _)) => x == y
      case (Ref(s, x), Ref(t, y)) => s == t && x == y
      case _ => false
  }

  /** The same object, erased two ways. */
  predicate Twins(a: Value, b: Value) {
    a.Ref? && b.Ref? && a.id == b.id && a.tag != b.tag
  }

  /** The erased comparison is SameValueZero but for twins; the narrow ones are
      SameValueZero on the keys that fit. */
  lemma KeyEqIsSameValueZero(a: Value, b: Value, kind: Kind)
    requires Fits(kind, a) && Fits(kind, b)
    ensures (KeyEq(a, b, kind) <==> SameValueZero(a, b)) <==> !(kind == Erased && Twins(a, b))
  {
    match (a, b)
    case (Ref(_, _), Ref(_, _)) =>
    case _ =>
  }

  lemma KeyEqRelation(a: Value, b: Value, c: Value, kind: Kind)
    requires Fits(kind, a) && Fits(kind, b) && Fits(kind, c)
    ensures KeyEq(a, a, kind)
    ensures KeyEq(a, b, kind) ==> KeyEq(b, a, kind)
    ensures KeyEq(a, b, kind) && KeyEq(b, c, kind) ==> KeyEq(a, c, kind)
  {
  }

  // ---- hashing ----

  /** The two primitives every hash is made of: any functions will do. */
  datatype Hasher = Hasher(units: seq<nat> -> U32, mix: nat -> U32)

  function Xor(a: U32, b: U32): U32 {
    XorBits(a, b, 32) % 0x1_0000_0000
  }

  function HashNumber(h: Hasher, n: Num): U32 {
    match n
    case NaN(_) => h.mix(0x7ff8_0000_0000_0000)
    case Zero(_) => h.mix(0)
    case Other(bits) => h.mix(bits)
  }

  function HashKey(h: Hasher, key: Value, kind: Kind): U32
    requires Fits(kind, key)
  {
    match kind
    case StringKey => h.units(key.text)
    case NumberKey => HashNumber(h, key.n)
    case ReferenceKey => h.mix(key.id)
    case Erased =>
      match key
      case Str(text, _) => Xor(h.units(text), 3)
      case Number(n) => Xor(HashNumber(h, n), 2)
      case BigInt(i, _) =>
        Xor(Xor(h.mix(i % 0x1_0000_0000_0000_0000),
                h.mix(i / 0x1_0000_0000_0000_0000 % 0x1_0000_0000_0000_0000)), 16)
      case Boolean(b) => Xor(h.mix(if b then 1 else 0), 1)
      case Undefined => h.mix(0x9e37_79b9_7f4a_7c15)
      case Null => h.mix(0xc2b2_ae3d_27d4_eb4f)
      case Ref(_, id) => Xor(h.mix(id), 4)
  }

  /** Equal keys hash alike, whatever the primitives are. */
  lemma EqualKeysHashAlike(h: Hasher, a: Value, b: Value, kind: Kind)
    requires Fits(kind, a) && Fits(kind, b) && KeyEq(a, b, kind)
    ensures HashKey(h, a, kind) == HashKey(h, b, kind)
  {
    match a
    case Number(_) => assert b.Number?;
    case Ref(_, _) => assert b.Ref?;
    case _ =>
  }

  // ---- the association list ----

  datatype Entry = Empty | Pair(key: Value, value: Value)

  type Data = seq<Entry>

  ghost predicate AllFit(data: Data, kind: Kind) {
    forall i :: 0 <= i < |data| && data[i].Pair? ==> Fits(kind, data[i].key)
  }

  /** Whether the entry at position i is the one for key. */
  ghost predicate Hits(data: Data, i: int, key: Value, kind: Kind)
    requires AllFit(data, kind) && Fits(kind, key)
  {
    0 <= i < |data| && data[i].Pair? && KeyEq(data[i].key, key, kind)
  }

  /** The position of the entry for key at or after i, or -1. */
  ghost function FindFrom(data: Data, key: Value, kind: Kind, i: nat): (at: int)
    requires AllFit(data, kind) && Fits(kind, key)
    ensures at == -1 || (i <= at < |data| && Hits(data, at, key, kind))
    ensures at == -1 ==> forall j :: i <= j < |data| ==> !Hits(data, j, key, kind)
    decreases |data| - i
  {
    if i >= |data| then -1
    else if Hits(data, i, key, kind) then i
    else FindFrom(data, key, kind, i + 1)
  }

  /** A key that does not fit is no entry's. */
  ghost function Find(data: Data, key: Value, kind: Kind): (at: int)
    requires AllFit(data, kind)
    ensures -1 <= at < |data|
    ensures at >= 0 ==> data[at].Pair?
  {
    if Fits(kind, key) then FindFrom(data, key, kind, 0) else -1
  }

  ghost function Get(data: Data, key: Value, kind: Kind): Value
    requires AllFit(data, kind)
  {
    var at := Find(data, key, kind);
    if at >= 0 then data[at].value else Undefined
  }

  function Normalize(key: Value): Value {
    if key.Number? && key.n.Zero? then Number(Zero(false)) else key
  }

  /** Set: the value replaced where the key is, or a new entry last. */
  ghost function Set(data: Data, key: Value, value: Value, kind: Kind): Data
    requires AllFit(data, kind) && Fits(kind, key)
  {
    var at := Find(data, key, kind);
    if at >= 0 then data[at := Pair(data[at].key, value)]
    else data + [Pair(Normalize(key), value)]
  }

  ghost function Delete(data: Data, key: Value, kind: Kind): Data
    requires AllFit(data, kind)
  {
    var at := Find(data, key, kind);
    if at >= 0 then data[at := Empty] else data
  }

  ghost function Clear(data: Data): Data {
    seq(|data|, i => Empty)
  }

  /** Live entries: what size counts. */
  ghost function Size(data: Data): nat {
    if data == [] then 0 else Size(data[..|data| - 1]) + if data[|data| - 1].Pair? then 1 else 0
  }

  /** No key twice. */
  ghost predicate Unique(data: Data, kind: Kind)
    requires AllFit(data, kind)
  {
    forall i, j :: 0 <= i < j < |data| && data[i].Pair? && data[j].Pair? ==> !KeyEq(data[i].key, data[j].key, kind)
  }

  lemma FindUnique(data: Data, key: Value, kind: Kind, at: int)
    requires AllFit(data, kind) && Unique(data, kind) && Fits(kind, key) && Hits(data, at, key, kind)
    ensures Find(data, key, kind) == at
  {
    var f := FindFrom(data, key, kind, 0);
    assert f >= 0;
    KeyEqRelation(data[f].key, key, data[at].key, kind);
    KeyEqRelation(data[at].key, key, data[f].key, kind);
  }

  lemma FindNone(data: Data, key: Value, kind: Kind)
    requires AllFit(data, kind) && Fits(kind, key)
    requires forall i :: 0 <= i < |data| ==> !Hits(data, i, key, kind)
    ensures Find(data, key, kind) == -1
  {
  }

  lemma SizeAppend(data: Data, e: Entry)
    ensures Size(data + [e]) == Size(data) + if e.Pair? then 1 else 0
  {
    assert (data + [e])[..|data|] == data;
  }

  lemma {:induction false} SizeUpdate(data: Data, i: nat, e: Entry)
    requires i < |data|
    ensures Size(data[i := e]) + (if data[i].Pair? then 1 else 0) == Size(data) + (if e.Pair? then 1 else 0)
    decreases |data|
  {
    var n := |data| - 1;
    if i == n {
      assert data[i := e][..n] == data[..n];
    } else {
      assert data[i := e][..n] == data[..n][i := e];
      SizeUpdate(data[..n], i, e);
    }
  }

  lemma {:induction false} SizeZero(data: Data)
    requires forall i :: 0 <= i < |data| ==> data[i] == Empty
    ensures Size(data) == 0
  {
    if data != [] {
      SizeZero(data[..|data| - 1]);
    }
  }

  /** -0 is stored as +0, and is the same key. */
  lemma NormalizeKeeps(h: Hasher, key: Value, kind: Kind)
    requires Fits(kind, key)
    ensures Fits(kind, Normalize(key)) && KeyEq(key, Normalize(key), kind)
    ensures HashKey(h, Normalize(key), kind) == HashKey(h, key, kind)
    ensures Normalize(Normalize(key)) == Normalize(key)
  {
  }

  /** Keys that are equal are found alike. */
  lemma FindSame(data: Data, a: Value, b: Value, kind: Kind)
    requires AllFit(data, kind) && Unique(data, kind) && Fits(kind, a) && Fits(kind, b) && KeyEq(a, b, kind)
    ensures Find(data, a, kind) == Find(data, b, kind)
  {
    var f, g := Find(data, a, kind), Find(data, b, kind);
    if f >= 0 {
      KeyEqRelation(data[f].key, a, b, kind);
      FindUnique(data, b, kind, f);
    } else if g >= 0 {
      KeyEqRelation(a, b, b, kind);
      KeyEqRelation(data[g].key, b, a, kind);
      FindUnique(data, a, kind, g);
    }
  }

  // ---- what reads answer after writes ----

  /** A present key keeps its place and its key; a new one goes last, either zero
      as +0 and any other as it is. */
  lemma SetWrites(data: Data, key: Value, value: Value, kind: Kind)
    requires AllFit(data, kind) && Fits(kind, key)
    ensures var at := Find(data, key, kind);
            Set(data, key, value, kind) ==
              if at >= 0 then data[at := Pair(data[at].key, value)]
              else data + [Pair(if key == Number(Zero(true)) || key == Number(Zero(false)) then Number(Zero(false)) else key, value)]
  {
  }

  /** A read finds the last value written for a key, and what it found before for
      every other. */
  lemma GetAfterSet(data: Data, key: Value, value: Value, other: Value, kind: Kind)
    requires AllFit(data, kind) && Unique(data, kind) && Fits(kind, key)
    ensures AllFit(Set(data, key, value, kind), kind)
    ensures Get(Set(data, key, value, kind), other, kind) ==
              if Fits(kind, other) && KeyEq(key, other, kind) then value else Get(data, other, kind)
  {
    hide Set, Find, Unique, KeyEq, Normalize;
    SetFits(data, key, value, kind);
    if Fits(kind, other) {
      SetUnique(data, key, value, kind);
      if KeyEq(key, other, kind) {
        FindWritten(data, key, value, other, kind);
      } else {
        FindOther(data, key, value, other, kind);
      }
    } else {
      Unread(data, other, kind);
      Unread(Set(data, key, value, kind), other, kind);
    }
  }

  lemma SetFits(data: Data, key: Value, value: Value, kind: Kind)
    requires AllFit(data, kind) && Fits(kind, key)
    ensures AllFit(Set(data, key, value, kind), kind)
  {
    NormalizeFits(key, kind);
  }

  lemma Unread(data: Data, other: Value, kind: Kind)
    requires AllFit(data, kind) && !Fits(kind, other)
    ensures Find(data, other, kind) == -1
  {
  }

  lemma SetUnique(data: Data, key: Value, value: Value, kind: Kind)
    requires AllFit(data, kind) && Unique(data, kind) && Fits(kind, key) && AllFit(Set(data, key, value, kind), kind)
    ensures Unique(Set(data, key, value, kind), kind)
  {
    hide KeyEq, Normalize, Find, Set;
    SetWritten(data, key, value, kind);
    var next := Set(data, key, value, kind);
    forall i, j | 0 <= i < j < |next| && next[i].Pair? && next[j].Pair?
      ensures !KeyEq(next[i].key, next[j].key, kind)
    {
      if j == |data| {
        NotFound(data, key, kind, i);
        NormalizeEq(key, data[i].key, kind);
        KeyEqRelation(data[i].key, key, key, kind);
        KeyEqRelation(key, data[i].key, key, kind);
      }
    }
  }

  /** Where a write leaves the key, and that it leaves the rest. */
  lemma SetWritten(data: Data, key: Value, value: Value, kind: Kind)
    requires AllFit(data, kind) && Fits(kind, key)
    ensures var next, at := Set(data, key, value, kind), Find(data, key, kind);
            var k := if at >= 0 then at else |data|;
            && -1 <= at < |data| && |data| <= |next| && k < |next| && next[k].Pair? && next[k].value == value
            && next[k].key == (if at >= 0 then data[at].key else Normalize(key))
            && (at >= 0 ==> |next| == |data| && data[at].Pair? && KeyEq(data[at].key, key, kind))
            && (at < 0 ==> |next| == |data| + 1)
            && (forall i :: 0 <= i < |data| && i != k ==> next[i] == data[i])
  {
    assert Find(data, key, kind) >= 0 ==> Hits(data, Find(data, key, kind), key, kind);
  }

  lemma NotFound(data: Data, key: Value, kind: Kind, i: nat)
    requires AllFit(data, kind) && Fits(kind, key) && Find(data, key, kind) < 0 && i < |data| && data[i].Pair?
    ensures !KeyEq(data[i].key, key, kind)
  {
    assert !Hits(data, i, key, kind);
  }

  lemma FindAt(data: Data, key: Value, kind: Kind)
    requires AllFit(data, kind) && Fits(kind, key)
    ensures var at := Find(data, key, kind); -1 <= at < |data| && (at >= 0 ==> data[at].Pair? && KeyEq(data[at].key, key, kind))
  {
    assert Find(data, key, kind) >= 0 ==> Hits(data, Find(data, key, kind), key, kind);
  }

  lemma FindWritten(data: Data, key: Value, value: Value, other: Value, kind: Kind)
    requires AllFit(data, kind) && Fits(kind, key) && Fits(kind, other) && KeyEq(key, other, kind)
    requires AllFit(Set(data, key, value, kind), kind) && Unique(Set(data, key, value, kind), kind)
    ensures var next := Set(data, key, value, kind);
            var k := Find(next, other, kind); 0 <= k < |next| && next[k].Pair? && next[k].value == value
  {
    hide KeyEq, Normalize, Find, Set, Unique;
    SetWritten(data, key, value, kind);
    NormalizeEq(key, other, kind);
    var next, at := Set(data, key, value, kind), Find(data, key, kind);
    var k := if at >= 0 then at else |data|;
    if at >= 0 {
      KeyEqRelation(data[at].key, key, other, kind);
    }
    assert Hits(next, k, other, kind);
    FindUnique(next, other, kind, k);
  }

  lemma FindOther(data: Data, key: Value, value: Value, other: Value, kind: Kind)
    requires AllFit(data, kind) && Fits(kind, key) && Fits(kind, other) && !KeyEq(key, other, kind)
    requires AllFit(Set(data, key, value, kind), kind) && Unique(Set(data, key, value, kind), kind)
    ensures var next, f := Set(data, key, value, kind), Find(data, other, kind);
            && Find(next, other, kind) == f < |data| && (f >= 0 ==> f < |next| && next[f] == data[f])
  {
    hide KeyEq, Normalize, Find, Set, Unique;
    SetWritten(data, key, value, kind);
    NormalizeEq(key, other, kind);
    FindAt(data, other, kind);
    var next, at, f := Set(data, key, value, kind), Find(data, key, kind), Find(data, other, kind);
    if at >= 0 {
      KeyEqRelation(data[at].key, key, key, kind);
      KeyEqRelation(key, data[at].key, other, kind);
    }
    if f >= 0 {
      assert f != at;
      assert Hits(next, f, other, kind);
      FindUnique(next, other, kind, f);
    } else {
      FindAt(next, other, kind);
      var n := Find(next, other, kind);
      if 0 <= n < |data| && n != at {
        NotFound(data, other, kind, n);
      }
    }
  }

  lemma NormalizeEq(key: Value, other: Value, kind: Kind)
    requires Fits(kind, key) && Fits(kind, other)
    ensures Fits(kind, Normalize(key)) && (KeyEq(Normalize(key), other, kind) <==> KeyEq(key, other, kind))
    ensures KeyEq(other, Normalize(key), kind) <==> KeyEq(key, other, kind)
  {
    KeyEqRelation(key, other, other, kind);
    KeyEqRelation(other, key, key, kind);
  }

  /** A removed key reads as absent, and every other as before. */
  lemma GetAfterDelete(data: Data, key: Value, other: Value, kind: Kind)
    requires AllFit(data, kind) && Unique(data, kind)
    ensures Get(Delete(data, key, kind), other, kind) ==
              if Fits(kind, key) && Fits(kind, other) && KeyEq(key, other, kind) then Undefined else Get(data, other, kind)
  {
    hide KeyEq, Normalize, Find, Unique;
    var next := Delete(data, key, kind);
    if !Fits(kind, other) {
      Unread(data, other, kind);
      Unread(next, other, kind);
    } else if !Fits(kind, key) {
      Unread(data, key, kind);
    } else {
      FindAt(data, key, kind);
      FindLeft(data, key, other, kind);
    }
  }

  lemma FindLeft(data: Data, key: Value, other: Value, kind: Kind)
    requires AllFit(data, kind) && Unique(data, kind) && Fits(kind, key) && Fits(kind, other)
    ensures var next, f := Delete(data, key, kind), Find(data, other, kind);
            && Find(next, other, kind) == (if KeyEq(key, other, kind) then -1 else f)
            && f < |data| && (!KeyEq(key, other, kind) && f >= 0 ==> next[f] == data[f])
  {
    hide KeyEq, Normalize, Find;
    FindAt(data, key, kind);
    FindAt(data, other, kind);
    var next, at, f := Delete(data, key, kind), Find(data, key, kind), Find(data, other, kind);
    FindAt(next, other, kind);
    var n := Find(next, other, kind);
    KeyEqRelation(key, other, other, kind);
    if n >= 0 {
      assert Hits(data, n, other, kind);
      FindUnique(data, other, kind, n);
      if KeyEq(key, other, kind) {
        KeyEqRelation(data[n].key, other, key, kind);
        assert Hits(data, n, key, kind);
        FindUnique(data, key, kind, n);
      }
    } else if f >= 0 && f != at {
      NotFound(next, other, kind, f);
    } else if f >= 0 {
      KeyEqRelation(data[at].key, key, key, kind);
      KeyEqRelation(key, data[at].key, other, kind);
    }
  }

  /** Nothing is read from a cleared list, whose places stay. */
  lemma GetAfterClear(data: Data, other: Value, kind: Kind)
    requires AllFit(data, kind)
    ensures |Clear(data)| == |data| && (forall i :: 0 <= i < |data| ==> Clear(data)[i] == Empty)
    ensures AllFit(Clear(data), kind) && Get(Clear(data), other, kind) == Undefined
    ensures Get([], other, kind) == Undefined
  {
  }

  // ---- one-way widening: from here on keys are compared by their tags ----

  /** A stored reference to the same object under another tag. */
  ghost predicate HasTwin(data: Data, key: Value) {
    exists i :: 0 <= i < |data| && data[i].Pair? && Twins(data[i].key, key)
  }

  /** Widening changes the answer to one question exactly: where is an object
      that is stored under a tag other than the one it is now asked for by. */
  lemma WideningKeepsAnswers(data: Data, key: Value, kind: Kind)
    requires AllFit(data, kind) && Unique(data, kind) && kind != Erased
    ensures AllFit(data, Erased) && Unique(data, Erased)
    ensures Find(data, key, kind) == Find(data, key, Erased) <==>
              !(kind == ReferenceKey && Fits(kind, key) && HasTwin(data, key))
  {
    assert Unique(data, Erased);
    var f := Find(data, key, kind);
    var e := Find(data, key, Erased);
    if Fits(kind, key) {
      forall i | 0 <= i < |data| && data[i].Pair? && KeyEq(data[i].key, key, kind)
        ensures f == i
      {
        assert Hits(data, i, key, kind);
        FindUnique(data, key, kind, i);
      }
      assert e >= 0 ==> Hits(data, e, key, Erased);
      assert f >= 0 && e < 0 ==> !Hits(data, f, key, Erased);
    } else {
      assert forall i :: 0 <= i < |data| ==> !Hits(data, i, key, Erased);
    }
  }

  /** Such a question: an object stored under one tag is found under the other,
      and once a string has been written it is not, so that a write adds it a
      second time. */
  lemma TwinForgotten(value: Value)
    ensures var stored, asked := Ref(ObjectTag, 7), Ref(FunctionTag, 7);
            var before := [Pair(stored, value)];
            && SameValueZero(stored, asked) && AllFit(before, ReferenceKey) && AllFit(before, Erased)
            && Find(before, asked, ReferenceKey) == 0
            && var after := Set(before, Str([], false), value, Erased);
            && AllFit(after, Erased) && Find(after, asked, Erased) == -1
            && Set(after, asked, value, Erased) == after + [Pair(asked, value)]
  {
    var stored, asked, text := Ref(ObjectTag, 7), Ref(FunctionTag, 7), Str([], false);
    var before := [Pair(stored, value)];
    assert Hits(before, 0, asked, ReferenceKey);
    assert !Hits(before, 0, text, Erased);
    var after := before + [Pair(text, value)];
    assert !Hits(after, 0, asked, Erased) && !Hits(after, 1, asked, Erased);
  }

  /** With no twin about, a table of any kind answers as ECMA-262 says: by
      SameValueZero. */
  lemma FindsBySameValueZero(data: Data, key: Value, kind: Kind)
    requires AllFit(data, kind) && !HasTwin(data, key)
    ensures var at := Find(data, key, kind);
            && (at >= 0 ==> SameValueZero(data[at].key, key))
            && (at < 0 ==> forall i :: 0 <= i < |data| && data[i].Pair? ==> !SameValueZero(data[i].key, key))
  {
    forall i | 0 <= i < |data| && data[i].Pair? && SameValueZero(data[i].key, key)
      ensures Fits(kind, key) && Hits(data, i, key, kind)
    {
      assert !Twins(data[i].key, key);
      if Fits(kind, key) {
        KeyEqIsSameValueZero(data[i].key, key, kind);
      }
    }
    var at := Find(data, key, kind);
    if at >= 0 {
      KeyEqIsSameValueZero(data[at].key, key, kind);
    }
  }

  // ---- what every operation does to positions ----

  /** Later keeps every position of earlier: an entry is the same key at the
      same place, or gone for good; what is new comes after. */
  ghost predicate Keeps(earlier: Data, later: Data) {
    && |earlier| <= |later|
    && forall i :: 0 <= i < |earlier| ==>
         later[i] == Empty || (later[i].Pair? && earlier[i].Pair? && later[i].key == earlier[i].key)
  }

  lemma KeepsTrans(a: Data, b: Data, c: Data)
    requires Keeps(a, b) && Keeps(b, c)
    ensures Keeps(a, c)
  {
  }

  // ---- a walk by cursor while the list changes ----

  /** The first live position at or after i, or -1: one step of a walk. */
  ghost function Next(data: Data, i: nat): (at: int)
    ensures at == -1 || (i <= at < |data| && data[at].Pair?)
    ensures forall j :: i <= j < (if at == -1 then |data| else at) ==> data[j] == Empty
    decreases |data| - i
  {
    if i >= |data| then -1 else if data[i].Pair? then i else Next(data, i + 1)
  }

  /** states[k] is the list when step k of the walk looked at it: whatever was
      done to it in between kept its positions. */
  ghost predicate Run(states: seq<Data>) {
    forall j, k :: 0 <= j <= k < |states| ==> Keeps(states[j], states[k])
  }

  /** The positions a walk from i visits, one a state, until a step finds none. */
  ghost function Walk(states: seq<Data>, i: nat): seq<nat>
    decreases |states|
  {
    if states == [] then []
    else
      var at := Next(states[0], i);
      if at == -1 then [] else [at] + Walk(states[1..], at + 1)
  }

  /** The walk went on until a step found nothing. */
  ghost predicate Finished(states: seq<Data>, i: nat)
    decreases |states|
  {
    states != [] && (var at := Next(states[0], i); at == -1 || Finished(states[1..], at + 1))
  }

  lemma RunTail(states: seq<Data>)
    requires Run(states) && states != []
    ensures Run(states[1..])
  {
    forall j, k | 0 <= j <= k < |states[1..]|
      ensures Keeps(states[1..][j], states[1..][k])
    {
      assert states[1..][j] == states[j + 1] && states[1..][k] == states[k + 1];
    }
  }

  lemma {:induction false} WalkShort(states: seq<Data>, i: nat)
    requires Finished(states, i)
    ensures |Walk(states, i)| < |states|
    decreases |states|
  {
    var at := Next(states[0], i);
    if at != -1 {
      WalkShort(states[1..], at + 1);
    }
  }

  /** Every entry is visited in insertion order and at most once, and is live
      when it is visited. */
  lemma {:induction false} WalkInOrder(states: seq<Data>, i: nat)
    ensures |Walk(states, i)| <= |states|
    ensures forall k :: 0 <= k < |Walk(states, i)| ==>
              i <= Walk(states, i)[k] < |states[k]| && states[k][Walk(states, i)[k]].Pair?
    ensures forall j, k :: 0 <= j < k < |Walk(states, i)| ==> Walk(states, i)[j] < Walk(states, i)[k]
    decreases |states|
  {
    if states != [] {
      var at := Next(states[0], i);
      if at != -1 {
        var w := Walk(states[1..], at + 1);
        WalkInOrder(states[1..], at + 1);
        forall k | 0 <= k < |w| + 1
          ensures i <= ([at] + w)[k] < |states[k]| && states[k][([at] + w)[k]].Pair?
        {
          if k > 0 {
            assert states[k] == states[1..][k - 1];
          }
        }
      }
    }
  }

  /** A finished walk visited everything at or past its start that was still live
      when it ended -- what was appended while it went on included. */
  lemma {:induction false} WalkReachesAll(states: seq<Data>, i: nat, p: nat)
    requires Run(states) && Finished(states, i)
    requires var n := |Walk(states, i)|; n < |states| && i <= p < |states[n]| && states[n][p].Pair?
    ensures p in Walk(states, i)
    decreases |states|
  {
    var at := Next(states[0], i);
    var n := |Walk(states, i)|;
    assert Keeps(states[0], states[n]);
    if at != -1 {
      RunTail(states);
      var w := Walk(states[1..], at + 1);
      assert states[n] == states[1..][|w|];
      if p > at {
        WalkReachesAll(states[1..], at + 1, p);
      }
    }
  }

  /** Where step k of a walk from i starts looking. */
  ghost function StartOf(walk: seq<nat>, i: nat, k: int): nat
    requires 0 <= k <= |walk|
  {
    if k == 0 then i else walk[k - 1] + 1
  }

  ghost predicate NothingIn(data: Data, from: int, to: int) {
    forall p :: from <= p < to && 0 <= p < |data| ==> data[p] == Empty
  }

  /** Step k passes over nothing: what is between where it starts and what it
      visits is empty when it is passed, and after the last visit all the rest. */
  lemma {:induction false} WalkMissesNothing(states: seq<Data>, i: nat, k: nat)
    requires k < |states| && k <= |Walk(states, i)| && (k == |Walk(states, i)| ==> Finished(states, i))
    ensures NothingIn(states[k], StartOf(Walk(states, i), i, k), if k < |Walk(states, i)| then Walk(states, i)[k] else |states[k]|)
    decreases |states|
  {
    var at := Next(states[0], i);
    if k > 0 {
      WalkMissesNothing(states[1..], at + 1, k - 1);
      assert states[1..][k - 1] == states[k];
      assert StartOf(Walk(states, i), i, k) == StartOf(Walk(states[1..], at + 1), at + 1, k - 1);
    }
  }

  // ---- whole runs: any writes between any two steps ----

  datatype Op = Write(key: Value, value: Value) | Remove(key: Value) | Wipe

  /** One operation, widening first when a key does not fit. */
  ghost function Step(data: Data, kind: Kind, op: Op): (r: (Data, Kind))
    requires AllFit(data, kind)
    ensures AllFit(r.0, r.1) && Keeps(data, r.0)
  {
    match op
    case Write(key, value) =>
      var k := if Fits(kind, key) then kind else Erased;
      assert AllFit(Set(data, key, value, k), k) by { NormalizeFits(key, k); }
      (Set(data, key, value, k), k)
    case Remove(key) => (Delete(data, key, kind), kind)
    case Wipe => (Clear(data), kind)
  }

  lemma NormalizeFits(key: Value, kind: Kind)
    requires Fits(kind, key)
    ensures Fits(kind, Normalize(key))
  {
  }

  ghost function Steps(data: Data, kind: Kind, ops: seq<Op>): (r: (Data, Kind))
    requires AllFit(data, kind)
    ensures AllFit(r.0, r.1) && Keeps(data, r.0)
    decreases |ops|
  {
    if ops == [] then (data, kind)
    else
      var s := Step(data, kind, ops[0]);
      Steps(s.0, s.1, ops[1..])
  }

  lemma {:induction false} StepsNext(data: Data, kind: Kind, ops: seq<Op>, op: Op)
    requires AllFit(data, kind)
    ensures Steps(data, kind, ops + [op]) == var s := Steps(data, kind, ops); Step(s.0, s.1, op)
    decreases |ops|
  {
    if ops == [] {
      assert ops + [op] == [op];
    } else {
      assert (ops + [op])[0] == ops[0] && (ops + [op])[1..] == ops[1..] + [op];
      var s := Step(data, kind, ops[0]);
      StepsNext(s.0, s.1, ops[1..], op);
    }
  }

  /** Every list the operations lead to keeps -0 out of its keys. */
  ghost predicate PlainZeros(data: Data) {
    forall i :: 0 <= i < |data| && data[i].Pair? ==> data[i].key != Number(Zero(true))
  }

  lemma {:induction false} StepsKeepZeros(data: Data, kind: Kind, ops: seq<Op>)
    requires AllFit(data, kind) && PlainZeros(data)
    ensures PlainZeros(Steps(data, kind, ops).0)
    decreases |ops|
  {
    if ops != [] {
      var s := Step(data, kind, ops[0]);
      if ops[0].Write? {
        SetWrites(data, ops[0].key, ops[0].value, if Fits(kind, ops[0].key) then kind else Erased);
      }
      StepsKeepZeros(s.0, s.1, ops[1..]);
    }
  }

  /** What each step of a walk finds when rounds[k] is done after step k. */
  ghost function History(data: Data, kind: Kind, rounds: seq<seq<Op>>): (states: seq<Data>)
    requires AllFit(data, kind)
    ensures |states| == |rounds| + 1 && states[0] == data
    decreases |rounds|
  {
    if rounds == [] then [data]
    else
      var s := Steps(data, kind, rounds[0]);
      [data] + History(s.0, s.1, rounds[1..])
  }

  lemma {:induction false} HistoryKeeps(data: Data, kind: Kind, rounds: seq<seq<Op>>)
    requires AllFit(data, kind)
    ensures Run(History(data, kind, rounds))
    decreases |rounds|
  {
    if rounds != [] {
      var s := Steps(data, kind, rounds[0]);
      HistoryKeeps(s.0, s.1, rounds[1..]);
      var tail := History(s.0, s.1, rounds[1..]);
      var all := [data] + tail;
      forall j, k | 0 <= j <= k < |all|
        ensures Keeps(all[j], all[k])
      {
        if j == 0 && k > 0 {
          KeepsTrans(data, tail[0], tail[k - 1]);
        }
      }
    }
  }

  /** A walk from the start over any list, with any writes, deletions and clears
      between its steps: insertion order, each entry at most once and live when
      visited, nothing passed over that was live when it was passed; and once a
      step finds none, whatever is live then was visited. */
  lemma CursorWalk(data: Data, kind: Kind, rounds: seq<seq<Op>>)
    requires AllFit(data, kind)
    ensures var states := History(data, kind, rounds);
            var visited := Walk(states, 0);
            && |visited| <= |states|
            && (forall k :: 0 <= k < |visited| ==> 0 <= visited[k] < |states[k]| && states[k][visited[k]].Pair?)
            && (forall j, k :: 0 <= j < k < |visited| ==> visited[j] < visited[k])
            && (forall k :: 0 <= k < |visited| ==> NothingIn(states[k], StartOf(visited, 0, k), visited[k]))
            && (Finished(states, 0) ==>
                  |visited| < |states| && NothingIn(states[|visited|], StartOf(visited, 0, |visited|), |states[|visited|]|))
            && (Finished(states, 0) ==>
                  forall p :: 0 <= p < |states[|visited|]| && states[|visited|][p].Pair? ==> p in visited)
  {
    var states := History(data, kind, rounds);
    HistoryKeeps(data, kind, rounds);
    WalkInOrder(states, 0);
    forall k | 0 <= k < |Walk(states, 0)|
      ensures NothingIn(states[k], StartOf(Walk(states, 0), 0, k), Walk(states, 0)[k])
    {
      WalkMissesNothing(states, 0, k);
    }
    if Finished(states, 0) {
      WalkShort(states, 0);
      WalkMissesNothing(states, 0, |Walk(states, 0)|);
      forall p | 0 <= p < |states[|Walk(states, 0)|]| && states[|Walk(states, 0)|][p].Pair?
        ensures p in Walk(states, 0)
      {
        WalkReachesAll(states, 0, p);
      }
    }
  }

  // ---- a copy: the live entries, in order ----

  /** No -0 is stored. */
  ghost predicate AllStored(data: Data) {
    forall i :: 0 <= i < |data| && data[i].Pair? ==> Normalize(data[i].key) == data[i].key
  }

  ghost function Live(data: Data): (live: Data)
    ensures |live| <= |data|
    ensures forall i :: 0 <= i < |live| ==> live[i].Pair? && live[i] in data
  {
    if data == [] then []
    else
      var last := data[|data| - 1];
      Live(data[..|data| - 1]) + if last.Pair? then [last] else []
  }

  /** The live entries are the list without its empty places, in its order. */
  lemma LiveNext(data: Data, e: Entry)
    ensures Live([]) == [] && Live(data + [e]) == if e.Pair? then Live(data) + [e] else Live(data)
    ensures Size(data) == |Live(data)|
  {
    assert (data + [e])[..|data|] == data;
    LiveSize(data);
  }

  lemma {:induction false} LiveSize(data: Data)
    ensures Size(data) == |Live(data)|
  {
    if data != [] {
      LiveSize(data[..|data| - 1]);
    }
  }

  /** Writing the next live entry to a copy of those before it appends it. */
  lemma CopyStep(data: Data, i: nat, kind: Kind)
    requires AllFit(data, kind) && Unique(data, kind) && AllStored(data) && i < |data| && data[i].Pair?
    ensures AllFit(Live(data[..i]), kind) && Fits(kind, data[i].key)
    ensures Set(Live(data[..i]), data[i].key, data[i].value, kind) == Live(data[..i + 1])
  {
    var live := Live(data[..i]);
    forall j | 0 <= j < |live|
      ensures Fits(kind, live[j].key) && !KeyEq(live[j].key, data[i].key, kind)
    {
      var k :| 0 <= k < i && data[..i][k] == live[j];
      assert data[k] == live[j];
    }
    assert forall j :: 0 <= j < |live| ==> !Hits(live, j, data[i].key, kind);
    assert data[..i + 1][..i] == data[..i];
  }

  lemma CopySkips(data: Data, i: nat, j: nat)
    requires i <= j <= |data| && forall k :: i <= k < j ==> data[k] == Empty
    ensures Live(data[..i]) == Live(data[..j])
    decreases j
  {
    if i < j {
      assert data[..j][..j - 1] == data[..j - 1];
      CopySkips(data, i, j - 1);
    }
  }
}
