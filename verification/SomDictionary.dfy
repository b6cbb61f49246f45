/** The chained dictionary of the SOM collections: buckets of linked entries, and
    a resize that splits each chain in place and keeps its order. */
module SomDictionary {
  import opened Basics
  import opened Bits

  class Entry<K(==), V> {
    const hash: int
    const key: K
    var value: V
    var next: Entry?<K, V>

    constructor (hash: int, key: K, value: V, next: Entry?<K, V>)
      ensures this.hash == hash && this.key == key && this.value == value && this.next == next
    {
      this.hash := hash;
      this.key := key;
      this.value := value;
      this.next := next;
    }

    predicate Matches(hash: int, key: K) {
      this.hash == hash && key == this.key
    }
  }

  type Chain<!K(==), V> = seq<Entry<K, V>>

  ghost function Link<K, V>(c: Chain<K, V>, i: nat): Entry?<K, V> {
    if i < |c| then c[i] else null
  }

  lemma LinkIs<K, V>(c: Chain<K, V>, i: nat)
    ensures Link(c, i) == if i < |c| then c[i] else null
  {
  }

  /** head is the first of a chain that holds exactly these entries, in order. */
  ghost predicate Linked<K, V>(head: Entry?<K, V>, c: Chain<K, V>)
    reads c`next
  {
    head == Link(c, 0) && forall j :: 0 <= j < |c| ==> c[j].next == Link(c, j + 1)
  }

  /** The bit that a table twice as large as n looks at: hash & n. */
  predicate HighBit(hash: int, n: nat)
    requires n > 0
  {
    hash / n % 2 == 1
  }

  /** The entries of a chain whose bit is `high`, in their order. */
  ghost function Half<K, V>(c: Chain<K, V>, n: nat, high: bool): (h: Chain<K, V>)
    requires n > 0
  {
    if c == [] then []
    else
      var e := c[|c| - 1];
      var h := Half(c[..|c| - 1], n, high);
      if HighBit(e.hash, n) == high then h + [e] else h
  }

  lemma {:induction false} HalfMembers<K, V>(c: Chain<K, V>, n: nat, high: bool)
    requires n > 0
    ensures forall i :: 0 <= i < |Half(c, n, high)| ==> Half(c, n, high)[i] in c && HighBit(Half(c, n, high)[i].hash, n) == high
    ensures forall i :: 0 <= i < |c| && HighBit(c[i].hash, n) == high ==> c[i] in Half(c, n, high)
  {
    if c != [] {
      HalfMembers(c[..|c| - 1], n, high);
    }
  }

  /** Splitting moves each entry once: nothing is lost. */
  lemma {:induction false} HalvesLength<K, V>(c: Chain<K, V>, n: nat)
    requires n > 0
    ensures |Half(c, n, false)| + |Half(c, n, true)| == |c|
  {
    if c != [] {
      HalvesLength(c[..|c| - 1], n);
    }
  }

  /** Where the bit sends an entry is where the doubled mask does. */
  lemma SplitIndex(hash: int, n: nat)
    requires n > 0
    ensures hash % (2 * n) == if HighBit(hash, n) then hash % n + n else hash % n
  {
    var q, r: nat := hash / n, hash % n;
    var p := q / 2;
    assert hash == q * n + r;
    MulTwice(p, n);
    if HighBit(hash, n) {
      assert q == 2 * p + 1;
      MulStep(2 * p, n);
      DivMod(hash, p, n + r, 2 * n);
    } else {
      assert q == 2 * p;
      DivMod(hash, p, r, 2 * n);
    }
  }

  lemma MulTwice(p: int, n: nat)
    ensures (2 * p) * n == p * (2 * n)
  {
  }

  lemma MulStep(a: int, n: nat)
    ensures (a + 1) * n == a * n + n
  {
  }

  lemma DivMod(x: int, q: int, r: nat, m: nat)
    requires m > 0 && r < m && x == q * m + r
    ensures x % m == r
  {
    var p, t := x / m, x % m;
    assert x == p * m + t;
    assert (q - p) * m == q * m - p * m;
    if p < q {
      AtLeast(q - p, m);
    } else if q < p {
      AtLeast(p - q, m);
    }
  }

  lemma AtLeast(d: nat, m: nat)
    requires d > 0
    ensures d * m >= m
  {
  }

  ghost predicate NoDup<K, V>(c: Chain<K, V>) {
    forall i, j :: 0 <= i < j < |c| ==> c[i] != c[j]
  }

  /** A chain being built: its links are there but for the last. */
  ghost predicate Threaded<K, V>(h: Chain<K, V>, head: Entry?<K, V>, tail: Entry?<K, V>)
    reads h`next
  {
    && head == Link(h, 0) && tail == (if h == [] then null else h[|h| - 1])
    && forall j :: 0 <= j < |h| - 1 ==> h[j].next == h[j + 1]
  }

  lemma {:induction false} HalfNoDup<K, V>(c: Chain<K, V>, n: nat, high: bool)
    requires n > 0 && NoDup(c)
    ensures NoDup(Half(c, n, high))
  {
    if c != [] {
      var d := c[..|c| - 1];
      HalfNoDup(d, n, high);
      HalfMembers(d, n, high);
      var h := Half(d, n, high);
      forall i | 0 <= i < |h|
        ensures h[i] != c[|c| - 1]
      {
        assert h[i] in d;
      }
    }
  }

  lemma HalfNext<K, V>(c: Chain<K, V>, k: nat, n: nat, high: bool)
    requires n > 0 && k < |c|
    ensures Half(c[..k + 1], n, high) == if HighBit(c[k].hash, n) == high then Half(c[..k], n, high) + [c[k]] else Half(c[..k], n, high)
  {
    assert c[..k + 1][..k] == c[..k];
  }

  /** The entry whose turn it is follows no other yet; the last of a half is in
      neither the other half nor what is left. */
  lemma Fresh<K, V>(c: Chain<K, V>, k: nat, n: nat, high: bool, h: Chain<K, V>, other: Chain<K, V>)
    requires n > 0 && k < |c| && NoDup(c) && h == Half(c[..k], n, high) && other == Half(c[..k], n, !high)
    ensures NoDup(h) && c[k] !in h
    ensures h == [] || (h[|h| - 1] in c && h[|h| - 1] !in other && h[|h| - 1] !in c[k + 1..])
  {
    HalfNoDup(c[..k], n, high);
    HalfMembers(c[..k], n, high);
    HalfMembers(c[..k], n, !high);
    if h != [] {
      assert h[|h| - 1] in c[..k];
    }
  }

  // ---- the dictionary ----

  ghost function Total<K, V>(chains: seq<Chain<K, V>>): nat {
    if chains == [] then 0 else Total(chains[..|chains| - 1]) + |chains[|chains| - 1]|
  }

  lemma {:induction false} TotalUpdate<K, V>(chains: seq<Chain<K, V>>, i: nat, c: Chain<K, V>)
    requires i < |chains|
    ensures Total(chains[i := c]) + |chains[i]| == Total(chains) + |c|
    decreases |chains|
  {
    var n := |chains| - 1;
    if i == n {
      assert chains[i := c][..n] == chains[..n];
    } else {
      assert chains[i := c][..n] == chains[..n][i := c];
      TotalUpdate(chains[..n], i, c);
    }
  }

  lemma {:induction false} TotalNone<K, V>(chains: seq<Chain<K, V>>)
    requires forall i :: 0 <= i < |chains| ==> chains[i] == []
    ensures Total(chains) == 0
  {
    if chains != [] {
      TotalNone(chains[..|chains| - 1]);
    }
  }

  /** Each entry is in the chain its hash selects, under a key of its own. */
  ghost predicate Placed<K, V>(chains: seq<Chain<K, V>>, hashOf: K -> int) {
    && (forall i, j :: 0 <= i < |chains| && 0 <= j < |chains[i]| ==>
          chains[i][j].hash == hashOf(chains[i][j].key) && chains[i][j].hash % |chains| == i)
    && (forall i, j, k :: 0 <= i < |chains| && 0 <= j < k < |chains[i]| ==> chains[i][j].key != chains[i][k].key)
  }

  ghost predicate Has<K, V>(chains: seq<Chain<K, V>>, key: K) {
    exists i, j :: 0 <= i < |chains| && 0 <= j < |chains[i]| && chains[i][j].key == key
  }

  /** The chains have these keys, each once. */
  ghost predicate Shaped<K, V>(chains: seq<Chain<K, V>>, hashOf: K -> int, keys: set<K>, size: nat) {
    && |chains| > 0 && Placed(chains, hashOf) && size == Total(chains) == |keys|
    && (forall i, j :: 0 <= i < |chains| && 0 <= j < |chains[i]| ==> chains[i][j].key in keys)
    && (forall k :: k in keys ==> Has(chains, k))
  }

  /** The entries of a chain have the map's values. */
  ghost predicate Valued<K, V>(c: Chain<K, V>, contents: map<K, V>)
    reads c`value
  {
    forall j :: 0 <= j < |c| ==> c[j].key in contents && c[j].value == contents[c[j].key]
  }

  lemma ShapedIs<K, V>(chains: seq<Chain<K, V>>, hashOf: K -> int, keys: set<K>, size: nat, i: nat)
    requires Shaped(chains, hashOf, keys, size) && i < |chains|
    ensures forall j :: 0 <= j < |chains[i]| ==> chains[i][j].hash == hashOf(chains[i][j].key)
    ensures forall j :: 0 <= j < |chains[i]| ==> chains[i][j].key in keys
    ensures forall j, k :: 0 <= j < k < |chains[i]| ==> chains[i][j].key != chains[i][k].key
  {
  }

  lemma KeyNowhere<K, V>(chains: seq<Chain<K, V>>, hashOf: K -> int, keys: set<K>, size: nat, key: K)
    requires Shaped(chains, hashOf, keys, size)
    requires var i := hashOf(key) % |chains|; forall j :: 0 <= j < |chains[i]| ==> chains[i][j].key != key
    ensures key !in keys
  {
    assert key in keys ==> Has(chains, key);
  }

  /** One entry goes behind a half's tail; the other half and the rest of the
      chain keep their links. */
  method Thread<K(==), V>(ghost h: Chain<K, V>, head: Entry?<K, V>, tail: Entry?<K, V>, x: Entry<K, V>,
                          ghost other: Chain<K, V>, ghost otherHead: Entry?<K, V>, ghost otherTail: Entry?<K, V>,
                          ghost rest: Chain<K, V>)
      returns (newHead: Entry?<K, V>, newTail: Entry<K, V>)
    requires Threaded(h, head, tail) && NoDup(h) && x !in h
    requires Threaded(other, otherHead, otherTail) && Linked(x.next, rest)
    requires h == [] || (h[|h| - 1] !in other && h[|h| - 1] !in rest)
    modifies if tail == null then {} else {tail}`next
    ensures Threaded(h + [x], newHead, newTail)
    ensures Threaded(other, otherHead, otherTail) && Linked(x.next, rest)
  {
    if tail == null {
      newHead := x;
    } else {
      newHead := head;
      tail.next := x;
    }
    newTail := x;
  }

  lemma HasMore<K, V>(chains: seq<Chain<K, V>>, i: nat, x: Entry<K, V>, key: K)
    requires i < |chains|
    ensures Has(chains[i := chains[i] + [x]], key) <==> Has(chains, key) || key == x.key
  {
    var next: seq<Chain<K, V>> := chains[i := chains[i] + [x]];
    if Has(chains, key) {
      var a, b :| 0 <= a < |chains| && 0 <= b < |chains[a]| && chains[a][b].key == key;
      assert next[a][b].key == key;
    }
    assert next[i][|chains[i]|] == x;
    if Has(next, key) && key != x.key {
      var a, b :| 0 <= a < |next| && 0 <= b < |next[a]| && next[a][b].key == key;
      assert chains[a][b].key == key;
    }
  }

  /** One more entry at the end of the chain its hash selects. */
  lemma ShapedAppend<K, V>(chains: seq<Chain<K, V>>, hashOf: K -> int, keys: set<K>, size: nat, x: Entry<K, V>)
    requires Shaped(chains, hashOf, keys, size) && x.key !in keys && x.hash == hashOf(x.key)
    ensures var i := x.hash % |chains|;
            Shaped(chains[i := chains[i] + [x]], hashOf, keys + {x.key}, size + 1)
  {
    hide Has;
    var i := x.hash % |chains|;
    var next: seq<Chain<K, V>> := chains[i := chains[i] + [x]];
    TotalUpdate(chains, i, chains[i] + [x]);
    forall k | k in keys + {x.key}
      ensures Has(next, k)
    {
      HasMore(chains, i, x, k);
    }
  }

  ghost function EntriesOf<K, V>(chains: seq<Chain<K, V>>): (all: set<Entry<K, V>>)
    ensures forall i, j :: 0 <= i < |chains| && 0 <= j < |chains[i]| ==> chains[i][j] in all
  {
    set i, j | 0 <= i < |chains| && 0 <= j < |chains[i]| :: chains[i][j]
  }

  lemma EntriesNone<K, V>(chains: seq<Chain<K, V>>)
    requires forall i :: 0 <= i < |chains| ==> chains[i] == []
    ensures EntriesOf(chains) == {}
  {
  }

  lemma EntriesMore<K, V>(chains: seq<Chain<K, V>>, i: nat, x: Entry<K, V>)
    requires i < |chains|
    ensures EntriesOf(chains[i := chains[i] + [x]]) == EntriesOf(chains) + {x}
  {
    var next: seq<Chain<K, V>> := chains[i := chains[i] + [x]];
    assert next[i][|chains[i]|] == x;
    forall a, b | 0 <= a < |chains| && 0 <= b < |chains[a]|
      ensures chains[a][b] in EntriesOf(next)
    {
      assert next[a][b] == chains[a][b];
    }
  }

  /** The pairs put one after another. */
  function Puts<K, V>(m: map<K, V>, pairs: seq<(K, V)>): map<K, V> {
    if pairs == [] then m else Puts(m, pairs[..|pairs| - 1])[pairs[|pairs| - 1].0 := pairs[|pairs| - 1].1]
  }

  lemma PutsNext<K, V>(m: map<K, V>, pairs: seq<(K, V)>, i: nat)
    requires i < |pairs|
    ensures Puts(m, pairs[..i + 1]) == Puts(m, pairs[..i])[pairs[i].0 := pairs[i].1] 
  {
    assert pairs[..i + 1][..i] == pairs[..i];
  }

  lemma PutsNone<K, V>(m: map<K, V>, pairs: seq<(K, V)>)
    ensures Puts(m, pairs[..0]) == m
  {
  }

  class Dictionary<K(==), V> {
    const hashOf: K -> int
    var buckets: array<Entry?<K, V>>
    var size: nat
    ghost var chains: seq<Chain<K, V>>
    ghost var contents: map<K, V>
    ghost var exponent: nat

    ghost predicate Valid()
      reads this, buckets, EntriesOf(chains)
    {
      && |chains| == buckets.Length == Pow2(exponent)
      && Shaped(chains, hashOf, contents.Keys, size)
      && forall i :: 0 <= i < |chains| ==> Linked(buckets[i], chains[i]) && Valued(chains[i], contents)
    }

    /** The bucket a hash selects: hash & (length - 1), the length a power of
        two. */
    function BucketIdx(hash: int): nat
      requires buckets.Length > 0
      reads this`buckets
    {
      hash % buckets.Length
    }

    constructor (hashOf: K -> int, ghost exponent: nat, length: nat)
      requires length == Pow2(exponent)
      ensures Valid() && contents == map[] && this.hashOf == hashOf && fresh(buckets) && EntriesOf(chains) == {}
    {
      this.hashOf := hashOf;
      buckets := new Entry?<K, V>[length](_ => null);
      size := 0;
      chains := seq(length, _ => []);
      contents := map[];
      this.exponent := exponent;
      new;
      TotalNone(chains);
    }

    lemma Open()
      requires Valid()
      ensures 0 < buckets.Length == |chains| == Pow2(exponent) && Shaped(chains, hashOf, contents.Keys, size)
      ensures forall i :: 0 <= i < |chains| ==> Linked(buckets[i], chains[i]) && Valued(chains[i], contents)
    {
    }

    lemma Close()
      requires buckets.Length == |chains| == Pow2(exponent) && Shaped(chains, hashOf, contents.Keys, size)
      requires forall i :: 0 <= i < |chains| ==> Linked(buckets[i], chains[i]) && Valued(chains[i], contents)
      ensures Valid()
    {
    }

    lemma BucketIs(hash: int)
      requires Valid()
      ensures 0 < buckets.Length == |chains| && BucketIdx(hash) < buckets.Length && BucketIdx(hash) == hash % |chains|
      ensures buckets[BucketIdx(hash)] == Link(chains[BucketIdx(hash)], 0)
    {
    }

    lemma Found(i: nat, j: nat)
      requires Valid() && i < |chains| && j < |chains[i]|
      ensures chains[i][j].key in contents && contents[chains[i][j].key] == chains[i][j].value
      ensures chains[i][j].next == Link(chains[i], j + 1) && chains[i][j].hash == hashOf(chains[i][j].key)
      ensures forall hash, key :: chains[i][j].Matches(hash, key) <==> chains[i][j].hash == hash && chains[i][j].key == key
    {
      assert Linked(buckets[i], chains[i]) && Valued(chains[i], contents);
    }

    method At(key: K) returns (r: Option<V>)
      requires Valid()
      ensures r == if key in contents then Some(contents[key]) else None
    {
      hide *;
      var hash := hashOf(key);
      BucketIs(hash);
      Open();
      var e := buckets[BucketIdx(hash)];
      ghost var i, k := BucketIdx(hash), 0;
      while e != null
        invariant Valid() && 0 <= k <= |chains[i]| && e == Link(chains[i], k)
        invariant forall j :: 0 <= j < k ==> chains[i][j].key != key
        decreases |chains[i]| - k
      {
        LinkIs(chains[i], k);
        Found(i, k);
        if e.Matches(hash, key) {
          return Some(e.value);
        }
        e := e.next;
        k := k + 1;
      }
      LinkIs(chains[i], k);
      KeyNowhere(chains, hashOf, contents.Keys, size, key);
      return None;
    }

    /** A new value for the key that entry k of its chain has. */
    method Revalue(x: Entry<K, V>, value: V, ghost i: nat, ghost k: nat)
      requires Valid() && i < |chains| && k < |chains[i]| && x == chains[i][k]
      modifies this`contents, x`value
      ensures Valid() && contents == old(contents)[x.key := value] && chains == old(chains)
    {
      hide *;
      Open();
      ShapedIs(chains, hashOf, contents.Keys, size, i);
      OneKey(chains, hashOf, contents.Keys, size, i, k);
      ValuedIs(chains[i], contents);
      x.value := value;
      contents := contents[x.key := value];
      assert contents.Keys == old(contents).Keys;
      forall a | 0 <= a < |chains|
        ensures Valued(chains[a], contents)
      {
        assert old(Valued(chains[a], contents));
        if a == i {
          ValuedOne(chains[a], old(contents), x.key, value, k);
        } else {
          ValuedOther(chains[a], old(contents), x.key, value);
        }
      }
      Close();
    }

    /** Down a chain to the key's own entry, or to the last. */
    method Walk(key: K, hash: int, head: Entry<K, V>) returns (current: Entry<K, V>, ghost i: nat, ghost k: nat)
      requires Valid() && hash == hashOf(key) && head == buckets[BucketIdx(hash)]
      ensures Valid() && i == hash % |chains| < |chains| && k < |chains[i]| && current == chains[i][k]
      ensures current.Matches(hash, key) <==> current.key == key
      ensures current.key == key || (k == |chains[i]| - 1 && key !in contents)
    {
      hide *;
      BucketIs(hash);
      Open();
      current := head;
      i, k := BucketIdx(hash), 0;
      LinkIs(chains[i], 0);
      while true
        invariant Valid() && 0 <= k < |chains[i]| && current == chains[i][k]
        invariant forall j :: 0 <= j < k ==> chains[i][j].key != key
        decreases |chains[i]| - k
      {
        Found(i, k);
        LinkIs(chains[i], k + 1);
        if current.Matches(hash, key) {
          return;
        }
        if current.next == null {
          KeyNowhere(chains, hashOf, contents.Keys, size, key);
          return;
        }
        current := current.next;
        k := k + 1;
      }
    }

    /** Down the chain of its hash: the key's own entry takes the value, or a new
        one goes behind the last. */
    method InsertBucketEntry(key: K, value: V, hash: int, head: Entry<K, V>)
      requires Valid() && hash == hashOf(key) && head == buckets[BucketIdx(hash)]
      modifies this`size, this`chains, this`contents, buckets, EntriesOf(chains)
      ensures Valid() && contents == old(contents)[key := value]
      ensures forall e :: e in EntriesOf(chains) ==> e in EntriesOf(old(chains)) || fresh(e)
      ensures |chains| == |old(chains)|
    {
      hide *;
      ghost var i, k;
      var current;
      current, i, k := Walk(key, hash, head);
      InEntries(chains, i, k);
      if current.Matches(hash, key) {
        Revalue(current, value, i, k);
      } else {
        Append(key, value, hash, current);
      }
    }

    /** Entry k of a chain goes behind the tail of its half. */
    static method SplitEntry(current: Entry<K, V>, n: nat, loHead: Entry?<K, V>, loTail: Entry?<K, V>,
                             hiHead: Entry?<K, V>, hiTail: Entry?<K, V>, ghost c: Chain<K, V>, ghost k: nat)
        returns (loHead': Entry?<K, V>, loTail': Entry?<K, V>, hiHead': Entry?<K, V>, hiTail': Entry?<K, V>)
      requires n > 0 && k < |c| && NoDup(c) && current == c[k] && Linked(current.next, c[k + 1..])
      requires Threaded(Half(c[..k], n, false), loHead, loTail) && Threaded(Half(c[..k], n, true), hiHead, hiTail)
      modifies c`next
      ensures Linked(current.next, c[k + 1..])
      ensures Threaded(Half(c[..k + 1], n, false), loHead', loTail') && Threaded(Half(c[..k + 1], n, true), hiHead', hiTail')
    {
      hide *;
      loHead', loTail', hiHead', hiTail' := loHead, loTail, hiHead, hiTail;
      ghost var lo, hi := Half(c[..k], n, false), Half(c[..k], n, true);
      Fresh(c, k, n, false, lo, hi);
      Fresh(c, k, n, true, hi, lo);
      HalfNext(c, k, n, false);
      HalfNext(c, k, n, true);
      TailIs(lo, loHead, loTail);
      TailIs(hi, hiHead, hiTail);
      if !HighBit(current.hash, n) {
        loHead', loTail' := Thread(lo, loHead, loTail, current, hi, hiHead, hiTail, c[k + 1..]);
      } else {
        hiHead', hiTail' := Thread(hi, hiHead, hiTail, current, lo, loHead, loTail, c[k + 1..]);
      }
    }

    /** A chain comes apart into the entries of either bit, each half threaded in
        its old order. */
    static method SplitChain(head: Entry<K, V>, n: nat, ghost c: Chain<K, V>)
        returns (loHead: Entry?<K, V>, loTail: Entry?<K, V>, hiHead: Entry?<K, V>, hiTail: Entry?<K, V>)
      requires n > 0 && Linked(head, c) && NoDup(c)
      modifies c`next
      ensures Threaded(Half(c, n, false), loHead, loTail) && Threaded(Half(c, n, true), hiHead, hiTail)
    {
      hide *;
      loHead, loTail, hiHead, hiTail := null, null, null, null;
      var current: Entry?<K, V> := head;
      ghost var k := 0;
      SplitStart(head, c, n);
      while current != null
        invariant 0 <= k <= |c| && Linked(current, c[k..])
        invariant Threaded(Half(c[..k], n, false), loHead, loTail) && Threaded(Half(c[..k], n, true), hiHead, hiTail)
        decreases |c| - k
      {
        RestIs(c, k, current);
        loHead, loTail, hiHead, hiTail := SplitEntry(current, n, loHead, loTail, hiHead, hiTail, c, k);
        current := current.next;
        k := k + 1;
      }
      RestDone(c, k, current);
      assert c[..k] == c;
    }

    /** One chain of the old table becomes two of the new: each entry to i or to
        i + n, in its old order. */
    method SplitBucket(i: nat, n: nat, head: Entry<K, V>, ghost c: Chain<K, V>)
      requires i < n && buckets.Length == 2 * n && Linked(head, c) && NoDup(c)
      requires buckets[i] == null && buckets[i + n] == null
      modifies buckets, c`next
      ensures Linked(buckets[i], Half(c, n, false)) && Linked(buckets[i + n], Half(c, n, true))
      ensures forall a :: 0 <= a < buckets.Length && a != i && a != i + n ==> buckets[a] == old(buckets[a])
    {
      hide *;
      var loHead, loTail, hiHead, hiTail := SplitChain(head, n, c);
      Halves(c, n);
      TailIs(Half(c, n, false), loHead, loTail);
      TailIs(Half(c, n, true), hiHead, hiTail);
      if loTail != null {
        Cut(Half(c, n, false), loHead, loTail);
        buckets[i] := loHead;
      } else {
        LinkedNone(Half(c, n, false), buckets[i]);
      }
      if hiTail != null {
        Cut(Half(c, n, true), hiHead, hiTail);
        buckets[i + n] := hiHead;
      } else {
        LinkedNone(Half(c, n, true), buckets[i + n]);
      }
    }

    /** A bucket of the old table: a lone entry goes where its hash says, a longer
        chain is split. */
    method Transfer(i: nat, n: nat, current: Entry<K, V>, ghost c: Chain<K, V>)
      requires i < n && buckets.Length == 2 * n && Linked(current, c) && NoDup(c)
      requires forall j :: 0 <= j < |c| ==> c[j].hash % n == i
      requires buckets[i] == null && buckets[i + n] == null
      modifies buckets, c`next
      ensures Linked(buckets[i], Half(c, n, false)) && Linked(buckets[i + n], Half(c, n, true))
      ensures forall a :: 0 <= a < buckets.Length && a != i && a != i + n ==> buckets[a] == old(buckets[a])
    {
      hide *;
      LinkedOne(current, c);
      if current.next == null {
        SplitIndex(current.hash, n);
        LoneHalves(current, n);
        buckets[current.hash % buckets.Length] := current;
        LinkedLone(current);
        LinkedNone<K, V>([], null);
      } else {
        SplitBucket(i, n, current, c);
      }
    }

    /** Every chain of the old storage goes to the new: no bucket is written
        twice. */
    method TransferEntries(oldStorage: array<Entry?<K, V>>, ghost c: seq<Chain<K, V>>)
      requires |c| == oldStorage.Length > 0 && buckets != oldStorage && buckets.Length == 2 * |c|
      requires Placed(c, hashOf) && forall a :: 0 <= a < |c| ==> Linked(oldStorage[a], c[a])
      requires forall a :: 0 <= a < buckets.Length ==> buckets[a] == null
      modifies buckets, oldStorage, EntriesOf(c)`next
      ensures forall a :: 0 <= a < buckets.Length ==> Linked(buckets[a], Doubled(c)[a])
    {
      hide *;
      var n := oldStorage.Length;
      for i := 0 to n
        invariant forall a :: i <= a < n ==> Linked(oldStorage[a], c[a])
        invariant forall a :: i <= a < n || i + n <= a < 2 * n ==> buckets[a] == null
        invariant forall a :: 0 <= a < i ==> Linked(buckets[a], Half(c[a], n, false)) && Linked(buckets[a + n], Half(c[a], n, true))
      {
        var current := oldStorage[i];
        LinkedHead(current, c[i]);
        ChainsApart(c, hashOf, i);
        OneEntry(c[i], n);
        label Here:
        if current != null {
          oldStorage[i] := null;
          Transfer(i, n, current, c[i]);
        } else {
          LinkedNone(Half(c[i], n, false), buckets[i]);
          LinkedNone(Half(c[i], n, true), buckets[i + n]);
        }
        forall a | 0 <= a < i
          ensures Linked(buckets[a], Half(c[a], n, false)) && Linked(buckets[a + n], Half(c[a], n, true))
        {
          assert old@Here(Linked(buckets[a], Half(c[a], n, false)) && Linked(buckets[a + n], Half(c[a], n, true)));
          Untouched(c[i], Half(c[a], n, false));
          Untouched(c[i], Half(c[a], n, true));
        }
        forall a | i < a < n
          ensures Linked(oldStorage[a], c[a])
        {
          assert old@Here(Linked(oldStorage[a], c[a]));
          Untouched(c[i], c[a]);
        }
      }
      forall a | 0 <= a < buckets.Length
        ensures Linked(buckets[a], Doubled(c)[a])
      {
        DoubledAt(c, a);
      }
    }

    /** Twice the buckets, and every chain split in place. */
    method Resize()
      requires Valid()
      modifies this`buckets, this`chains, this`exponent, buckets, EntriesOf(chains)`next
      ensures Valid() && contents == old(contents) && chains == Doubled(old(chains)) && fresh(buckets)
      ensures buckets.Length == 2 * old(buckets.Length)
      ensures EntriesOf(chains) <= old(EntriesOf(chains))
    {
      hide *;
      Open();
      var oldStorage := buckets;
      buckets := new Entry?<K, V>[oldStorage.Length * 2](_ => null);
      PlacedIs(chains, hashOf, contents.Keys, size);
      ShapedDouble(chains, hashOf, contents.Keys, size);
      TransferEntries(oldStorage, chains);
      forall a | 0 <= a < 2 * |chains|
        ensures Valued(Doubled(chains)[a], contents)
      {
        forall i | 0 <= i < |chains|
          ensures Valued(chains[i], contents)
        {
          assert old(Valued(chains[i], contents));
        }
        ValuedDouble(chains, a, contents);
      }
      Pow2Next(exponent);
      DoubledEntries(chains);
      chains := Doubled(chains);
      exponent := exponent + 1;
      Close();
    }

    method AtPut(key: K, value: V)
      requires Valid()
      modifies this, buckets, EntriesOf(chains)
      ensures Valid() && contents == old(contents)[key := value]
      ensures buckets.Length == old(buckets.Length) * if |contents| > old(buckets.Length) then 2 else 1
      ensures buckets == old(buckets) || fresh(buckets)
      ensures forall e :: e in EntriesOf(chains) ==> e in old(EntriesOf(chains)) || fresh(e)
    {
      hide *;
      var hash := hashOf(key);
      BucketIs(hash);
      var current := buckets[BucketIdx(hash)];
      if current == null {
        Open();
        LinkIs(chains[BucketIdx(hash)], 0);
        KeyNowhere(chains, hashOf, contents.Keys, size, key);
        Append(key, value, hash, null);
      } else {
        InsertBucketEntry(key, value, hash, current);
      }
      Sizes();
      if size > buckets.Length {
        Resize();
      }
    }

    lemma Sizes()
      requires Valid()
      ensures size == |contents|
    {
    }

    /** Any sequence of puts: the last value of each key. */
    method PutAll(pairs: seq<(K, V)>)
      requires Valid()
      modifies this, buckets, EntriesOf(chains)
      ensures Valid() && contents == Puts(old(contents), pairs)
      ensures buckets == old(buckets) || fresh(buckets)
      ensures forall e :: e in EntriesOf(chains) ==> e in old(EntriesOf(chains)) || fresh(e)
    {
      hide *;
      PutsNone(contents, pairs);
      for i := 0 to |pairs|
        invariant Valid() && contents == Puts(old(contents), pairs[..i])
        invariant buckets == old(buckets) || fresh(buckets)
        invariant forall e :: e in EntriesOf(chains) ==> e in old(EntriesOf(chains)) || fresh(e)
      {
        PutsNext(old(contents), pairs, i);
        AtPut(pairs[i].0, pairs[i].1);
      }
      assert pairs[..|pairs|] == pairs;
    }

    /** What a fresh key writes: a new entry behind the last of its chain, or
        first in its bucket when there is none. */
    method WriteEntry(key: K, value: V, hash: int, last: Entry?<K, V>) returns (entry: Entry<K, V>)
      requires 0 < buckets.Length
      modifies buckets, if last == null then {} else {last}
      ensures fresh(entry) && entry.key == key && entry.value == value && entry.hash == hash && entry.next == null
      ensures last == null ==> buckets[..] == old(buckets[..])[BucketIdx(hash) := entry]
      ensures last != null ==> buckets[..] == old(buckets[..]) && last.next == entry && last.value == old(last.value)
    {
      entry := new Entry(hash, key, value, null);
      if last == null {
        buckets[BucketIdx(hash)] := entry;
      } else {
        last.next := entry;
      }
    }

    method Append(key: K, value: V, hash: int, last: Entry?<K, V>)
      requires Valid() && key !in contents && hash == hashOf(key)
      requires var i := hash % |chains|; last == if chains[i] == [] then null else chains[i][|chains[i]| - 1]
      modifies this`size, this`chains, this`contents, buckets, if last == null then {} else {last}
      ensures Valid() && contents == old(contents)[key := value]
      ensures forall e :: e in EntriesOf(chains) ==> e in EntriesOf(old(chains)) || fresh(e)
      ensures |chains| == |old(chains)|
    {
      hide *;
      Open();
      BucketIs(hash);
      ghost var i := hash % |chains|;
      ghost var c := chains[i];
      ShapedIs(chains, hashOf, contents.Keys, size, i);
      LinkedIs(buckets[i], c);
      LinkIs(c, 0);
      if c != [] {
        OneKey(chains, hashOf, contents.Keys, size, i, |c| - 1);
      }
      NewKey(chains, hashOf, contents.Keys, size, key);
      var entry := WriteEntry(key, value, hash, last);
      ghost var was, before := chains, contents;
      assert forall a :: 0 <= a < |was| && a != i ==> buckets[a] == old(buckets[..])[a];
      forall a | 0 <= a < |was| && a != i
        ensures Linked(buckets[a], was[a]) && Valued(was[a], before)
      {
        assert old(Linked(buckets[a], chains[a])) && old(Valued(chains[a], contents));
      }
      AppendedChain(buckets[i], c, entry, last, before);
      size := size + 1;
      Register(entry, i);
    }

    /** The entry that has been written is the dictionary's. */
    ghost method Register(entry: Entry<K, V>, i: nat)
      requires size > 0 && Shaped(chains, hashOf, contents.Keys, size - 1) && buckets.Length == |chains| == Pow2(exponent)
      requires entry.key !in contents && entry.hash == hashOf(entry.key) && i == entry.hash % |chains|
      requires forall a :: 0 <= a < |chains| && a != i ==> Linked(buckets[a], chains[a]) && Valued(chains[a], contents)
      requires Linked(buckets[i], chains[i] + [entry]) && Valued(chains[i] + [entry], contents[entry.key := entry.value])
      modifies this`chains, this`contents
      ensures Valid() && contents == old(contents)[entry.key := entry.value]
      ensures EntriesOf(chains) == EntriesOf(old(chains)) + {entry} && |chains| == |old(chains)|
    {
      hide *;
      ShapedAppend(chains, hashOf, contents.Keys, size - 1, entry);
      NewKey(chains, hashOf, contents.Keys, size - 1, entry.key);
      EntriesMore(chains, i, entry);
      ghost var was, before := chains, contents;
      chains := chains[i := chains[i] + [entry]];
      contents := contents[entry.key := entry.value];
      assert contents.Keys == before.Keys + {entry.key};
      forall a | 0 <= a < |chains|
        ensures Linked(buckets[a], chains[a]) && Valued(chains[a], contents)
      {
        if a != i {
          ValuedOther(was[a], before, entry.key, entry.value);
        }
      }
      Close();
    }

    /** As many empty buckets as there were. */
    method RemoveAll()
      requires Valid()
      modifies this
      ensures Valid() && contents == map[] && fresh(buckets) && buckets.Length == old(buckets.Length)
      ensures EntriesOf(chains) == {}
    {
      hide *;
      Open();
      buckets := new Entry?<K, V>[buckets.Length](_ => null);
      size := 0;
      chains := seq(buckets.Length, _ => []);
      contents := map[];
      ShapedNone(chains, hashOf);
      assert contents.Keys == {};
      forall i | 0 <= i < |chains|
        ensures Linked(buckets[i], chains[i]) && Valued(chains[i], contents)
      {
        EmptyChain(chains[i], contents);
      }
      EntriesNone(chains);
      Close();
    }

    /** The keys, bucket by bucket: each of them once. */
    method GetKeys() returns (keys: seq<K>)
      requires Valid()
      ensures |keys| == |contents| == size
      ensures forall k :: k in keys ==> k in contents
      ensures forall k :: k in contents ==> k in keys
    {
      hide *;
      Open();
      keys := [];
      NoKeys(chains);
      for i := 0 to buckets.Length
        invariant Valid() && i <= |chains| == buckets.Length && keys == KeysOf(chains[..i])
      {
        Open();
        var current := buckets[i];
        ghost var k := 0;
        LinkedIs(buckets[i], chains[i]);
        KeysMore(chains, i);
        while current != null
          invariant Valid() && 0 <= k <= |chains[i]| && current == Link(chains[i], k)
          invariant keys == KeysOf(chains[..i]) + KeysIn(chains[i], k)
          decreases |chains[i]| - k
        {
          LinkIs(chains[i], k);
          LinkedIs(buckets[i], chains[i]);
          KeysNext(chains[i], k);
          keys := keys + [current.key];
          current := current.next;
          k := k + 1;
        }
        LinkIs(chains[i], k);
        KeysMore(chains, i);
      }
      assert chains[..|chains|] == chains;
      KeysAll(chains, hashOf, contents.Keys, size);
      SizeIs(chains, hashOf, contents.Keys, size);
    }
  }

  lemma InEntries<K, V>(chains: seq<Chain<K, V>>, i: nat, j: nat)
    requires i < |chains| && j < |chains[i]|
    ensures chains[i][j] in EntriesOf(chains)
  {
  }

  lemma SplitStart<K, V>(head: Entry?<K, V>, c: Chain<K, V>, n: nat)
    requires Linked(head, c) && n > 0
    ensures Linked(head, c[0..])
    ensures Threaded(Half(c[..0], n, false), null, null) && Threaded(Half(c[..0], n, true), null, null)
  {
    assert c[0..] == c;
  }

  /** What is left of a chain being split is a chain. */
  lemma RestIs<K, V>(c: Chain<K, V>, k: nat, current: Entry?<K, V>)
    requires k <= |c| && Linked(current, c[k..]) && current != null
    ensures k < |c| && current == c[k] && Linked(c[k].next, c[k + 1..])
  {
    var rest := c[k + 1..];
    forall j | 0 <= j < |rest|
      ensures rest[j].next == Link(rest, j + 1)
    {
      assert c[k..][j + 1].next == Link(c[k..], j + 2);
    }
  }

  lemma RestDone<K, V>(c: Chain<K, V>, k: nat, current: Entry?<K, V>)
    requires k <= |c| && Linked(current, c[k..]) && current == null
    ensures k == |c|
  {
  }

  lemma TailIs<K, V>(h: Chain<K, V>, head: Entry?<K, V>, tail: Entry?<K, V>)
    requires Threaded(h, head, tail)
    ensures tail == if h == [] then null else h[|h| - 1]
  {
  }

  /** The two halves have no entry in common. */
  lemma Halves<K, V>(c: Chain<K, V>, n: nat)
    requires n > 0 && NoDup(c)
    ensures NoDup(Half(c, n, false)) && NoDup(Half(c, n, true))
    ensures forall j :: 0 <= j < |Half(c, n, false)| ==> Half(c, n, false)[j] in c && !HighBit(Half(c, n, false)[j].hash, n)
    ensures forall j :: 0 <= j < |Half(c, n, true)| ==> Half(c, n, true)[j] in c && HighBit(Half(c, n, true)[j].hash, n)
  {
    HalfNoDup(c, n, false);
    HalfNoDup(c, n, true);
    HalfMembers(c, n, false);
    HalfMembers(c, n, true);
  }

  /** Its last link cut, the half is a chain. */
  method Cut<K(==), V>(ghost h: Chain<K, V>, head: Entry?<K, V>, tail: Entry<K, V>)
    requires Threaded(h, head, tail) && NoDup(h)
    modifies tail`next
    ensures Linked(head, h)
  {
    tail.next := null;
  }

  ghost function HalfAll<K, V>(c: seq<Chain<K, V>>, n: nat, high: bool): (d: seq<Chain<K, V>>)
    requires n > 0
    ensures |d| == |c|
  {
    seq(|c|, a requires 0 <= a < |c| => Half(c[a], n, high))
  }

  /** The chains after the table has doubled: the lower halves, and then the
      higher. */
  ghost function Doubled<K, V>(c: seq<Chain<K, V>>): (d: seq<Chain<K, V>>)
    requires c != []
    ensures |d| == 2 * |c|
  {
    HalfAll(c, |c|, false) + HalfAll(c, |c|, true)
  }

  lemma {:induction false} TotalSum<K, V>(a: seq<Chain<K, V>>, b: seq<Chain<K, V>>)
    ensures Total(a + b) == Total(a) + Total(b)
    decreases |b|
  {
    if b == [] {
      assert a + b == a;
    } else {
      var n := |b| - 1;
      assert (a + b)[..|a + b| - 1] == a + b[..n];
      TotalSum(a, b[..n]);
    }
  }

  lemma {:induction false} HalfAllTotal<K, V>(c: seq<Chain<K, V>>, n: nat)
    requires n > 0
    ensures Total(HalfAll(c, n, false)) + Total(HalfAll(c, n, true)) == Total(c)
    decreases |c|
  {
    if c != [] {
      var m := |c| - 1;
      HalfAllTotal(c[..m], n);
      HalvesLength(c[m], n);
      assert HalfAll(c, n, false)[..m] == HalfAll(c[..m], n, false);
      assert HalfAll(c, n, true)[..m] == HalfAll(c[..m], n, true);
    }
  }

  lemma {:induction false} HalfKeys<K, V>(c: Chain<K, V>, n: nat, high: bool)
    requires n > 0 && forall j, k :: 0 <= j < k < |c| ==> c[j].key != c[k].key
    ensures forall j, k :: 0 <= j < k < |Half(c, n, high)| ==> Half(c, n, high)[j].key != Half(c, n, high)[k].key
  {
    if c != [] {
      var d := c[..|c| - 1];
      HalfKeys(d, n, high);
      HalfMembers(d, n, high);
      var h := Half(d, n, high);
      forall i | 0 <= i < |h|
        ensures h[i].key != c[|c| - 1].key
      {
        var k :| 0 <= k < |d| && d[k] == h[i];
        assert c[k] == h[i];
      }
      assert Half(c, n, high) == h || Half(c, n, high) == h + [c[|c| - 1]];
    }
  }

  /** The chain that chain a of the doubled table came from. */
  function Origin(a: nat, n: nat): nat
    requires a < 2 * n
  {
    if a < n then a else a - n
  }

  /** An entry of a half is where the doubled table looks for it. */
  lemma HalfPlaced<K, V>(c: seq<Chain<K, V>>, hashOf: K -> int, a: nat, j: nat)
    requires c != [] && Placed(c, hashOf) && a < 2 * |c| && j < |Doubled(c)[a]|
    ensures var x := Doubled(c)[a][j]; x.hash == hashOf(x.key) && x.hash % (2 * |c|) == a && x in c[Origin(a, |c|)]
  {
    hide HighBit, Doubled;
    var n, i := |c|, Origin(a, |c|);
    DoubledAt(c, a);
    HalfMembers(c[i], n, a >= n);
    var x := Doubled(c)[a][j];
    var k :| 0 <= k < |c[i]| && c[i][k] == x;
    SplitIndex(x.hash, n);
  }

  lemma DoubledEntries<K, V>(c: seq<Chain<K, V>>)
    requires c != []
    ensures EntriesOf(Doubled(c)) <= EntriesOf(c)
  {
    hide Half, HighBit;
    forall a, j | 0 <= a < |Doubled(c)| && 0 <= j < |Doubled(c)[a]|
      ensures Doubled(c)[a][j] in EntriesOf(c)
    {
      DoubledAt(c, a);
      HalfMembers(c[Origin(a, |c|)], |c|, a >= |c|);
    }
  }

  lemma DoubledPlaced<K, V>(c: seq<Chain<K, V>>, hashOf: K -> int)
    requires c != [] && Placed(c, hashOf)
    ensures Placed(Doubled(c), hashOf)
  {
    var d: seq<Chain<K, V>> := Doubled(c);
    forall i, j | 0 <= i < |d| && 0 <= j < |d[i]|
      ensures d[i][j].hash == hashOf(d[i][j].key) && d[i][j].hash % |d| == i
    {
      HalfPlaced(c, hashOf, i, j);
    }
    forall i, j, k | 0 <= i < |d| && 0 <= j < k < |d[i]|
      ensures d[i][j].key != d[i][k].key
    {
      DoubledAt(c, i);
      HalfKeys(c[if i < |c| then i else i - |c|], |c|, i >= |c|);
    }
  }

  lemma DoubledKeys<K, V>(c: seq<Chain<K, V>>, hashOf: K -> int, keys: set<K>, size: nat)
    requires Shaped(c, hashOf, keys, size)
    ensures forall i, j :: 0 <= i < |Doubled(c)| && 0 <= j < |Doubled(c)[i]| ==> Doubled(c)[i][j].key in keys
  {
    hide Doubled, Half;
    var d: seq<Chain<K, V>> := Doubled(c);
    forall i, j | 0 <= i < |d| && 0 <= j < |d[i]|
      ensures d[i][j].key in keys
    {
      HalfPlaced(c, hashOf, i, j);
      var k :| 0 <= k < |c[Origin(i, |c|)]| && c[Origin(i, |c|)][k] == d[i][j];
    }
  }

  lemma DoubledHas<K, V>(c: seq<Chain<K, V>>, key: K)
    requires c != [] && Has(c, key)
    ensures Has(Doubled(c), key)
  {
    hide Doubled, Half, HighBit;
    var d: seq<Chain<K, V>> := Doubled(c);
    var i, j :| 0 <= i < |c| && 0 <= j < |c[i]| && c[i][j].key == key;
    var high := HighBit(c[i][j].hash, |c|);
    HalfMembers(c[i], |c|, high);
    var a := if high then i + |c| else i;
    DoubledAt(c, a);
    var k :| 0 <= k < |Half(c[i], |c|, high)| && Half(c[i], |c|, high)[k] == c[i][j];
    assert d[a][k].key == key;
  }

  /** Doubling keeps the keys and the count. */
  lemma ShapedDouble<K, V>(c: seq<Chain<K, V>>, hashOf: K -> int, keys: set<K>, size: nat)
    requires Shaped(c, hashOf, keys, size)
    ensures Shaped(Doubled(c), hashOf, keys, size)
  {
    hide Placed, Has;
    DoubledPlaced(c, hashOf);
    HalfAllTotal(c, |c|);
    TotalSum(HalfAll(c, |c|, false), HalfAll(c, |c|, true));
    DoubledKeys(c, hashOf, keys, size);
    forall key | key in keys
      ensures Has(Doubled(c), key)
    {
      DoubledHas(c, key);
    }
  }

  lemma ValuedDouble<K, V>(c: seq<Chain<K, V>>, a: nat, contents: map<K, V>)
    requires c != [] && a < 2 * |c| && forall i :: 0 <= i < |c| ==> Valued(c[i], contents)
    ensures Valued(Doubled(c)[a], contents)
  {
    DoubledAt(c, a);
    var i := if a < |c| then a else a - |c|;
    HalfMembers(c[i], |c|, a >= |c|);
    assert Valued(c[i], contents);
    forall j | 0 <= j < |Doubled(c)[a]|
      ensures Doubled(c)[a][j].key in contents && Doubled(c)[a][j].value == contents[Doubled(c)[a][j].key]
    {
      var k :| 0 <= k < |c[i]| && c[i][k] == Doubled(c)[a][j];
    }
  }

  lemma DoubledAt<K, V>(c: seq<Chain<K, V>>, a: nat)
    requires c != [] && a < 2 * |c|
    ensures Doubled(c)[a] == if a < |c| then Half(c[a], |c|, false) else Half(c[a - |c|], |c|, true)
  {
    hide Half, HalfAll;
    var low, high := HalfAll(c, |c|, false), HalfAll(c, |c|, true);
    if a < |c| {
      HalfAllAt(c, |c|, false, a);
      assert (low + high)[a] == low[a];
    } else {
      HalfAllAt(c, |c|, true, a - |c|);
      assert (low + high)[a] == high[a - |c|];
    }
  }

  lemma HalfAllAt<K, V>(c: seq<Chain<K, V>>, n: nat, high: bool, a: nat)
    requires n > 0 && a < |c|
    ensures HalfAll(c, n, high)[a] == Half(c[a], n, high)
  {
    hide Half;
  }

  lemma LoneHalves<K, V>(x: Entry<K, V>, n: nat)
    requires n > 0
    ensures Half([x], n, HighBit(x.hash, n)) == [x] && Half([x], n, !HighBit(x.hash, n)) == []
  {
    assert [x][..0] == [];
  }

  lemma LinkedOne<K, V>(x: Entry<K, V>, c: Chain<K, V>)
    requires Linked(x, c)
    ensures c != [] && c[0] == x && (x.next == null ==> c == [x])
  {
  }

  lemma LinkedLone<K, V>(x: Entry<K, V>)
    requires x.next == null
    ensures Linked(x, [x])
  {
  }

  lemma LinkedHead<K, V>(head: Entry?<K, V>, c: Chain<K, V>)
    requires Linked(head, c)
    ensures head == null <==> c == []
  {
  }

  lemma OneEntry<K, V>(c: Chain<K, V>, n: nat)
    requires n > 0
    ensures c == [] ==> Half(c, n, false) == [] && Half(c, n, true) == []
  {
  }

  /** The entries of chain i are in no other chain, nor in a half of one. */
  lemma ChainsApart<K, V>(c: seq<Chain<K, V>>, hashOf: K -> int, i: nat)
    requires Placed(c, hashOf) && i < |c|
    ensures NoDup(c[i]) && (forall j :: 0 <= j < |c[i]| ==> c[i][j].hash % |c| == i && c[i][j] in EntriesOf(c))
    ensures forall a, j :: 0 <= a < |c| && a != i && 0 <= j < |c[i]| ==>
              c[i][j] !in c[a] && c[i][j] !in Half(c[a], |c|, false) && c[i][j] !in Half(c[a], |c|, true)
  {
    forall a, j | 0 <= a < |c| && a != i && 0 <= j < |c[i]|
      ensures c[i][j] !in c[a] && c[i][j] !in Half(c[a], |c|, false) && c[i][j] !in Half(c[a], |c|, true)
    {
      HalfMembers(c[a], |c|, false);
      HalfMembers(c[a], |c|, true);
      assert forall b :: 0 <= b < |c[a]| ==> c[a][b].hash % |c| == a;
    }
  }

  lemma ShapedNone<K, V>(chains: seq<Chain<K, V>>, hashOf: K -> int)
    requires |chains| > 0 && forall i :: 0 <= i < |chains| ==> chains[i] == []
    ensures Shaped(chains, hashOf, {}, 0)
  {
    TotalNone(chains);
  }

  lemma EmptyChain<K, V>(c: Chain<K, V>, contents: map<K, V>)
    requires c == []
    ensures Linked(null, c) && Valued(c, contents)
  {
  }

  lemma PlacedIs<K, V>(chains: seq<Chain<K, V>>, hashOf: K -> int, keys: set<K>, size: nat)
    requires Shaped(chains, hashOf, keys, size)
    ensures Placed(chains, hashOf) && chains != []
  {
  }

  lemma Pow2Next(e: nat)
    ensures Pow2(e + 1) == 2 * Pow2(e)
  {
  }

  lemma Untouched<K, V>(c: Chain<K, V>, d: Chain<K, V>)
    requires forall j :: 0 <= j < |c| ==> c[j] !in d
    ensures forall j :: 0 <= j < |d| ==> d[j] !in c
  {
    assert forall j :: 0 <= j < |c| ==> forall k :: 0 <= k < |d| ==> d[k] != c[j];
  }

  lemma LinkedNone<K, V>(h: Chain<K, V>, bucket: Entry?<K, V>)
    requires h == [] && bucket == null
    ensures Linked(bucket, h)
  {
  }

  lemma NewKey<K, V>(chains: seq<Chain<K, V>>, hashOf: K -> int, keys: set<K>, size: nat, key: K)
    requires Shaped(chains, hashOf, keys, size) && key !in keys
    ensures forall a, b :: 0 <= a < |chains| && 0 <= b < |chains[a]| ==> chains[a][b].key != key
  {
  }

  lemma AppendedChain<K, V>(head: Entry?<K, V>, c: Chain<K, V>, x: Entry<K, V>, last: Entry?<K, V>, contents: map<K, V>)
    requires Valued(c, contents) && x.key !in contents && x.next == null
    requires head == if c == [] then x else c[0]
    requires forall j :: 0 <= j < |c| ==> c[j].next == if j == |c| - 1 then x else Link(c, j + 1)
    ensures Linked(head, c + [x]) && Valued(c + [x], contents[x.key := x.value])
  {
  }

  ghost function KeysIn<K, V>(c: Chain<K, V>, k: nat): seq<K>
    requires k <= |c|
  {
    seq(k, j requires 0 <= j < k => c[j].key)
  }

  ghost function KeysOf<K, V>(chains: seq<Chain<K, V>>): seq<K> {
    if chains == [] then [] else KeysOf(chains[..|chains| - 1]) + KeysIn(chains[|chains| - 1], |chains[|chains| - 1]|)
  }

  lemma NoKeys<K, V>(chains: seq<Chain<K, V>>)
    ensures KeysOf(chains[..0]) == []
  {
  }

  lemma KeysNext<K, V>(c: Chain<K, V>, k: nat)
    requires k < |c|
    ensures KeysIn(c, k + 1) == KeysIn(c, k) + [c[k].key] && KeysIn(c, 0) == []
  {
  }

  lemma KeysMore<K, V>(chains: seq<Chain<K, V>>, i: nat)
    requires i < |chains|
    ensures KeysOf(chains[..i + 1]) == KeysOf(chains[..i]) + KeysIn(chains[i], |chains[i]|) && KeysIn(chains[i], 0) == []
  {
    assert chains[..i + 1][..i] == chains[..i];
  }

  lemma {:induction false} KeysMembers<K, V>(chains: seq<Chain<K, V>>)
    ensures |KeysOf(chains)| == Total(chains)
    ensures forall i, j :: 0 <= i < |chains| && 0 <= j < |chains[i]| ==> chains[i][j].key in KeysOf(chains)
  {
    if chains != [] {
      var n := |chains| - 1;
      KeysMembers(chains[..n]);
      var last := KeysIn(chains[n], |chains[n]|);
      forall j | 0 <= j < |chains[n]|
        ensures chains[n][j].key in KeysOf(chains)
      {
        assert last[j] in last;
      }
    }
  }

  lemma {:induction false} KeysHeld<K, V>(chains: seq<Chain<K, V>>, k: nat)
    requires k < |KeysOf(chains)|
    ensures Has(chains, KeysOf(chains)[k])
  {
    var n := |chains| - 1;
    var before := |KeysOf(chains[..n])|;
    if k < before {
      KeysHeld(chains[..n], k);
      var a, b :| 0 <= a < n && 0 <= b < |chains[..n][a]| && chains[..n][a][b].key == KeysOf(chains)[k];
      assert chains[a][b].key == KeysOf(chains)[k];
    } else {
      assert chains[n][k - before].key == KeysOf(chains)[k];
    }
  }

  lemma KeysAll<K, V>(chains: seq<Chain<K, V>>, hashOf: K -> int, keys: set<K>, size: nat)
    requires Shaped(chains, hashOf, keys, size)
    ensures |KeysOf(chains)| == size
    ensures forall k :: k in KeysOf(chains) ==> k in keys
    ensures forall k :: k in keys ==> k in KeysOf(chains)
  {
    KeysMembers(chains);
    forall k | k in KeysOf(chains)
      ensures k in keys
    {
      var j :| 0 <= j < |KeysOf(chains)| && KeysOf(chains)[j] == k;
      KeysHeld(chains, j);
      assert Has(chains, k);
    }
    forall k | k in keys
      ensures k in KeysOf(chains)
    {
      assert Has(chains, k);
    }
  }

  lemma SizeIs<K, V>(chains: seq<Chain<K, V>>, hashOf: K -> int, keys: set<K>, size: nat)
    requires Shaped(chains, hashOf, keys, size)
    ensures size == |keys|
  {
  }

  lemma OneKey<K, V>(chains: seq<Chain<K, V>>, hashOf: K -> int, keys: set<K>, size: nat, i: nat, k: nat)
    requires Shaped(chains, hashOf, keys, size) && i < |chains| && k < |chains[i]|
    ensures chains[i][k].key in keys
    ensures forall a, b :: 0 <= a < |chains| && 0 <= b < |chains[a]| && (a != i || b != k) ==> chains[a][b].key != chains[i][k].key
  {
  }

  lemma ValuedIs<K, V>(c: Chain<K, V>, contents: map<K, V>)
    requires Valued(c, contents)
    ensures forall j :: 0 <= j < |c| ==> c[j].key in contents && c[j].value == contents[c[j].key]
  {
  }

  lemma LinkedIs<K, V>(head: Entry?<K, V>, c: Chain<K, V>)
    requires Linked(head, c)
    ensures head == Link(c, 0) && forall j :: 0 <= j < |c| ==> c[j].next == Link(c, j + 1)
  {
  }

  lemma ValuedOther<K, V>(c: Chain<K, V>, contents: map<K, V>, key: K, value: V)
    requires Valued(c, contents) && forall j :: 0 <= j < |c| ==> c[j].key != key
    ensures Valued(c, contents[key := value])
  {
  }

  lemma ValuedOne<K, V>(c: Chain<K, V>, contents: map<K, V>, key: K, value: V, k: nat)
    requires k < |c| && c[k].key == key && c[k].value == value
    requires forall j :: 0 <= j < |c| && j != k ==> c[j].key != key && c[j].key in contents && c[j].value == contents[c[j].key]
    ensures Valued(c, contents[key := value])
  {
  }
}
