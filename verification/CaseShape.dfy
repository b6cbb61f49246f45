/** The generators of the case tables: recording a mapping, choosing the
    sentinel, sharing equal blocks, constant-delta spans, merged property ranges,
    and the packed entries the converter reads. */
module CaseShape {
  import opened Basics
  import opened Bits
  import opened Utf16
  import opened CaseTables

  // ---- recording ----

  /** One direction's mappings while the data files are read. */
  class DirectionModel {
    var single: map<nat, nat>
    var exceptions: map<nat, seq<nat>>

    constructor ()
      ensures single == map[] && exceptions == map[]
    {
      single, exceptions := map[], map[];
    }

    ghost function Now(): Model
      reads this
    {
      Model(single, exceptions)
    }

    /** The later record of a code point is the one that counts; an identity is
        no record at all. */
    method Record(c: nat, mapped: seq<nat>)
      requires !Surrogate(c) && mapped != []
      modifies this
      ensures MapOf(Now(), c) == mapped
      ensures forall d :: d != c ==> MapOf(Now(), d) == old(MapOf(Now(), d))
      ensures |mapped| == 1 ==> c !in exceptions && (mapped[0] == c ==> c !in single)
      ensures |mapped| != 1 ==> c !in single
      ensures forall d :: d != c ==> (d in single <==> d in old(single)) && (d in exceptions <==> d in old(exceptions))
    {
      if |mapped| == 1 {
        var to := mapped[0];
        exceptions := exceptions - {c};
        if to == c {
          single := single - {c};
        } else {
          single := single[c := to];
        }
      } else {
        single := single - {c};
        exceptions := exceptions[c := mapped];
      }
    }
  }

  // ---- the sentinel ----

  /** The exclusive or of an ordinary BMP mapping. */
  ghost predicate OrdinaryXor(m: Model, x: nat) {
    exists c :: c in m.single && c <= 0xFFFF && Xor16(c, m.single[c]) == x
  }

  /** Marks every value an ordinary mapping of the listed code points uses. */
  method MarkUsed(used: array<bool>, m: Model, keys: seq<nat>)
    requires used.Length == 0x1_0000 && ModelOk(m) && forall i :: 0 <= i < |keys| ==> keys[i] in m.single
    requires forall c :: c in m.single ==> c in keys
    modifies used
    ensures forall x :: 0 <= x < 0x1_0000 ==> (used[x] <==> old(used[x]) || OrdinaryXor(m, x))
  {
    for i := 0 to |keys|
      invariant forall x :: 0 <= x < 0x1_0000 ==>
                  (used[x] <==> old(used[x]) || exists j :: 0 <= j < i && keys[j] <= 0xFFFF && Xor16(keys[j], m.single[keys[j]]) == x)
    {
      var c := keys[i];
      if c <= 0xFFFF {
        used[Xor16(c, m.single[c])] := true;
      }
    }
    forall x | 0 <= x < 0x1_0000 && OrdinaryXor(m, x)
      ensures used[x]
    {
      var c :| c in m.single && c <= 0xFFFF && Xor16(c, m.single[c]) == x;
      var j :| 0 <= j < |keys| && keys[j] == c;
      assert keys[j] <= 0xFFFF;
    }
  }

  /** The least value that is not zero and that no ordinary mapping of either
      direction uses, if there is one. */
  method ChooseSentinel(lower: Model, lowerKeys: seq<nat>, upper: Model, upperKeys: seq<nat>) returns (sentinel: Option<nat>)
    requires ModelOk(lower) && ModelOk(upper)
    requires forall c :: c in lower.single <==> c in lowerKeys
    requires forall c :: c in upper.single <==> c in upperKeys
    ensures match sentinel
            case Some(v) => 0 < v < 0x1_0000 && !OrdinaryXor(lower, v) && !OrdinaryXor(upper, v) &&
              forall x :: 0 < x < v ==> OrdinaryXor(lower, x) || OrdinaryXor(upper, x)
            case None => forall x :: 0 < x < 0x1_0000 ==> OrdinaryXor(lower, x) || OrdinaryXor(upper, x)
  {
    var used := new bool[0x1_0000](_ => false);
    used[0] := true;
    MarkUsed(used, lower, lowerKeys);
    MarkUsed(used, upper, upperKeys);
    for v := 0 to 0x1_0000
      invariant forall x :: 0 <= x < v ==> used[x]
    {
      if !used[v] {
        return Some(v);
      }
    }
    return None;
  }

  // ---- the two-level table ----

  /** A table value: nothing, the sentinel, or an exclusive or. */
  function Value(m: Model, sentinel: nat, c: nat): nat {
    if c in m.exceptions then sentinel else if c in m.single then Xor16(c, m.single[c]) else 0
  }

  ghost predicate SentinelOk(m: Model, sentinel: nat) {
    0 < sentinel < 0x1_0000 && !OrdinaryXor(m, sentinel)
  }

  /** What a table value says of a code point of the BMP. */
  function Decoded(m: Model, sentinel: nat, c: nat, x: nat): seq<nat>
    requires x == sentinel ==> c in m.exceptions
  {
    if x == 0 then [c] else if x == sentinel then m.exceptions[c] else [Xor16(c, x)]
  }

  /** A table value loses nothing of the mapping it stands for. */
  lemma ValueDecodes(m: Model, sentinel: nat, c: nat)
    requires ModelOk(m) && SentinelOk(m, sentinel) && c <= 0xFFFF
    ensures Value(m, sentinel, c) == sentinel <==> c in m.exceptions
    ensures Value(m, sentinel, c) == 0 <==> MapOf(m, c) == [c]
    ensures Decoded(m, sentinel, c, Value(m, sentinel, c)) == MapOf(m, c)
  {
    if c in m.exceptions {
      assert ExpansionOk(m, c);
    } else if c in m.single {
      assert SingleOk(m, c);
      Xor16Back(c, m.single[c]);
    }
  }

  function BlockOf(m: Model, sentinel: nat, page: nat): (block: seq<nat>)
    ensures |block| == 256
  {
    seq<nat>(256, low requires 0 <= low < 256 => Value(m, sentinel, 256 * page + low))
  }

  /** The position of a block among those there are, or their number. */
  method Position<T(==)>(blocks: seq<T>, block: T) returns (at: nat)
    ensures at <= |blocks| && (at < |blocks| ==> blocks[at] == block) && (at == |blocks| ==> block !in blocks)
  {
    at := 0;
    while at < |blocks|
      invariant at <= |blocks| && block !in blocks[..at]
    {
      if blocks[at] == block {
        return;
      }
      at := at + 1;
    }
    assert blocks[..at] == blocks;
  }

  /** The index and the blocks: equal blocks once, and every code point's value
      where the index says. */
  method ShapeBlocks(m: Model, sentinel: nat) returns (index: seq<nat>, blocks: seq<seq<nat>>)
    requires ModelOk(m) && SentinelOk(m, sentinel)
    ensures |index| == 256 && |blocks| <= 256
    ensures forall i, j :: 0 <= i < j < |blocks| ==> blocks[i] != blocks[j]
    ensures forall page :: 0 <= page < 256 ==> index[page] < |blocks| && blocks[index[page]] == BlockOf(m, sentinel, page)
  {
    index, blocks := [], [];
    for page := 0 to 256
      invariant |index| == page && |blocks| <= page
      invariant forall i, j :: 0 <= i < j < |blocks| ==> blocks[i] != blocks[j]
      invariant forall p :: 0 <= p < page ==> index[p] < |blocks| && blocks[index[p]] == BlockOf(m, sentinel, p)
    {
      var block := [];
      for low := 0 to 256
        invariant |block| == low && forall k :: 0 <= k < low ==> block[k] == Value(m, sentinel, 256 * page + k)
      {
        block := block + [Value(m, sentinel, 256 * page + low)];
      }
      assert block == BlockOf(m, sentinel, page);
      var id := Position(blocks, block);
      if id == |blocks| {
        blocks := blocks + [block];
      }
      index := index + [id];
    }
  }

  lemma BlockAt(m: Model, sentinel: nat, c: nat)
    requires c <= 0xFFFF
    ensures c / 256 < 256 && BlockOf(m, sentinel, c / 256)[c % 256] == Value(m, sentinel, c)
  {
  }

  // ---- above the BMP ----

  ghost predicate Ascending(keys: seq<nat>) {
    forall i, j :: 0 <= i < j < |keys| ==> keys[i] < keys[j]
  }

  function Delta(m: Model, c: nat): int
    requires c in m.single
  {
    m.single[c] as int - c as int
  }

  ghost predicate SpanOk(span: Span, m: Model) {
    && 0xFFFF < span.lo <= span.hi
    && forall c :: span.lo <= c <= span.hi ==> c in m.single && m.single[c] == c + span.delta
  }

  ghost predicate Covers(spans: seq<Span>, c: nat) {
    exists k :: 0 <= k < |spans| && spans[k].lo <= c <= spans[k].hi
  }

  /** The spans of the first i keys. */
  ghost predicate SpansTo(spans: seq<Span>, m: Model, keys: seq<nat>, i: nat) {
    && i <= |keys|
    && (forall k :: 0 <= k < |spans| ==> SpanOk(spans[k], m))
    && (forall k, l :: 0 <= k < l < |spans| ==> spans[k].hi < spans[l].lo)
    && (spans != [] ==> i > 0 && spans[|spans| - 1].hi == keys[i - 1])
    && (forall j :: 0 <= j < i ==> Covers(spans, keys[j]))
  }

  /** A key that goes on where the last span ended, by the same difference. */
  lemma SpanGrows(spans: seq<Span>, m: Model, keys: seq<nat>, i: nat)
    requires ModelOk(m) && SpansTo(spans, m, keys, i) && i < |keys| && keys[i] in m.single && keys[i] > 0xFFFF && spans != []
    requires keys[i] == spans[|spans| - 1].hi + 1 && Delta(m, keys[i]) == spans[|spans| - 1].delta
    ensures SpansTo(spans[..|spans| - 1] + [spans[|spans| - 1].(hi := keys[i])], m, keys, i + 1)
  {
    hide ModelOk;
    var last := spans[|spans| - 1];
    var next := spans[..|spans| - 1] + [last.(hi := keys[i])];
    assert SpanOk(last, m);
    assert SpanOk(last.(hi := keys[i]), m);
    forall j | 0 <= j < i + 1
      ensures Covers(next, keys[j])
    {
      if j < i {
        assert Covers(spans, keys[j]);
        var k :| 0 <= k < |spans| && spans[k].lo <= keys[j] <= spans[k].hi;
        assert next[k].lo <= keys[j] <= next[k].hi;
      } else {
        assert next[|next| - 1].lo <= keys[j] <= next[|next| - 1].hi;
      }
    }
  }

  lemma SpanStarts(spans: seq<Span>, m: Model, keys: seq<nat>, i: nat)
    requires ModelOk(m) && SpansTo(spans, m, keys, i) && i < |keys| && keys[i] in m.single && keys[i] > 0xFFFF && Ascending(keys)
    ensures SpansTo(spans + [Span(keys[i], keys[i], Delta(m, keys[i]))], m, keys, i + 1)
  {
    var next := spans + [Span(keys[i], keys[i], Delta(m, keys[i]))];
    assert SpanOk(next[|spans|], m);
    forall k | 0 <= k < |spans|
      ensures spans[k].hi < keys[i]
    {
      assert spans[k].hi <= spans[|spans| - 1].hi;
    }
    forall j | 0 <= j < i + 1
      ensures Covers(next, keys[j])
    {
      if j < i {
        assert Covers(spans, keys[j]);
        var k :| 0 <= k < |spans| && spans[k].lo <= keys[j] <= spans[k].hi;
        assert next[k].lo <= keys[j] <= next[k].hi;
      } else {
        assert next[|spans|].lo <= keys[j] <= next[|spans|].hi;
      }
    }
  }

  lemma SpansDone(spans: seq<Span>, m: Model, keys: seq<nat>)
    requires ModelOk(m) && SpansTo(spans, m, keys, |keys|)
    requires forall c :: c in m.single && c > 0xFFFF ==> c in keys
    ensures SpansOk(spans, m)
  {
    forall i, c | 0 <= i < |spans| && spans[i].lo <= c <= spans[i].hi
      ensures c in m.single && m.single[c] == c + spans[i].delta
    {
      assert SpanOk(spans[i], m);
    }
    forall c | c in m.single && c > 0xFFFF
      ensures exists k :: 0 <= k < |spans| && spans[k].lo <= c <= spans[k].hi
    {
      var j :| 0 <= j < |keys| && keys[j] == c;
      assert Covers(spans, keys[j]);
    }
    assert forall i :: 0 <= i < |spans| ==> SpanOk(spans[i], m);
  }

  /** The code points above the BMP, in runs of one difference each. */
  method ShapeSpans(m: Model, keys: seq<nat>) returns (spans: seq<Span>)
    requires ModelOk(m) && Ascending(keys)
    requires forall c :: c in keys <==> c in m.single && c > 0xFFFF
    ensures SpansOk(spans, m)
  {
    hide SpansTo, SpansOk, SpanOk, ModelOk, Ascending;
    spans := [];
    assert SpansTo(spans, m, keys, 0) by { NoSpans(m, keys); }
    for i := 0 to |keys|
      invariant SpansTo(spans, m, keys, i)
    {
      var c := keys[i];
      assert c in keys;
      var delta := Delta(m, c);
      if spans != [] && c == spans[|spans| - 1].hi + 1 && delta == spans[|spans| - 1].delta {
        SpanGrows(spans, m, keys, i);
        spans := spans[..|spans| - 1] + [spans[|spans| - 1].(hi := c)];
      } else {
        SpanStarts(spans, m, keys, i);
        spans := spans + [Span(c, c, delta)];
      }
    }
    SpansDone(spans, m, keys);
  }

  lemma NoSpans(m: Model, keys: seq<nat>)
    ensures SpansTo([], m, keys, 0)
  {
  }

  // ---- merged property ranges ----

  /** Spans in ascending order of their lower ends, merged where they touch or
      overlap: the same members, and sorted for the binary search. */
  method MergeRanges(spans: seq<(nat, nat)>) returns (ranges: seq<(nat, nat)>)
    requires forall i :: 0 <= i < |spans| ==> spans[i].0 <= spans[i].1
    requires forall i, j :: 0 <= i < j < |spans| ==> spans[i].0 <= spans[j].0
    ensures RangesSorted(ranges)
    ensures forall i, j :: 0 <= i < j < |ranges| ==> ranges[i].1 + 1 < ranges[j].0
    ensures forall c :: InRanges(ranges, c) <==> InRanges(spans, c)
  {
    ranges := [];
    for n := 0 to |spans|
      invariant forall i :: 0 <= i < |ranges| ==> ranges[i].0 <= ranges[i].1
      invariant forall i, j :: 0 <= i < j < |ranges| ==> ranges[i].1 + 1 < ranges[j].0
      invariant ranges != [] ==> n > 0 && ranges[|ranges| - 1].0 <= spans[n - 1].0
      invariant forall c :: InRanges(ranges, c) <==> InRanges(spans[..n], c)
    {
      var (lo, hi) := spans[n];
      ghost var was := ranges;
      if ranges != [] && lo <= ranges[|ranges| - 1].1 + 1 {
        var last := ranges[|ranges| - 1];
        ranges := ranges[..|ranges| - 1] + [(last.0, if last.1 > hi then last.1 else hi)];
      } else {
        ranges := ranges + [(lo, hi)];
      }
      forall c: nat
        ensures InRanges(ranges, c) <==> InRanges(spans[..n + 1], c)
      {
        MergedAt(was, ranges, lo, hi, c);
        SpansNext(spans, n, c);
      }
    }
    assert spans[..|spans|] == spans;
  }

  lemma MergedAt(was: seq<(nat, nat)>, now: seq<(nat, nat)>, lo: nat, hi: nat, c: nat)
    requires lo <= hi
    requires if was != [] && lo <= was[|was| - 1].1 + 1
             then was[|was| - 1].0 <= lo && was[|was| - 1].0 <= was[|was| - 1].1 &&
                  now == was[..|was| - 1] + [(was[|was| - 1].0, if was[|was| - 1].1 > hi then was[|was| - 1].1 else hi)]
             else now == was + [(lo, hi)]
    ensures InRanges(now, c) <==> InRanges(was, c) || lo <= c <= hi
  {
    if i :| 0 <= i < |was| && was[i].0 <= c <= was[i].1 {
      assert now[i].0 <= c <= now[i].1;
    }
    if lo <= c <= hi {
      assert now[|now| - 1].0 <= c <= now[|now| - 1].1;
    }
    if i :| 0 <= i < |now| && now[i].0 <= c <= now[i].1 {
      if i < |now| - 1 {
        assert was[i] == now[i];
      } else if |now| == |was| {
        assert was[i].0 <= c <= was[i].1 || lo <= c <= hi;
      }
    }
  }

  lemma SpansNext(spans: seq<(nat, nat)>, n: nat, c: nat)
    requires n < |spans|
    ensures InRanges(spans[..n + 1], c) <==> InRanges(spans[..n], c) || spans[n].0 <= c <= spans[n].1
  {
    if i :| 0 <= i < n && spans[..n][i].0 <= c <= spans[..n][i].1 {
      assert spans[..n + 1][i].0 <= c <= spans[..n + 1][i].1;
    }
    if spans[n].0 <= c <= spans[n].1 {
      assert spans[..n + 1][n].0 <= c <= spans[..n + 1][n].1;
    }
    var next := spans[..n + 1];
    if i :| 0 <= i < |next| && next[i].0 <= c <= next[i].1 {
      assert i < n ==> spans[..n][i] == spans[i];
    }
  }

  // ---- the packed entries ----

  /** What the data has to say for the converter's fast paths: ASCII flips a bit,
      only three characters of Latin-1 leave one byte, sigma lowers to U+03C3. */
  ghost predicate Fits(m: Model, lower: bool) {
    && ModelOk(m)
    && (forall c :: 0 <= c < 128 ==> MapOf(m, c) == [Flip(c, lower)])
    && (forall c :: 0 <= c < 256 && !Escapes(c, lower) ==> |MapOf(m, c)| == 1 && MapOf(m, c)[0] <= 255)
    && (lower ==> MapOf(m, SIGMA) == [0x3C3])
  }

  /** The exception records, in the listed order, over one pool. */
  method PackExceptions(m: Model, keys: seq<nat>) returns (records: seq<Record>, pool: seq<nat>)
    requires forall i :: 0 <= i < |keys| ==> keys[i] in m.exceptions
    ensures |records| == |keys|
    ensures forall i :: 0 <= i < |keys| ==>
              && records[i].length == |m.exceptions[keys[i]]| && records[i].offset + records[i].length <= |pool|
              && pool[records[i].offset..records[i].offset + records[i].length] == m.exceptions[keys[i]]
  {
    records, pool := [], [];
    for n := 0 to |keys|
      invariant |records| == n
      invariant forall i :: 0 <= i < n ==>
                  && records[i].length == |m.exceptions[keys[i]]| && records[i].offset + records[i].length <= |pool|
                  && pool[records[i].offset..records[i].offset + records[i].length] == m.exceptions[keys[i]]
    {
      ghost var was := pool;
      records := records + [Record(|pool|, |m.exceptions[keys[n]]|)];
      pool := pool + m.exceptions[keys[n]];
      forall i | 0 <= i < n + 1
        ensures pool[records[i].offset..records[i].offset + records[i].length] == m.exceptions[keys[i]]
      {
        if i < n {
          assert pool[records[i].offset..records[i].offset + records[i].length] == was[records[i].offset..records[i].offset + records[i].length];
        }
      }
    }
  }

  predicate SurrogatePage(page: nat) { 0xD8 <= page <= 0xDF }

  /** Where a key is in a list that has it. */
  function IndexIn(keys: seq<nat>, c: nat): (i: nat)
    requires c in keys
    ensures i < |keys| && keys[i] == c
  {
    if keys[0] == c then 0 else IndexIn(keys[1..], c) + 1
  }

  function Packed(m: Model, keys: seq<nat>, sentinel: nat, lower: bool, c: nat, value: nat, identity: bool): Entry
    requires value == sentinel && !Surrogate(c) ==> c in m.exceptions && c in keys
  {
    if Surrogate(c) then Entry(true, true, true, false, false, 0)
    else if value == sentinel then Entry(true, true, Widens(m.exceptions[c]), false, true, IndexIn(keys, c))
    else Entry(identity || (lower && c == SIGMA), identity, Xor16(c, value) > 255, identity, false, value)
  }

  /** A page nothing of which changes, and which has no surrogates. */
  predicate IdentityPage(block: seq<nat>, page: nat) {
    !SurrogatePage(page) && forall k :: 0 <= k < |block| ==> block[k] == 0
  }

  /** For each page the run of identity pages it is in: never across the edge of
      one byte, never with surrogates. */
  method IdentityRanges(index: seq<nat>, blocks: seq<seq<nat>>) returns (ranges: seq<(nat, nat)>)
    requires |index| == 256 && forall p :: 0 <= p < 256 ==> index[p] < |blocks|
    ensures |ranges| == 256
    ensures forall p :: 1 <= p < 256 && IdentityPage(blocks[index[p]], p) ==> RunOfPages(index, blocks, ranges[p], p)
  {
    var found := new (nat, nat)[256](_ => (1, 0));
    var page := 0;
    while page < 256
      invariant 0 <= page <= 256
      invariant forall p :: 1 <= p < page && IdentityPage(blocks[index[p]], p) ==> RunOfPages(index, blocks, found[p], p)
    {
      if !IdentityPage(blocks[index[page]], page) {
        page := page + 1;
        continue;
      }
      var first := page;
      page := page + 1;
      while page < 256 && page != 1 && IdentityPage(blocks[index[page]], page)
        invariant first < page <= 256 && (first == 0 ==> page == 1)
        invariant forall p :: first <= p < page ==> IdentityPage(blocks[index[p]], p)
      {
        page := page + 1;
      }
      var run := (first * 256, page * 256 - 1);
      forall p | first <= p < page {
        found[p] := run;
      }
      assert forall p :: first <= p < page && 1 <= p ==> RunOfPages(index, blocks, run, p);
    }
    return found[..];
  }

  ghost predicate RunOfPages(index: seq<nat>, blocks: seq<seq<nat>>, run: (nat, nat), page: nat)
    requires |index| == 256 && forall p :: 0 <= p < 256 ==> index[p] < |blocks|
  {
    && 256 <= run.0 <= 256 * page && 256 * page + 255 <= run.1 <= 0xFFFF
    && forall p :: run.0 / 256 <= p <= run.1 / 256 && p < 256 ==> IdentityPage(blocks[index[p]], p)
  }

  /** The run of a page is a run of code points that map to themselves. */
  lemma RunIsIdentity(m: Model, sentinel: nat, index: seq<nat>, blocks: seq<seq<nat>>, run: (nat, nat), c: nat)
    requires ModelOk(m) && SentinelOk(m, sentinel) && c <= 0xFFFF
    requires |index| == 256 && forall p :: 0 <= p < 256 ==> index[p] < |blocks| && blocks[index[p]] == BlockOf(m, sentinel, p)
    requires RunOfPages(index, blocks, run, c / 256)
    ensures IdentityRun(m, run, c)
  {
    forall x | run.0 <= x <= run.1
      ensures !Surrogate(x) && MapOf(m, x) == [x]
    {
      var p := x / 256;
      assert IdentityPage(blocks[index[p]], p);
      BlockAt(m, sentinel, x);
      assert blocks[index[p]][x % 256] == 0;
      ValueDecodes(m, sentinel, x);
    }
  }

  /** Every exception is among the listed ones. */
  ghost predicate Listed(m: Model, keys: seq<nat>, sentinel: nat) {
    && ModelOk(m) && SentinelOk(m, sentinel)
    && (forall c :: c in m.exceptions ==> c in keys)
    && (forall i :: 0 <= i < |keys| ==> keys[i] in m.exceptions)
  }

  /** The packed entry of a code point, from its shaped value and page. */
  function PackedAt(m: Model, keys: seq<nat>, sentinel: nat, lower: bool, block: seq<nat>, page: nat, low: nat): Entry
    requires Listed(m, keys, sentinel) && page < 256 && low < 256 && block == BlockOf(m, sentinel, page)
  {
    ValueDecodes(m, sentinel, 256 * page + low);
    Packed(m, keys, sentinel, lower, 256 * page + low, block[low], IdentityPage(block, page))
  }

  /** The entries of one page. */
  ghost predicate PageIs(m: Model, keys: seq<nat>, sentinel: nat, lower: bool, entries: seq<Entry>, block: seq<nat>, page: nat)
    requires Listed(m, keys, sentinel) && page < 256 && block == BlockOf(m, sentinel, page)
  {
    && |entries| == 256
    && forall low :: 0 <= low < 256 ==> entries[low] == PackedAt(m, keys, sentinel, lower, block, page, low)
  }

  method PackPage(m: Model, keys: seq<nat>, sentinel: nat, lower: bool, block: seq<nat>, page: nat) returns (entries: seq<Entry>)
    requires Listed(m, keys, sentinel) && page < 256 && block == BlockOf(m, sentinel, page)
    ensures PageIs(m, keys, sentinel, lower, entries, block, page)
  {
    entries := [];
    for low := 0 to 256
      invariant |entries| == low
      invariant forall k :: 0 <= k < low ==> entries[k] == PackedAt(m, keys, sentinel, lower, block, page, k)
    {
      entries := entries + [PackedAt(m, keys, sentinel, lower, block, page, low)];
    }
  }

  /** The index and the blocks of entries: equal blocks once. */
  method PackBlocks(m: Model, keys: seq<nat>, sentinel: nat, lower: bool, index: seq<nat>, blocks: seq<seq<nat>>)
      returns (packed: seq<nat>, entries: seq<seq<Entry>>)
    requires Listed(m, keys, sentinel) && |index| == 256
    requires forall p :: 0 <= p < 256 ==> index[p] < |blocks| && blocks[index[p]] == BlockOf(m, sentinel, p)
    ensures |packed| == 256 && |entries| <= 256
    ensures forall i :: 0 <= i < |entries| ==> |entries[i]| == 256
    ensures forall p :: 0 <= p < 256 ==>
              packed[p] < |entries| && PageIs(m, keys, sentinel, lower, entries[packed[p]], blocks[index[p]], p)
  {
    hide Listed, PageIs, BlockOf;
    packed, entries := [], [];
    for page := 0 to 256
      invariant |packed| == page && |entries| <= page
      invariant forall i :: 0 <= i < |entries| ==> |entries[i]| == 256
      invariant forall p :: 0 <= p < page ==>
                  packed[p] < |entries| && PageIs(m, keys, sentinel, lower, entries[packed[p]], blocks[index[p]], p)
    {
      var block := PackPage(m, keys, sentinel, lower, blocks[index[page]], page);
      PageSize(m, keys, sentinel, lower, block, blocks[index[page]], page);
      var id := Position(entries, block);
      if id == |entries| {
        entries := entries + [block];
      }
      packed := packed + [id];
    }
  }

  lemma PageSize(m: Model, keys: seq<nat>, sentinel: nat, lower: bool, entries: seq<Entry>, block: seq<nat>, page: nat)
    requires Listed(m, keys, sentinel) && page < 256 && block == BlockOf(m, sentinel, page)
    requires PageIs(m, keys, sentinel, lower, entries, block, page)
    ensures |entries| == 256
  {
  }

  /** The blocks one after another, as they are printed. */
  function Flat(blocks: seq<seq<Entry>>): (flat: seq<Entry>)
    requires forall i :: 0 <= i < |blocks| ==> |blocks[i]| == 256
    ensures |flat| == 256 * |blocks|
  {
    if blocks == [] then [] else Flat(blocks[..|blocks| - 1]) + blocks[|blocks| - 1]
  }

  lemma {:induction false} FlatAt(blocks: seq<seq<Entry>>, id: nat, low: nat)
    requires (forall i :: 0 <= i < |blocks| ==> |blocks[i]| == 256) && id < |blocks| && low < 256
    ensures 256 * id + low < |Flat(blocks)| && Flat(blocks)[256 * id + low] == blocks[id][low]
    decreases |blocks|
  {
    if id < |blocks| - 1 {
      FlatAt(blocks[..|blocks| - 1], id, low);
    }
  }

  lemma PackedIsOk(t: Tables, m: Model, keys: seq<nat>, sentinel: nat, lower: bool, index: seq<nat>, blocks: seq<seq<nat>>, c: nat)
    requires Listed(m, keys, sentinel) && Sized(t) && c <= 0xFFFF && |index| == 256 && Fits(m, lower)
    requires forall p :: 0 <= p < 256 ==> index[p] < |blocks| && blocks[index[p]] == BlockOf(m, sentinel, p)
    requires EntryAt(t, c) == PackedAt(m, keys, sentinel, lower, blocks[index[c / 256]], c / 256, c % 256)
    requires forall p :: 1 <= p < 256 && IdentityPage(blocks[index[p]], p) ==> RunOfPages(index, blocks, t.identity[p], p)
    requires |t.exceptions| == |keys|
    requires forall i :: 0 <= i < |keys| ==>
              && t.exceptions[i].length == |m.exceptions[keys[i]]| && t.exceptions[i].offset + t.exceptions[i].length <= |t.pool|
              && t.pool[t.exceptions[i].offset..t.exceptions[i].offset + t.exceptions[i].length] == m.exceptions[keys[i]]
    ensures EntryOk(t, m, lower, c)
  {
    hide BlockOf, IdentityRun, RunOfPages, XorBits, IndexIn, OrdinaryXor, SpansOk;
    var page, low := c / 256, c % 256;
    var block := blocks[index[page]];
    BlockAt(m, sentinel, c);
    ValueDecodes(m, sentinel, c);
    assert block[low] == Value(m, sentinel, c);
    if c in m.exceptions {
      assert ExpansionOk(m, c);
    } else if !Surrogate(c) {
      if IdentityPage(block, page) {
        PageZero(m, sentinel, lower, block);
        RunIsIdentity(m, sentinel, index, blocks, t.identity[page], c);
      }
      Xor16Back(c, MapOf(m, c)[0]);
      if lower && c == SIGMA {
        assert !IdentityPage(block, page);
      }
    }
  }

  /** Page zero has letters, so it is no identity page. */
  lemma PageZero(m: Model, sentinel: nat, lower: bool, block: seq<nat>)
    requires Fits(m, lower) && SentinelOk(m, sentinel)
    ensures block == BlockOf(m, sentinel, 0) ==> !IdentityPage(block, 0)
  {
    var c := if lower then 65 else 97;
    ValueDecodes(m, sentinel, c);
    Xor16Back(c, 32);
    Xor16Back(c, c);
    assert MapOf(m, c) == [Flip(c, lower)];
    assert BlockOf(m, sentinel, 0)[c] == Value(m, sentinel, c);
  }

  /** One byte's table: a mapping that leaves one byte is not read from it. */
  method PackLatin1(m: Model, lower: bool) returns (table: seq<nat>)
    requires Fits(m, lower)
    ensures |table| == 256
    ensures forall c :: 0 <= c < 256 && !Escapes(c, lower) ==> MapOf(m, c) == [table[c]] && table[c] <= 255
  {
    table := [];
    for c := 0 to 256
      invariant |table| == c
      invariant forall d :: 0 <= d < c && !Escapes(d, lower) ==> MapOf(m, d) == [table[d]] && table[d] <= 255
    {
      var to := MapOf(m, c);
      table := table + [if |to| == 1 && to[0] <= 255 then to[0] else c];
    }
  }

  /** The tables of a direction carry its model: nothing is lost between the
      data and what the converter reads. */
  method Generate(m: Model, keys: seq<nat>, above: seq<nat>, sentinel: nat, lower: bool) returns (t: Tables)
    requires Fits(m, lower) && Listed(m, keys, sentinel)
    requires Ascending(above) && forall c :: c in above <==> c in m.single && c > 0xFFFF
    ensures Tabled(t, m, lower)
  {
    hide Listed, Fits, PageIs, BlockOf, IdentityPage, RunOfPages, EntryOk, SpansOk, ModelOk, SentinelOk, Ascending, MapOf, Flat;
    FitsIs(m, keys, sentinel, lower);
    var index, blocks := ShapeBlocks(m, sentinel);
    var spans := ShapeSpans(m, above);
    var packed, entries := PackBlocks(m, keys, sentinel, lower, index, blocks);
    var identity := IdentityRanges(index, blocks);
    var records, pool := PackExceptions(m, keys);
    var latin1 := PackLatin1(m, lower);
    t := Tables(latin1, packed, Flat(entries), identity, spans, records, pool);
    assert Sized(t);
    forall c | 0 <= c <= 0xFFFF
      ensures EntryOk(t, m, lower, c)
    {
      FlatAt(entries, packed[c / 256], c % 256);
      PageEntry(m, keys, sentinel, lower, entries[packed[c / 256]], blocks[index[c / 256]], c / 256, c % 256);
      PackedIsOk(t, m, keys, sentinel, lower, index, blocks, c);
    }
    TabledIs(t, m, lower);
  }

  lemma FitsIs(m: Model, keys: seq<nat>, sentinel: nat, lower: bool)
    requires Fits(m, lower) && Listed(m, keys, sentinel)
    ensures ModelOk(m) && SentinelOk(m, sentinel) && forall i :: 0 <= i < |keys| ==> keys[i] in m.exceptions
  {
  }

  lemma PageEntry(m: Model, keys: seq<nat>, sentinel: nat, lower: bool, entries: seq<Entry>, block: seq<nat>, page: nat, low: nat)
    requires Listed(m, keys, sentinel) && page < 256 && low < 256 && block == BlockOf(m, sentinel, page)
    requires PageIs(m, keys, sentinel, lower, entries, block, page)
    ensures |entries| == 256 && entries[low] == PackedAt(m, keys, sentinel, lower, block, page, low)
  {
  }

  lemma TabledIs(t: Tables, m: Model, lower: bool)
    requires Sized(t) && Fits(m, lower) && SpansOk(t.spans, m) && forall c :: 0 <= c <= 0xFFFF ==> EntryOk(t, m, lower, c)
    requires forall c :: 0 <= c < 256 && !Escapes(c, lower) ==> MapOf(m, c) == [t.latin1[c]] && t.latin1[c] <= 255
    ensures Tabled(t, m, lower)
  {
  }
}
