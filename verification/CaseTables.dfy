/** Case mappings: the model, the packed tables that carry it, and what a string
    converts to. */
module CaseTables {
  import opened Bits
  import opened Utf16

  const SIGMA: nat := 0x3A3
  const FINAL_SIGMA: nat := 0x3C2

  // ---- the model ----

  /** One direction: one-to-one mappings that change their code point, and full
      mappings that are not one-to-one. */
  datatype Model = Model(single: map<nat, nat>, exceptions: map<nat, seq<nat>>)

  function MapOf(m: Model, c: nat): seq<nat> {
    if c in m.exceptions then m.exceptions[c] else if c in m.single then [m.single[c]] else [c]
  }

  /** What the generator asserts of a model: surrogates map to themselves, a
      mapping stays on its side of U+FFFF, an expansion is of two or three code
      points of the BMP from one of the BMP. */
  ghost predicate ModelOk(m: Model) {
    && (forall c :: c in m.single ==> SingleOk(m, c))
    && (forall c :: c in m.exceptions ==> ExpansionOk(m, c))
  }

  predicate SingleOk(m: Model, c: nat)
    requires c in m.single
  {
    var to := m.single[c];
    Point(c) && Point(to) && to != c && !Surrogate(c) && c !in m.exceptions && (c > 0xFFFF <==> to > 0xFFFF)
  }

  predicate ExpansionOk(m: Model, c: nat)
    requires c in m.exceptions
  {
    var to := m.exceptions[c];
    c <= 0xFFFF && !Surrogate(c) && 2 <= |to| <= 3 && forall i :: 0 <= i < |to| ==> to[i] <= 0xFFFF
  }

  lemma MapOfOk(m: Model, c: nat)
    requires ModelOk(m) && Point(c)
    ensures Points(MapOf(m, c)) && 1 <= |MapOf(m, c)| <= 3
    ensures |MapOf(m, c)| == 1 ==> (MapOf(m, c)[0] > 0xFFFF <==> c > 0xFFFF)
    ensures |MapOf(m, c)| > 1 ==> c <= 0xFFFF
    ensures Surrogate(c) ==> MapOf(m, c) == [c]
  {
    if c in m.exceptions {
      assert ExpansionOk(m, c);
    } else if c in m.single {
      assert SingleOk(m, c);
    }
  }

  // ---- the context of a capital sigma ----

  /** Sorted inclusive ranges of the two properties. */
  datatype Properties = Properties(cased: seq<(nat, nat)>, ignorable: seq<(nat, nat)>)

  ghost predicate InRanges(rs: seq<(nat, nat)>, c: nat) {
    exists i :: 0 <= i < |rs| && rs[i].0 <= c <= rs[i].1
  }

  ghost predicate RangesSorted(rs: seq<(nat, nat)>) {
    && (forall i :: 0 <= i < |rs| ==> rs[i].0 <= rs[i].1)
    && (forall i, j :: 0 <= i < j < |rs| ==> rs[i].1 < rs[j].0)
  }

  ghost predicate Cased(p: Properties, c: nat) { InRanges(p.cased, c) }

  ghost predicate Ignorable(p: Properties, c: nat) { InRanges(p.ignorable, c) }

  /** The last code point before k that is not case-ignorable, or -1. */
  ghost function SkipBack(p: Properties, cs: seq<nat>, k: nat): (j: int)
    requires k <= |cs|
    ensures -1 <= j < k && (j >= 0 ==> !Ignorable(p, cs[j]))
    ensures forall i :: j < i < k ==> Ignorable(p, cs[i])
  {
    if k == 0 then -1 else if Ignorable(p, cs[k - 1]) then SkipBack(p, cs, k - 1) else k - 1
  }

  /** The first one from k on, or the end. */
  ghost function SkipAhead(p: Properties, cs: seq<nat>, k: nat): (j: nat)
    requires k <= |cs|
    ensures k <= j <= |cs| && (j < |cs| ==> !Ignorable(p, cs[j]))
    ensures forall i :: k <= i < j ==> Ignorable(p, cs[i])
    decreases |cs| - k
  {
    if k == |cs| || !Ignorable(p, cs[k]) then k else SkipAhead(p, cs, k + 1)
  }

  ghost predicate CasedBefore(p: Properties, cs: seq<nat>, k: nat)
    requires k <= |cs|
  {
    var j := SkipBack(p, cs, k);
    j >= 0 && Cased(p, cs[j])
  }

  ghost predicate CasedAfter(p: Properties, cs: seq<nat>, k: nat)
    requires k < |cs|
  {
    var j := SkipAhead(p, cs, k + 1);
    j < |cs| && Cased(p, cs[j])
  }

  /** Code point k of the original takes the final form. */
  ghost predicate FinalSigma(p: Properties, cs: seq<nat>, k: nat)
    requires k < |cs|
  {
    CasedBefore(p, cs, k) && !CasedAfter(p, cs, k)
  }

  /** The condition as the Unicode Standard's table 3-17 words it: a cased one,
      then case-ignorables, before; and not the like after. */
  ghost predicate StandardBefore(p: Properties, cs: seq<nat>, k: nat)
    requires k <= |cs|
  {
    exists j :: 0 <= j < k && Cased(p, cs[j]) && forall i :: j < i < k ==> Ignorable(p, cs[i])
  }

  ghost predicate StandardAfter(p: Properties, cs: seq<nat>, k: nat)
    requires k < |cs|
  {
    exists j :: k < j < |cs| && Cased(p, cs[j]) && forall i :: k < i < j ==> Ignorable(p, cs[i])
  }

  /** A skipped code point that is itself cased: both case-ignorable and cased. */
  ghost predicate SkippedCasedBefore(p: Properties, cs: seq<nat>, k: nat)
    requires k <= |cs|
  {
    exists j :: SkipBack(p, cs, k) < j < k && Cased(p, cs[j])
  }

  ghost predicate SkippedCasedAfter(p: Properties, cs: seq<nat>, k: nat)
    requires k < |cs|
  {
    exists j :: k < j < SkipAhead(p, cs, k + 1) && Cased(p, cs[j])
  }

  /** Skipping case-ignorables first answers as the standard's wording does but
      for code points that are both: exactly then can the two differ. */
  lemma SigmaAgrees(p: Properties, cs: seq<nat>, k: nat)
    requires k < |cs|
    ensures (FinalSigma(p, cs, k) <==> StandardBefore(p, cs, k) && !StandardAfter(p, cs, k)) <==>
              (CasedAfter(p, cs, k) ||
               !(if CasedBefore(p, cs, k) then SkippedCasedAfter(p, cs, k)
                 else SkippedCasedBefore(p, cs, k) && !SkippedCasedAfter(p, cs, k)))
  {
    var b, a := SkipBack(p, cs, k), SkipAhead(p, cs, k + 1);
    assert StandardBefore(p, cs, k) <==> CasedBefore(p, cs, k) || SkippedCasedBefore(p, cs, k);
    assert StandardAfter(p, cs, k) <==> CasedAfter(p, cs, k) || SkippedCasedAfter(p, cs, k);
  }

  /** Such a code point: U+0345 is both, and a sigma behind one at the start of a
      string is final by the standard's wording and not by the code. */
  lemma SigmaDiffers(p: Properties)
    requires Cased(p, 0x345) && Ignorable(p, 0x345)
    ensures var cs := [0x345, SIGMA];
            !FinalSigma(p, cs, 1) && StandardBefore(p, cs, 1) && !StandardAfter(p, cs, 1)
  {
    var cs := [0x345, SIGMA];
    assert SkipBack(p, cs, 1) == SkipBack(p, cs, 0) == -1;
    assert Cased(p, cs[0]);
  }

  // ---- what a string converts to ----

  ghost function MapAt(m: Model, p: Properties, lower: bool, cs: seq<nat>, k: nat): seq<nat>
    requires k < |cs|
  {
    if lower && cs[k] == SIGMA && FinalSigma(p, cs, k) then [FINAL_SIGMA] else MapOf(m, cs[k])
  }

  lemma MapAtOk(m: Model, p: Properties, lower: bool, cs: seq<nat>, k: nat)
    requires ModelOk(m) && Points(cs) && k < |cs|
    ensures var to := MapAt(m, p, lower, cs, k);
            && Points(to) && 1 <= |to| <= 3 && (|to| == 1 ==> (to[0] > 0xFFFF <==> cs[k] > 0xFFFF)) && (|to| > 1 ==> cs[k] <= 0xFFFF)
            && (to == [cs[k]] || to[0] != cs[k] || |to| > 1)
  {
    MapOfOk(m, cs[k]);
  }

  /** The units of the code points from k on, each mapped by itself, with the
      whole original for context. */
  ghost function Converted(m: Model, p: Properties, lower: bool, cs: seq<nat>, k: nat): (units: seq<nat>)
    requires ModelOk(m) && Points(cs) && k <= |cs|
    decreases |cs| - k
  {
    if k == |cs| then []
    else
      MapAtOk(m, p, lower, cs, k);
      EncodeAll(MapAt(m, p, lower, cs, k)) + Converted(m, p, lower, cs, k + 1)
  }

  /** What each code point contributes, and so what the whole is: when lowering,
      U+03A3 gives U+03C2 exactly where a cased code point comes before it and
      none behind it, past case-ignorables, and U+03C3 everywhere else; any other
      code point gives its expansion, its one mapping, or itself. */
  lemma ConvertedAt(m: Model, p: Properties, lower: bool, cs: seq<nat>, k: nat)
    requires ModelOk(m) && Points(cs) && k <= |cs| && (lower ==> MapOf(m, 0x3A3) == [0x3C3])
    ensures k == |cs| ==> Converted(m, p, lower, cs, k) == []
    ensures k < |cs| && lower && cs[k] == 0x3A3 && CasedBefore(p, cs, k) && !CasedAfter(p, cs, k) ==>
              Converted(m, p, lower, cs, k) == [0x3C2] + Converted(m, p, lower, cs, k + 1)
    ensures k < |cs| && lower && cs[k] == 0x3A3 && !(CasedBefore(p, cs, k) && !CasedAfter(p, cs, k)) ==>
              Converted(m, p, lower, cs, k) == [0x3C3] + Converted(m, p, lower, cs, k + 1)
    ensures k < |cs| && !(lower && cs[k] == 0x3A3) ==>
              var c := cs[k];
              var to := if c in m.exceptions then m.exceptions[c] else if c in m.single then [m.single[c]] else [c];
              Points(to) && Converted(m, p, lower, cs, k) == EncodeAll(to) + Converted(m, p, lower, cs, k + 1)
  {
    if k < |cs| {
      MapOfOk(m, cs[k]);
      OneUnit(0x3C2);
      OneUnit(0x3C3);
    }
  }

  lemma OneUnit(c: nat)
    requires c <= 0xFFFF
    ensures EncodeAll([c]) == [c]
  {
    assert [c][1..] == [];
  }

  // ---- the packed tables ----

  /** A table entry: what stops a fast loop, whether the mapped code point leaves
      one byte, and sixteen bits of exclusive-or or exception index. */
  datatype Entry = Entry(writeStop: bool, countStop: bool, wide: bool, identity: bool, full: bool, payload: nat)

  datatype Span = Span(lo: nat, hi: nat, delta: int)

  datatype Record = Record(offset: nat, length: nat)

  datatype Tables = Tables(
    latin1: seq<nat>, index: seq<nat>, blocks: seq<Entry>, identity: seq<(nat, nat)>, spans: seq<Span>,
    exceptions: seq<Record>, pool: seq<nat>)

  ghost predicate Sized(t: Tables) {
    && |t.latin1| == 256 && |t.index| == 256 && |t.identity| == 256
    && forall i :: 0 <= i < 256 ==> 256 * t.index[i] + 256 <= |t.blocks|
  }

  function EntryAt(t: Tables, c: nat): Entry
    requires Sized(t) && c <= 0xFFFF
  {
    t.blocks[256 * t.index[c / 256] + c % 256]
  }

  /** Whether a mapping leaves one byte. */
  predicate Widens(to: seq<nat>) {
    exists i :: 0 <= i < |to| && to[i] > 255
  }

  /** A run of code points that map to themselves and take two bytes. */
  ghost predicate IdentityRun(m: Model, run: (nat, nat), c: nat) {
    && 256 <= run.0 <= c <= run.1 <= 0xFFFF
    && forall x :: run.0 <= x <= run.1 ==> !Surrogate(x) && MapOf(m, x) == [x]
  }

  ghost predicate EntryOk(t: Tables, m: Model, lower: bool, c: nat)
    requires Sized(t) && c <= 0xFFFF
  {
    var e := EntryAt(t, c);
    var to := MapOf(m, c);
    if Surrogate(c) then e == Entry(true, true, true, false, false, 0)
    else if |to| > 1 then
      && e.full && e.writeStop && e.countStop && !e.identity && (e.wide <==> Widens(to))
      && e.payload < |t.exceptions| && t.exceptions[e.payload].length == |to|
      && t.exceptions[e.payload].offset + |to| <= |t.pool|
      && t.pool[t.exceptions[e.payload].offset..t.exceptions[e.payload].offset + |to|] == to
    else
      && |to| == 1 && !e.full && Xor16(c, e.payload) == to[0] && (e.payload == 0 <==> to[0] == c)
      && (e.wide <==> to[0] > 255) && (e.countStop <==> e.identity)
      && (e.writeStop <==> e.identity || (lower && c == SIGMA))
      && (e.identity ==> IdentityRun(m, t.identity[c / 256], c))
  }

  ghost predicate SpansOk(spans: seq<Span>, m: Model) {
    && (forall i :: 0 <= i < |spans| ==> 0xFFFF < spans[i].lo <= spans[i].hi)
    && (forall i, j :: 0 <= i < j < |spans| ==> spans[i].hi < spans[j].lo)
    && (forall i, c :: 0 <= i < |spans| && spans[i].lo <= c <= spans[i].hi ==>
          c in m.single && m.single[c] == c + spans[i].delta)
    && (forall c :: c in m.single && c > 0xFFFF ==> exists i :: 0 <= i < |spans| && spans[i].lo <= c <= spans[i].hi)
  }

  predicate Letter(c: nat, lower: bool) {
    if lower then 65 <= c <= 90 else 97 <= c <= 122
  }

  /** A letter's two cases differ in one bit. */
  function Flip(c: nat, lower: bool): nat {
    if Letter(c, lower) then Xor16(c, 32) else c
  }

  /** The ASCII letters in figures: a capital's small letter is 32 further on. */
  lemma FlipIs(c: nat, lower: bool)
    requires c < 128
    ensures lower && 'A' as nat <= c <= 'Z' as nat ==> Flip(c, lower) == c + 32
    ensures !lower && 'a' as nat <= c <= 'z' as nat ==> Flip(c, lower) == c - 32
    ensures !(if lower then 'A' as nat <= c <= 'Z' as nat else 'a' as nat <= c <= 'z' as nat) ==> Flip(c, lower) == c
  {
    hide Xor16;
    if c >= 64 {
      Xor32(c);
    }
  }

  predicate Escapes(c: nat, lower: bool) {
    !lower && (c == 0xB5 || c == 0xDF || c == 0xFF)
  }

  /** The tables carry the model of one direction. */
  ghost predicate Tabled(t: Tables, m: Model, lower: bool) {
    && Sized(t) && ModelOk(m)
    && (forall c :: 0 <= c <= 0xFFFF ==> EntryOk(t, m, lower, c))
    && SpansOk(t.spans, m)
    && (forall c :: 0 <= c < 128 ==> MapOf(m, c) == [Flip(c, lower)])
    && (forall c :: 0 <= c < 256 && !Escapes(c, lower) ==> MapOf(m, c) == [t.latin1[c]] && t.latin1[c] <= 255)
    && (lower ==> MapOf(m, SIGMA) == [0x3C3])
  }

  /** The cold lookup: an exception by its index, an ordinary entry by its
      exclusive or, a code point above the BMP by a search of the spans. */
  method Lookup(t: Tables, ghost m: Model, ghost lower: bool, c: nat) returns (out: seq<nat>)
    requires Tabled(t, m, lower) && Point(c)
    ensures out == MapOf(m, c)
  {
    hide XorBits, Xor16;
    MapOfOk(m, c);
    if c <= 0xFFFF {
      assert EntryOk(t, m, lower, c);
      var x := EntryAt(t, c);
      if !x.full {
        if Surrogate(c) {
          Xor16Back(c, 0);
        }
        return [Xor16(c, x.payload)];
      }
      var record := t.exceptions[x.payload];
      out := [];
      for each := 0 to record.length
        invariant out == t.pool[record.offset..record.offset + each]
      {
        out := out + [t.pool[record.offset + each]];
      }
      return;
    }
    NoExceptionAbove(m, c);
    for each := 0 to |t.spans|
      invariant forall i :: 0 <= i < each ==> t.spans[i].hi < c
    {
      if c < t.spans[each].lo {
        break;
      }
      if c <= t.spans[each].hi {
        return [c + t.spans[each].delta];
      }
    }
    assert c !in m.single;
    return [c];
  }

  lemma NoExceptionAbove(m: Model, c: nat)
    requires ModelOk(m) && c > 0xFFFF
    ensures c !in m.exceptions
  {
    assert c in m.exceptions ==> ExpansionOk(m, c);
  }

  /** Binary search of a property's ranges. */
  method InProperty(rs: seq<(nat, nat)>, c: nat) returns (found: bool)
    requires RangesSorted(rs)
    ensures found <==> InRanges(rs, c)
    ensures found <==> exists i :: 0 <= i < |rs| && rs[i].0 <= c <= rs[i].1
  {
    var lo, hi := 0, |rs|;
    while lo < hi
      invariant 0 <= lo <= hi <= |rs|
      invariant forall i :: 0 <= i < |rs| && rs[i].0 <= c <= rs[i].1 ==> lo <= i < hi
    {
      var mid := lo + (hi - lo) / 2;
      if c < rs[mid].0 {
        hi := mid;
      } else if c > rs[mid].1 {
        lo := mid + 1;
      } else {
        return true;
      }
    }
    return false;
  }

  ghost predicate PropertiesOk(p: Properties) {
    RangesSorted(p.cased) && RangesSorted(p.ignorable)
  }

  /** Whether what precedes `at`, case-ignorables skipped, is cased. */
  method ScanBack(p: Properties, s: seq<nat>, at: nat) returns (cased: bool)
    requires PropertiesOk(p) && Boundary(s, at)
    ensures CountTo(s, at) <= |Decode(s)| && (cased <==> CasedBefore(p, Decode(s), CountTo(s, at)))
  {
    DecodeSplit(s, at);
    ghost var cs, k := Decode(s), CountTo(s, at);
    var scan := at;
    while scan > 0
      invariant 0 <= scan && Boundary(s, scan) && CountTo(s, scan) <= k
      invariant SkipBack(p, cs, k) == SkipBack(p, cs, CountTo(s, scan))
      decreases scan
    {
      var start := StartBefore(s, scan);
      var c := PointBefore(s, scan);
      PointBeforeIs(s, scan);
      BoundaryBefore(s, scan);
      var ignorable := InProperty(p.ignorable, c);
      if !ignorable {
        cased := InProperty(p.cased, c);
        return;
      }
      scan := start;
    }
    return false;
  }

  /** Whether what follows from the boundary `from` on, case-ignorables skipped,
      is cased. */
  method ScanAhead(p: Properties, s: seq<nat>, from: nat) returns (cased: bool)
    requires PropertiesOk(p) && Boundary(s, from)
    ensures CountTo(s, from) <= |Decode(s)|
    ensures var j := SkipAhead(p, Decode(s), CountTo(s, from)); cased <==> j < |Decode(s)| && Cased(p, Decode(s)[j])
  {
    hide CountTo, DecodeFrom, InRanges, PointAt, Paired;
    ghost var cs := Decode(s);
    var scan := from;
    DecodeSplit(s, scan);
    while scan < |s|
      invariant 0 <= scan <= |s| && Boundary(s, scan) && CountTo(s, scan) <= |cs|
      invariant SkipAhead(p, cs, CountTo(s, from)) == SkipAhead(p, cs, CountTo(s, scan))
      decreases |s| - scan
    {
      var c := PointAt(s, scan);
      PointIs(s, scan);
      BoundaryAfter(s, scan);
      var ignorable := InProperty(p.ignorable, c);
      if !ignorable {
        cased := InProperty(p.cased, c);
        return;
      }
      scan := scan + WidthAt(s, scan);
      DecodeSplit(s, scan);
    }
    AtEnd(s);
    return false;
  }

  /** Whether the sigma at `at` takes the final form: read from the original. */
  method IsFinalSigma(p: Properties, s: seq<nat>, at: nat, width: nat) returns (final: bool)
    requires PropertiesOk(p) && Boundary(s, at) && at < |s| && width == WidthAt(s, at)
    ensures CountTo(s, at) < |Decode(s)| && (final <==> FinalSigma(p, Decode(s), CountTo(s, at)))
  {
    PointIs(s, at);
    BoundaryAfter(s, at);
    var before := ScanBack(p, s, at);
    if !before {
      return false;
    }
    var after := ScanAhead(p, s, at + width);
    return !after;
  }
}
