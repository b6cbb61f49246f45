/** The converter: fast loops over the packed tables, one speculative write of
    the input's own size, and one resize when that does not fit. */
module CaseConvert {
  import opened Basics
  import opened Bits
  import opened Utf16
  import opened CaseTables

  /** One direction: its tables, the model they carry and the two properties. */
  datatype Setup = Setup(t: Tables, m: Model, p: Properties, lower: bool)

  ghost predicate Ready(x: Setup) {
    Tabled(x.t, x.m, x.lower) && PropertiesOk(x.p)
  }

  /** The very string that was asked, another one, or a refusal of its length. */
  datatype Answer = Same | Made(units: seq<nat>, twoByte: bool) | Refused

  /** What the code point at the boundary `at` becomes. */
  ghost function Maps(x: Setup, s: seq<nat>, at: nat): (to: seq<nat>)
    requires Ready(x) && Units(s) && Boundary(s, at) && at < |s|
    ensures Points(to) && 1 <= |to| <= 3
  {
    PointIs(s, at);
    EncodeDecodes(s, 0);
    MapAtOk(x.m, x.p, x.lower, Decode(s), CountTo(s, at));
    MapAt(x.m, x.p, x.lower, Decode(s), CountTo(s, at))
  }

  /** What the string from the boundary `at` on becomes: the reference, code
      point by code point. */
  ghost function Rest(x: Setup, s: seq<nat>, at: nat): seq<nat>
    requires Ready(x) && Units(s) && Boundary(s, at)
  {
    DecodeSplit(s, at);
    EncodeDecodes(s, 0);
    Converted(x.m, x.p, x.lower, Decode(s), CountTo(s, at))
  }

  lemma RestStep(x: Setup, s: seq<nat>, at: nat)
    requires Ready(x) && Units(s) && Boundary(s, at) && at < |s|
    ensures Boundary(s, at + WidthAt(s, at))
    ensures Rest(x, s, at) == EncodeAll(Maps(x, s, at)) + Rest(x, s, at + WidthAt(s, at))
  {
    PointIs(s, at);
    BoundaryAfter(s, at);
    EncodeDecodes(s, 0);
  }

  lemma RestEnd(x: Setup, s: seq<nat>)
    requires Ready(x) && Units(s)
    ensures Boundary(s, |s|) && Rest(x, s, |s|) == []
  {
    AtEnd(s);
  }

  /** Everything from `at` on is its own mapping. */
  ghost predicate Fixed(x: Setup, s: seq<nat>, at: nat)
    requires Ready(x) && Units(s) && Boundary(s, at)
  {
    Rest(x, s, at) == s[at..]
  }

  /** A mapping takes no fewer units than its code point did. */
  lemma MapsWidth(x: Setup, s: seq<nat>, at: nat)
    requires Ready(x) && Units(s) && Boundary(s, at) && at < |s|
    ensures |EncodeAll(Maps(x, s, at))| >= WidthAt(s, at)
    ensures |Maps(x, s, at)| > 1 ==> WidthAt(s, at) == 1 && |EncodeAll(Maps(x, s, at))| > 1
    ensures |Maps(x, s, at)| == 1 ==>
              EncodeAll(Maps(x, s, at)) == Encode(Maps(x, s, at)[0]) && |Encode(Maps(x, s, at)[0])| == WidthAt(s, at)
  {
    PointIs(s, at);
    EncodeDecodes(s, 0);
    MapAtOk(x.m, x.p, x.lower, Decode(s), CountTo(s, at));
    var to := Maps(x, s, at);
    if |to| == 1 {
      assert EncodeAll(to[1..]) == [];
    }
  }

  lemma {:induction false} RestLength(x: Setup, s: seq<nat>, at: nat)
    requires Ready(x) && Units(s) && Boundary(s, at)
    ensures |Rest(x, s, at)| >= |s| - at
    decreases |s| - at
  {
    hide Ready, Rest, Maps, EncodeAll;
    if at == |s| {
      RestEnd(x, s);
    } else {
      RestStep(x, s, at);
      MapsWidth(x, s, at);
      RestLength(x, s, at + WidthAt(s, at));
    }
  }

  lemma EncodeInjective(a: nat, b: nat)
    requires Point(a) && Point(b) && Encode(a) == Encode(b)
    ensures a == b
  {
    if a > 0xFFFF {
      assert Encode(a)[0] == Encode(b)[0] && Encode(a)[1] == Encode(b)[1];
    } else {
      assert Encode(a)[0] == Encode(b)[0];
    }
  }

  /** Text is unchanged exactly when each of its code points is: nothing that one
      of them gains can be lost by another. */
  lemma FixedStep(x: Setup, s: seq<nat>, at: nat)
    requires Ready(x) && Units(s) && Boundary(s, at) && at < |s|
    ensures Boundary(s, at + WidthAt(s, at))
    ensures Fixed(x, s, at) <==> Maps(x, s, at) == [PointAt(s, at)] && Fixed(x, s, at + WidthAt(s, at))
  {
    hide Ready, Rest, Maps, CountTo, WidthAt, PointAt, DecodeFrom, Paired, Encode;
    var w := WidthAt(s, at);
    var to := Maps(x, s, at);
    RestStep(x, s, at);
    MapsWidth(x, s, at);
    RestLength(x, s, at + w);
    EncodePoint(s, at);
    assert s[at..] == s[at..at + w] + s[at + w..];
    if Fixed(x, s, at) {
      assert |EncodeAll(to)| == w;
      assert EncodeAll(to) == Rest(x, s, at)[..w] == s[at..][..w] == s[at..at + w];
      assert Rest(x, s, at + w) == Rest(x, s, at)[w..];
      EncodeInjective(to[0], PointAt(s, at));
    }
  }

  // ---- what an entry tells ----

  /** The entry that stops no write loop is its whole mapping: one unit. */
  lemma Ordinary(x: Setup, s: seq<nat>, at: nat)
    requires Ready(x) && Units(s) && Boundary(s, at) && at < |s| && !EntryAt(x.t, s[at]).writeStop
    ensures var e := EntryAt(x.t, s[at]);
            && PointAt(s, at) == s[at] && WidthAt(s, at) == 1 && Maps(x, s, at) == [Xor16(s[at], e.payload)]
            && (e.payload != 0 <==> Xor16(s[at], e.payload) != s[at]) && (e.wide <==> Xor16(s[at], e.payload) > 255)
  {
    assert EntryOk(x.t, x.m, x.lower, s[at]);
    PointIs(s, at);
    MapOfOk(x.m, s[at]);
  }

  /** One that stops no count loop tells length, change and width: sigma's too,
      whose two forms agree in all three. */
  lemma Counted(x: Setup, s: seq<nat>, at: nat)
    requires Ready(x) && Units(s) && Boundary(s, at) && at < |s| && !EntryAt(x.t, s[at]).countStop
    ensures var e := EntryAt(x.t, s[at]);
            && PointAt(s, at) == s[at] && WidthAt(s, at) == 1 && |Maps(x, s, at)| == 1 && Maps(x, s, at)[0] <= 0xFFFF
            && (e.payload != 0 <==> Maps(x, s, at) != [PointAt(s, at)]) && (e.wide <==> Maps(x, s, at)[0] > 255)
  {
    assert EntryOk(x.t, x.m, x.lower, s[at]);
    PointIs(s, at);
    MapOfOk(x.m, s[at]);
  }

  /** A unit an identity scan passes over. */
  predicate Passes(u: nat, lo: nat, hi: nat, lower: bool) {
    (lo <= u <= hi) || (u < 128 && !Letter(u, lower))
  }

  lemma IdentityMaps(x: Setup, s: seq<nat>, at: nat, run: (nat, nat), c: nat)
    requires Ready(x) && Units(s) && Boundary(s, at) && at < |s| && IdentityRun(x.m, run, c)
    requires Passes(s[at], run.0, run.1, x.lower)
    ensures PointAt(s, at) == s[at] && WidthAt(s, at) == 1 && Maps(x, s, at) == [s[at]]
  {
    PointIs(s, at);
    assert !Surrogate(s[at]) && MapOf(x.m, s[at]) == [s[at]];
  }

  lemma FixedIs(x: Setup, s: seq<nat>, at: nat)
    requires Ready(x) && Units(s) && Boundary(s, at)
    ensures Fixed(x, s, at) <==> Rest(x, s, at) == s[at..]
  {
  }

  /** A scanned span is copied as it is. */
  lemma {:induction false} SpanSame(x: Setup, s: seq<nat>, at: nat, end: nat, run: (nat, nat), c: nat)
    requires Ready(x) && Units(s) && Boundary(s, at) && at <= end <= |s| && IdentityRun(x.m, run, c)
    requires forall k :: at <= k < end ==> Passes(s[k], run.0, run.1, x.lower)
    ensures Boundary(s, end) && Rest(x, s, at) == s[at..end] + Rest(x, s, end)
    ensures Fixed(x, s, at) <==> Fixed(x, s, end)
    decreases end - at
  {
    hide Ready, Rest, Maps, Fixed, IdentityRun, CountTo, WidthAt, PointAt, EncodeAll, DecodeFrom, Paired;
    FixedIs(x, s, at);
    if at < end {
      IdentityMaps(x, s, at, run, c);
      RestStep(x, s, at);
      MapsWidth(x, s, at);
      FixedStep(x, s, at);
      SpanSame(x, s, at + 1, end, run, c);
      assert s[at..end] == [s[at]] + s[at + 1..end];
    }
    FixedIs(x, s, end);
  }

  // ---- the methods ----

  /** The mapping of the code point at `at`, whatever it is. */
  method Cold(x: Setup, s: seq<nat>, at: nat) returns (point: nat, width: nat, values: seq<nat>)
    requires Ready(x) && Units(s) && Boundary(s, at) && at < |s|
    ensures point == PointAt(s, at) && width == WidthAt(s, at) && values == Maps(x, s, at)
  {
    PointIs(s, at);
    EncodeDecodes(s, 0);
    point, width := PointAt(s, at), WidthAt(s, at);
    if x.lower && point == SIGMA {
      var final := IsFinalSigma(x.p, s, at, width);
      if final {
        values := [FINAL_SIGMA];
        return;
      }
    }
    values := Lookup(x.t, x.m, x.lower, point);
  }

  /** How far identity text goes on: the run's, and ASCII that keeps its case. */
  method IdentitySpan(s: seq<nat>, from: nat, lo: nat, hi: nat, lower: bool) returns (at: nat)
    requires from <= |s|
    ensures from <= at <= |s| && forall k :: from <= k < at ==> Passes(s[k], lo, hi, lower)
    ensures at < |s| ==> !Passes(s[at], lo, hi, lower)
  {
    at := from;
    while at < |s|
      invariant from <= at <= |s| && forall k :: from <= k < at ==> Passes(s[k], lo, hi, lower)
    {
      if !Passes(s[at], lo, hi, lower) {
        break;
      }
      at := at + 1;
    }
  }

  ghost predicate Wide(units: seq<nat>) {
    exists i :: 0 <= i < |units| && units[i] > 255
  }

  lemma WideSplit(a: seq<nat>, b: seq<nat>)
    ensures Wide(a + b) <==> Wide(a) || Wide(b)
  {
    if i :| 0 <= i < |a| && a[i] > 255 {
      assert (a + b)[i] > 255;
    }
    if i :| 0 <= i < |b| && b[i] > 255 {
      assert (a + b)[|a| + i] > 255;
    }
  }

  lemma {:induction false} WideEncoded(cs: seq<nat>)
    requires Points(cs)
    ensures Wide(EncodeAll(cs)) <==> Widens(cs)
  {
    if cs != [] {
      WideEncoded(cs[1..]);
      WideSplit(Encode(cs[0]), EncodeAll(cs[1..]));
      assert Widens(cs) <==> cs[0] > 255 || Widens(cs[1..]) by {
        if i :| 0 <= i < |cs[1..]| && cs[1..][i] > 255 {
          assert cs[i + 1] > 255;
        }
      }
      assert cs[0] > 255 ==> Encode(cs[0])[0] > 255;
    }
  }

  /** One step of counting the rest: its length, whether it changes, and whether
      it leaves one byte. */
  lemma CountStep(x: Setup, s: seq<nat>, at: nat)
    requires Ready(x) && Units(s) && Boundary(s, at) && at < |s|
    ensures var w := WidthAt(s, at);
            && Boundary(s, at + w)
            && |Rest(x, s, at)| == |EncodeAll(Maps(x, s, at))| + |Rest(x, s, at + w)|
            && (Fixed(x, s, at) <==> Maps(x, s, at) == [PointAt(s, at)] && Fixed(x, s, at + w))
            && (Wide(Rest(x, s, at)) <==> Widens(Maps(x, s, at)) || Wide(Rest(x, s, at + w)))
  {
    hide Ready, Rest, Maps, Fixed, CountTo, WidthAt, PointAt, EncodeAll, Paired;
    RestStep(x, s, at);
    FixedStep(x, s, at);
    WideEncoded(Maps(x, s, at));
    WideSplit(EncodeAll(Maps(x, s, at)), Rest(x, s, at + WidthAt(s, at)));
  }

  lemma IdentityEntry(x: Setup, u: nat)
    requires Ready(x) && Unit(u) && EntryAt(x.t, u).identity
    ensures EntryAt(x.t, u).countStop && EntryAt(x.t, u).writeStop
    ensures u / 256 < |x.t.identity| && IdentityRun(x.m, x.t.identity[u / 256], u) && u > 255
    ensures Passes(u, x.t.identity[u / 256].0, x.t.identity[u / 256].1, x.lower)
  {
    assert EntryOk(x.t, x.m, x.lower, u);
  }

  lemma IndexOk(x: Setup, u: nat)
    requires Ready(x) && Unit(u)
    ensures Sized(x.t) && u / 256 < 256 && 256 * x.t.index[u / 256] + u % 256 < |x.t.blocks|
  {
  }

  /** One unit of text, or more, that the loops have gone over. */
  ghost predicate Tallied(x: Setup, s: seq<nat>, begin: nat, at: nat, units: nat, changed: bool, wide: bool)
    requires Ready(x) && Units(s) && Boundary(s, begin) && Boundary(s, at)
  {
    && units + |Rest(x, s, at)| == |Rest(x, s, begin)|
    && (Fixed(x, s, begin) <==> !changed && Fixed(x, s, at))
    && (Wide(Rest(x, s, begin)) <==> wide || Wide(Rest(x, s, at)))
  }

  lemma TallyFast(x: Setup, s: seq<nat>, begin: nat, at: nat, units: nat, changed: bool, wide: bool)
    requires Ready(x) && Units(s) && Boundary(s, begin) && Boundary(s, at) && at < |s|
    requires Tallied(x, s, begin, at, units, changed, wide) && !EntryAt(x.t, s[at]).countStop
    ensures var e := EntryAt(x.t, s[at]);
            Boundary(s, at + 1) && Tallied(x, s, begin, at + 1, units + 1, changed || e.payload != 0, wide || e.wide)
  {
    hide Ready, Rest, Maps, Fixed, CountTo, WidthAt, PointAt, EncodeAll, Paired;
    Counted(x, s, at);
    CountStep(x, s, at);
    MapsWidth(x, s, at);
  }

  lemma TallySpan(x: Setup, s: seq<nat>, begin: nat, at: nat, end: nat, run: (nat, nat), units: nat, changed: bool, wide: bool)
    requires Ready(x) && Units(s) && Boundary(s, begin) && Boundary(s, at) && at < end <= |s|
    requires Tallied(x, s, begin, at, units, changed, wide) && IdentityRun(x.m, run, s[at]) && s[at] > 255
    requires forall k :: at <= k < end ==> Passes(s[k], run.0, run.1, x.lower)
    ensures Boundary(s, end) && Tallied(x, s, begin, end, units + (end - at), changed, true)
  {
    hide Ready, Rest, Maps, Fixed, CountTo, IdentityRun, Passes;
    SpanSame(x, s, at, end, run, s[at]);
    WideSplit(s[at..end], Rest(x, s, end));
    assert s[at..end][0] > 255;
  }

  lemma TallyCold(x: Setup, s: seq<nat>, begin: nat, at: nat, units: nat, changed: bool, wide: bool)
    requires Ready(x) && Units(s) && Boundary(s, begin) && Boundary(s, at) && at < |s|
    requires Tallied(x, s, begin, at, units, changed, wide)
    ensures var w, to := WidthAt(s, at), Maps(x, s, at);
            && Boundary(s, at + w)
            && Tallied(x, s, begin, at + w, units + |EncodeAll(to)|, changed || to != [PointAt(s, at)], wide || Widens(to))
  {
    hide Ready, Rest, Maps, Fixed, CountTo, WidthAt, PointAt, EncodeAll, Paired;
    CountStep(x, s, at);
  }

  /** What a mapping of some code points adds to a count. */
  method CountCold(values: seq<nat>) returns (units: nat, wide: bool)
    requires Points(values)
    ensures units == |EncodeAll(values)| && (wide <==> Widens(values))
  {
    units, wide := 0, false;
    for each := 0 to |values|
      invariant units == |EncodeAll(values[..each])| && (wide <==> Widens(values[..each]))
    {
      EncodeAppend(values[..each], values[each]);
      assert values[..each + 1] == values[..each] + [values[each]];
      assert Widens(values[..each + 1]) <==> Widens(values[..each]) || values[each] > 255 by {
        if i :| 0 <= i < each && values[..each][i] > 255 {
          assert values[..each + 1][i] > 255;
        }
        assert values[..each + 1][each] == values[each];
      }
      wide := wide || values[each] > 255;
      units := units + if values[each] > 0xFFFF then 2 else 1;
    }
    assert values[..|values|] == values;
  }

  lemma {:induction false} EncodeAppend(cs: seq<nat>, c: nat)
    requires Points(cs) && Point(c)
    ensures Points(cs + [c]) && EncodeAll(cs + [c]) == EncodeAll(cs) + Encode(c)
  {
    if cs == [] {
      assert cs + [c] == [c] && EncodeAll([c]) == Encode(c) + EncodeAll([]);
    } else {
      EncodeAppend(cs[1..], c);
      assert (cs + [c])[1..] == cs[1..] + [c];
    }
  }

  /** The length, changedness and width of what the rest becomes, with nothing
      written. */
  method CountFrom(x: Setup, s: seq<nat>, twoByte: bool, begin: nat) returns (units: nat, changed: bool, wide: bool)
    requires Ready(x) && Units(s) && Boundary(s, begin)
    ensures units == |Rest(x, s, begin)| && (changed <==> !Fixed(x, s, begin)) && (wide <==> Wide(Rest(x, s, begin)))
  {
    hide *;
    var at := begin;
    units, changed, wide := 0, false, false;
    TallyStart(x, s, begin);
    while at < |s|
      invariant begin <= at <= |s| && Boundary(s, at) && Tallied(x, s, begin, at, units, changed, wide)
    {
      var start := at;
      var factsChanged, factsWide := false, false;
      var entry := Entry(false, false, false, false, false, 0);
      while at < |s|
        invariant start <= at <= |s| && Boundary(s, at)
        invariant Tallied(x, s, begin, at, units + (at - start), changed || factsChanged, wide || factsWide)
        invariant !entry.countStop
      {
        UnitAt(s, at);
        IndexOk(x, s[at]);
        EntryIs(x.t, s[at]);
        entry := x.t.blocks[256 * x.t.index[s[at] / 256] + s[at] % 256];
        if entry.countStop {
          break;
        }
        TallyFast(x, s, begin, at, units + (at - start), changed || factsChanged, wide || factsWide);
        factsChanged, factsWide := factsChanged || entry.payload != 0, factsWide || entry.wide;
        at := at + 1;
      }
      units := units + (at - start);
      changed := changed || factsChanged;
      wide := wide || factsWide;
      if at == |s| {
        break;
      }
      if twoByte && entry.identity {
        IdentityEntry(x, s[at]);
        var run := x.t.identity[s[at] / 256];
        var end := IdentitySpan(s, at, run.0, run.1, x.lower);
        TallySpan(x, s, begin, at, end, run, units, changed, wide);
        units := units + (end - at);
        wide := true;
        at := end;
        continue;
      }
      var point, width, values := Cold(x, s, at);
      TallyCold(x, s, begin, at, units, changed, wide);
      var more, widens := CountCold(values);
      units := units + more;
      changed := changed || !(|values| == 1 && values[0] == point);
      wide := wide || widens;
      at := at + width;
    }
    TallyEnd(x, s, begin, units, changed, wide);
  }

  lemma TallyStart(x: Setup, s: seq<nat>, begin: nat)
    requires Ready(x) && Units(s) && Boundary(s, begin)
    ensures begin <= |s| && Tallied(x, s, begin, begin, 0, false, false)
  {
  }

  lemma TallyEnd(x: Setup, s: seq<nat>, begin: nat, units: nat, changed: bool, wide: bool)
    requires Ready(x) && Units(s) && Boundary(s, begin) && Boundary(s, |s|) && Tallied(x, s, begin, |s|, units, changed, wide)
    ensures units == |Rest(x, s, begin)| && (changed <==> !Fixed(x, s, begin)) && (wide <==> Wide(Rest(x, s, begin)))
  {
    RestEnd(x, s);
  }

  lemma UnitAt(s: seq<nat>, at: nat)
    requires Units(s) && at < |s|
    ensures Unit(s[at])
  {
  }

  lemma EntryIs(t: Tables, c: nat)
    requires Sized(t) && c <= 0xFFFF
    ensures 256 * t.index[c / 256] + c % 256 < |t.blocks| && EntryAt(t, c) == t.blocks[256 * t.index[c / 256] + c % 256]
  {
  }

  // ---- writing ----

  /** done, and then what is still to come, is the whole. */
  ghost predicate Upto(x: Setup, s: seq<nat>, whole: seq<nat>, at: nat, done: seq<nat>)
    requires Ready(x) && Units(s) && Boundary(s, at)
  {
    done + Rest(x, s, at) == whole
  }

  lemma UptoFast(x: Setup, s: seq<nat>, whole: seq<nat>, at: nat, done: seq<nat>)
    requires Ready(x) && Units(s) && Boundary(s, at) && at < |s| && Upto(x, s, whole, at, done)
    requires !EntryAt(x.t, s[at]).writeStop
    ensures var u := Xor16(s[at], EntryAt(x.t, s[at]).payload);
            && Boundary(s, at + 1) && Upto(x, s, whole, at + 1, done + [u])
            && |done| < |whole| && whole[|done|] == u
  {
    hide Ready, Rest, Maps, CountTo, WidthAt, PointAt, Paired, EncodeAll;
    Ordinary(x, s, at);
    RestStep(x, s, at);
    MapsWidth(x, s, at);
    IndexOk(x, s[at]);
    var u := Xor16(s[at], EntryAt(x.t, s[at]).payload);
    assert (done + [u]) + Rest(x, s, at + 1) == done + ([u] + Rest(x, s, at + 1));
  }

  lemma UptoSpan(x: Setup, s: seq<nat>, whole: seq<nat>, at: nat, end: nat, run: (nat, nat), done: seq<nat>)
    requires Ready(x) && Units(s) && Boundary(s, at) && at < end <= |s| && Upto(x, s, whole, at, done)
    requires IdentityRun(x.m, run, s[at]) && forall k :: at <= k < end ==> Passes(s[k], run.0, run.1, x.lower)
    ensures Boundary(s, end) && Upto(x, s, whole, end, done + s[at..end])
    ensures |done| + (end - at) <= |whole| && whole[|done|..|done| + (end - at)] == s[at..end]
  {
    hide Ready, Rest, Maps, CountTo, IdentityRun, Passes;
    SpanSame(x, s, at, end, run, s[at]);
    assert (done + s[at..end]) + Rest(x, s, end) == done + (s[at..end] + Rest(x, s, end));
  }

  lemma UptoCold(x: Setup, s: seq<nat>, whole: seq<nat>, at: nat, done: seq<nat>)
    requires Ready(x) && Units(s) && Boundary(s, at) && at < |s| && Upto(x, s, whole, at, done)
    ensures var w, to := WidthAt(s, at), EncodeAll(Maps(x, s, at));
            && Boundary(s, at + w) && Upto(x, s, whole, at + w, done + to)
            && |done| + |to| <= |whole| && whole[|done|..|done| + |to|] == to
  {
    hide Ready, Rest, Maps, CountTo, WidthAt, PointAt, Paired, EncodeAll;
    RestStep(x, s, at);
    var to := EncodeAll(Maps(x, s, at));
    assert (done + to) + Rest(x, s, at + WidthAt(s, at)) == done + (to + Rest(x, s, at + WidthAt(s, at)));
  }

  /** Storing a unit in an output of one byte or two keeps it when it fits. */
  method Put(out: array<nat>, twoByte: bool, at: nat, u: nat)
    requires at < out.Length && (twoByte || u <= 255)
    modifies out
    ensures out[..] == old(out[..])[at := u]
  {
    out[at] := if twoByte then u else u % 256;
  }

  lemma NarrowAt(whole: seq<nat>, i: nat)
    requires !Wide(whole) && i < |whole|
    ensures whole[i] <= 255
  {
  }

  /** Units copied one after another. */
  method PutAll(out: array<nat>, twoByte: bool, at: nat, units: seq<nat>)
    requires at + |units| <= out.Length && (twoByte || !Wide(units))
    modifies out
    ensures out[..at + |units|] == old(out[..at]) + units
  {
    for each := 0 to |units|
      invariant out[..at + each] == old(out[..at]) + units[..each]
    {
      NarrowUnit(twoByte, units, each);
      ghost var was := out[..];
      Put(out, twoByte, at + each, units[each]);
      assert out[..at + each + 1] == was[..at + each] + [units[each]];
      assert units[..each + 1] == units[..each] + [units[each]];
    }
    assert units[..|units|] == units;
  }

  lemma NarrowUnit(twoByte: bool, units: seq<nat>, i: nat)
    requires (twoByte || !Wide(units)) && i < |units|
    ensures twoByte || units[i] <= 255
  {
  }

  /** The mapped code points, written one after another. */
  method WriteCold(values: seq<nat>, out: array<nat>, twoByte: bool, at: nat) returns (written: nat)
    requires Points(values) && at + |EncodeAll(values)| <= out.Length && (twoByte || !Wide(EncodeAll(values)))
    modifies out
    ensures written == at + |EncodeAll(values)| && out[..written] == old(out[..at]) + EncodeAll(values)
  {
    hide *;
    written := at;
    EncodeStart(values);
    for each := 0 to |values|
      invariant Points(values[..each]) && 0 <= written == at + |EncodeAll(values[..each])| <= at + |EncodeAll(values)|
      invariant out[..written] == old(out[..at]) + EncodeAll(values[..each])
    {
      EncodeStep(values, each);
      PutAll(out, twoByte, written, Encode(values[each]));
      written := written + |Encode(values[each])|;
    }
    assert values[..|values|] == values;
  }

  lemma EncodeStart(cs: seq<nat>)
    ensures Points(cs[..0]) && EncodeAll(cs[..0]) == []
  {
  }

  lemma EncodeStep(cs: seq<nat>, i: nat)
    requires Points(cs) && i < |cs|
    ensures Points(cs[..i]) && Points(cs[..i + 1]) && Point(cs[i])
    ensures EncodeAll(cs[..i + 1]) == EncodeAll(cs[..i]) + Encode(cs[i])
    ensures |EncodeAll(cs[..i + 1])| <= |EncodeAll(cs)| && (Wide(Encode(cs[i])) ==> Wide(EncodeAll(cs)))
  {
    EncodeAppend(cs[..i], cs[i]);
    assert cs[..i + 1] == cs[..i] + [cs[i]];
    EncodePrefix(cs, i + 1);
    PrefixNarrow(EncodeAll(cs[..i]), Encode(cs[i]), EncodeAll(cs));
  }

  lemma {:induction false} EncodePrefix(cs: seq<nat>, n: nat)
    requires Points(cs) && n <= |cs|
    ensures EncodeAll(cs[..n]) <= EncodeAll(cs)
    decreases |cs| - n
  {
    if n == |cs| {
      assert cs[..n] == cs;
    } else {
      EncodeAppend(cs[..n], cs[n]);
      assert cs[..n + 1] == cs[..n] + [cs[n]];
      EncodePrefix(cs, n + 1);
    }
  }

  lemma PrefixNarrow(a: seq<nat>, b: seq<nat>, whole: seq<nat>)
    requires a + b <= whole
    ensures Wide(b) ==> Wide(whole)
  {
    if i :| 0 <= i < |b| && b[i] > 255 {
      assert (a + b)[|a| + i] == whole[|a| + i];
    }
  }

  lemma PieceNarrow(whole: seq<nat>, from: nat, to: nat)
    requires from <= to <= |whole|
    ensures Wide(whole[from..to]) ==> Wide(whole)
  {
    if i :| 0 <= i < to - from && whole[from..to][i] > 255 {
      assert whole[from + i] > 255;
    }
  }

  /** The units that map one to one, up to the first that may not. */
  method WriteRun(x: Setup, s: seq<nat>, out: array<nat>, wide: bool, start: nat, written: nat, ghost whole: seq<nat>)
      returns (at: nat, entry: Entry)
    requires Ready(x) && Units(s) && Boundary(s, start) && start < |s| && written <= out.Length == |whole| && (wide || !Wide(whole))
    requires Upto(x, s, whole, start, out[..written])
    modifies out
    ensures start <= at <= |s| && Boundary(s, at) && written + (at - start) <= out.Length
    ensures Upto(x, s, whole, at, out[..written + (at - start)])
    ensures at < |s| ==> s[at] < 0x1_0000 && entry == EntryAt(x.t, s[at]) && entry.writeStop
  {
    hide *;
    at := start;
    entry := Entry(false, false, false, false, false, 0);
    while at < |s|
      invariant start <= at <= |s| && Boundary(s, at) && written + (at - start) <= out.Length
      invariant Upto(x, s, whole, at, out[..written + (at - start)])
    {
      UnitAt(s, at);
      IndexOk(x, s[at]);
      EntryIs(x.t, s[at]);
      entry := x.t.blocks[256 * x.t.index[s[at] / 256] + s[at] % 256];
      if entry.writeStop {
        return;
      }
      ghost var done := out[..written + (at - start)];
      UptoFast(x, s, whole, at, done);
      if !wide {
        NarrowAt(whole, |done|);
      }
      Put(out, wide, written + (at - start), Xor16(s[at], entry.payload));
      assert out[..written + (at + 1 - start)] == done + [Xor16(s[at], entry.payload)];
      at := at + 1;
    }
  }

  /** What the rest becomes, written behind a prefix that stays. */
  method WriteFrom(x: Setup, s: seq<nat>, twoByte: bool, out: array<nat>, wide: bool, begin: nat, prefix: nat)
    requires Ready(x) && Units(s) && Boundary(s, begin) && prefix + |Rest(x, s, begin)| == out.Length
    requires wide || !Wide(out[..prefix] + Rest(x, s, begin))
    modifies out
    ensures out[..] == old(out[..prefix]) + Rest(x, s, begin)
  {
    hide *;
    ghost var whole := out[..prefix] + Rest(x, s, begin);
    UptoStart(x, s, begin, whole, out[..prefix]);
    var at, written := begin, prefix;
    while at < |s|
      invariant at <= |s| && Boundary(s, at) && 0 <= written <= out.Length && Upto(x, s, whole, at, out[..written])
    {
      var start := at;
      var entry;
      at, entry := WriteRun(x, s, out, wide, start, written, whole);
      written := written + (at - start);
      if at == |s| {
        break;
      }
      ghost var done := out[..written];
      if twoByte && entry.identity {
        IdentityEntry(x, s[at]);
        var run := x.t.identity[s[at] / 256];
        var end := IdentitySpan(s, at, run.0, run.1, x.lower);
        UptoSpan(x, s, whole, at, end, run, done);
        PieceNarrow(whole, written, written + (end - at));
        PutAll(out, wide, written, s[at..end]);
        written := written + (end - at);
        at := end;
        continue;
      }
      var point, width, values := Cold(x, s, at);
      UptoCold(x, s, whole, at, done);
      PieceNarrow(whole, written, written + |EncodeAll(values)|);
      written := WriteCold(values, out, wide, written);
      at := at + width;
    }
    UptoEnd(x, s, whole, out[..written]);
    assert out[..] == out[..written];
  }

  lemma UptoStart(x: Setup, s: seq<nat>, begin: nat, whole: seq<nat>, done: seq<nat>)
    requires Ready(x) && Units(s) && Boundary(s, begin) && whole == done + Rest(x, s, begin)
    ensures begin <= |s| && Upto(x, s, whole, begin, done)
  {
  }

  lemma UptoEnd(x: Setup, s: seq<nat>, whole: seq<nat>, done: seq<nat>)
    requires Ready(x) && Units(s) && Boundary(s, |s|) && Upto(x, s, whole, |s|, done)
    ensures done == whole
  {
    RestEnd(x, s);
  }

  // ---- one scan, one speculative write, one resize ----

  /** What an answer has to be. */
  ghost predicate Right(x: Setup, s: seq<nat>, r: Answer)
    requires Ready(x) && Units(s)
  {
    match r
    case Same => Rest(x, s, 0) == s
    case Made(units, twoByte) =>
      && units == Rest(x, s, 0) && units != s && (twoByte <==> Wide(units))
      && (|s| <= MAX_LENGTH ==> |units| <= MAX_LENGTH)
    case Refused => |Rest(x, s, 0)| > MAX_LENGTH && Rest(x, s, 0) != s
  }

  /** The same of the whole text's code points, in figures: unchanged text is
      answered by itself, changed text by what it converts to, in two bytes a
      unit just when one of them needs it, and refused just when it is too long. */
  lemma RightIs(x: Setup, s: seq<nat>)
    requires Ready(x) && Units(s)
    ensures Points(Decode(s))
    ensures forall r :: Right(x, s, r) ==>
              var whole := Converted(x.m, x.p, x.lower, Decode(s), 0);
              && (r == Same <==> whole == s)
              && (r.Made? ==> r.units == whole && (r.twoByte <==> exists i :: 0 <= i < |whole| && whole[i] > 255))
              && (|s| <= 2147483646 ==> (r == Refused <==> whole != s && |whole| > 2147483646))
  {
    DecodeSplit(s, 0);
    EncodeDecodes(s, 0);
  }

  /** The prefix that is written already, in a buffer of the final size and
      width. */
  method Resize(prefix: array<nat>, at: nat, length: nat, wide: bool) returns (out: array<nat>)
    requires at <= prefix.Length && at <= length && (wide || !Wide(prefix[..at]))
    ensures fresh(out) && out.Length == length && out[..at] == prefix[..at]
  {
    out := new nat[length];
    for i := 0 to at
      invariant out[..i] == prefix[..i]
    {
      NarrowUnit(wide, prefix[..at], i);
      out[i] := if wide then prefix[i] else prefix[i] % 256;
    }
  }

  /** Finish only the suffix that has not been written. */
  method Finish(x: Setup, s: seq<nat>, twoByte: bool, prefix: array<nat>, at: nat, factsChanged: bool, factsWide: bool)
      returns (r: Answer)
    requires Ready(x) && Units(s) && Boundary(s, 0) && Boundary(s, at) && at <= prefix.Length
    requires Tallied(x, s, 0, at, at, factsChanged, factsWide) && Upto(x, s, Rest(x, s, 0), at, prefix[..at])
    ensures Right(x, s, r)
  {
    hide *;
    var units, changed, wide := CountFrom(x, s, twoByte, at);
    TallyFinish(x, s, at, units, changed, wide, factsChanged, factsWide);
    units := units + at;
    changed := changed || factsChanged;
    wide := wide || factsWide;
    if !changed {
      return Same;
    }
    if units > MAX_LENGTH {
      RightRefused(x, s);
      return Refused;
    }
    UptoIs(x, s, at, prefix[..at]);
    PieceNarrow(Rest(x, s, 0), 0, at);
    assert Rest(x, s, 0)[0..at] == prefix[..at];
    var out := Resize(prefix, at, units, wide);
    WriteFrom(x, s, twoByte, out, wide, at, at);
    RightMade(x, s, out[..], wide);
    return Made(out[..], wide);
  }

  lemma TallyFinish(x: Setup, s: seq<nat>, at: nat, units: nat, changed: bool, wide: bool, factsChanged: bool, factsWide: bool)
    requires Ready(x) && Units(s) && Boundary(s, 0) && Boundary(s, at) && Tallied(x, s, 0, at, at, factsChanged, factsWide)
    requires units == |Rest(x, s, at)| && (changed <==> !Fixed(x, s, at)) && (wide <==> Wide(Rest(x, s, at)))
    ensures units + at == |Rest(x, s, 0)|
    ensures changed || factsChanged <==> Rest(x, s, 0) != s
    ensures wide || factsWide <==> Wide(Rest(x, s, 0))
    ensures !(changed || factsChanged) ==> Right(x, s, Same)
  {
    assert s[0..] == s;
  }

  lemma UptoIs(x: Setup, s: seq<nat>, at: nat, done: seq<nat>)
    requires Ready(x) && Units(s) && Boundary(s, 0) && Boundary(s, at) && Upto(x, s, Rest(x, s, 0), at, done)
    ensures done + Rest(x, s, at) == Rest(x, s, 0) && |done| <= |Rest(x, s, 0)|
  {
  }

  lemma RightRefused(x: Setup, s: seq<nat>)
    requires Ready(x) && Units(s) && Boundary(s, 0) && |Rest(x, s, 0)| > MAX_LENGTH && Rest(x, s, 0) != s
    ensures Right(x, s, Refused)
  {
  }

  lemma RightMade(x: Setup, s: seq<nat>, units: seq<nat>, wide: bool)
    requires Ready(x) && Units(s) && Boundary(s, 0) && units == Rest(x, s, 0) && units != s && (wide <==> Wide(units))
    requires |units| <= MAX_LENGTH
    ensures Right(x, s, Made(units, wide))
  {
  }

  /** Nothing in the text so far changes. */
  ghost predicate Unchanged(x: Setup, s: seq<nat>, at: nat, factsWide: bool)
    requires Ready(x) && Units(s) && Boundary(s, 0) && Boundary(s, at)
  {
    Tallied(x, s, 0, at, at, false, factsWide) && Upto(x, s, Rest(x, s, 0), at, s[..at])
  }

  lemma UnchangedStart(x: Setup, s: seq<nat>)
    requires Ready(x) && Units(s)
    ensures Boundary(s, 0) && Unchanged(x, s, 0, false)
  {
  }

  lemma UnchangedFast(x: Setup, s: seq<nat>, at: nat, factsWide: bool)
    requires Ready(x) && Units(s) && Boundary(s, 0) && Boundary(s, at) && at < |s| && Unchanged(x, s, at, factsWide)
    requires !EntryAt(x.t, s[at]).writeStop && EntryAt(x.t, s[at]).payload == 0
    ensures Boundary(s, at + 1) && Unchanged(x, s, at + 1, factsWide || EntryAt(x.t, s[at]).wide)
    ensures EntryAt(x.t, s[at]).wide <==> s[at] > 255
  {
    hide Tallied, Upto, Maps, Paired;
    Ordinary(x, s, at);
    StopsTogether(x, s[at]);
    TallyFast(x, s, 0, at, at, false, factsWide);
    UptoFast(x, s, Rest(x, s, 0), at, s[..at]);
    assert s[..at] + [s[at]] == s[..at + 1];
  }

  /** What stops counting stops writing. */
  lemma StopsTogether(x: Setup, u: nat)
    requires Ready(x) && Unit(u) && !EntryAt(x.t, u).writeStop
    ensures !EntryAt(x.t, u).countStop
  {
    assert EntryOk(x.t, x.m, x.lower, u);
  }

  lemma UnchangedSpan(x: Setup, s: seq<nat>, at: nat, end: nat, run: (nat, nat), factsWide: bool)
    requires Ready(x) && Units(s) && Boundary(s, 0) && Boundary(s, at) && at < end <= |s| && Unchanged(x, s, at, factsWide)
    requires IdentityRun(x.m, run, s[at]) && s[at] > 255 && forall k :: at <= k < end ==> Passes(s[k], run.0, run.1, x.lower)
    ensures Boundary(s, end) && Unchanged(x, s, end, true)
  {
    hide Tallied, Upto, Maps, Paired, Passes, IdentityRun;
    TallySpan(x, s, 0, at, end, run, at, false, factsWide);
    UptoSpan(x, s, Rest(x, s, 0), at, end, run, s[..at]);
    assert s[..at] + s[at..end] == s[..end];
  }

  lemma UnchangedCold(x: Setup, s: seq<nat>, at: nat, factsWide: bool)
    requires Ready(x) && Units(s) && Boundary(s, 0) && Boundary(s, at) && at < |s| && Unchanged(x, s, at, factsWide)
    requires Maps(x, s, at) == [PointAt(s, at)]
    ensures Boundary(s, at + WidthAt(s, at)) && Unchanged(x, s, at + WidthAt(s, at), factsWide || PointAt(s, at) > 255)
  {
    hide Tallied, Upto, Paired, Maps;
    var w := WidthAt(s, at);
    MapsWidth(x, s, at);
    EncodePoint(s, at);
    TallyCold(x, s, 0, at, at, false, factsWide);
    UptoCold(x, s, Rest(x, s, 0), at, s[..at]);
    assert s[..at] + s[at..at + w] == s[..at + w];
    assert Widens([PointAt(s, at)]) <==> PointAt(s, at) > 255 by {
      assert [PointAt(s, at)][0] == PointAt(s, at);
    }
  }

  /** The scan for the first change: nothing is written before it. */
  method FirstChange(x: Setup, s: seq<nat>, twoByte: bool) returns (at: nat, factsWide: bool)
    requires Ready(x) && Units(s) && (!twoByte ==> !Wide(s))
    ensures Boundary(s, 0) && Boundary(s, at) && Unchanged(x, s, at, factsWide) && (!twoByte ==> !factsWide)
  {
    hide *;
    at, factsWide := 0, false;
    UnchangedStart(x, s);
    while at < |s|
      invariant 0 <= at <= |s| && Boundary(s, 0) && Boundary(s, at) && Unchanged(x, s, at, factsWide) && (!twoByte ==> !factsWide)
    {
      UnitAt(s, at);
      IndexOk(x, s[at]);
      EntryIs(x.t, s[at]);
      NarrowUnit(twoByte, s, at);
      var entry := x.t.blocks[256 * x.t.index[s[at] / 256] + s[at] % 256];
      if !entry.writeStop {
        if entry.payload != 0 {
          break;
        }
        UnchangedFast(x, s, at, factsWide);
        factsWide := factsWide || entry.wide;
        at := at + 1;
        continue;
      }
      if twoByte && entry.identity {
        IdentityEntry(x, s[at]);
        var run := x.t.identity[s[at] / 256];
        var end := IdentitySpan(s, at, run.0, run.1, x.lower);
        UnchangedSpan(x, s, at, end, run, factsWide);
        at := end;
        factsWide := true;
        continue;
      }
      var point, width, values := Cold(x, s, at);
      if |values| != 1 || values[0] != point {
        break;
      }
      UnchangedCold(x, s, at, factsWide);
      NarrowPoint(s, at);
      if point > 255 {
        factsWide := true;
      }
      at := at + width;
    }
  }

  lemma NarrowPoint(s: seq<nat>, at: nat)
    requires at < |s|
    ensures !Wide(s) ==> PointAt(s, at) <= 255 && WidthAt(s, at) == 1
  {
  }

  /** Convert forward into a copy of the input's own size: where a unit is read
      is where its mapping is written, until a mapping does not fit. */
  method Route(x: Setup, s: seq<nat>, twoByte: bool) returns (r: Answer)
    requires Ready(x) && Units(s) && (!twoByte ==> !Wide(s))
    ensures Right(x, s, r)
  {
    hide *;
    var at, factsWide := FirstChange(x, s, twoByte);
    UnchangedIs(x, s, at, factsWide);
    var factsChanged := false;
    if at == |s| {
      UnchangedEnd(x, s, factsWide);
      return Same;
    }
    var out := new nat[|s|];
    PutAll(out, true, 0, s[..at]);
    assert out[..0 + |s[..at]|] == s[..at];
    while at < |s|
      invariant 0 <= at <= |s| == out.Length && Boundary(s, 0) && Boundary(s, at) && (!twoByte ==> !factsWide)
      invariant Tallied(x, s, 0, at, at, factsChanged, factsWide) && Upto(x, s, Rest(x, s, 0), at, out[..at])
    {
      UnitAt(s, at);
      IndexOk(x, s[at]);
      EntryIs(x.t, s[at]);
      NarrowUnit(twoByte, s, at);
      ghost var done := out[..at];
      var entry := x.t.blocks[256 * x.t.index[s[at] / 256] + s[at] % 256];
      if entry.writeStop {
        if twoByte && entry.identity {
          IdentityEntry(x, s[at]);
          var run := x.t.identity[s[at] / 256];
          var end := IdentitySpan(s, at, run.0, run.1, x.lower);
          TallySpan(x, s, 0, at, end, run, at, factsChanged, factsWide);
          UptoSpan(x, s, Rest(x, s, 0), at, end, run, done);
          PutAll(out, true, at, s[at..end]);
          factsWide := true;
          at := end;
          continue;
        }
        var point, width, values := Cold(x, s, at);
        if |values| != 1 || (if values[0] > 0xFFFF then 2 else 1) != width || (!twoByte && values[0] > 255) {
          r := Finish(x, s, twoByte, out, at, factsChanged, factsWide);
          return;
        }
        TallyCold(x, s, 0, at, at, factsChanged, factsWide);
        UptoCold(x, s, Rest(x, s, 0), at, done);
        OnePoint(x, s, at);
        factsChanged := factsChanged || values[0] != point;
        factsWide := factsWide || values[0] > 255;
        if width == 2 {
          var written := WriteCold(values, out, true, at);
        } else {
          Put(out, true, at, values[0]);
          assert out[..at + 1] == done + [values[0]];
        }
        at := at + width;
        continue;
      }
      StopsTogether(x, s[at]);
      if !twoByte && entry.wide {
        r := Finish(x, s, twoByte, out, at, factsChanged, factsWide);
        return;
      }
      TallyFast(x, s, 0, at, at, factsChanged, factsWide);
      UptoFast(x, s, Rest(x, s, 0), at, done);
      Put(out, true, at, Xor16(s[at], entry.payload));
      assert out[..at + 1] == done + [Xor16(s[at], entry.payload)];
      factsChanged := factsChanged || entry.payload != 0;
      factsWide := factsWide || entry.wide;
      at := at + 1;
    }
    assert out[..at] == out[..];
    RouteEnd(x, s, out[..], factsChanged, factsWide);
    if !factsChanged {
      return Same;
    }
    if twoByte && !factsWide {
      r := Finish(x, s, twoByte, out, |s|, factsChanged, factsWide);
      return;
    }
    return Made(out[..], twoByte);
  }

  lemma UnchangedIs(x: Setup, s: seq<nat>, at: nat, factsWide: bool)
    requires Ready(x) && Units(s) && Boundary(s, 0) && Boundary(s, at) && Unchanged(x, s, at, factsWide)
    ensures at <= |s| && Tallied(x, s, 0, at, at, false, factsWide) && Upto(x, s, Rest(x, s, 0), at, s[..at])
  {
  }

  lemma UnchangedEnd(x: Setup, s: seq<nat>, factsWide: bool)
    requires Ready(x) && Units(s) && Boundary(s, 0) && Boundary(s, |s|) && Unchanged(x, s, |s|, factsWide)
    ensures Right(x, s, Same)
  {
    UptoEnd(x, s, Rest(x, s, 0), s[..|s|]);
  }

  lemma RouteEnd(x: Setup, s: seq<nat>, out: seq<nat>, factsChanged: bool, factsWide: bool)
    requires Ready(x) && Units(s) && Boundary(s, 0) && Boundary(s, |s|)
    requires Tallied(x, s, 0, |s|, |s|, factsChanged, factsWide) && Upto(x, s, Rest(x, s, 0), |s|, out) && |out| == |s|
    ensures !factsChanged ==> Right(x, s, Same)
    ensures factsChanged ==> Right(x, s, Made(out, factsWide))
  {
    UptoEnd(x, s, Rest(x, s, 0), out);
    RestEnd(x, s);
    assert s[|s|..] == [] && s[0..] == s;
  }

  /** A mapping of one code point takes that one's units. */
  lemma OnePoint(x: Setup, s: seq<nat>, at: nat)
    requires Ready(x) && Units(s) && Boundary(s, at) && at < |s| && |Maps(x, s, at)| == 1
    ensures var to := Maps(x, s, at);
            && EncodeAll(to) == Encode(to[0]) && |EncodeAll(to)| == WidthAt(s, at) && (Widens(to) <==> to[0] > 255)
            && (WidthAt(s, at) == 1 ==> EncodeAll(to) == [to[0]]) && (to == [PointAt(s, at)] <==> to[0] == PointAt(s, at))
            && at + WidthAt(s, at) <= |s|
  {
    MapsWidth(x, s, at);
  }

  // ---- the one-byte and ASCII paths ----

  /** What a lane of the ASCII scan keeps of the bytes it saw. */
  datatype Flags = Flags(above: bool, letter: bool)

  function FlagsOf(u: nat, lower: bool): Flags {
    Flags(u >= 128, Letter(u, lower))
  }

  function Or(a: Flags, b: Flags): Flags {
    Flags(a.above || b.above, a.letter || b.letter)
  }

  /** Sixteen lanes: between them they have seen every byte before upto, and
      nothing that is not in the text. */
  ghost predicate Lanes(state: seq<Flags>, upto: nat, s: seq<nat>, lower: bool) {
    && |state| == 16 && upto <= |s|
    && (forall k :: 0 <= k < 16 && state[k].above ==> exists i :: 0 <= i < |s| && s[i] >= 128)
    && (forall k :: 0 <= k < 16 && state[k].letter ==> exists i :: 0 <= i < |s| && Letter(s[i], lower))
    && (forall i :: 0 <= i < upto && s[i] >= 128 ==> exists k :: 0 <= k < 16 && state[k].above)
    && (forall i :: 0 <= i < upto && Letter(s[i], lower) ==> exists k :: 0 <= k < 16 && state[k].letter)
  }

  function OrBlock(state: seq<Flags>, s: seq<nat>, lower: bool, at: nat): (next: seq<Flags>)
    requires |state| == 16 && at + 16 <= |s|
    ensures |next| == 16
  {
    seq(16, k requires 0 <= k < 16 => Or(state[k], FlagsOf(s[at + k], lower)))
  }

  lemma LanesOr(state: seq<Flags>, upto: nat, s: seq<nat>, lower: bool, at: nat)
    requires Lanes(state, upto, s, lower) && at <= upto <= at + 16 <= |s|
    ensures Lanes(OrBlock(state, s, lower, at), at + 16, s, lower)
  {
    var next := OrBlock(state, s, lower, at);
    forall i | 0 <= i < at + 16 && s[i] >= 128
      ensures exists k :: 0 <= k < 16 && next[k].above
    {
      if i < upto {
        var k :| 0 <= k < 16 && state[k].above;
        assert next[k].above;
      } else {
        assert next[i - at].above;
      }
    }
    forall i | 0 <= i < at + 16 && Letter(s[i], lower)
      ensures exists k :: 0 <= k < 16 && next[k].letter
    {
      if i < upto {
        var k :| 0 <= k < 16 && state[k].letter;
        assert next[k].letter;
      } else {
        assert next[i - at].letter;
      }
    }
  }

  lemma LanesAll(state: seq<Flags>, s: seq<nat>, lower: bool)
    requires Lanes(state, |s|, s, lower)
    ensures (exists k :: 0 <= k < 16 && state[k].above) <==> exists i :: 0 <= i < |s| && s[i] >= 128
    ensures (exists k :: 0 <= k < 16 && state[k].letter) <==> exists i :: 0 <= i < |s| && Letter(s[i], lower)
  {
  }

  /** Whether a byte is above ASCII, and whether a letter would change: sixteen
      lanes at a time, the last block overlapping the one before it. */
  method AsciiState(s: seq<nat>, lower: bool) returns (state: Flags)
    ensures state.above <==> exists i :: 0 <= i < |s| && s[i] >= 128
    ensures state.letter <==> exists i :: 0 <= i < |s| && Letter(s[i], lower)
  {
    state := Flags(false, false);
    if |s| >= 16 {
      hide Lanes, OrBlock;
      var lanes := seq(16, _ => Flags(false, false));
      assert Lanes(lanes, 0, s, lower) by { LanesNone(lanes, s, lower); }
      LanesOr(lanes, 0, s, lower, 0);
      lanes := OrBlock(lanes, s, lower, 0);
      var at := 16;
      while at + 16 <= |s|
        invariant 16 <= at <= |s| && |lanes| == 16 && Lanes(lanes, at, s, lower)
      {
        LanesOr(lanes, at, s, lower, at);
        lanes := OrBlock(lanes, s, lower, at);
        at := at + 16;
      }
      if at < |s| {
        LanesOr(lanes, at, s, lower, |s| - 16);
        lanes := OrBlock(lanes, s, lower, |s| - 16);
      }
      LanesAll(lanes, s, lower);
      state := Reduce(lanes);
    } else {
      for at := 0 to |s|
        invariant state.above <==> exists i :: 0 <= i < at && s[i] >= 128
        invariant state.letter <==> exists i :: 0 <= i < at && Letter(s[i], lower)
      {
        state := Or(state, FlagsOf(s[at], lower));
      }
    }
  }

  lemma LanesNone(lanes: seq<Flags>, s: seq<nat>, lower: bool)
    requires |lanes| == 16 && forall k :: 0 <= k < 16 ==> lanes[k] == Flags(false, false)
    ensures Lanes(lanes, 0, s, lower)
  {
  }

  /** The lanes of a word, folded by halves. */
  method Reduce(lanes: seq<Flags>) returns (state: Flags)
    requires |lanes| == 16
    ensures state.above <==> exists k :: 0 <= k < 16 && lanes[k].above
    ensures state.letter <==> exists k :: 0 <= k < 16 && lanes[k].letter
  {
    var eight := seq(8, k requires 0 <= k < 8 => Or(lanes[k], lanes[k + 8]));
    var four := seq(4, k requires 0 <= k < 4 => Or(eight[k], eight[k + 4]));
    var two := seq(2, k requires 0 <= k < 2 => Or(four[k], four[k + 2]));
    state := Or(two[0], two[1]);
    assert eight[0] == Or(lanes[0], lanes[8]) && eight[1] == Or(lanes[1], lanes[9]) && eight[2] == Or(lanes[2], lanes[10])
        && eight[3] == Or(lanes[3], lanes[11]) && eight[4] == Or(lanes[4], lanes[12]) && eight[5] == Or(lanes[5], lanes[13])
        && eight[6] == Or(lanes[6], lanes[14]) && eight[7] == Or(lanes[7], lanes[15]);
  }

  function Flipped(s: seq<nat>, lower: bool): (t: seq<nat>)
    ensures |t| == |s|
  {
    seq(|s|, i requires 0 <= i < |s| => Flip(s[i], lower))
  }

  /** ASCII converts by flipping a bit, a block at a time; the last block overlaps
      the one before it and writes the same again. */
  method AsciiCase(into: array<nat>, from: seq<nat>, lower: bool)
    requires into.Length == |from|
    modifies into
    ensures into[..] == Flipped(from, lower)
  {
    var at := 0;
    while at + 16 <= |from|
      invariant 0 <= at <= |from| && forall i :: 0 <= i < at ==> into[i] == Flip(from[i], lower)
    {
      forall k | 0 <= k < 16 {
        into[at + k] := Flip(from[at + k], lower);
      }
      at := at + 16;
    }
    if at < |from| && |from| >= 16 {
      forall k | 0 <= k < 16 {
        into[|from| - 16 + k] := Flip(from[|from| - 16 + k], lower);
      }
    } else {
      while at < |from|
        invariant 0 <= at <= |from| && forall i :: 0 <= i < at ==> into[i] == Flip(from[i], lower)
      {
        into[at] := Flip(from[at], lower);
        at := at + 1;
      }
    }
  }

  /** A string of units that each map to one unit of one byte. */
  ghost predicate ByUnit(x: Setup, s: seq<nat>, t: seq<nat>)
    requires Ready(x) && Units(s)
  {
    && |t| == |s|
    && forall i :: 0 <= i < |s| ==> s[i] <= 255 && t[i] <= 255 && MapOf(x.m, s[i]) == [t[i]]
  }

  lemma {:induction false} RestByUnit(x: Setup, s: seq<nat>, t: seq<nat>, at: nat)
    requires Ready(x) && Units(s) && ByUnit(x, s, t) && at <= |s|
    ensures Boundary(s, at) && Rest(x, s, at) == t[at..]
    decreases |s| - at
  {
    hide Ready, Rest, Maps, CountTo, DecodeFrom, EncodeAll;
    assert Boundary(s, at);
    if at == |s| {
      RestEnd(x, s);
    } else {
      MapsByUnit(x, s, t, at);
      RestStep(x, s, at);
      MapsWidth(x, s, at);
      RestByUnit(x, s, t, at + 1);
      assert t[at..] == [t[at]] + t[at + 1..];
    }
  }

  lemma MapsByUnit(x: Setup, s: seq<nat>, t: seq<nat>, at: nat)
    requires Ready(x) && Units(s) && ByUnit(x, s, t) && at < |s| && Boundary(s, at)
    ensures Maps(x, s, at) == [t[at]] && WidthAt(s, at) == 1
  {
    PointIs(s, at);
  }

  lemma RightByUnit(x: Setup, s: seq<nat>, t: seq<nat>)
    requires Ready(x) && Units(s) && ByUnit(x, s, t)
    ensures t == s ==> Right(x, s, Same)
    ensures t != s ==> Right(x, s, Made(t, false))
  {
    RestByUnit(x, s, t, 0);
    assert t[0..] == t;
  }

  lemma AsciiByUnit(x: Setup, s: seq<nat>)
    requires Ready(x) && Units(s) && forall i :: 0 <= i < |s| ==> s[i] < 128
    ensures ByUnit(x, s, Flipped(s, x.lower))
    ensures Flipped(s, x.lower) == s <==> forall i :: 0 <= i < |s| ==> !Letter(s[i], x.lower)
  {
    forall i | 0 <= i < |s|
      ensures MapOf(x.m, s[i]) == [Flip(s[i], x.lower)] && Flip(s[i], x.lower) <= 255
      ensures Letter(s[i], x.lower) <==> Flip(s[i], x.lower) != s[i]
    {
      assert !Escapes(s[i], x.lower);
      Xor16Back(s[i], 32);
      Xor16Back(s[i], s[i]);
    }
    assert (forall i :: 0 <= i < |s| ==> !Letter(s[i], x.lower)) ==> Flipped(s, x.lower) == s;
    assert forall i :: 0 <= i < |s| && Letter(s[i], x.lower) ==> Flipped(s, x.lower)[i] != s[i];
  }

  function ByTable(t: Tables, s: seq<nat>): (r: seq<nat>)
    requires |t.latin1| == 256 && forall i :: 0 <= i < |s| ==> s[i] <= 255
  {
    seq(|s|, i requires 0 <= i < |s| => t.latin1[s[i]])
  }

  lemma Latin1ByUnit(x: Setup, s: seq<nat>)
    requires Ready(x) && Units(s) && !Wide(s) && forall i :: 0 <= i < |s| ==> !Escapes(s[i], x.lower)
    ensures |x.t.latin1| == 256 && (forall i :: 0 <= i < |s| ==> s[i] <= 255) && ByUnit(x, s, ByTable(x.t, s))
  {
  }

  /** The three one-byte characters whose uppercase leaves one byte. */
  method UpperEscapes(s: seq<nat>) returns (found: bool)
    ensures found <==> exists i :: 0 <= i < |s| && s[i] in {0xB5, 0xDF, 0xFF}
  {
    found := 0xB5 in s || 0xDF in s || 0xFF in s;
  }

  method Latin1FirstChange(s: seq<nat>, table: seq<nat>) returns (at: nat)
    requires |table| == 256 && forall i :: 0 <= i < |s| ==> s[i] <= 255
    ensures at <= |s| && (forall i :: 0 <= i < at ==> table[s[i]] == s[i]) && (at < |s| ==> table[s[at]] != s[at])
  {
    at := 0;
    while at < |s|
      invariant at <= |s| && forall i :: 0 <= i < at ==> table[s[i]] == s[i]
    {
      if table[s[at]] != s[at] {
        return;
      }
      at := at + 1;
    }
  }

  /** Whether two-byte text is ASCII only, and whether a letter would change. */
  method TwoByteAscii(s: seq<nat>, lower: bool) returns (ascii: bool, needed: bool)
    ensures ascii <==> forall i :: 0 <= i < |s| ==> s[i] < 128
    ensures ascii ==> (needed <==> exists i :: 0 <= i < |s| && Letter(s[i], lower))
  {
    needed := false;
    for at := 0 to |s|
      invariant forall i :: 0 <= i < at ==> s[i] < 128
      invariant needed <==> exists i :: 0 <= i < at && Letter(s[i], lower)
    {
      if s[at] >= 128 {
        return false, needed;
      }
      needed := needed || Letter(s[at], lower);
    }
    return true, needed;
  }

  /** One-byte text by its table: what does not change is copied. */
  method FillByTable(x: Setup, s: seq<nat>, first: nat) returns (into: array<nat>)
    requires Ready(x) && first <= |s| && !Wide(s)
    requires forall i :: 0 <= i < first ==> x.t.latin1[s[i]] == s[i]
    ensures fresh(into) && into[..] == ByTable(x.t, s)
  {
    into := new nat[|s|];
    PutAll(into, true, 0, s[..first]);
    assert into[..0 + |s[..first]|] == s[..first];
    for at := first to |s|
      invariant forall i :: 0 <= i < at ==> into[i] == x.t.latin1[s[i]]
    {
      into[at] := x.t.latin1[s[at]];
    }
    assert into[..] == ByTable(x.t, s);
  }

  /** ASCII text, whatever its width, letter by letter. */
  method FillFlipped(s: seq<nat>, lower: bool) returns (into: array<nat>)
    ensures fresh(into) && into[..] == Flipped(s, lower)
  {
    into := new nat[|s|];
    for at := 0 to |s|
      invariant forall i :: 0 <= i < at ==> into[i] == Flip(s[i], lower)
    {
      into[at] := Flip(s[at], lower);
    }
    assert into[..] == Flipped(s, lower);
  }

  /** toLowerCase and toUpperCase: the very string when nothing changes, and
      otherwise what its code points map to, in one byte a unit when it fits. */
  method Convert(x: Setup, s: seq<nat>, twoByte: bool) returns (r: Answer)
    requires Ready(x) && Units(s) && (!twoByte ==> !Wide(s))
    ensures Points(Decode(s))
    ensures r == Same <==> Converted(x.m, x.p, x.lower, Decode(s), 0) == s
    ensures r.Made? ==>
              && r.units == Converted(x.m, x.p, x.lower, Decode(s), 0)
              && (r.twoByte <==> exists i :: 0 <= i < |r.units| && r.units[i] > 255)
    ensures |s| <= 2147483646 ==>
              (r == Refused <==> r != Same && |Converted(x.m, x.p, x.lower, Decode(s), 0)| > 2147483646)
  {
    hide Ready, Right, ByUnit, Letter, Converted, Decode;
    RightIs(x, s);
    if !twoByte {
      var state := AsciiState(s, x.lower);
      if !state.above {
        AsciiByUnit(x, s);
        RightByUnit(x, s, Flipped(s, x.lower));
        if !state.letter {
          return Same;
        }
        var into := new nat[|s|];
        AsciiCase(into, s, x.lower);
        return Made(into[..], false);
      }
      var escapes := false;
      if !x.lower {
        escapes := UpperEscapes(s);
      }
      if x.lower || !escapes {
        NoEscapes(x.lower, s);
        Latin1ByUnit(x, s);
        RightByUnit(x, s, ByTable(x.t, s));
        var first := Latin1FirstChange(s, x.t.latin1);
        if first == |s| {
          assert ByTable(x.t, s) == s;
          return Same;
        }
        assert ByTable(x.t, s)[first] != s[first];
        var into := FillByTable(x, s, first);
        return Made(into[..], false);
      }
    } else {
      var ascii, needed := TwoByteAscii(s, x.lower);
      if ascii {
        AsciiByUnit(x, s);
        RightByUnit(x, s, Flipped(s, x.lower));
        if !needed {
          return Same;
        }
        var into := FillFlipped(s, x.lower);
        return Made(into[..], false);
      }
    }
    r := Route(x, s, twoByte);
  }

  lemma NoEscapes(lower: bool, s: seq<nat>)
    requires lower || !exists i :: 0 <= i < |s| && s[i] in {0xB5, 0xDF, 0xFF}
    ensures forall i :: 0 <= i < |s| ==> !Escapes(s[i], lower)
  {
  }
}
