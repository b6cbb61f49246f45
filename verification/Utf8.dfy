/** UTF-8: what a string is written as, and the WHATWG decoder, byte by byte. */
module Utf8 {
  import opened Basics
  import opened Utf16

  const REPLACEMENT: nat := 0xFFFD

  predicate Scalar(c: nat) { c <= 0x10_FFFF && !Surrogate(c) }

  predicate Bytes(b: seq<nat>) {
    forall i :: 0 <= i < |b| ==> b[i] < 256
  }

  // ---- writing ----

  /** The bytes of a scalar value (RFC 3629 section 3). */
  function BytesOf(c: nat): (b: seq<nat>)
    requires Scalar(c)
    ensures 1 <= |b| <= 4 && Bytes(b)
  {
    if c < 0x80 then [c]
    else if c < 0x800 then [0xC0 + c / 64, 0x80 + c % 64]
    else if c < 0x1_0000 then [0xE0 + c / 64 / 64, 0x80 + c / 64 % 64, 0x80 + c % 64]
    else [0xF0 + c / 64 / 64 / 64, 0x80 + c / 64 / 64 % 64, 0x80 + c / 64 % 64, 0x80 + c % 64]
  }

  /** A lone surrogate is written as U+FFFD. */
  function Scalars(c: nat): nat {
    if 0xD800 <= c <= 0xDFFF then REPLACEMENT else c
  }

  lemma PointScalar(s: seq<nat>, at: nat)
    requires Units(s) && at < |s|
    ensures Scalar(Scalars(PointAt(s, at)))
  {
  }

  /** The string from `at` on, as UTF-8. */
  function Written(s: seq<nat>, at: nat): (b: seq<nat>)
    requires Units(s) && at <= |s|
    ensures Bytes(b) && |b| <= 3 * (|s| - at)
    decreases |s| - at
  {
    if at == |s| then []
    else
      PointScalar(s, at);
      BytesOf(Scalars(PointAt(s, at))) + Written(s, at + WidthAt(s, at))
  }

  /** The same string with every lone surrogate replaced. */
  function WellFormedFrom(s: seq<nat>, at: nat): (t: seq<nat>)
    requires Units(s) && at <= |s|
    ensures |t| == |s| - at && Units(t)
    decreases |s| - at
  {
    if at == |s| then []
    else if Paired(s, at) then [s[at], s[at + 1]] + WellFormedFrom(s, at + 2)
    else [Scalars(s[at])] + WellFormedFrom(s, at + 1)
  }

  method ToWellFormed(s: seq<nat>) returns (into: array<nat>)
    requires Units(s)
    ensures into[..] == WellFormedFrom(s, 0)
  {
    hide *;
    into := new nat[|s|];
    var i := 0;
    WellFormedStep(s, 0);
    while i < |s|
      invariant 0 <= i <= |s| && into[..i] + WellFormedFrom(s, i) == WellFormedFrom(s, 0)
    {
      ghost var done := into[..i];
      WellFormedStep(s, i);
      if i + 1 < |s| && 0xD800 <= s[i] <= 0xDBFF && 0xDC00 <= s[i + 1] <= 0xDFFF {
        into[i] := s[i];
        into[i + 1] := s[i + 1];
        assert into[..i + 2] == done + [s[i], s[i + 1]];
        Appends(done, [s[i], s[i + 1]], WellFormedFrom(s, i + 2), WellFormedFrom(s, 0));
        i := i + 2;
      } else {
        into[i] := if 0xD800 <= s[i] <= 0xDFFF then 0xFFFD else s[i];
        assert into[..i + 1] == done + [Scalars(s[i])];
        Appends(done, [Scalars(s[i])], WellFormedFrom(s, i + 1), WellFormedFrom(s, 0));
        i := i + 1;
      }
    }
    WellFormedStep(s, i);
    assert into[..i] == into[..];
  }

  lemma WellFormedStep(s: seq<nat>, at: nat)
    requires Units(s) && at <= |s|
    ensures WellFormedFrom(s, |s|) == []
    ensures at + 1 < |s| && 0xD800 <= s[at] <= 0xDBFF && 0xDC00 <= s[at + 1] <= 0xDFFF ==>
              WellFormedFrom(s, at) == [s[at], s[at + 1]] + WellFormedFrom(s, at + 2)
    ensures at < |s| && !(at + 1 < |s| && 0xD800 <= s[at] <= 0xDBFF && 0xDC00 <= s[at + 1] <= 0xDFFF) ==>
              WellFormedFrom(s, at) == [Scalars(s[at])] + WellFormedFrom(s, at + 1)
    ensures at < |s| ==> Scalars(s[at]) == if 0xD800 <= s[at] <= 0xDFFF then 0xFFFD else s[at]
  {
  }

  /** A surrogate whose partner is not beside it. */
  ghost predicate Lone(s: seq<nat>, i: nat)
    requires i < |s|
  {
    Surrogate(s[i]) && !Paired(s, i) && !(i > 0 && Paired(s, i - 1))
  }

  /** Unit by unit: the lone surrogates are replaced, and nothing else. */
  lemma {:induction false} WellFormedAt(s: seq<nat>, at: nat, i: nat)
    requires Units(s) && Boundary(s, at) && at <= i < |s|
    ensures WellFormedFrom(s, at)[i - at] == if Lone(s, i) then REPLACEMENT else s[i]
    decreases |s| - at
  {
    if Paired(s, at) {
      if i >= at + 2 {
        WellFormedAt(s, at + 2, i);
      }
    } else if i > at {
      WellFormedAt(s, at + 1, i);
    }
  }

  /** Well-formed text is its own well-formed form. */
  lemma {:induction false} WellFormedStays(s: seq<nat>, at: nat)
    requires Units(s) && at <= |s|
    ensures var t := WellFormedFrom(s, at); WellFormedFrom(t, 0) == t
    decreases |s| - at
  {
    if at < |s| {
      var w := WidthAt(s, at);
      var t, rest := WellFormedFrom(s, at), WellFormedFrom(s, at + w);
      WellFormedStays(s, at + w);
      if w == 2 {
        assert t == [s[at], s[at + 1]] + rest;
        WellFormedBehind([s[at], s[at + 1]], rest, 0);
        assert Paired(t, 0);
      } else {
        assert t == [Scalars(s[at])] + rest;
        WellFormedBehind([Scalars(s[at])], rest, 0);
        HeadNotLow(s, at);
      }
    }
  }

  /** A unit that is kept alone is no high surrogate, so nothing pairs with it. */
  lemma HeadNotLow(s: seq<nat>, at: nat)
    requires Units(s) && at < |s| && !Paired(s, at)
    ensures var t := WellFormedFrom(s, at); |t| > 0 && !Paired(t, 0) && Scalars(t[0]) == t[0]
  {
  }

  lemma {:induction false} WellFormedBehind(a: seq<nat>, t: seq<nat>, at: nat)
    requires Units(a) && Units(t) && at <= |t|
    ensures WellFormedFrom(a + t, |a| + at) == WellFormedFrom(t, at)
    decreases |t| - at
  {
    hide *;
    var u := a + t;
    UnitsBehind(a, t);
    WellFormedStep(u, |a| + at);
    WellFormedStep(t, at);
    if at < |t| {
      assert u[|a| + at] == t[at] && (at + 1 < |t| ==> u[|a| + at + 1] == t[at + 1]);
      WellFormedBehind(a, t, at + 1);
      if at + 1 < |t| {
        WellFormedBehind(a, t, at + 2);
      }
    }
  }

  lemma UnitsBehind(a: seq<nat>, t: seq<nat>)
    requires Units(a) && Units(t)
    ensures Units(a + t)
  {
  }

  /** The bytes as they are put out, one code point at a time; a C string cannot
      hold U+0000. */
  method WriteUtf8(s: seq<nat>, cString: bool, out: array<nat>) returns (n: Option<nat>)
    requires Units(s) && out.Length >= 3 * |s|
    modifies out
    ensures n.None? <==> cString && 0 in s
    ensures n.Some? ==> n.value == |Written(s, 0)| && n.value <= out.Length && out[..n.value] == Written(s, 0)
  {
    hide *;
    var length := 0;
    var at := 0;
    WrittenStep(s, 0);
    while at < |s|
      invariant 0 <= at <= |s| && 0 <= length <= 3 * at && (cString ==> 0 !in s[..at])
      invariant out[..length] + Written(s, at) == Written(s, 0)
    {
      if s[at] == 0 && cString {
        assert s[at] in s;
        return None;
      }
      WrittenStep(s, at);
      var w := WidthAt(s, at);
      var point := Scalars(PointAt(s, at));
      ghost var done := out[..length];
      length := PutBytes(point, out, length);
      Appends(done, BytesOf(point), Written(s, at + w), Written(s, 0));
      NoZero(s, at, w);
      at := at + w;
    }
    WrittenStep(s, at);
    assert s[..|s|] == s;
    return Some(length);
  }

  lemma NoZero(s: seq<nat>, at: nat, w: nat)
    requires at + w <= |s|
    ensures 0 !in s[..at] && 0 !in s[at..at + w] ==> 0 !in s[..at + w]
  {
    assert s[..at + w] == s[..at] + s[at..at + w];
  }

  lemma WrittenStep(s: seq<nat>, at: nat)
    requires Units(s) && at <= |s|
    ensures Written(s, |s|) == []
    ensures at < |s| ==>
              var w, point := WidthAt(s, at), Scalars(PointAt(s, at));
              && Scalar(point) && at + w <= |s| && 1 <= w <= 2 && Written(s, at) == BytesOf(point) + Written(s, at + w)
              && |BytesOf(point)| <= 3 * w && (s[at] != 0 ==> 0 !in s[at..at + w]) && (s[at] == 0 ==> w == 1)
  {
    if at < |s| {
      PointScalar(s, at);
      assert WidthAt(s, at) == 2 ==> s[at..at + 2] == [s[at], s[at + 1]];
    }
  }

  method PutBytes(point: nat, out: array<nat>, n: nat) returns (end: nat)
    requires Scalar(point) && n + |BytesOf(point)| <= out.Length
    modifies out
    ensures end == n + |BytesOf(point)| && out[..end] == old(out[..n]) + BytesOf(point)
  {
    end := n;
    if point < 0x80 {
      out[end] := point;
      end := end + 1;
    } else if point < 0x800 {
      out[end] := 0xC0 + point / 64;
      out[end + 1] := 0x80 + point % 64;
      end := end + 2;
    } else if point < 0x1_0000 {
      out[end] := 0xE0 + point / 64 / 64;
      out[end + 1] := 0x80 + point / 64 % 64;
      out[end + 2] := 0x80 + point % 64;
      end := end + 3;
    } else {
      out[end] := 0xF0 + point / 64 / 64 / 64;
      out[end + 1] := 0x80 + point / 64 / 64 % 64;
      out[end + 2] := 0x80 + point / 64 % 64;
      out[end + 3] := 0x80 + point % 64;
      end := end + 4;
    }
  }

  // ---- what a lead byte asks for ----

  /** How many bytes have to follow, and what the first of them may be. */
  datatype Lead = Lead(needed: nat, lower: nat, upper: nat, bits: nat)

  function LeadOf(b: nat): Option<Lead> {
    if 0xC2 <= b <= 0xDF then Some(Lead(1, 0x80, 0xBF, b % 32))
    else if 0xE0 <= b <= 0xEF then
      Some(Lead(2, if b == 0xE0 then 0xA0 else 0x80, if b == 0xED then 0x9F else 0xBF, b % 16))
    else if 0xF0 <= b <= 0xF4 then
      Some(Lead(3, if b == 0xF0 then 0x90 else 0x80, if b == 0xF4 then 0x8F else 0xBF, b % 8))
    else None
  }

  /** How many of the bytes after a lead continue it, at most as many as it asks
      for: the rest of its longest well-formed prefix. */
  function Continues(b: seq<nat>, at: nat, lead: Lead): (n: nat)
    requires at <= |b|
    ensures n <= lead.needed && at + n <= |b|
    decreases lead.needed
  {
    if lead.needed == 0 || at == |b| || !(lead.lower <= b[at] <= lead.upper) then 0
    else 1 + Continues(b, at + 1, Lead(lead.needed - 1, 0x80, 0xBF, 0))
  }

  /** Six bits a byte. */
  function Value(b: seq<nat>, at: nat, n: nat, bits: nat): nat
    requires at + n <= |b|
    decreases n
  {
    if n == 0 then bits else Value(b, at + 1, n - 1, bits * 64 + b[at] % 64)
  }

  /** The reference: a well-formed sequence is its scalar value; anything else is
      one U+FFFD for its longest well-formed prefix, or for the one byte that
      starts nothing. */
  function Decoded(b: seq<nat>, at: nat): (units: seq<nat>)
    requires at <= |b|
    decreases |b| - at
  {
    if at == |b| then []
    else if b[at] < 0x80 then [b[at]] + Decoded(b, at + 1)
    else match LeadOf(b[at])
      case None => [REPLACEMENT] + Decoded(b, at + 1)
      case Some(lead) =>
        var n := Continues(b, at + 1, lead);
        if n < lead.needed then [REPLACEMENT] + Decoded(b, at + 1 + n)
        else Pair(Value(b, at + 1, n, lead.bits)) + Decoded(b, at + 1 + n)
  }

  /** UTF-16 for a code point, as the decoder puts it. */
  function Pair(c: nat): seq<nat> {
    if c > 0xFFFF then [0xD800 + (c - 0x1_0000) / 1024, 0xDC00 + (c - 0x1_0000) % 1024] else [c]
  }

  // ---- the decoder ----

  /** Where the decoder stands inside a sequence that started at `start`. */
  ghost predicate Inside(b: seq<nat>, at: nat, start: nat, lead: Lead, needed: nat, seen: nat, point: nat, lower: nat, upper: nat) {
    && start < at <= |b| && b[start] >= 0x80 && LeadOf(b[start]) == Some(lead)
    && needed == lead.needed && seen == at - start - 1 < needed
    && lower == (if seen == 0 then lead.lower else 0x80) && upper == (if seen == 0 then lead.upper else 0xBF)
    && Continues(b, start + 1, lead) == seen + Continues(b, at, Lead(needed - seen, lower, upper, 0))
    && Continues(b, start + 1, lead) >= seen
    && point == Value(b, start + 1, seen, lead.bits)
  }

  lemma {:induction false} ValueNext(b: seq<nat>, at: nat, n: nat, bits: nat)
    requires at + n < |b|
    ensures Value(b, at, n + 1, bits) == Value(b, at, n, bits) * 64 + b[at + n] % 64
    decreases n
  {
    if n > 0 {
      ValueNext(b, at + 1, n - 1, bits * 64 + b[at] % 64);
    }
  }

  lemma ContinuesBits(b: seq<nat>, at: nat, lead: Lead, bits: nat)
    requires at <= |b|
    ensures Continues(b, at, lead) == Continues(b, at, lead.(bits := bits))
  {
  }

  /** A lead byte begins a sequence. */
  lemma Begins(b: seq<nat>, start: nat, lead: Lead)
    requires start < |b| && b[start] >= 0x80 && LeadOf(b[start]) == Some(lead)
    ensures Inside(b, start + 1, start, lead, lead.needed, 0, lead.bits, lead.lower, lead.upper)
  {
    ContinuesBits(b, start + 1, lead, 0);
  }

  /** A byte that breaks the sequence, or the end: one replacement, and the byte
      is read again. */
  lemma Breaks(b: seq<nat>, at: nat, start: nat, lead: Lead, needed: nat, seen: nat, point: nat, lower: nat, upper: nat)
    requires Inside(b, at, start, lead, needed, seen, point, lower, upper)
    requires at == |b| || b[at] < lower || b[at] > upper
    ensures Decoded(b, start) == [REPLACEMENT] + Decoded(b, at)
  {
    assert Continues(b, at, Lead(needed - seen, lower, upper, 0)) == 0;
  }

  lemma Goes(b: seq<nat>, at: nat, start: nat, lead: Lead, needed: nat, seen: nat, point: nat, lower: nat, upper: nat)
    requires Inside(b, at, start, lead, needed, seen, point, lower, upper)
    requires at < |b| && lower <= b[at] <= upper
    ensures var p := point * 64 + b[at] % 64;
            if seen + 1 == needed then Decoded(b, start) == Pair(p) + Decoded(b, at + 1)
            else Inside(b, at + 1, start, lead, needed, seen + 1, p, 0x80, 0xBF)
  {
    hide Value, Decoded, Pair, LeadOf, Continues;
    ValueNext(b, start + 1, seen, lead.bits);
    ContinuesNext(b, at, Lead(needed - seen, lower, upper, 0));
    if seen + 1 == needed {
      NoMore(b, at + 1, Lead(0, 0x80, 0xBF, 0));
      DecodedWhole(b, start, lead);
    }
  }

  lemma ContinuesNext(b: seq<nat>, at: nat, lead: Lead)
    requires at < |b| && lead.needed > 0 && lead.lower <= b[at] <= lead.upper
    ensures Continues(b, at, lead) == 1 + Continues(b, at + 1, Lead(lead.needed - 1, 0x80, 0xBF, 0))
  {
  }

  lemma DecodedWhole(b: seq<nat>, start: nat, lead: Lead)
    requires start < |b| && b[start] >= 0x80 && LeadOf(b[start]) == Some(lead) && Continues(b, start + 1, lead) == lead.needed
    ensures start + 1 + lead.needed <= |b|
    ensures Decoded(b, start) == Pair(Value(b, start + 1, lead.needed, lead.bits)) + Decoded(b, start + 1 + lead.needed)
  {
  }

  lemma NoMore(b: seq<nat>, at: nat, lead: Lead)
    requires at <= |b| && lead.needed == 0
    ensures Continues(b, at, lead) == 0
  {
  }

  lemma DecodedStep(b: seq<nat>, at: nat)
    requires at <= |b|
    ensures Decoded(b, |b|) == []
    ensures at < |b| && b[at] < 0x80 ==> Decoded(b, at) == [b[at]] + Decoded(b, at + 1)
    ensures at < |b| && b[at] >= 0x80 && LeadOf(b[at]).None? ==> Decoded(b, at) == [REPLACEMENT] + Decoded(b, at + 1)
  {
  }

  /** The leading ASCII bytes are copied. */
  lemma {:induction false} DecodedAscii(b: seq<nat>, n: nat)
    requires n <= |b| && forall i :: 0 <= i < n ==> b[i] < 0x80
    ensures Decoded(b, 0) == b[..n] + Decoded(b, n)
  {
    if n > 0 {
      DecodedAscii(b, n - 1);
      DecodedStep(b, n - 1);
      assert b[..n] == b[..n - 1] + [b[n - 1]];
      assert (b[..n - 1] + [b[n - 1]]) + Decoded(b, n) == b[..n - 1] + ([b[n - 1]] + Decoded(b, n));
    }
  }

  /** Appending what a step put out. */
  lemma Appends(done: seq<nat>, more: seq<nat>, rest: seq<nat>, whole: seq<nat>)
    requires done + (more + rest) == whole
    ensures (done + more) + rest == whole
  {
    assert (done + more) + rest == done + (more + rest);
  }

  /** WHATWG's UTF-8 decode: at most a unit a byte. */
  method Decode8(b: seq<nat>) returns (units: seq<nat>)
    requires Bytes(b)
    ensures units == Decoded(b, 0) && |units| <= |b|
  {
    hide *;
    var ascii := 0;
    while ascii < |b| && b[ascii] < 0x80
      invariant 0 <= ascii <= |b| && forall i :: 0 <= i < ascii ==> b[i] < 0x80
    {
      ascii := ascii + 1;
    }
    DecodedAscii(b, ascii);
    DecodedStep(b, |b|);
    if ascii == |b| {
      return b;
    }
    units := b[..ascii];
    var point, needed, seen, lower, upper := 0, 0, 0, 0x80, 0xBF;
    var at := ascii;
    ghost var start: nat, lead := at, Lead(0, 0, 0, 0);
    while at < |b|
      invariant 0 <= at <= |b| && 0 <= start <= at && 0 <= needed && 0 <= seen && 0 <= lower && 0 <= upper && 0 <= point
      invariant units + Decoded(b, start) == Decoded(b, 0) && |units| <= start
      invariant if needed == 0 then start == at && seen == 0 && point == 0 && lower == 0x80 && upper == 0xBF
                else Inside(b, at, start, lead, needed, seen, point, lower, upper)
      decreases |b| - at, needed
    {
      var byte := b[at];
      DecodedStep(b, at);
      LeadIs(byte);
      if needed == 0 {
        at := at + 1;
        if byte <= 0x7F {
          Appends(units, [byte], Decoded(b, at), Decoded(b, 0));
          units := units + [byte];
          start := at;
        } else if 0xC2 <= byte <= 0xDF {
          needed := 1;
          point := byte % 32;
          lead := Lead(1, 0x80, 0xBF, point);
          Begins(b, start, lead);
        } else if 0xE0 <= byte <= 0xEF {
          if byte == 0xE0 {
            lower := 0xA0;
          } else if byte == 0xED {
            upper := 0x9F;
          }
          needed := 2;
          point := byte % 16;
          lead := Lead(2, lower, upper, point);
          Begins(b, start, lead);
        } else if 0xF0 <= byte <= 0xF4 {
          if byte == 0xF0 {
            lower := 0x90;
          } else if byte == 0xF4 {
            upper := 0x8F;
          }
          needed := 3;
          point := byte % 8;
          lead := Lead(3, lower, upper, point);
          Begins(b, start, lead);
        } else {
          Appends(units, [0xFFFD], Decoded(b, at), Decoded(b, 0));
          units := units + [0xFFFD];
          start := at;
        }
        continue;
      }
      if byte < lower || byte > upper {
        Breaks(b, at, start, lead, needed, seen, point, lower, upper);
        StartBehind(b, at, start, lead, needed, seen, point, lower, upper);
        Appends(units, [0xFFFD], Decoded(b, at), Decoded(b, 0));
        needed, seen, point, lower, upper := 0, 0, 0, 0x80, 0xBF;
        units := units + [0xFFFD];
        start := at;
        continue;
      }
      Goes(b, at, start, lead, needed, seen, point, lower, upper);
      StartBehind(b, at, start, lead, needed, seen, point, lower, upper);
      at := at + 1;
      lower, upper := 0x80, 0xBF;
      point := point * 64 + byte % 64;
      seen := seen + 1;
      if seen != needed {
        continue;
      }
      PairIs(point);
      Appends(units, Pair(point), Decoded(b, at), Decoded(b, 0));
      if point > 0xFFFF {
        units := units + [0xD800 + (point - 0x1_0000) / 1024, 0xDC00 + (point - 0x1_0000) % 1024];
      } else {
        units := units + [point];
      }
      needed, seen, point := 0, 0, 0;
      start := at;
    }
    if needed != 0 {
      Breaks(b, at, start, lead, needed, seen, point, lower, upper);
      StartBehind(b, at, start, lead, needed, seen, point, lower, upper);
      units := units + [0xFFFD];
    }
  }

  lemma LeadIs(b: nat)
    ensures LeadOf(b) == if 0xC2 <= b <= 0xDF then Some(Lead(1, 0x80, 0xBF, b % 32))
                         else if 0xE0 <= b <= 0xEF then Some(Lead(2, if b == 0xE0 then 0xA0 else 0x80, if b == 0xED then 0x9F else 0xBF, b % 16))
                         else if 0xF0 <= b <= 0xF4 then Some(Lead(3, if b == 0xF0 then 0x90 else 0x80, if b == 0xF4 then 0x8F else 0xBF, b % 8))
                         else None
    ensures REPLACEMENT == 0xFFFD
  {
  }

  lemma StartBehind(b: seq<nat>, at: nat, start: nat, lead: Lead, needed: nat, seen: nat, point: nat, lower: nat, upper: nat)
    requires Inside(b, at, start, lead, needed, seen, point, lower, upper)
    ensures start < at <= |b| && at == start + 1 + seen && seen < needed && REPLACEMENT == 0xFFFD
    ensures needed == lead.needed
  {
  }

  lemma PairIs(c: nat)
    ensures Pair(c) == if c > 0xFFFF then [0xD800 + (c - 0x1_0000) / 1024, 0xDC00 + (c - 0x1_0000) % 1024] else [c]
  {
  }

  // ---- what it accepts, and the round trip ----

  predicate Tail(byte: nat) { 0x80 <= byte <= 0xBF }

  predicate Second(lead: Lead, byte: nat) { lead.lower <= byte <= lead.upper }

  lemma Continues1(b: seq<nat>, at: nat, lead: Lead)
    requires at <= |b| && lead.needed == 1
    ensures Continues(b, at, lead) == 1 <==> at + 1 <= |b| && Second(lead, b[at])
  {
  }

  lemma Continues2(b: seq<nat>, at: nat, lead: Lead)
    requires at <= |b| && lead.needed == 2
    ensures Continues(b, at, lead) == 2 <==> at + 2 <= |b| && Second(lead, b[at]) && Tail(b[at + 1])
  {
    if at < |b| {
      Continues1(b, at + 1, Lead(1, 0x80, 0xBF, 0));
    }
  }

  lemma Continues3(b: seq<nat>, at: nat, lead: Lead)
    requires at <= |b| && lead.needed == 3
    ensures Continues(b, at, lead) == 3 <==> at + 3 <= |b| && Second(lead, b[at]) && Tail(b[at + 1]) && Tail(b[at + 2])
  {
    if at < |b| {
      Continues2(b, at + 1, Lead(2, 0x80, 0xBF, 0));
    }
  }

  lemma Accepts1(b: seq<nat>, at: nat, lead: Lead)
    requires Bytes(b) && at < |b| && LeadOf(b[at]) == Some(lead) && lead.needed == 1
    requires Continues(b, at + 1, lead) == 1
    ensures at + 2 <= |b| && Scalar(Value(b, at + 1, 1, lead.bits)) && b[at..at + 2] == BytesOf(Value(b, at + 1, 1, lead.bits))
  {
    hide Continues, Value, BytesOf, Scalar, LeadOf;
    LeadIs(b[at]);
    Continues1(b, at + 1, lead);
    Two(b[at], b[at + 1]);
    Value1(b, at + 1, lead.bits);
    assert b[at..at + 2] == [b[at], b[at + 1]];
  }

  lemma Accepts2(b: seq<nat>, at: nat, lead: Lead)
    requires Bytes(b) && at < |b| && LeadOf(b[at]) == Some(lead) && lead.needed == 2
    requires Continues(b, at + 1, lead) == 2
    ensures at + 3 <= |b| && Scalar(Value(b, at + 1, 2, lead.bits)) && b[at..at + 3] == BytesOf(Value(b, at + 1, 2, lead.bits))
  {
    hide Continues, Value, BytesOf, Scalar, LeadOf;
    LeadIs(b[at]);
    Continues2(b, at + 1, lead);
    Three(b[at], b[at + 1], b[at + 2]);
    Value2(b, at + 1, lead.bits);
    assert b[at..at + 3] == [b[at], b[at + 1], b[at + 2]];
  }

  lemma Accepts3(b: seq<nat>, at: nat, lead: Lead)
    requires Bytes(b) && at < |b| && LeadOf(b[at]) == Some(lead) && lead.needed == 3
    requires Continues(b, at + 1, lead) == 3
    ensures at + 4 <= |b| && Scalar(Value(b, at + 1, 3, lead.bits)) && b[at..at + 4] == BytesOf(Value(b, at + 1, 3, lead.bits))
  {
    hide Continues, Value, BytesOf, Scalar, LeadOf;
    LeadIs(b[at]);
    Continues3(b, at + 1, lead);
    Four(b[at], b[at + 1], b[at + 2], b[at + 3]);
    Value3(b, at + 1, lead.bits);
    assert b[at..at + 4] == [b[at], b[at + 1], b[at + 2], b[at + 3]];
  }

  /** A sequence is accepted exactly when it is the bytes of a scalar value: no
      overlong form, no surrogate, nothing past U+10FFFF. */
  lemma AcceptsExactly(b: seq<nat>, at: nat)
    requires Bytes(b) && at < |b| && b[at] >= 0x80 && LeadOf(b[at]).Some?
    requires var lead := LeadOf(b[at]).value; Continues(b, at + 1, lead) == lead.needed
    ensures var lead := LeadOf(b[at]).value;
            var c := Value(b, at + 1, lead.needed, lead.bits);
            Scalar(c) && b[at..at + 1 + lead.needed] == BytesOf(c)
  {
    hide *;
    LeadIs(b[at]);
    var lead := LeadOf(b[at]).value;
    if lead.needed == 1 {
      Accepts1(b, at, lead);
    } else if lead.needed == 2 {
      Accepts2(b, at, lead);
    } else {
      Accepts3(b, at, lead);
    }
  }

  lemma Value1(b: seq<nat>, at: nat, bits: nat)
    requires at + 1 <= |b|
    ensures Value(b, at, 1, bits) == bits * 64 + b[at] % 64
  {
  }

  lemma Value2(b: seq<nat>, at: nat, bits: nat)
    requires at + 2 <= |b|
    ensures Value(b, at, 2, bits) == (bits * 64 + b[at] % 64) * 64 + b[at + 1] % 64
  {
    Value1(b, at + 1, bits * 64 + b[at] % 64);
  }

  lemma Value3(b: seq<nat>, at: nat, bits: nat)
    requires at + 3 <= |b|
    ensures Value(b, at, 3, bits) == ((bits * 64 + b[at] % 64) * 64 + b[at + 1] % 64) * 64 + b[at + 2] % 64
  {
    Value2(b, at + 1, bits * 64 + b[at] % 64);
  }

  lemma Digit(a: nat, d: nat)
    requires d < 64
    ensures (a * 64 + d) / 64 == a && (a * 64 + d) % 64 == d
  {
  }

  lemma Two(x: nat, y: nat)
    requires 0xC2 <= x <= 0xDF && Tail(y)
    ensures var c := x % 32 * 64 + y % 64; Scalar(c) && BytesOf(c) == [x, y]
  {
    Digit(x % 32, y % 64);
  }

  lemma Three(x: nat, y: nat, z: nat)
    requires 0xE0 <= x <= 0xEF && (if x == 0xE0 then 0xA0 else 0x80) <= y <= (if x == 0xED then 0x9F else 0xBF) && Tail(z)
    ensures var c := (x % 16 * 64 + y % 64) * 64 + z % 64; Scalar(c) && BytesOf(c) == [x, y, z]
  {
    hide BytesOf, Scalar;
    var p, q, r := x - 0xE0, y - 0x80, z - 0x80;
    assert x % 16 == p && y % 64 == q && z % 64 == r;
    var a := p * 64 + q;
    assert 0x20 <= a <= 0x3FF && !(0x360 <= a <= 0x37F);
    Digit(a, r);
    Digit(p, q);
    ThreeBytes(a * 64 + r, a, p, q, r);
  }

  lemma ThreeBytes(c: nat, a: nat, p: nat, q: nat, r: nat)
    requires 0x800 <= c < 0x1_0000 && !(0xD800 <= c <= 0xDFFF)
    requires c / 64 == a && c % 64 == r && a / 64 == p && a % 64 == q
    ensures Scalar(c) && BytesOf(c) == [0xE0 + p, 0x80 + q, 0x80 + r]
  {
  }

  lemma Four(x: nat, y: nat, z: nat, w: nat)
    requires 0xF0 <= x <= 0xF4 && (if x == 0xF0 then 0x90 else 0x80) <= y <= (if x == 0xF4 then 0x8F else 0xBF) && Tail(z) && Tail(w)
    ensures var c := ((x % 8 * 64 + y % 64) * 64 + z % 64) * 64 + w % 64; Scalar(c) && BytesOf(c) == [x, y, z, w]
  {
    hide BytesOf, Scalar;
    var p, q, r, t := x - 0xF0, y - 0x80, z - 0x80, w - 0x80;
    assert x % 8 == p && y % 64 == q && z % 64 == r && w % 64 == t;
    var a := p * 64 + q;
    assert 0x10 <= a <= 0x10F;
    var d := a * 64 + r;
    assert 0x400 <= d <= 0x43FF;
    Digit(d, t);
    Digit(a, r);
    Digit(p, q);
    FourBytes(d * 64 + t, d, a, p, q, r, t);
  }

  lemma FourBytes(c: nat, d: nat, a: nat, p: nat, q: nat, r: nat, t: nat)
    requires 0x1_0000 <= c <= 0x10_FFFF
    requires c / 64 == d && c % 64 == t && d / 64 == a && d % 64 == r && a / 64 == p && a % 64 == q
    ensures Scalar(c) && BytesOf(c) == [0xF0 + p, 0x80 + q, 0x80 + r, 0x80 + t]
  {
  }

  lemma Low6(x: nat)
    requires x < 64
    ensures (0x80 + x) % 64 == x
  {
  }

  lemma ThreeValue(c: nat)
    requires 0x800 <= c < 0x1_0000
    ensures var e := [0xE0 + c / 64 / 64, 0x80 + c / 64 % 64, 0x80 + c % 64];
            Value(e, 1, 2, (0xE0 + c / 64 / 64) % 16) == c
  {
    hide Value;
    var d := c / 64;
    var a := d / 64;
    var e := [0xE0 + a, 0x80 + d % 64, 0x80 + c % 64];
    assert c == d * 64 + c % 64 && d == a * 64 + d % 64 && a < 16;
    assert (0xE0 + a) % 16 == a;
    Value2(e, 1, a);
    Low6(c % 64);
    Low6(d % 64);
  }

  lemma FourValue(c: nat)
    requires 0x1_0000 <= c <= 0x10_FFFF
    ensures var e := [0xF0 + c / 64 / 64 / 64, 0x80 + c / 64 / 64 % 64, 0x80 + c / 64 % 64, 0x80 + c % 64];
            Value(e, 1, 3, (0xF0 + c / 64 / 64 / 64) % 8) == c
  {
    hide Value;
    var d := c / 64;
    var a := d / 64;
    var p := a / 64;
    var e := [0xF0 + p, 0x80 + a % 64, 0x80 + d % 64, 0x80 + c % 64];
    assert c == d * 64 + c % 64 && d == a * 64 + d % 64 && a == p * 64 + a % 64 && p <= 4;
    assert (0xF0 + p) % 8 == p;
    Value3(e, 1, p);
    Low6(c % 64);
    Low6(d % 64);
    Low6(a % 64);
  }

  /** What the bytes of a scalar value past ASCII say. */
  lemma BytesLead(c: nat)
    requires Scalar(c) && c >= 0x80
    ensures var e := BytesOf(c);
            && e[0] >= 0x80 && LeadOf(e[0]).Some?
            && var lead := LeadOf(e[0]).value;
               && lead.needed == |e| - 1 && Second(lead, e[1]) && (|e| > 2 ==> Tail(e[2])) && (|e| > 3 ==> Tail(e[3]))
  {
  }

  lemma BytesValue(c: nat)
    requires Scalar(c) && c >= 0x80
    ensures var e := BytesOf(c);
            LeadOf(e[0]).Some? && var lead := LeadOf(e[0]).value; lead.needed == |e| - 1 && Value(e, 1, lead.needed, lead.bits) == c
  {
    BytesLead(c);
    var e := BytesOf(c);
    var lead := LeadOf(e[0]).value;
    hide Value;
    if c < 0x800 {
      Value1(e, 1, lead.bits);
      assert lead.bits == c / 64 && e[1] % 64 == c % 64;
    } else if c < 0x1_0000 {
      ThreeValue(c);
    } else {
      FourValue(c);
    }
  }

  lemma {:induction false} ValueSame(b: seq<nat>, at: nat, e: seq<nat>, from: nat, n: nat, bits: nat)
    requires at + n <= |b| && from + n <= |e| && b[at..at + n] == e[from..from + n]
    ensures Value(b, at, n, bits) == Value(e, from, n, bits)
    decreases n
  {
    if n > 0 {
      assert b[at] == b[at..at + n][0] == e[from..from + n][0] == e[from];
      assert b[at + 1..at + n] == b[at..at + n][1..] == e[from..from + n][1..] == e[from + 1..from + n];
      ValueSame(b, at + 1, e, from + 1, n - 1, bits * 64 + b[at] % 64);
    }
  }

  lemma SameBytes(b: seq<nat>, at: nat, e: seq<nat>)
    requires 1 <= |e| <= 4 && at + |e| <= |b| && b[at..at + |e|] == e
    ensures b[at] == e[0] && (|e| > 1 ==> b[at + 1] == e[1]) && (|e| > 2 ==> b[at + 2] == e[2]) && (|e| > 3 ==> b[at + 3] == e[3])
  {
    var d := b[at..at + |e|];
    assert b[at] == d[0] && (|e| > 1 ==> b[at + 1] == d[1]) && (|e| > 2 ==> b[at + 2] == d[2]) && (|e| > 3 ==> b[at + 3] == d[3]);
  }

  /** The bytes of a scalar value decode to it, wherever they stand. */
  lemma DecodesOne(b: seq<nat>, at: nat, c: nat)
    requires Scalar(c) && at + |BytesOf(c)| <= |b| && b[at..at + |BytesOf(c)|] == BytesOf(c)
    ensures Decoded(b, at) == Pair(c) + Decoded(b, at + |BytesOf(c)|)
  {
    var e := BytesOf(c);
    assert b[at] == b[at..at + |e|][0];
    if c >= 0x80 {
      hide Continues, Value, BytesOf, Scalar, Pair, LeadOf, Second, Tail;
      BytesLead(c);
      BytesValue(c);
      var lead := LeadOf(e[0]).value;
      SameBytes(b, at, e);
      if lead.needed == 1 {
        Continues1(b, at + 1, lead);
      } else if lead.needed == 2 {
        Continues2(b, at + 1, lead);
      } else {
        Continues3(b, at + 1, lead);
      }
      assert b[at + 1..at + 1 + lead.needed] == b[at..at + |e|][1..] == e[1..1 + lead.needed];
      ValueSame(b, at + 1, e, 1, lead.needed, lead.bits);
    }
  }

  /** Decoding what was written for a string gives its well-formed form. */
  lemma {:induction false} RoundTripFrom(s: seq<nat>, at: nat, before: seq<nat>)
    requires Units(s) && at <= |s|
    ensures Decoded(before + Written(s, at), |before|) == WellFormedFrom(s, at)
    decreases |s| - at
  {
    hide *;
    WrittenStep(s, at);
    WellFormedStep(s, at);
    var b := before + Written(s, at);
    DecodedStep(b, |b|);
    if at < |s| {
      var w, c := WidthAt(s, at), Scalars(PointAt(s, at));
      assert b[|before|..|before| + |BytesOf(c)|] == BytesOf(c);
      DecodesOne(b, |before|, c);
      RoundTripFrom(s, at + w, before + BytesOf(c));
      assert before + (BytesOf(c) + Written(s, at + w)) == (before + BytesOf(c)) + Written(s, at + w);
      PairWellFormed(s, at);
    }
  }

  lemma PairWellFormed(s: seq<nat>, at: nat)
    requires Units(s) && at < |s|
    ensures var w := WidthAt(s, at); at + w <= |s| && WellFormedFrom(s, at) == Pair(Scalars(PointAt(s, at))) + WellFormedFrom(s, at + w)
  {
  }

  lemma RoundTrip(s: seq<nat>)
    requires Units(s)
    ensures Decoded(Written(s, 0), 0) == WellFormedFrom(s, 0)
  {
    RoundTripFrom(s, 0, []);
    assert [] + Written(s, 0) == Written(s, 0);
  }
}
