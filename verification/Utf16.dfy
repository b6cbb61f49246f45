/** UTF-16 text as sequences of units, and the code points in it: a surrogate
    without its partner is a code point of its own. */
module Utf16 {

  predicate Unit(u: nat) { u < 0x1_0000 }

  predicate High(u: nat) { 0xD800 <= u <= 0xDBFF }

  predicate Low(u: nat) { 0xDC00 <= u <= 0xDFFF }

  predicate Surrogate(u: nat) { 0xD800 <= u <= 0xDFFF }

  predicate Units(s: seq<nat>) {
    forall i :: 0 <= i < |s| ==> Unit(s[i])
  }

  /** A scalar value, or a lone surrogate. */
  predicate Point(c: nat) { c <= 0x10_FFFF }

  function Combine(high: nat, low: nat): (c: nat)
    requires High(high) && Low(low)
    ensures 0x1_0000 <= c <= 0x10_FFFF
  {
    0x1_0000 + (high - 0xD800) * 0x400 + (low - 0xDC00)
  }

  predicate Paired(s: seq<nat>, at: nat) {
    at + 1 < |s| && High(s[at]) && Low(s[at + 1])
  }

  function WidthAt(s: seq<nat>, at: nat): (w: nat)
    requires at < |s|
    ensures 1 <= w <= 2 && at + w <= |s|
  {
    if Paired(s, at) then 2 else 1
  }

  function PointAt(s: seq<nat>, at: nat): nat
    requires at < |s|
  {
    if Paired(s, at) then Combine(s[at], s[at + 1]) else s[at]
  }

  /** Where the code point that ends before at starts. */
  function StartBefore(s: seq<nat>, at: nat): (start: nat)
    requires 0 < at <= |s|
    ensures start < at <= start + 2
  {
    if at >= 2 && Low(s[at - 1]) && High(s[at - 2]) then at - 2 else at - 1
  }

  function PointBefore(s: seq<nat>, at: nat): nat
    requires 0 < at <= |s|
  {
    if at >= 2 && Low(s[at - 1]) && High(s[at - 2]) then Combine(s[at - 2], s[at - 1]) else s[at - 1]
  }

  /** at is not inside a pair. */
  predicate Boundary(s: seq<nat>, at: nat) {
    at <= |s| && (at > 0 ==> !Paired(s, at - 1))
  }

  /** The code points from at on. */
  function DecodeFrom(s: seq<nat>, at: nat): seq<nat>
    requires at <= |s|
    decreases |s| - at
  {
    if at == |s| then [] else [PointAt(s, at)] + DecodeFrom(s, at + WidthAt(s, at))
  }

  function Decode(s: seq<nat>): seq<nat> { DecodeFrom(s, 0) }

  /** How many code points start before the boundary at. */
  function CountTo(s: seq<nat>, at: nat): nat
    requires at <= |s| && Boundary(s, at)
    decreases at
  {
    if at == 0 then 0 else
      BoundaryBefore(s, at);
      CountTo(s, StartBefore(s, at)) + 1
  }

  lemma BoundaryBefore(s: seq<nat>, at: nat)
    requires 0 < at <= |s| && Boundary(s, at)
    ensures Boundary(s, StartBefore(s, at))
    ensures StartBefore(s, at) + WidthAt(s, StartBefore(s, at)) == at
    ensures PointAt(s, StartBefore(s, at)) == PointBefore(s, at)
  {
  }

  lemma BoundaryAfter(s: seq<nat>, at: nat)
    requires at < |s| && Boundary(s, at)
    ensures Boundary(s, at + WidthAt(s, at)) && StartBefore(s, at + WidthAt(s, at)) == at
    ensures CountTo(s, at + WidthAt(s, at)) == CountTo(s, at) + 1
  {
  }

  /** At a boundary, what is decoded from it is the rest of the whole. */
  lemma {:induction false} DecodeSplit(s: seq<nat>, at: nat)
    requires Boundary(s, at)
    ensures CountTo(s, at) <= |Decode(s)|
    ensures DecodeFrom(s, at) == Decode(s)[CountTo(s, at)..]
    decreases at
  {
    if at > 0 {
      BoundaryBefore(s, at);
      DecodeSplit(s, StartBefore(s, at));
      var k := CountTo(s, StartBefore(s, at));
      assert Decode(s)[k + 1..] == Decode(s)[k..][1..];
    }
  }

  lemma PointIs(s: seq<nat>, at: nat)
    requires Boundary(s, at) && at < |s|
    ensures CountTo(s, at) < |Decode(s)| && Decode(s)[CountTo(s, at)] == PointAt(s, at)
  {
    DecodeSplit(s, at);
    assert DecodeFrom(s, at)[0] == PointAt(s, at);
  }

  lemma PointBeforeIs(s: seq<nat>, at: nat)
    requires Boundary(s, at) && 0 < at
    ensures 0 < CountTo(s, at) <= |Decode(s)| && Decode(s)[CountTo(s, at) - 1] == PointBefore(s, at)
  {
    BoundaryBefore(s, at);
    PointIs(s, StartBefore(s, at));
    DecodeSplit(s, at);
  }

  lemma AtEnd(s: seq<nat>)
    ensures Boundary(s, |s|) && CountTo(s, |s|) == |Decode(s)|
  {
    DecodeSplit(s, |s|);
  }

  // ---- encoding ----

  function Encode(c: nat): (units: seq<nat>)
    requires Point(c)
    ensures |units| == (if c > 0xFFFF then 2 else 1) && Units(units)
  {
    if c > 0xFFFF then [0xD800 + (c - 0x1_0000) / 0x400, 0xDC00 + (c - 0x1_0000) % 0x400] else [c]
  }

  predicate Points(cs: seq<nat>) {
    forall i :: 0 <= i < |cs| ==> Point(cs[i])
  }

  function EncodeAll(cs: seq<nat>): (units: seq<nat>)
    requires Points(cs)
    ensures Units(units) && |cs| <= |units| <= 2 * |cs|
  {
    if cs == [] then [] else Encode(cs[0]) + EncodeAll(cs[1..])
  }

  /** A code point read is written back as it was. */
  lemma EncodePoint(s: seq<nat>, at: nat)
    requires Units(s) && at < |s|
    ensures Point(PointAt(s, at)) && Encode(PointAt(s, at)) == s[at..at + WidthAt(s, at)]
  {
  }

  lemma {:induction false} EncodeDecodes(s: seq<nat>, at: nat)
    requires Units(s) && at <= |s|
    ensures Points(DecodeFrom(s, at)) && EncodeAll(DecodeFrom(s, at)) == s[at..]
    decreases |s| - at
  {
    if at < |s| {
      EncodePoint(s, at);
      EncodeDecodes(s, at + WidthAt(s, at));
      assert s[at..] == s[at..at + WidthAt(s, at)] + s[at + WidthAt(s, at)..];
    }
  }
}
