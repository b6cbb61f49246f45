/** JSON text for a string: what it escapes, the scans that find it, and the
    writer that copies plain runs between escapes. */
module Json {
  import opened Basics
  import opened Bits
  import opened Utf16

  const ONE_PASS: nat := 64
  const QUOTE: nat := 0x22
  const BACKSLASH: nat := 0x5C

  // ---- what is escaped ----

  predicate Special(u: nat) { u < 0x20 || u == QUOTE || u == BACKSLASH }

  /** Unit i of s is escaped: a control, a quote, a backslash, or a surrogate
      whose partner is not beside it. */
  predicate Escaped(s: seq<nat>, i: nat)
    requires i < |s|
  {
    Special(s[i]) || (Surrogate(s[i]) && !Paired(s, i) && !(i > 0 && Paired(s, i - 1)))
  }

  /** The first escaped unit at or after i, or the length. */
  function NextEscape(s: seq<nat>, i: nat): (at: nat)
    requires i <= |s|
    ensures i <= at <= |s| && (at < |s| ==> Escaped(s, at)) && forall k :: i <= k < at ==> !Escaped(s, k)
    decreases |s| - i
  {
    if i == |s| || Escaped(s, i) then i else NextEscape(s, i + 1)
  }

  function Hex(d: nat): nat
    requires d < 16
  {
    if d < 10 then 0x30 + d else 0x61 + (d - 10)
  }

  /** The escape of a unit. */
  function EscapeOf(u: nat): (e: seq<nat>)
    requires Unit(u)
    ensures |e| == 2 || |e| == 6
  {
    match u
    case 0x22 => [BACKSLASH, 0x22]
    case 0x5C => [BACKSLASH, 0x5C]
    case 8 => [BACKSLASH, 0x62]
    case 9 => [BACKSLASH, 0x74]
    case 10 => [BACKSLASH, 0x6E]
    case 12 => [BACKSLASH, 0x66]
    case 13 => [BACKSLASH, 0x72]
    case _ => [BACKSLASH, 0x75, Hex(u / 4096), Hex(u / 256 % 16), Hex(u / 16 % 16), Hex(u % 16)]
  }

  /** The escapes in figures: a letter of its own for seven characters, */
  lemma EscapeLetters()
    ensures EscapeOf(0x22) == [0x5C, 0x22] && EscapeOf(0x5C) == [0x5C, 0x5C]
    ensures EscapeOf(8) == ['\\' as nat, 'b' as nat] && EscapeOf(9) == ['\\' as nat, 't' as nat]
    ensures EscapeOf(10) == ['\\' as nat, 'n' as nat] && EscapeOf(12) == ['\\' as nat, 'f' as nat]
    ensures EscapeOf(13) == ['\\' as nat, 'r' as nat]
  {
  }

  /** and four lower-case hexadecimal digits, the first the highest, for any
      other unit. */
  lemma EscapeDigits(u: nat, a: nat, b: nat, c: nat, d: nat)
    requires Unit(u) && u !in {0x22, 0x5C, 8, 9, 10, 12, 13}
    requires a < 16 && b < 16 && c < 16 && d < 16 && u == 4096 * a + 256 * b + 16 * c + d
    ensures |EscapeOf(u)| == 6 && EscapeOf(u)[0] == '\\' as nat && EscapeOf(u)[1] == 'u' as nat
    ensures LowerHex(EscapeOf(u)[2], a) && LowerHex(EscapeOf(u)[3], b)
    ensures LowerHex(EscapeOf(u)[4], c) && LowerHex(EscapeOf(u)[5], d)
  {
    hide Hex, LowerHex;
    SplitDigits(u, a, b, c, d);
    HexIs(a);
    HexIs(b);
    HexIs(c);
    HexIs(d);
  }

  lemma SplitDigits(u: nat, a: nat, b: nat, c: nat, d: nat)
    requires a < 16 && b < 16 && c < 16 && d < 16 && u == 4096 * a + 256 * b + 16 * c + d
    ensures u / 4096 == a && u / 256 % 16 == b && u / 16 % 16 == c && u % 16 == d
  {
    assert u / 16 == 256 * a + 16 * b + c && u / 256 == 16 * a + b;
  }

  /** The digit of this value. */
  predicate LowerHex(unit: nat, value: nat) {
    value < 16 && unit == "0123456789abcdef"[value] as nat
  }

  lemma HexIs(d: nat)
    requires d < 16
    ensures LowerHex(Hex(d), d)
  {
  }

  function UnitText(s: seq<nat>, i: nat): (t: seq<nat>)
    requires Units(s) && i < |s|
    ensures 1 <= |t| <= 6
  {
    if Escaped(s, i) then EscapeOf(s[i]) else [s[i]]
  }

  /** What the units from i on are written as. */
  function Body(s: seq<nat>, i: nat): (t: seq<nat>)
    requires Units(s) && i <= |s|
    ensures |s| - i <= |t| <= 6 * (|s| - i)
    decreases |s| - i
  {
    if i == |s| then [] else UnitText(s, i) + Body(s, i + 1)
  }

  function Quoted(s: seq<nat>): seq<nat>
    requires Units(s)
  {
    [QUOTE] + Body(s, 0) + [QUOTE]
  }

  // ---- reading it back (RFC 8259 section 7) ----

  function HexValue(u: nat): Option<nat> {
    if 0x30 <= u <= 0x39 then Some(u - 0x30)
    else if 0x41 <= u <= 0x46 then Some(u - 0x41 + 10)
    else if 0x61 <= u <= 0x66 then Some(u - 0x61 + 10)
    else None
  }

  function Simple(u: nat): Option<nat> {
    match u
    case 0x22 => Some(0x22)
    case 0x5C => Some(0x5C)
    case 0x2F => Some(0x2F)
    case 0x62 => Some(8)
    case 0x66 => Some(12)
    case 0x6E => Some(10)
    case 0x72 => Some(13)
    case 0x74 => Some(9)
    case _ => None
  }

  function Four(t: seq<nat>, i: nat): Option<nat>
    requires i + 4 <= |t|
  {
    match (HexValue(t[i]), HexValue(t[i + 1]), HexValue(t[i + 2]), HexValue(t[i + 3]))
    case (Some(a), Some(b), Some(c), Some(d)) => Some(((a * 16 + b) * 16 + c) * 16 + d)
    case _ => None
  }

  /** One character of a JSON string: its unit and how long it is. */
  function ReadChar(t: seq<nat>, i: nat): Option<(nat, nat)>
    requires i < |t|
  {
    if t[i] < 0x20 || t[i] == QUOTE then None
    else if t[i] != BACKSLASH then Some((t[i], 1))
    else if i + 1 >= |t| then None
    else if t[i + 1] == 0x75 then
      if i + 6 <= |t| then
        match Four(t, i + 2)
        case Some(u) => Some((u, 6))
        case None => None
      else None
    else
      match Simple(t[i + 1])
      case Some(u) => Some((u, 2))
      case None => None
  }

  /** The units a JSON string's text stands for, from i to its closing quote. */
  function ReadFrom(t: seq<nat>, i: nat): Option<seq<nat>>
    requires i <= |t|
    decreases |t| - i
  {
    if i == |t| then None
    else if t[i] == QUOTE then if i + 1 == |t| then Some([]) else None
    else
      match ReadChar(t, i)
      case None => None
      case Some((u, n)) =>
        if n == 0 || i + n > |t| then None
        else
          match ReadFrom(t, i + n)
          case None => None
          case Some(rest) => Some([u] + rest)
  }

  function Unquoted(t: seq<nat>): Option<seq<nat>> {
    if t == [] || t[0] != QUOTE then None else ReadFrom(t, 1)
  }

  lemma HexBack(d: nat)
    requires d < 16
    ensures HexValue(Hex(d)) == Some(d)
  {
  }

  lemma HexDigits(u: nat)
    requires Unit(u)
    ensures u / 4096 < 16 && ((u / 4096 * 16 + u / 256 % 16) * 16 + u / 16 % 16) * 16 + u % 16 == u
  {
    var a, b, c := u / 16, u / 16 / 16, u / 16 / 16 / 16;
    assert u == a * 16 + u % 16 && a == b * 16 + a % 16 && b == c * 16 + b % 16;
    assert u / 256 == b && u / 4096 == c;
  }

  /** What a unit is written as is read back as that unit, wherever it stands. */
  lemma ReadsBack(s: seq<nat>, k: nat, t: seq<nat>, i: nat)
    requires Units(s) && k < |s| && i + |UnitText(s, k)| <= |t| && t[i..i + |UnitText(s, k)|] == UnitText(s, k)
    ensures t[i] != QUOTE
    ensures ReadChar(t, i).Some? && ReadChar(t, i).value.0 == s[k] && ReadChar(t, i).value.1 == |UnitText(s, k)|
  {
    var e, u := UnitText(s, k), s[k];
    SameText(t, i, e);
    if Escaped(s, k) && |e| == 6 {
      HexDigits(u);
      HexBack(u / 4096);
      HexBack(u / 256 % 16);
      HexBack(u / 16 % 16);
      HexBack(u % 16);
    }
  }

  lemma SameText(t: seq<nat>, i: nat, e: seq<nat>)
    requires 1 <= |e| <= 6 && i + |e| <= |t| && t[i..i + |e|] == e
    ensures t[i] == e[0] && (|e| > 1 ==> t[i + 1] == e[1])
    ensures |e| == 6 ==> t[i + 2] == e[2] && t[i + 3] == e[3] && t[i + 4] == e[4] && t[i + 5] == e[5]
  {
    var d := t[i..i + |e|];
    assert t[i] == d[0] && (|e| > 1 ==> t[i + 1] == d[1]);
    assert |e| == 6 ==> t[i + 2] == d[2] && t[i + 3] == d[3] && t[i + 4] == d[4] && t[i + 5] == d[5];
  }

  lemma ReadStep(t: seq<nat>, i: nat)
    requires i < |t| && t[i] != QUOTE && ReadChar(t, i).Some?
    requires var n := ReadChar(t, i).value.1; n > 0 && i + n <= |t| && ReadFrom(t, i + n).Some?
    ensures var (u, n) := ReadChar(t, i).value; ReadFrom(t, i) == Some([u] + ReadFrom(t, i + n).value)
  {
  }

  lemma {:induction false} ReadsBody(s: seq<nat>, k: nat, before: seq<nat>)
    requires Units(s) && k <= |s|
    ensures ReadFrom(before + Body(s, k) + [QUOTE], |before|) == Some(s[k..])
    decreases |s| - k
  {
    hide UnitText, ReadChar, EscapeOf, Escaped;
    var t := before + Body(s, k) + [QUOTE];
    if k == |s| {
      assert t[|before|] == QUOTE && |t| == |before| + 1 && s[k..] == [];
    } else {
      var e := UnitText(s, k);
      assert t[|before|..|before| + |e|] == e;
      ReadsBack(s, k, t, |before|);
      ReadsBody(s, k + 1, before + e);
      assert t == (before + e) + Body(s, k + 1) + [QUOTE];
      ReadStep(t, |before|);
      assert s[k..] == [s[k]] + s[k + 1..];
    }
  }

  /** The text of any string reads back as that string: lone surrogates too. */
  lemma RoundTrip(s: seq<nat>)
    requires Units(s)
    ensures Unquoted(Quoted(s)) == Some(s)
  {
    ReadsBody(s, 0, [QUOTE]);
    assert Quoted(s) == [QUOTE] + Body(s, 0) + [QUOTE];
    assert s[0..] == s;
  }

  // ---- the scans ----

  /** Bit 7 of each byte of a word that is escaped, by sums over all eight at
      once. */
  function EscapesInWord(word: bv64): bv64 {
    var low: bv64 := 0x7F7F_7F7F_7F7F_7F7F;
    var printable := ((word & low) + 0x6060_6060_6060_6060) | word;
    var quote := word ^ 0x2222_2222_2222_2222;
    var backslash := word ^ 0x5C5C_5C5C_5C5C_5C5C;
    var notQuote := ((quote & low) + low) | quote;
    var notBackslash := ((backslash & low) + low) | backslash;
    !(printable & notQuote & notBackslash) & 0x8080_8080_8080_8080
  }

  /** word >> 8k, the word without its k lowest bytes. */
  function Drop(word: bv64, k: nat): bv64
    requires k < 8
  {
    if k == 0 then word
    else if k == 1 then word >> 8
    else if k == 2 then word >> 16
    else if k == 3 then word >> 24
    else if k == 4 then word >> 32
    else if k == 5 then word >> 40
    else if k == 6 then word >> 48
    else word >> 56
  }

  function ByteOf(word: bv64, k: nat): bv64
    requires k < 8
  {
    Drop(word, k) & 0xFF
  }

  /** Which byte has the lowest set bit, 8 when none is: ctz(mask) / 8. */
  function LowestByte(mask: bv64): nat {
    if mask & 0xFF != 0 then 0
    else if mask & 0xFF00 != 0 then 1
    else if mask & 0xFF0000 != 0 then 2
    else if mask & 0xFF000000 != 0 then 3
    else if mask & 0xFF00000000 != 0 then 4
    else if mask & 0xFF0000000000 != 0 then 5
    else if mask & 0xFF000000000000 != 0 then 6
    else if mask & 0xFF00000000000000 != 0 then 7
    else 8
  }

  /** What the test leaves of an escaped byte, and of any other. */
  function MarkOf(byte: bv64): bv64 {
    if byte < 0x20 || byte == 0x22 || byte == 0x5C then 0x80 else 0
  }

  /** The test is exact in every byte: none of the three sums carries out of one,
      whatever the others hold. */
  lemma WordExact(word: bv64, k: nat)
    requires k < 8
    ensures ByteOf(EscapesInWord(word), k) == MarkOf(ByteOf(word, k))
  {
    if k == 0 {
    } else if k == 1 {
    } else if k == 2 {
    } else if k == 3 {
    } else if k == 4 {
    } else if k == 5 {
    } else if k == 6 {
    } else {
    }
  }

  /** The lowest set bit of rest, which is mask without its k lowest bytes, is in
      mask's first byte from k on that is not zero. */
  ghost predicate FoundFrom(mask: bv64, k: nat, rest: bv64)
    requires k < 8
  {
    var h := LowestByte(rest);
    && (rest == 0 ==> forall i :: k <= i < 8 ==> ByteOf(mask, i) == 0)
    && (rest != 0 ==> k + h < 8 && ByteOf(mask, k + h) != 0 && forall i :: k <= i < k + h ==> ByteOf(mask, i) == 0)
  }

  lemma Lowest0(mask: bv64)
    ensures FoundFrom(mask, 0, mask)
  {
  }

  lemma Lowest1(mask: bv64)
    ensures FoundFrom(mask, 1, mask >> 8)
  {
  }

  lemma Lowest2(mask: bv64)
    ensures FoundFrom(mask, 2, mask >> 16)
  {
  }

  lemma Lowest3(mask: bv64)
    ensures FoundFrom(mask, 3, mask >> 24)
  {
  }

  lemma Lowest4(mask: bv64)
    ensures FoundFrom(mask, 4, mask >> 32)
  {
  }

  lemma Lowest5(mask: bv64)
    ensures FoundFrom(mask, 5, mask >> 40)
  {
  }

  lemma Lowest6(mask: bv64)
    ensures FoundFrom(mask, 6, mask >> 48)
  {
  }

  lemma Lowest7(mask: bv64)
    ensures FoundFrom(mask, 7, mask >> 56)
  {
  }

  lemma Lowest(mask: bv64, k: nat)
    requires k < 8
    ensures FoundFrom(mask, k, Drop(mask, k))
  {
    hide FoundFrom;
    if k == 0 {
      Lowest0(mask);
    } else if k == 1 {
      Lowest1(mask);
    } else if k == 2 {
      Lowest2(mask);
    } else if k == 3 {
      Lowest3(mask);
    } else if k == 4 {
      Lowest4(mask);
    } else if k == 5 {
      Lowest5(mask);
    } else if k == 6 {
      Lowest6(mask);
    } else {
      Lowest7(mask);
    }
  }

  function WordOf(a: bv8, b: bv8, c: bv8, d: bv8, e: bv8, f: bv8, g: bv8, h: bv8): bv64 {
    (a as bv64) | (b as bv64 << 8) | (c as bv64 << 16) | (d as bv64 << 24)
    | (e as bv64 << 32) | (f as bv64 << 40) | (g as bv64 << 48) | (h as bv64 << 56)
  }

  lemma WordBytes(a: bv8, b: bv8, c: bv8, d: bv8, e: bv8, f: bv8, g: bv8, h: bv8)
    ensures var w := WordOf(a, b, c, d, e, f, g, h);
            && ByteOf(w, 0) == a as bv64 && ByteOf(w, 1) == b as bv64 && ByteOf(w, 2) == c as bv64 && ByteOf(w, 3) == d as bv64
            && ByteOf(w, 4) == e as bv64 && ByteOf(w, 5) == f as bv64 && ByteOf(w, 6) == g as bv64 && ByteOf(w, 7) == h as bv64
  {
  }

  lemma MarkIs(u: nat)
    requires u < 256
    ensures MarkOf(u as bv8 as bv64) == if Special(u) then 0x80 else 0
  {
    var b := u as bv8;
    assert b as nat == u;
    assert b as bv64 < 0x20 <==> b < 0x20;
  }

  /** The eight bytes from `from` on, the first lowest. */
  function WordAt(s: seq<nat>, from: nat): bv64
    requires from + 8 <= |s| && forall i :: 0 <= i < |s| ==> s[i] < 256
  {
    WordOf(s[from] as bv8, s[from + 1] as bv8, s[from + 2] as bv8, s[from + 3] as bv8,
           s[from + 4] as bv8, s[from + 5] as bv8, s[from + 6] as bv8, s[from + 7] as bv8)
  }

  lemma WordByte(s: seq<nat>, from: nat, k: nat)
    requires from + 8 <= |s| && k < 8 && forall i :: 0 <= i < |s| ==> s[i] < 256
    ensures ByteOf(WordAt(s, from), k) == s[from + k] as bv8 as bv64
  {
    hide WordOf, ByteOf;
    assert k == 0 || k == 1 || k == 2 || k == 3 || k == 4 || k == 5 || k == 6 || k == 7;
    WordBytes(s[from] as bv8, s[from + 1] as bv8, s[from + 2] as bv8, s[from + 3] as bv8,
              s[from + 4] as bv8, s[from + 5] as bv8, s[from + 6] as bv8, s[from + 7] as bv8);
  }

  /** A byte of the test is set exactly where that unit is escaped. */
  lemma MarkAt(s: seq<nat>, from: nat, k: nat)
    requires from + 8 <= |s| && k < 8 && forall i :: 0 <= i < |s| ==> s[i] < 256
    ensures ByteOf(EscapesInWord(WordAt(s, from)), k) != 0 <==> Special(s[from + k])
  {
    hide *;
    WordExact(WordAt(s, from), k);
    WordByte(s, from, k);
    MarkIs(s[from + k]);
  }

  /** The first hit at or after `at` in the word that starts at `from`, or its
      end: the units before `at` are shifted out of the answer. */
  method WordScan(s: seq<nat>, from: nat, at: nat) returns (hit: nat)
    requires from + 8 <= |s| && from <= at < from + 8 && forall i :: 0 <= i < |s| ==> s[i] < 256
    ensures at <= hit <= from + 8 && (forall k :: at <= k < hit ==> !Special(s[k])) && (hit < from + 8 ==> Special(s[hit]))
  {
    hide *;
    ghost var marks := EscapesInWord(WordAt(s, from));
    var mask := Drop(EscapesInWord(WordAt(s, from)), at - from);
    Lowest(marks, at - from);
    FoundIs(marks, at - from, mask);
    forall k | 0 <= k < 8
      ensures ByteOf(marks, k) != 0 <==> Special(s[from + k])
    {
      MarkAt(s, from, k);
    }
    if mask != 0 {
      hit := at + LowestByte(mask);
    } else {
      hit := from + 8;
    }
    forall k | at <= k < hit
      ensures !Special(s[k])
    {
      assert ByteOf(marks, k - from) == 0;
    }
  }

  lemma FoundIs(mask: bv64, k: nat, rest: bv64)
    requires k < 8 && FoundFrom(mask, k, rest)
    ensures rest == 0 ==> forall i :: k <= i < 8 ==> ByteOf(mask, i) == 0
    ensures rest != 0 ==> k + LowestByte(rest) < 8 && ByteOf(mask, k + LowestByte(rest)) != 0
    ensures rest != 0 ==> forall i :: k <= i < k + LowestByte(rest) ==> ByteOf(mask, i) == 0
  {
  }

  /** A word a step, the last one overlapping what was read; a unit at a time
      where there are not eight. */
  method ScanNarrow(s: seq<nat>, start: nat) returns (at: nat)
    requires start <= |s| && forall i :: 0 <= i < |s| ==> s[i] < 256
    ensures at == NextEscape(s, start)
  {
    at := start;
    while at < |s| && |s| >= 8
      invariant start <= at <= |s| && forall k :: start <= k < at ==> !Special(s[k])
      decreases |s| - at
    {
      var from := if |s| - at < 8 then |s| - 8 else at;
      at := WordScan(s, from, at);
      if at < from + 8 {
        NarrowNext(s, start, at);
        return;
      }
    }
    while at < |s|
      invariant start <= at <= |s| && forall k :: start <= k < at ==> !Special(s[k])
    {
      if s[at] < 0x20 || s[at] == QUOTE || s[at] == BACKSLASH {
        NarrowNext(s, start, at);
        return;
      }
      at := at + 1;
    }
    NarrowNext(s, start, at);
  }

  lemma NextIs(s: seq<nat>, start: nat, at: nat)
    requires start <= at <= |s| && (forall k :: start <= k < at ==> !Escaped(s, k)) && (at < |s| ==> Escaped(s, at))
    ensures at == NextEscape(s, start)
  {
  }

  lemma NarrowNext(s: seq<nat>, start: nat, at: nat)
    requires start <= at <= |s| && forall i :: 0 <= i < |s| ==> s[i] < 256
    requires (forall k :: start <= k < at ==> !Special(s[k])) && (at < |s| ==> Special(s[at]))
    ensures at == NextEscape(s, start)
  {
    NextIs(s, start, at);
  }

  /** The first special unit or surrogate. */
  method CandidatesWide(s: seq<nat>, start: nat) returns (at: nat)
    requires start <= |s|
    ensures start <= at <= |s| && (forall k :: start <= k < at ==> !Special(s[k]) && !Surrogate(s[k]))
    ensures at < |s| ==> Special(s[at]) || Surrogate(s[at])
  {
    at := start;
    while at < |s|
      invariant start <= at <= |s| && forall k :: start <= k < at ==> !Special(s[k]) && !Surrogate(s[k])
    {
      if s[at] < 0x20 || s[at] == QUOTE || s[at] == BACKSLASH || Surrogate(s[at]) {
        return;
      }
      at := at + 1;
    }
  }

  /** The candidates, less each lead whose trail follows it. */
  method ScanWide(s: seq<nat>, start: nat) returns (at: nat)
    requires start <= |s| && Boundary(s, start)
    ensures at == NextEscape(s, start)
  {
    at := start;
    while true
      invariant start <= at <= |s| && Boundary(s, at) && forall k :: start <= k < at ==> !Escaped(s, k)
      decreases |s| - at
    {
      ghost var was := at;
      at := CandidatesWide(s, at);
      PlainBoundary(s, was, at);
      if at == |s| || !Surrogate(s[at]) {
        NextIs(s, start, at);
        return;
      }
      if s[at] > 0xDBFF || at + 1 == |s| || !Low(s[at + 1]) {
        NextIs(s, start, at);
        return;
      }
      at := at + 2;
    }
  }

  /** Between a boundary and the next surrogate every place is a boundary. */
  lemma PlainBoundary(s: seq<nat>, was: nat, at: nat)
    requires was <= at <= |s| && Boundary(s, was) && forall k :: was <= k < at ==> !Special(s[k]) && !Surrogate(s[k])
    ensures Boundary(s, at) && forall k :: was <= k < at ==> !Escaped(s, k)
  {
  }

  method Scan(s: seq<nat>, wide: bool, start: nat) returns (at: nat)
    requires start <= |s| && Boundary(s, start) && (!wide ==> forall i :: 0 <= i < |s| ==> s[i] < 256)
    ensures at == NextEscape(s, start)
  {
    if wide {
      at := ScanWide(s, start);
    } else {
      at := ScanNarrow(s, start);
    }
  }

  // ---- the lengths ----

  lemma BodyStep(s: seq<nat>, i: nat)
    requires Units(s) && i < |s|
    ensures Body(s, i) == UnitText(s, i) + Body(s, i + 1)
    ensures !Escaped(s, i) ==> UnitText(s, i) == [s[i]]
  {
  }

  /** What lies between two escapes is written as it stands. */
  lemma {:induction false} PlainRun(s: seq<nat>, i: nat, j: nat)
    requires Units(s) && i <= j <= |s| && forall k :: i <= k < j ==> !Escaped(s, k)
    ensures Body(s, i) == s[i..j] + Body(s, j)
    decreases j - i
  {
    hide Body, Escaped;
    if i < j {
      PlainRun(s, i + 1, j);
      BodyStep(s, i);
      var run, rest := s[i + 1..j], Body(s, j);
      assert s[i..j] == [s[i]] + run;
      assert ([s[i]] + run) + rest == [s[i]] + (run + rest);
    } else {
      assert s[i..j] == [];
    }
  }

  lemma AfterEscape(s: seq<nat>, at: nat)
    requires Units(s) && at < |s| && Escaped(s, at)
    ensures Boundary(s, at + 1) && Body(s, at) == EscapeOf(s[at]) + Body(s, at + 1)
  {
  }

  /** The exact length, by the escapes alone; None past the longest string. */
  method QuotedLength(before: nat, s: seq<nat>, wide: bool, first: nat) returns (length: Option<nat>)
    requires Units(s) && first == NextEscape(s, 0) && (!wide ==> forall i :: 0 <= i < |s| ==> s[i] < 256)
    ensures length == if before + |Quoted(s)| > MAX_LENGTH then None else Some(|Quoted(s)|)
  {
    hide EscapeOf, Body, NextEscape, Escaped, Quoted, Boundary;
    var total := |s| + 2;
    var at := first;
    NextTells(s, 0);
    PlainRun(s, 0, at);
    while at < |s|
      invariant at <= |s| && total + |Body(s, at)| == |Body(s, 0)| + 2 + (|s| - at) && at == NextEscape(s, at)
      decreases |s| - at
    {
      NextTells(s, at);
      AfterEscape(s, at);
      total := total + (|EscapeOf(s[at])| - 1);
      ghost var was := at + 1;
      at := Scan(s, wide, at + 1);
      NextTells(s, was);
      PlainRun(s, was, at);
    }
    QuotedIs(s);
    return if before + total > MAX_LENGTH then None else Some(total);
  }

  lemma NextTells(s: seq<nat>, i: nat)
    requires i <= |s|
    ensures var at := NextEscape(s, i);
            && i <= at <= |s| && (forall k :: i <= k < at ==> !Escaped(s, k)) && (at < |s| ==> Escaped(s, at))
            && NextEscape(s, at) == at
  {
  }

  lemma QuotedIs(s: seq<nat>)
    requires Units(s)
    ensures Quoted(s) == [QUOTE] + Body(s, 0) + [QUOTE] && |Quoted(s)| == |Body(s, 0)| + 2 && Body(s, |s|) == []
    ensures |Body(s, 0)| <= |s| - NextEscape(s, 0) + NextEscape(s, 0) + 5 * (|s| - NextEscape(s, 0))
  {
    PlainRun(s, 0, NextEscape(s, 0));
  }

  /** Room for a string quoted: exact, or the worst case for a short tail. */
  method Room(before: nat, s: seq<nat>, wide: bool, first: nat) returns (room: Option<nat>)
    requires Units(s) && first == NextEscape(s, 0) && (!wide ==> forall i :: 0 <= i < |s| ==> s[i] < 256)
    ensures room.None? <==> before + |Quoted(s)| > MAX_LENGTH
    ensures room.Some? ==> room.value >= |Quoted(s)| && before + room.value <= MAX_LENGTH
    ensures room.Some? && (first == |s| || |s| - first > ONE_PASS) ==> room.value == |Quoted(s)|
  {
    var tail := |s| - first;
    QuotedIs(s);
    if tail == 0 || tail > ONE_PASS {
      room := QuotedLength(before, s, wide, first);
      return;
    }
    var total := |s| + 2 + 5 * tail;
    if before + total > MAX_LENGTH {
      room := QuotedLength(before, s, wide, first);
      return;
    }
    return Some(total);
  }

  // ---- the writer ----

  method PutText(out: array<nat>, into: nat, text: seq<nat>) returns (end: nat)
    requires into + |text| <= out.Length
    modifies out
    ensures end == into + |text| && out[..end] == old(out[..into]) + text
  {
    for i := 0 to |text|
      invariant out[..into + i] == old(out[..into]) + text[..i]
    {
      out[into + i] := text[i];
      assert text[..i + 1] == text[..i] + [text[i]];
      assert out[..into + i + 1] == out[..into + i] + [text[i]];
    }
    assert text[..|text|] == text;
    end := into + |text|;
  }

  /** Units [from, to) of the source, which may be the same block further down. */
  method PutUnits(out: array<nat>, into: nat, source: array<nat>, from: nat, to: nat) returns (end: nat)
    requires from <= to <= source.Length && into + (to - from) <= out.Length && (source == out ==> to <= into)
    modifies out
    ensures end == into + (to - from) && out[..end] == old(out[..into]) + old(source[from..to])
  {
    ghost var units := source[from..to];
    for i := 0 to to - from
      invariant out[..into + i] == old(out[..into]) + units[..i]
      invariant source[from..to] == units
    {
      assert source[from + i] == units[i];
      out[into + i] := source[from + i];
      assert units[..i + 1] == units[..i] + [units[i]];
      assert out[..into + i + 1] == out[..into + i] + [units[i]];
      assert source == out ==> out[..into][from..to] == units;
    }
    assert units[..to - from] == units;
    end := into + (to - from);
  }

  /** What is written so far, and what is to come. */
  ghost predicate Upto(s: seq<nat>, plain: nat, before: seq<nat>, out: seq<nat>)
    requires Units(s) && plain <= |s|
  {
    out + Body(s, plain) == before + [QUOTE] + Body(s, 0)
  }

  lemma UptoStart(s: seq<nat>, before: seq<nat>)
    requires Units(s)
    ensures Upto(s, 0, before, before + [QUOTE])
  {
  }

  /** A plain run and the escape behind it. */
  lemma UptoEscape(s: seq<nat>, plain: nat, at: nat, before: seq<nat>, out: seq<nat>)
    requires Units(s) && plain <= at < |s| && at == NextEscape(s, plain) && Upto(s, plain, before, out)
    ensures Upto(s, at + 1, before, out + s[plain..at] + EscapeOf(s[at])) && Boundary(s, at + 1)
    ensures |out| + (at - plain) + |EscapeOf(s[at])| + |Body(s, at + 1)| == |before| + 1 + |Body(s, 0)|
  {
    hide EscapeOf, Body;
    PlainRun(s, plain, at);
    AfterEscape(s, at);
    var e, rest := EscapeOf(s[at]), Body(s, at + 1);
    assert out + (s[plain..at] + (e + rest)) == (out + s[plain..at] + e) + rest;
  }

  lemma UptoEnd(s: seq<nat>, plain: nat, before: seq<nat>, out: seq<nat>)
    requires Units(s) && plain <= |s| && NextEscape(s, plain) == |s| && Upto(s, plain, before, out)
    ensures out + s[plain..] + [QUOTE] == before + Quoted(s)
    ensures |out| + (|s| - plain) + 1 == |before| + |Quoted(s)|
  {
    hide EscapeOf, Body;
    PlainRun(s, plain, |s|);
    QuotedIs(s);
    assert s[plain..|s|] == s[plain..] && s[plain..] + Body(s, |s|) == s[plain..];
  }

  /** A plain run of the source and what follows it; the source is as it was. */
  method PutPiece(out: array<nat>, n: nat, source: array<nat>, length: nat, plain: nat, at: nat, text: seq<nat>) returns (end: nat)
    requires plain <= at <= length <= source.Length && n + (at - plain) + |text| <= out.Length && (source == out ==> length <= n)
    modifies out
    ensures end == n + (at - plain) + |text| && out[..end] == old(out[..n]) + old(source[plain..at]) + text
    ensures source[..length] == old(source[..length])
  {
    ghost var was, s := out[..n], source[..length];
    var m := PutUnits(out, n, source, plain, at);
    ghost var mid := out[..m];
    end := PutText(out, m, text);
    if source == out {
      assert out[..end][..length] == was[..length];
    }
  }

  lemma SliceOf(source: array<nat>, length: nat, plain: nat, at: nat)
    requires plain <= at <= length <= source.Length
    ensures source[plain..at] == source[..length][plain..at] && source[plain..length] == source[..length][plain..]
    ensures at < length ==> source[at] == source[..length][at]
  {
  }

  lemma UnitOf(s: seq<nat>, at: nat)
    requires Units(s) && at < |s|
    ensures Unit(s[at])
  {
  }

  /** The quote, each plain run and each escape, the quote: every escape after the
      first found by the same scan. The output may be the source's own block,
      written behind it. */
  method Write(out: array<nat>, into: nat, source: array<nat>, length: nat, wide: bool, first: nat) returns (end: nat)
    requires length <= source.Length && into <= out.Length && (source == out ==> length <= into)
    requires Units(source[..length]) && first == NextEscape(source[..length], 0)
    requires !wide ==> forall i :: 0 <= i < length ==> source[i] < 256
    requires into + |Quoted(source[..length])| <= out.Length
    modifies out
    ensures end == into + |Quoted(old(source[..length]))|
    ensures out[..end] == old(out[..into]) + Quoted(old(source[..length]))
  {
    hide *;
    ghost var s, before := source[..length], out[..into];
    assert !wide ==> forall i :: 0 <= i < |s| ==> s[i] < 256;
    QuotedIs(s);
    UptoStart(s, before);
    var plain := 0;
    assert source[0..0] == [] && before + [] + [QUOTE] == before + [QUOTE];
    var n := PutPiece(out, into, source, length, 0, 0, [QUOTE]);
    var at := first;
    NextTells(s, 0);
    while at < length
      invariant 0 <= plain <= at <= length && into <= n <= out.Length && at == NextEscape(s, plain)
      invariant source[..length] == s && Upto(s, plain, before, out[..n])
      decreases length - at
    {
      UptoEscape(s, plain, at, before, out[..n]);
      UnitOf(s, at);
      SliceOf(source, length, plain, at);
      n := PutPiece(out, n, source, length, plain, at, EscapeOf(source[at]));
      plain := at + 1;
      at := Scan(source[..length], wide, plain);
      NextTells(s, plain);
    }
    UptoEnd(s, plain, before, out[..n]);
    SliceOf(source, length, plain, length);
    end := PutPiece(out, n, source, length, plain, length, [QUOTE]);
  }

  /** A string quoted, in a block of its own: None past the longest string. */
  method JsonQuote(source: array<nat>, length: nat, wide: bool) returns (out: array?<nat>, end: nat)
    requires length <= source.Length && Units(source[..length]) && (!wide ==> forall i :: 0 <= i < length ==> source[i] < 256)
    ensures out == null <==> |Quoted(source[..length])| > 2147483646
    ensures out != null ==> fresh(out) && end == |Quoted(source[..length])| <= out.Length && out[..end] == Quoted(source[..length])
  {
    hide *;
    Longest();
    var s := source[..length];
    assert !wide ==> forall i :: 0 <= i < |s| ==> s[i] < 256;
    BoundaryStart(s);
    var first := Scan(s, wide, 0);
    var room := Room(0, s, wide, first);
    if room.None? {
      return null, 0;
    }
    out := new nat[room.value];
    end := Write(out, 0, source, length, wide, first);
  }

  lemma Longest()
    ensures MAX_LENGTH == 2147483646
  {
  }

  lemma BoundaryStart(s: seq<nat>)
    ensures Boundary(s, 0)
  {
  }
}
