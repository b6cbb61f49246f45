/** Growing a string: a room that its length alone tells, and appends that write
    in place only where nobody else can see. */
module Growth {
  import opened Basics
  import opened Bits

  const FLOOR: nat := 16
  const DOUBLE_TO: nat := 0x10_0000
  const CHUNK: nat := 0x10_0000
  const IMMORTAL: nat := 0xFFFF_FFFF

  // ---- the growth rule ----

  /** How many bits a number takes: 32 less its leading zeros. */
  function BitLength(n: nat): nat {
    if n == 0 then 0 else 1 + BitLength(n / 2)
  }

  lemma {:induction false} BitLengthBounds(n: nat)
    ensures n < Pow2(BitLength(n)) && (n > 0 ==> Pow2(BitLength(n)) <= 2 * n)
  {
    if n > 0 {
      BitLengthBounds(n / 2);
    }
  }

  lemma {:induction false} BitLengthMono(m: nat, n: nat)
    requires m <= n
    ensures BitLength(m) <= BitLength(n)
    decreases n
  {
    if m > 0 {
      BitLengthMono(m / 2, n / 2);
    }
  }

  lemma {:induction false} Pow2Mono(a: nat, b: nat)
    requires a <= b
    ensures Pow2(a) <= Pow2(b)
    decreases b
  {
    if a < b {
      Pow2Mono(a, b - 1);
    }
  }

  lemma {:induction false} BitLengthTop(e: nat)
    requires e > 0
    ensures BitLength(Pow2(e) - 1) == e
  {
    if e > 1 {
      BitLengthTop(e - 1);
      assert (Pow2(e) - 1) / 2 == Pow2(e - 1) - 1;
    }
  }

  /** The room a grown string of n units gets: a floor, then powers of two, then
      whole chunks, in 32-bit arithmetic. */
  function RoundUp(n: U32): (room: nat)
  {
    if n <= FLOOR then FLOOR
    else if n > DOUBLE_TO then (n + (CHUNK - 1)) % WORD / CHUNK * CHUNK
    else Pow2(BitLength(n - 1))
  }

  /** The last length whose chunk does not end past 32 bits. */
  const LAST: nat := WORD - CHUNK

  lemma Powers(n: nat)
    requires FLOOR < n <= DOUBLE_TO
    ensures var e := BitLength(n - 1);
            RoundUp(n) == Pow2(e) && 5 <= e <= 20 && n <= Pow2(e) <= DOUBLE_TO && Pow2(e) <= 2 * (n - 1)
  {
    BitLengthBounds(n - 1);
    Pow2Small();
    BitLengthMono(16, n - 1);
    BitLengthMono(n - 1, 0xF_FFFF);
    BitLengthTop(20);
    Pow2Mono(BitLength(n - 1), 20);
  }

  lemma Pow2Small()
    ensures Pow2(4) == 16 && Pow2(5) == 32 && Pow2(20) == 0x10_0000 && BitLength(16) == 5
  {
    assert Pow2(5) == 32;
    Pow2Add(5, 5);
    Pow2Add(10, 10);
    assert BitLength(16) == 1 + BitLength(8) && BitLength(8) == 1 + BitLength(4) && BitLength(4) == 1 + BitLength(2);
  }

  lemma Chunks(n: nat)
    ensures var r := (n + (CHUNK - 1)) / CHUNK * CHUNK;
            n <= r < n + CHUNK && (r + (CHUNK - 1)) / CHUNK * CHUNK == r && (n <= LAST ==> r <= LAST)
  {
  }

  lemma ChunksMono(m: nat, n: nat)
    requires m <= n
    ensures (m + (CHUNK - 1)) / CHUNK * CHUNK <= (n + (CHUNK - 1)) / CHUNK * CHUNK
  {
  }

  /** Past LAST the sum wraps, and the room is none. */
  lemma Wraps(n: U32)
    requires n > DOUBLE_TO
    ensures RoundUp(n) == if n > LAST then 0 else (n + (CHUNK - 1)) / CHUNK * CHUNK
  {
    if n > LAST {
      assert (n + (CHUNK - 1)) % WORD == n + (CHUNK - 1) - WORD;
    }
  }

  /** Room for what there is: exactly up to LAST. */
  lemma Extensive(n: U32)
    ensures n <= RoundUp(n) <==> n <= LAST
    ensures n <= LAST ==> RoundUp(n) <= LAST
    ensures n > LAST ==> RoundUp(n) == 0
  {
    if FLOOR < n <= DOUBLE_TO {
      Powers(n);
    } else if n > DOUBLE_TO {
      Wraps(n);
      Chunks(n);
    }
  }

  /** The rule in figures: a room of 16; to a mebi-unit the least power of two
      that is no less than the length; from there the least whole number of
      mebi-units; and none past the last of them that 32 bits can hold. */
  lemma Rule(n: U32)
    ensures n <= 16 ==> RoundUp(n) == 16
    ensures 16 < n <= 1048576 ==> n <= RoundUp(n) < 2 * n && exists e :: RoundUp(n) == Pow2(e)
    ensures 1048576 < n <= 4293918720 ==> n <= RoundUp(n) < n + 1048576 && RoundUp(n) % 1048576 == 0
    ensures n > 4293918720 ==> RoundUp(n) == 0
  {
    if FLOOR < n <= DOUBLE_TO {
      Powers(n);
    } else if n > DOUBLE_TO {
      Wraps(n);
      Chunks(n);
    }
  }

  /** Two strings that may be, and whose texts together get no room. */
  lemma NoRoom()
    ensures var half := 2147000000; half <= MAX_LENGTH && LAST < half + half < WORD && RoundUp(half + half) == 0
  {
    Wraps(4294000000);
  }

  lemma MonotoneBelow(m: U32, n: U32)
    requires m <= n <= LAST
    ensures RoundUp(m) <= RoundUp(n)
  {
    Extensive(n);
    if m <= FLOOR {
      if FLOOR < n {
        assert n <= RoundUp(n);
      }
    } else if n <= DOUBLE_TO {
      BitLengthMono(m - 1, n - 1);
      Pow2Mono(BitLength(m - 1), BitLength(n - 1));
    } else if m <= DOUBLE_TO {
      Powers(m);
    } else {
      Wraps(m);
      Wraps(n);
      ChunksMono(m, n);
    }
  }

  /** More room for more, unless only the longer length is past LAST. */
  lemma Monotone(m: U32, n: U32)
    requires m <= n
    ensures RoundUp(m) <= RoundUp(n) <==> !(m <= LAST < n)
  {
    Extensive(m);
    Extensive(n);
    if n <= LAST {
      MonotoneBelow(m, n);
    } else if m <= LAST {
      MonotoneBelow(0, m);
    }
  }

  lemma IdempotentBelow(n: U32)
    requires n <= LAST
    ensures RoundUp(n) <= LAST && RoundUp(RoundUp(n)) == RoundUp(n)
  {
    hide BitLength, Pow2;
    Extensive(n);
    if FLOOR < n <= DOUBLE_TO {
      Powers(n);
      PowerRoom(BitLength(n - 1));
    } else if n > DOUBLE_TO {
      Wraps(n);
      Chunks(n);
      Wraps(RoundUp(n));
    }
  }

  lemma PowerRoom(e: nat)
    requires 5 <= e <= 20
    ensures FLOOR < Pow2(e) <= DOUBLE_TO && RoundUp(Pow2(e)) == Pow2(e)
  {
    hide BitLength, Pow2;
    Pow2Small();
    Pow2Mono(5, e);
    Pow2Mono(e, 20);
    BitLengthTop(e);
  }

  /** The room of a room is itself, exactly up to LAST: what a length implies does
      not change while the length grows within it. */
  lemma Idempotent(n: U32)
    ensures RoundUp(n) < WORD && (RoundUp(RoundUp(n)) == RoundUp(n) <==> n <= LAST)
  {
    Extensive(n);
    if n <= LAST {
      IdempotentBelow(n);
    }
  }

  /** Every length that fits a room implies that room. */
  lemma SameRoom(length: U32, total: U32)
    requires length <= total <= RoundUp(length)
    ensures RoundUp(total) == RoundUp(length)
  {
    Extensive(length);
    Idempotent(length);
    MonotoneBelow(length, total);
    MonotoneBelow(total, RoundUp(length));
  }

  // ---- strings ----

  class Text {
    var units: array<nat>
    var length: nat
    var wide: bool
    var grown: bool
    var reserved: nat

    ghost predicate Valid()
      reads `units, `length, `grown, `wide, units
    {
      && length <= units.Length <= MAX_LENGTH
      && (grown ==> units.Length == RoundUp(length))
      && (!wide ==> forall i :: 0 <= i < length ==> units[i] <= 255)
    }

    ghost function Contents(): seq<nat>
      requires Valid()
      reads `units, `length, `grown, `wide, units
    {
      units[..length]
    }

    /** How many units it can hold without moving: derived, not stored. */
    function Capacity(): (room: nat)
      requires Valid()
      reads this, units
      ensures length <= room <= units.Length
    {
      if grown then RoundUp(length) else length
    }

    /** A block of this size, of which length units are yet to be written. */
    constructor Raw(room: nat, wide: bool)
      ensures fresh(units) && units.Length == room && length == 0 && this.wide == wide && !grown && reserved == 1
    {
      units := new nat[room];
      length := 0;
      this.wide := wide;
      grown := false;
      reserved := 1;
    }

    /** Hashed from here on, and so never written again: exact-sized. */
    method Settle()
      requires Valid()
      modifies this`grown
      ensures Valid() && !grown && Contents() == old(Contents())
    {
      grown := false;
    }
  }

  /** A string, a refusal because it would be too long, or a block that is too
      short for what the code goes on to write: what happens then is not said. */
  datatype Grown = Made(text: Text) | Refused | Overrun

  /** A grown copy with room for total units. */
  method Regrow(a: Text, total: U32, wide: bool) returns (r: Grown)
    requires a.Valid() && a.length <= total && (a.wide ==> wide)
    ensures r == Overrun <==> total > LAST
    ensures r == Refused <==> total <= LAST && RoundUp(total) > MAX_LENGTH
    ensures r.Made? ==>
              var out := r.text;
              && fresh(out) && fresh(out.units) && out.grown && out.wide == wide && out.reserved == 1
              && a.length <= total <= out.units.Length == RoundUp(total) && out.length == a.length && out.units[..a.length] == a.Contents()
  {
    Extensive(total);
    var room := RoundUp(total);
    if room > MAX_LENGTH {
      return Refused;
    }
    if room < total {
      return Overrun;
    }
    var out := new Text.Raw(room, wide);
    for i := 0 to a.length
      invariant out.units[..i] == a.units[..i]
      modifies out.units
    {
      out.units[i] := a.units[i];
    }
    out.length := a.length;
    out.grown := true;
    return Made(out);
  }

  /** Whether an append of so much may write into a itself. */
  predicate InPlace(a: Text, extra: nat, wide: bool)
    requires a.Valid()
    reads a, a.units
  {
    a.reserved == 1 && (wide ==> a.wide) && a.length + extra <= a.Capacity()
  }

  /** b's units behind a's, in a's own block. */
  method AppendInPlace(a: Text, b: Text)
    requires a.Valid() && b.Valid() && (a != b ==> a.units != b.units) && InPlace(a, b.length, b.wide)
    modifies a`length, a.units
    ensures a.Valid() && a.Contents() == old(a.Contents()) + old(b.Contents())
  {
    hide RoundUp;
    var at, total := a.length, a.length + b.length;
    ghost var before, more := a.Contents(), b.Contents();
    Grows(a, total);
    CopyUnits(a.units, at, b.units, b.length);
    a.length := total;
    assert a.units[..total] == before + more;
    WideOk(before, more, a.wide);
    Narrow(a);
  }

  /** A grown copy of a, and b's units behind it. */
  method AppendCopy(a: Text, b: Text) returns (r: Grown)
    requires a.Valid() && b.Valid()
    ensures r == Overrun <==> a.length + b.length > LAST
    ensures r == Refused <==> a.length + b.length <= LAST && RoundUp(a.length + b.length) > MAX_LENGTH
    ensures r.Made? ==>
              var out := r.text;
              && fresh(out) && fresh(out.units) && out.Valid() && out.Contents() == a.Contents() + b.Contents()
              && out.wide == (a.wide || b.wide) && out.grown && out.reserved == 1
  {
    hide RoundUp;
    var at, total := a.length, a.length + b.length;
    r := Regrow(a, total, a.wide || b.wide);
    if r.Made? {
      var out := r.text;
      CopyUnits(out.units, at, b.units, b.length);
      out.length := total;
      assert out.units[..total] == out.units[..at] + out.units[at..total];
      WideOk(a.Contents(), b.Contents(), out.wide);
      Narrow(out);
    }
  }

  /** What is left to say of a narrow string's units. */
  lemma Narrow(a: Text)
    requires a.length <= a.units.Length <= MAX_LENGTH && (a.grown ==> a.units.Length == RoundUp(a.length))
    requires !a.wide ==> forall i :: 0 <= i < |a.units[..a.length]| ==> a.units[..a.length][i] <= 255
    ensures a.Valid()
  {
    assert forall i :: 0 <= i < a.length ==> a.units[..a.length][i] == a.units[i];
  }

  /** a followed by b, where the caller hands a over or keeps it; b may be a. The
      units are written into a's own block only when this call holds the one
      reference to it, and there is room; else a is given back, if it was handed
      over, and as it was. */
  method AddString(a: Text, b: Text, consume: bool) returns (r: Grown)
    requires a.Valid() && b.Valid() && (a != b ==> a.units != b.units)
    requires consume ==> a.reserved > 0
    modifies a`length, a`reserved, a.units
    ensures !consume || old(a.reserved) != 1 ==> r != Made(a)
    ensures r == Made(a) <==>
              && consume && old(a.reserved) == 1 && (old(b.wide) ==> old(a.wide))
              && old(a.length + b.length) <= if old(a.grown) then old(a.units.Length) else old(a.length)
    ensures r == Overrun <==> old(a.length + b.length) > LAST
    ensures r == Refused <==> r != Made(a) && old(a.length + b.length) <= LAST && RoundUp(old(a.length + b.length)) > 2147483646
    ensures r.Made? ==> r.text.Valid() && r.text.Contents() == old(a.Contents()) + old(b.Contents()) && r.text.wide == old(a.wide || b.wide)
    ensures r != Made(a) ==> a.Valid() && a.Contents() == old(a.Contents()) && a.length == old(a.length) && a.units[..] == old(a.units[..])
    ensures r.Made? && r != Made(a) ==> r.text.grown && fresh(r.text) && fresh(r.text.units) && r.text.reserved == 1
    ensures a.reserved == old(a.reserved) - if r.Made? && r != Made(a) && consume && old(a.reserved) != IMMORTAL then 1 else 0
  {
    hide *;
    Lengths(a, b);
    InPlaceFields(a, b.length, b.wide);
    if consume && InPlace(a, b.length, b.wide) {
      InPlaceIs(a, b.length, b.wide);
      AppendInPlace(a, b);
      return Made(a);
    }
    r := AppendCopy(a, b);
    if r.Made? && consume && a.reserved != IMMORTAL {
      a.reserved := a.reserved - 1;
    }
  }

  lemma Lengths(a: Text, b: Text)
    requires a.Valid() && b.Valid()
    ensures a.length + b.length < WORD && MAX_LENGTH == 2147483646
  {
  }

  lemma InPlaceIs(a: Text, extra: nat, wide: bool)
    requires a.Valid() && InPlace(a, extra, wide)
    ensures (wide ==> a.wide) && a.length + extra <= MAX_LENGTH < LAST
  {
  }

  lemma InPlaceFields(a: Text, extra: nat, wide: bool)
    requires a.Valid()
    ensures InPlace(a, extra, wide) <==>
              a.reserved == 1 && (wide ==> a.wide) && a.length + extra <= if a.grown then a.units.Length else a.length
  {
  }

  /** In a grown string the room a longer length implies is the room it has. */
  lemma Grows(a: Text, total: nat)
    requires a.Valid() && a.length <= total <= a.Capacity()
    ensures total <= a.units.Length && (a.grown ==> a.units.Length == RoundUp(total))
  {
    if a.grown {
      SameRoom(a.length, total);
    }
  }

  lemma WideOk(before: seq<nat>, more: seq<nat>, wide: bool)
    requires !wide ==> (forall i :: 0 <= i < |before| ==> before[i] <= 255) && forall i :: 0 <= i < |more| ==> more[i] <= 255
    ensures !wide ==> forall i :: 0 <= i < |before + more| ==> (before + more)[i] <= 255
  {
  }

  /** Units of `from` behind the first `at` of `into`: what is read is before what
      is written, where they are one block. */
  method CopyUnits(into: array<nat>, at: nat, from: array<nat>, count: nat)
    requires count <= from.Length && at + count <= into.Length && (into == from ==> count <= at)
    modifies into
    ensures into[..at] == old(into[..at]) && into[at..at + count] == old(from[..count])
    ensures from[..count] == old(from[..count])
  {
    for i := 0 to count
      invariant into[..at] == old(into[..at]) && into[at..at + i] == old(from[..i])
      invariant from[..count] == old(from[..count])
    {
      into[at + i] := from[i];
      assert into[at..at + i + 1] == into[at..at + i] + [from[i]];
    }
  }
}
