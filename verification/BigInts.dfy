/** Bigints of 128 bits: powers that stop exactly when the true power does not
    fit, and shifts that are the mathematical ones for every signed count. */
module BigInts {
  import opened Bits

  const LIMIT: int := 170141183460469231731687303715884105728

  predicate Fits(x: int) {
    -LIMIT <= x < LIMIT
  }

  /** A value, or a stop by name. */
  datatype Answer = Held(value: int) | Overflow | Refused

  // ---- powers ----

  function Power(base: int, e: nat): int {
    if e == 0 then 1 else base * Power(base, e - 1)
  }

  lemma {:induction false} PowerSquare(base: int, e: nat)
    ensures Power(base * base, e) == Power(base, 2 * e)
  {
    if e > 0 {
      PowerSquare(base, e - 1);
      assert Power(base, 2 * e) == base * (base * Power(base, 2 * (e - 1)));
      Associates(base, base, Power(base, 2 * (e - 1)));
    }
  }

  lemma Associates(a: int, b: int, c: int)
    ensures a * (b * c) == (a * b) * c
  {
  }

  /** A power of something at least 1 is at least 1. */
  lemma {:induction false} PowerAtLeast(base: int, e: nat)
    requires base >= 1
    ensures Power(base, e) >= 1
    ensures e > 0 ==> Power(base, e) >= base
  {
    if e > 0 {
      PowerAtLeast(base, e - 1);
      Times(base, Power(base, e - 1));
    }
  }

  lemma Times(a: int, b: int)
    requires a >= 1 && b >= 1
    ensures a * b >= a && a * b >= b
  {
  }

  /** Multiplying by at least 1 brings nothing back into range. */
  lemma StaysOut(x: int, k: int)
    requires !Fits(x) && k >= 1
    ensures !Fits(x * k)
  {
    if x > 0 {
      Times(x, k);
    } else {
      Times(-x, k);
      assert (-x) * k == -(x * k);
    }
  }

  /** The bound is no square: an overflowing square is past it. */
  lemma NoSquare(b: int)
    ensures b * b != LIMIT
  {
    var r := 13043817825332782212;
    var a := if b < 0 then -b else b;
    assert a * a == b * b;
    if a <= r {
      SquareMono(a, r);
    } else {
      SquareMono(r + 1, a);
    }
  }

  lemma SquareMono(a: int, b: int)
    requires 0 <= a <= b
    ensures a * a <= b * b
  {
    assert b * b - a * a == (b - a) * (b + a);
    if b > a && b + a >= 1 {
      Times(b - a, b + a);
    }
  }

  /** An overflowing square that is still to be used takes the power out of
      range, whatever its sign. */
  lemma SquareOut(result: int, base: int, e: nat)
    requires result != 0 && e > 0 && !Fits(base * base)
    ensures !Fits(result * Power(base * base, e))
  {
    NoSquare(base);
    var s := base * base;
    SquareNonNegative(base);
    PowerAtLeast(s, e);
    var p := Power(s, e);
    if result > 0 {
      Times(p, result);
    } else {
      Times(p, -result);
      assert p * (-result) == -(result * p);
    }
  }

  lemma SquareNonNegative(b: int)
    ensures b * b >= 0
  {
  }

  /** Square and multiply, each product checked; the last square is not taken. */
  method Pow(base: int, exponent: int) returns (r: Answer)
    requires Fits(base) && Fits(exponent)
    ensures exponent < 0 ==> r == Refused
    ensures exponent >= 0 ==> r == if Fits(Power(base, exponent)) then Held(Power(base, exponent)) else Overflow
  {
    if exponent < 0 {
      return Refused;
    }
    var result, b, e := 1, base, exponent;
    while e != 0
      invariant e >= 0 && Fits(result) && Fits(b) && result * Power(b, e) == Power(base, exponent)
      invariant e != 0 ==> b >= 0 || result == 1
      invariant result == 0 ==> b == 0
      decreases e
    {
      var half := e / 2;
      assert e == 2 * half + e % 2;
      PowerSquare(b, half);
      if e % 2 != 0 {
        PowerIs(b, e, half);
        Associates(result, b, Power(b * b, half));
        if !Fits(result * b) {
          ProductOut(result, b, half);
          return Overflow;
        }
        ZeroProduct(result, b);
        result := result * b;
      } else {
        assert Power(b, e) == Power(b * b, half);
      }
      e := half;
      if e != 0 {
        if !Fits(b * b) {
          SquareOut(result, b, e);
          return Overflow;
        }
        SquareNonNegative(b);
        b := b * b;
      }
    }
    return Held(result);
  }

  lemma PowerIs(b: int, e: nat, half: nat)
    requires e == 2 * half + 1
    ensures Power(b, e) == b * Power(b * b, half)
  {
    PowerSquare(b, half);
  }

  lemma ZeroProduct(a: int, b: int)
    ensures a * b == 0 <==> a == 0 || b == 0
  {
  }

  /** An overflowing product is not brought back by the squares that follow. */
  lemma ProductOut(result: int, b: int, half: nat)
    requires Fits(result) && Fits(b) && !Fits(result * b) && (b >= 0 || result == 1)
    ensures !Fits((result * b) * Power(b * b, half))
  {
    ZeroProduct(result, b);
    assert b >= 1;
    Times(b, b);
    PowerAtLeast(b * b, half);
    StaysOut(result * b, Power(b * b, half));
  }

  // ---- shifts ----

  /** What 128 bits keep of a product, read as signed. */
  function Wrap(x: int): int {
    (x + LIMIT) % (2 * LIMIT) - LIMIT
  }

  lemma WrapFits(x: int)
    ensures Fits(Wrap(x)) && (Fits(x) ==> Wrap(x) == x)
    ensures exists k :: Wrap(x) == x - k * (2 * LIMIT)
  {
    var k := (x + LIMIT) / (2 * LIMIT);
    assert Wrap(x) == x - k * (2 * LIMIT);
  }

  lemma Pow2Limit()
    ensures Pow2(127) == LIMIT && Pow2(128) == 2 * LIMIT
  {
    Pow2Small();
    hide Pow2;
    Pow2Add(8, 8);
    Pow2Add(16, 16);
    Pow2Add(32, 32);
    Pow2Add(64, 32);
    Pow2Add(96, 16);
    Pow2Add(112, 8);
    Pow2Add(120, 7);
    Pow2Add(1, 127);
  }

  lemma Pow2Small()
    ensures Pow2(8) == 256 && Pow2(7) == 128 && Pow2(1) == 2
  {
  }

  /** Floor division by a power of two undoes multiplication by it. */
  lemma DivExact(q: int, m: int)
    requires m > 0
    ensures (q * m) / m == q
  {
    var d, r := (q * m) / m, (q * m) % m;
    assert q * m == d * m + r;
    assert (q - d) * m == r;
    assert (d - q) * m == -r;
    if q > d {
      Times(q - d, m);
    } else if q < d {
      Times(d - q, m);
    }
  }

  lemma SmallQuotient(value: int, m: int)
    requires 0 < m && -m <= value < m
    ensures value / m == if value < 0 then -1 else 0
  {
    var q, r := value / m, value % m;
    assert value == q * m + r && 0 <= r < m;
    assert (-q - 1) * m == -(q * m) - m;
    if q >= 1 {
      Times(q, m);
    } else if q <= -2 {
      Times(-q - 1, m);
    }
  }

  /** Shifting up and back recovers the value exactly when the product fits. */
  lemma UpChecks(value: int, count: nat)
    requires Fits(value) && count < 128
    ensures Wrap(value * Pow2(count)) / Pow2(count) == value <==> Fits(value * Pow2(count))
  {
    var m := Pow2(count);
    WrapFits(value * m);
    DivExact(value, m);
    if !Fits(value * m) {
      var k :| Wrap(value * m) == value * m - k * (2 * LIMIT);
      Pow2Limit();
      Pow2Add(128 - count, count);
      var n := Pow2(128 - count);
      assert 2 * LIMIT == n * m;
      Associates(k, n, m);
      assert (value - k * n) * m == value * m - k * (n * m);
      DivExact(value - k * n, m);
      ZeroProduct(k, n);
    }
  }

  /** Up by an unsigned count. */
  method Up(value: int, count: nat) returns (r: Answer)
    requires Fits(value)
    ensures r == if Fits(value * Pow2(count)) then Held(value * Pow2(count)) else Overflow
  {
    if value == 0 {
      return Held(0);
    }
    if count >= 128 {
      PastWidth(value, count);
      return Overflow;
    }
    var shifted := Wrap(value * Pow2(count));
    UpChecks(value, count);
    WrapFits(value * Pow2(count));
    if shifted / Pow2(count) != value {
      return Overflow;
    }
    return Held(shifted);
  }

  lemma PastWidth(value: int, count: nat)
    requires value != 0 && count >= 128
    ensures !Fits(value * Pow2(count))
  {
    Pow2Limit();
    Pow2Add(128, count - 128);
    Times(2 * LIMIT, Pow2(count - 128));
    var m := Pow2(count);
    assert m >= 2 * LIMIT;
    if value > 0 {
      Times(value, m);
    } else {
      Times(-value, m);
      assert (-value) * m == -(value * m);
    }
  }

  /** Down arithmetically: floor division by the power of two. */
  function Down(value: int, count: nat): (r: int)
    requires Fits(value)
    ensures r == value / Pow2(count)
  {
    if count >= 128 then
      Saturates(value, count);
      if value < 0 then -1 else 0
    else value / Pow2(count)
  }

  lemma Saturates(value: int, count: nat)
    requires Fits(value) && count >= 128
    ensures value / Pow2(count) == if value < 0 then -1 else 0
  {
    hide Pow2;
    Pow2Limit();
    Pow2Add(128, count - 128);
    Times(2 * LIMIT, Pow2(count - 128));
    SmallQuotient(value, Pow2(count));
  }

  /** A shift for every signed count: the product when it fits, and the floor of
      the quotient; counts past the width are settled before they are negated. */
  method Shl(value: int, count: int) returns (r: Answer)
    requires Fits(value) && Fits(count)
    ensures r == if count < 0 then Held(value / Pow2(-count))
                 else if Fits(value * Pow2(count)) then Held(value * Pow2(count)) else Overflow
  {
    if count < 0 {
      if count <= -128 {
        Saturates(value, -count);
        return Held(if value < 0 then -1 else 0);
      }
      return Held(Down(value, -count));
    }
    if count >= 128 && value != 0 {
      PastWidth(value, count);
      PastWidth(value, 128);
    }
    r := Up(value, if count >= 128 then 128 else count);
  }

  method Shr(value: int, count: int) returns (r: Answer)
    requires Fits(value) && Fits(count)
    ensures r == if count >= 0 then Held(value / Pow2(count))
                 else if Fits(value * Pow2(-count)) then Held(value * Pow2(-count)) else Overflow
  {
    if count < 0 {
      if count <= -128 && value != 0 {
        PastWidth(value, -count);
        PastWidth(value, 128);
      }
      r := Up(value, if count <= -128 then 128 else -count);
      return;
    }
    if count >= 128 {
      Saturates(value, count);
      return Held(if value < 0 then -1 else 0);
    }
    return Held(Down(value, count));
  }

}
