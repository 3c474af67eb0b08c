/**
 C++ integers through the engine's numbers: widened to int64 (int32 stays as it is), rounded to an
 IEEE 754 double, and cast back.  Rounding is roundTiesToEven of section 4.3.1 of IEEE 754-2019; only
 the integers among the doubles matter here.
 */
module IntegerBridge {
  import opened Options

  const TWO53: nat := 0x20_0000_0000_0000
  const TWO63: nat := 0x8000_0000_0000_0000
  const TWO64: nat := 0x1_0000_0000_0000_0000

  function Pow2(k: nat): (p: nat)
    ensures p > 0
  {
    if k == 0 then 1 else 2 * Pow2(k - 1)
  }

  /** An integer that a double holds exactly (whose exponent is far from the limits here). */
  ghost predicate Representable(x: nat) {
    exists k: nat, m: nat :: Scaled(x, m, k)
  }

  predicate Scaled(x: nat, m: nat, k: nat) {
    m <= TWO53 && x == m * Pow2(k)
  }

  /** The exponent of the last place of the doubles around n. */
  function Exponent(n: nat): (k: nat) {
    if n < TWO53 then 0 else 1 + Exponent(n / 2)
  }

  function Quantized(n: nat, u: nat): (r: nat)
    requires u > 0
  {
    var q, rest := n / u, n % u;
    if 2 * rest < u || (2 * rest == u && q % 2 == 0) then q * u else (q + 1) * u
  }

  function Round(n: nat): nat {
    Quantized(n, Pow2(Exponent(n)))
  }

  function RoundInt(v: int): int {
    if v < 0 then -(Round(-v) as int) else Round(v)
  }

  lemma {:induction false} ExponentBounds(n: nat)
    ensures n < TWO53 * Pow2(Exponent(n))
    ensures Exponent(n) > 0 ==> n >= TWO53 / 2 * Pow2(Exponent(n))
  {
    if n >= TWO53 {
      ExponentBounds(n / 2);
      var k := Exponent(n / 2);
      assert Pow2(k + 1) == 2 * Pow2(k);
    }
  }

  lemma {:induction false} PowersDivide(j: nat, k: nat)
    requires j <= k
    ensures Pow2(k) == Pow2(k - j) * Pow2(j)
  {
    if j < k { PowersDivide(j, k - 1); }
  }

  lemma {:induction false} PowersGrow(j: nat, k: nat)
    requires j <= k
    ensures Pow2(j) <= Pow2(k)
  {
    if j < k { PowersGrow(j, k - 1); }
  }

  /** Where doubles are u apart, a double is a multiple of u or lies below them all. */
  lemma MultipleOrBelow(x: nat, k: nat)
    requires Representable(x) && k > 0
    ensures x <= TWO53 / 2 * Pow2(k) || exists c: nat :: x == c * Pow2(k)
  {
    var e: nat, m: nat :| Scaled(x, m, e);
    if e >= k { Multiple(x, m, e, k); } else { Below(x, m, e, k); }
  }

  lemma Multiple(x: nat, m: nat, e: nat, k: nat)
    requires Scaled(x, m, e) && e >= k
    ensures exists c: nat :: x == c * Pow2(k)
  {
    PowersDivide(k, e);
    Associates(m, Pow2(e - k), Pow2(k));
    assert x == (m * Pow2(e - k)) * Pow2(k);
  }

  lemma Below(x: nat, m: nat, e: nat, k: nat)
    requires Scaled(x, m, e) && e < k
    ensures x <= TWO53 / 2 * Pow2(k)
  {
    PowersGrow(e, k - 1);
    BelowHalf(x, m, Pow2(e), Pow2(k - 1));
  }

  lemma BelowHalf(x: nat, m: nat, a: nat, p: nat)
    requires m <= TWO53 && x == m * a && a <= p
    ensures x <= TWO53 / 2 * (2 * p)
  {
    Monotone(m, TWO53, a, p);
  }

  lemma Associates(a: nat, b: nat, c: nat)
    ensures a * (b * c) == (a * b) * c
  {
  }

  lemma Monotone(a: nat, b: nat, c: nat, d: nat)
    requires a <= b && c <= d
    ensures a * c <= b * d
  {
    assert 0 <= (b - a) * c && 0 <= b * (d - c);
  }

  lemma QuantizedBounds(n: nat, u: nat)
    requires u > 0
    ensures var r := Quantized(n, u); (r == n / u * u || r == n / u * u + u) && 2 * (n - r) <= u && 2 * (r - n) <= u
    ensures n / u * u <= n < n / u * u + u
    ensures n % u == 0 ==> Quantized(n, u) == n
  {
    assert (n / u + 1) * u == n / u * u + u;
  }

  lemma GridPoints(q: nat, c: nat, u: nat)
    requires u > 0
    ensures c * u <= q * u || c * u >= q * u + u
  {
    if c <= q { Monotone(c, q, u, u); } else { Monotone(q + 1, c, u, u); assert (q + 1) * u == q * u + u; }
  }

  function Distance(a: int, b: int): nat {
    if a < b then b - a else a - b
  }

  /** The rounded value is a double, no double is nearer, and of two equally near ones it is the one
      with an even last place. */
  lemma RoundsToNearest(n: nat, x: nat)
    ensures Representable(Round(n))
    ensures Representable(x) ==> Distance(n, Round(n)) <= Distance(n, x)
    ensures 2 * Distance(n, Round(n)) == Pow2(Exponent(n)) ==>
              exists c: nat :: c % 2 == 0 && Round(n) == c * Pow2(Exponent(n))
  {
    var u := Pow2(Exponent(n));
    ExponentBounds(n);
    RoundIsDouble(n);
    if Representable(x) { NoneNearer(n, x); }
    if 2 * Distance(n, Round(n)) == u { TiesToEven(n, u); }
  }

  lemma RoundIsDouble(n: nat)
    ensures Representable(Round(n))
  {
    var k := Exponent(n);
    var u := Pow2(k);
    ExponentBounds(n);
    QuantizedBounds(n, u);
    QuotientBound(n, u);
    var m := if Round(n) == n / u * u then n / u else n / u + 1;
    assert (n / u + 1) * u == n / u * u + u;
    assert Scaled(Round(n), m, k);
  }

  lemma NoneNearer(n: nat, x: nat)
    requires Representable(x)
    ensures Distance(n, Round(n)) <= Distance(n, x)
  {
    var k := Exponent(n);
    var u := Pow2(k);
    ExponentBounds(n);
    QuantizedBounds(n, u);
    if k == 0 {
      assert n % 1 == 0;
    } else {
      MultipleOrBelow(x, k);
      BelowGrid(n, u);
      NearGrid(n, u, x);
    }
  }

  lemma NearGrid(n: nat, u: nat, x: nat)
    requires u > 0 && (x <= n / u * u || exists c: nat :: x == c * u)
    ensures Distance(n, Quantized(n, u)) <= Distance(n, x)
  {
    var q := n / u;
    OffGrid(q, u, x);
    QuantizedNear(n, u);
    QuantizedBounds(n, u);
    Outside(n, q * u, q * u + u, x, Quantized(n, u));
  }

  lemma OffGrid(q: nat, u: nat, x: nat)
    requires u > 0 && (x <= q * u || exists c: nat :: x == c * u)
    ensures x <= q * u || x >= q * u + u
  {
    if x > q * u {
      var c: nat :| x == c * u;
      GridPoints(q, c, u);
    }
  }

  lemma Outside(n: nat, low: nat, high: nat, x: nat, r: nat)
    requires low <= n < high && (x <= low || x >= high)
    requires Distance(n, r) <= n - low && Distance(n, r) <= high - n
    ensures Distance(n, r) <= Distance(n, x)
  {
  }

  /** The rounded value is no farther than either neighbour on the grid. */
  lemma QuantizedNear(n: nat, u: nat)
    requires u > 0
    ensures Distance(n, Quantized(n, u)) <= n - n / u * u
    ensures Distance(n, Quantized(n, u)) <= n / u * u + u - n
  {
    QuantizedBounds(n, u);
  }

  /** The sign of a product with a positive factor is that of the other one. */
  lemma Sign(a: int, u: nat)
    requires u > 0
    ensures a >= 0 ==> a * u >= 0
    ensures a < 0 ==> a * u <= -(u as int)
  {
    if a < 0 { Monotone(1, -a, u, u); assert (-a) * u == -(a * u); } else { Monotone(0, a, u, u); }
  }

  lemma QuotientBound(n: nat, u: nat)
    requires u > 0 && n < TWO53 * u
    ensures n / u < TWO53
  {
    var d := TWO53 - n / u;
    QuantizedBounds(n, u);
    Sign(d - 1, u);
    assert (d - 1) * u == TWO53 * u - n / u * u - u;
  }

  lemma BelowGrid(n: nat, u: nat)
    requires u > 0 && n >= TWO53 / 2 * u
    ensures TWO53 / 2 * u <= n / u * u
  {
    var d := TWO53 / 2 - n / u - 1;
    QuantizedBounds(n, u);
    Sign(d, u);
    assert d * u == TWO53 / 2 * u - n / u * u - u;
    assert TWO53 / 2 <= n / u;
    Monotone(TWO53 / 2, n / u, u, u);
  }

  lemma TiesToEven(n: nat, u: nat)
    requires u > 0 && 2 * Distance(n, Quantized(n, u)) == u
    ensures exists c: nat :: c % 2 == 0 && Quantized(n, u) == c * u
  {
    TieRest(n, u);
    var q := n / u;
    if q % 2 == 0 {
      assert Quantized(n, u) == q * u;
    } else {
      assert (q + 1) % 2 == 0 && Quantized(n, u) == (q + 1) * u;
    }
  }

  lemma TieRest(n: nat, u: nat)
    requires u > 0 && 2 * Distance(n, Quantized(n, u)) == u
    ensures 2 * (n % u) == u
  {
    var q := n / u;
    assert n == q * u + n % u && (q + 1) * u == q * u + u;
  }

  /** Rounding changes nothing exactly if the value is a double. */
  lemma RoundExact(n: nat)
    ensures Round(n) == n <==> Representable(n)
    ensures n <= TWO53 ==> Round(n) == n
  {
    RoundsToNearest(n, n);
    if n <= TWO53 { assert Scaled(n, n, 0); }
  }

  // ---- C++ integer types ----

  datatype IntType = IntType(bits: nat, signed: bool)

  predicate Standard(t: IntType) {
    t.bits == 8 || t.bits == 16 || t.bits == 32 || t.bits == 64
  }

  function Range(t: IntType): (r: (int, int))
    requires Standard(t)
  {
    var size := if t.bits == 8 then 0x100 else if t.bits == 16 then 0x1_0000
                else if t.bits == 32 then 0x1_0000_0000 else TWO64;
    if t.signed then (-(size / 2), size / 2 - 1) else (0, size - 1)
  }

  predicate Fits(v: int, t: IntType)
    requires Standard(t)
  {
    Range(t).0 <= v <= Range(t).1
  }

  /** `static_cast` to an integer type: the value of the type that is congruent. */
  function Cast(v: int, t: IntType): (r: int)
    requires Standard(t)
    ensures Fits(r, t)
    ensures Fits(v, t) ==> r == v
  {
    var size := Range(t).1 - Range(t).0 + 1;
    var m := v % size;
    if m > Range(t).1 then m - size else m
  }

  /** The eight standard types. */
  lemma StandardRanges()
    ensures Range(IntType(8, true)) == (-128, 127) && Range(IntType(8, false)) == (0, 255)
    ensures Range(IntType(16, true)) == (-0x8000, 0x7FFF) && Range(IntType(16, false)) == (0, 0xFFFF)
    ensures Range(IntType(32, true)) == (-0x8000_0000, 0x7FFF_FFFF)
    ensures Range(IntType(32, false)) == (0, 0xFFFF_FFFF)
    ensures Range(IntType(64, true)) == (-(TWO63 as int), TWO63 - 1) && Range(IntType(64, false)) == (0, TWO64 - 1)
  {
  }

  /** The cast is the one value of the type that differs from the integer by a multiple of 2^bits. */
  lemma CastCongruent(v: int, t: IntType, r: int)
    requires Standard(t)
    ensures var size := Range(t).1 - Range(t).0 + 1;
            && (Cast(v, t) - v) % size == 0
            && (Fits(r, t) && (r - v) % size == 0 ==> r == Cast(v, t))
  {
    var size := Range(t).1 - Range(t).0 + 1;
    Congruent(v, size);
    if Fits(r, t) && (r - v) % size == 0 { OnlyOne(v, r, Cast(v, t), size); }
  }

  lemma Congruent(v: int, size: int)
    requires size > 0
    ensures (v % size - v) % size == 0 && (v % size - size - v) % size == 0
  {
    var q := v / size;
    assert v % size - v == size * -q;
    Multiples(size, -q);
    assert size * (-q - 1) == size * -q - size;
    Multiples(size, -q - 1);
  }

  lemma Multiples(size: int, k: int)
    requires size > 0
    ensures size * k % size == 0
  {
    var q, m := size * k / size, size * k % size;
    assert size * k == size * q + m;
    if q < k { Grows(size, q + 1, k); }
    if q > k { Grows(size, k + 1, q); }
  }

  lemma Grows(size: int, a: int, b: int)
    requires size > 0 && a <= b
    ensures size * a <= size * b
  {
  }

  lemma OnlyOne(v: int, r: int, c: int, size: int)
    requires size > 0 && (r - v) % size == 0 && (c - v) % size == 0 && -size < r - c < size
    ensures r == c
  {
    var i, j := (r - v) / size, (c - v) / size;
    assert r - v == size * i && c - v == size * j;
    if i < j { Grows(size, i + 1, j); }
    if j < i { Grows(size, j + 1, i); }
  }

  const INT32: IntType := IntType(32, true)
  const INT64: IntType := IntType(64, true)
  const UINT64: IntType := IntType(64, false)

  /** The type through which `Converter<T>` goes. */
  function Bridge(t: IntType): IntType {
    if t == INT32 then INT32 else INT64
  }

  /** `toScript`: the double that the engine holds. */
  function ToScript(v: int, t: IntType): int
    requires Standard(t) && Fits(v, t)
  {
    RoundInt(Cast(v, Bridge(t)))
  }

  /** `toCpp`; casting a double out of the range of the bridge type has no defined result. */
  function ToCpp(d: int, t: IntType): Option<int>
    requires Standard(t)
  {
    if Fits(d, Bridge(t)) then Some(Cast(Cast(d, Bridge(t)), t)) else None
  }

  /** What C++ gets from any integer double: nothing defined exactly if it is out of the range of int32 for
      an int32, and of int64 for the other types; else the value of the type that is congruent to it. */
  lemma FromScript(d: int, t: IntType)
    requires Standard(t)
    ensures ToCpp(d, t).Some? <==> if t == INT32 then -0x8000_0000 <= d <= 0x7FFF_FFFF else -(TWO63 as int) <= d < TWO63
    ensures var size := Range(t).1 - Range(t).0 + 1;
            ToCpp(d, t).Some? ==> Fits(ToCpp(d, t).value, t) && (ToCpp(d, t).value - d) % size == 0
  {
    if ToCpp(d, t).Some? { CastCongruent(d, t, ToCpp(d, t).value); }
  }

  /** The types of up to 32 bits come back as they were. */
  lemma SmallRoundTrip(v: int, t: IntType)
    requires Standard(t) && t.bits <= 32 && Fits(v, t)
    ensures ToCpp(ToScript(v, t), t) == Some(v)
  {
    RoundExact(Distance(v, 0));
  }

  /** A 64-bit value comes back exactly if, as an int64, it is a double. */
  lemma WideRoundTrip(v: int, t: IntType)
    requires Standard(t) && t.bits == 64 && Fits(v, t)
    ensures ToCpp(ToScript(v, t), t) == Some(v) <==> Representable(Distance(Cast(v, INT64), 0))
    ensures Distance(Cast(v, INT64), 0) <= TWO53 ==> ToCpp(ToScript(v, t), t) == Some(v)
  {
    var b := Cast(v, INT64);
    var d := RoundInt(b);
    RoundExact(Distance(b, 0));
    assert d == b <==> Representable(Distance(b, 0));
    if t.signed {
      assert t == INT64 && b == v;
    } else {
      WideUnsigned(v, d, t);
    }
  }

  lemma WideUnsigned(v: int, d: int, t: IntType)
    requires t == UINT64 && Fits(v, t)
    ensures ToCpp(d, t) == Some(v) <==> d == Cast(v, INT64)
  {
    Signed64(v, t);
    if Fits(d, INT64) { Unsigned64(d, t); }
  }

  lemma Signed64(v: int, t: IntType)
    requires t == UINT64 && Fits(v, t)
    ensures Cast(v, INT64) == if v >= TWO63 then v - TWO64 else v
  {
  }

  lemma Unsigned64(a: int, t: IntType)
    requires t == UINT64 && Fits(a, INT64)
    ensures Cast(a, t) == if a < 0 then a + TWO64 else a
  {
  }

  /** Otherwise, while the rounded value is an int64, what comes back is the nearest double; it is out
      of range only when it is rounded up to 2^63. */
  lemma NearestRoundTrip(v: int, x: nat)
    requires Fits(v, INT64)
    ensures var d := ToScript(v, INT64);
            ToCpp(d, INT64) == if d == TWO63 then None else Some(d)
    ensures Representable(x) && v >= 0 ==> Distance(v, ToScript(v, INT64)) <= Distance(v, x)
    ensures Representable(x) && v < 0 ==> Distance(v, ToScript(v, INT64)) <= Distance(v, -(x as int))
  {
    RoundsToNearest(Distance(v, 0), x);
    Power63();
    RoundsToNearest(Distance(v, 0), TWO63);
  }

  /** An unsigned value goes through its int64 image.  Below 2^63 the nearest double comes back; from
      there on the distance to 2^64 is what is rounded. */
  lemma NearestUnsigned(v: int, x: nat)
    requires Fits(v, UINT64)
    ensures var d := ToScript(v, UINT64);
            ToCpp(d, UINT64) == if d == TWO63 then None else Some(if d < 0 then d + TWO64 else d)
    ensures v < TWO63 ==> ToScript(v, UINT64) >= 0
    ensures v >= TWO63 ==> ToScript(v, UINT64) < 0
    ensures Representable(x) && v < TWO63 ==> Distance(v, ToScript(v, UINT64)) <= Distance(v, x)
    ensures Representable(x) && v >= TWO63 ==>
              Distance(v, ToScript(v, UINT64) + TWO64) <= Distance(v, TWO64 - (x as int))
  {
    Signed64(v, UINT64);
    var b := Cast(v, INT64);
    var d := RoundInt(b);
    var n := Distance(b, 0);
    RoundsToNearest(n, x);
    Power63();
    RoundsToNearest(n, TWO63);
    if b < 0 {
      assert Scaled(1, 1, 0);
      RoundsToNearest(n, 1);
    }
    if Fits(d, INT64) { Unsigned64(d, UINT64); }
  }

  /** The first integer that does not come back: 2^53 + 1 becomes 2^53. */
  lemma FirstLost()
    ensures ToCpp(ToScript(TWO53 + 1, INT64), INT64) == Some(TWO53)
  {
    assert Exponent((TWO53 + 1) / 2) == 0 && Exponent(TWO53 + 1) == 1 && Pow2(1) == 2;
  }

  lemma {:induction false} AllOnes(k: nat)
    ensures TWO53 * Pow2(k) >= 1 && Exponent(TWO53 * Pow2(k) - 1) == k
  {
    if k > 0 {
      AllOnes(k - 1);
      var p := Pow2(k - 1);
      assert (TWO53 * (2 * p) - 1) / 2 == TWO53 * p - 1;
    }
  }

  /** The greatest int64 has no result: it is rounded up to 2^63. */
  lemma GreatestOutOfRange()
    ensures ToScript(TWO63 - 1, INT64) == TWO63 && ToCpp(ToScript(TWO63 - 1, INT64), INT64) == None
  {
    Power63();
    AllOnes(10);
    assert Exponent(TWO63 - 1) == 10;
    assert Quantized(TWO63 - 1, 1024) == TWO63;
  }

  lemma Power63()
    ensures Representable(TWO63) && Pow2(10) == 1024
  {
    assert Pow2(5) == 32;
    PowersDivide(5, 10);
    assert Scaled(TWO63, TWO53, 10);
  }
}
