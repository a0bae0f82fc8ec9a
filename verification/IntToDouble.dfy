/** Converting 64-bit integers to doubles with integer operations only, and why the result is the
    nearest double, ties to even.
 */
module IntToDouble {
  import opened Numbers

  lemma {:induction false} Pow2Add(j: nat, k: nat)
    ensures Pow2(j + k) == Pow2(j) * Pow2(k)
  {
    if k > 0 {
      Pow2Add(j, k - 1);
      assert j + k - 1 == j + (k - 1);
    }
  }

  lemma {:induction false} Pow2Less(j: nat, k: nat)
    requires j <= k
    ensures Pow2(j) <= Pow2(k)
  {
    if j < k {
      Pow2Less(j, k - 1);
    }
  }

  const TWO_52: nat := 0x10_0000_0000_0000
  const TWO_53: nat := 0x20_0000_0000_0000
  const TWO_63: nat := 0x8000_0000_0000_0000
  const TWO_64: nat := 0x1_0000_0000_0000_0000

  lemma SmallPowers()
    ensures Pow2(1) == 2 && Pow2(4) == 16
  {
    assert Pow2(0) == 1;
    assert Pow2(2) == 4;
  }

  lemma Powers()
    ensures Pow2(52) == TWO_52 && Pow2(53) == TWO_53 && Pow2(63) == TWO_63 && Pow2(64) == TWO_64
  {
    hide Pow2;
    SmallPowers();
    Pow2Add(4, 4);
    Pow2Add(8, 8);
    Pow2Add(16, 16);
    Pow2Add(32, 16);
    Pow2Add(48, 4);
    Pow2Add(52, 1);
    Pow2Add(32, 32);
    Pow2Add(63, 1);
  }

  // ----- the conversion -----

  /** The position of the highest set bit: 63 less the count of leading zeros. */
  function TopBit(v: nat): (p: nat)
    requires v > 0
    ensures Pow2(p) <= v < Pow2(p + 1)
  {
    if v == 1 then 0 else TopBit(v / 2) + 1
  }

  lemma TopBitBound(v: nat)
    requires 0 < v < TWO_64
    ensures TopBit(v) <= 63
  {
    Powers();
    if TopBit(v) > 63 {
      Pow2Less(64, TopBit(v));
    }
  }

  predicate RoundsUp(q: nat, rem: nat, half: nat) {
    rem > half || (rem == half && q % 2 == 1)
  }

  /** A significand of 53 bits and the exponent of its highest bit. */
  datatype Rounded = Rounded(q: nat, p: nat)

  function Round(v: nat): Rounded
    requires v > 0
  {
    var p := TopBit(v);
    if p <= 52 then Rounded(v * Pow2(52 - p), p)
    else
      var shift := p - 52;
      var q := v / Pow2(shift);
      if !RoundsUp(q, v % Pow2(shift), Pow2(shift - 1)) then Rounded(q, p)
      else if q + 1 == TWO_53 then Rounded((q + 1) / 2, p + 1)
      else Rounded(q + 1, p)
  }

  function Assemble(sign: nat, r: Rounded): nat {
    sign + (r.p + 1023) * TWO_52 + r.q % TWO_52
  }

  function ConvertMagnitude(v: nat, sign: nat): nat {
    if v == 0 then sign else Assemble(sign, Round(v))
  }

  function FromSigned(x: nat): nat
    requires x < TWO_64
  {
    if x >= TWO_63 then ConvertMagnitude(TWO_64 - x, TWO_63) else ConvertMagnitude(x, 0)
  }

  function FromUnsigned(x: nat): nat
    requires x < TWO_64
  {
    ConvertMagnitude(x, 0)
  }

  // ----- what a double is -----

  function Exponent(bits: nat): nat {
    bits / TWO_52 % 2048
  }

  function Fraction(bits: nat): nat {
    bits % TWO_52
  }

  /** Neither an infinity nor a NaN. */
  predicate Finite(bits: nat) {
    bits < TWO_64 && Exponent(bits) < 2047
  }

  /** Every finite double is a whole number of these, the smallest subnormal: 2 to the power -1074. */
  function Magnitude(bits: nat): nat {
    if Exponent(bits) == 0 then Fraction(bits) else (TWO_52 + Fraction(bits)) * Pow2(Exponent(bits) - 1)
  }

  function Signed(negative: bool, x: int): int {
    if negative then -x else x
  }

  function Scaled(bits: nat): int {
    Signed(bits >= TWO_63, Magnitude(bits))
  }

  /** The integer one, in the same unit. */
  function Unit(): (r: nat)
    ensures r > 0
  {
    Pow2(1074)
  }

  function Abs(x: int): nat {
    if x < 0 then -x else x
  }

  /** No finite double is closer to `n`, and one equally close but different means the significand is
      even. */
  ghost predicate Nearest(bits: nat, n: int) {
    && Finite(bits)
    && forall d | Finite(d) :: NoCloser(bits, n, d)
  }

  predicate NoCloser(bits: nat, n: int, d: nat) {
    && Abs(Scaled(bits) - n * Unit()) <= Abs(Scaled(d) - n * Unit())
    && (Abs(Scaled(bits) - n * Unit()) == Abs(Scaled(d) - n * Unit()) && Scaled(d) != Scaled(bits) ==> bits % 2 == 0)
  }

  function SignedValue(x: nat): int
    requires x < TWO_64
  {
    if x >= TWO_63 then x - TWO_64 else x
  }

  // ----- rounding to a grid -----

  /** The whole number of grid steps chosen by the rounding rule. */
  function Chosen(v: nat, u: nat): nat
    requires u > 0
  {
    var q := v / u;
    if RoundsUp(q, v % u, u / 2) then q + 1 else q
  }

  lemma MulLeft(a: int, b: int, u: int)
    requires a <= b && u >= 0
    ensures a * u <= b * u
  {
  }

  /** No multiple of the step is closer than the chosen one, and only an even choice has a rival. */
  lemma ChosenNearest(v: nat, u: nat, k: int)
    requires u > 0 && u % 2 == 0
    ensures Abs(Chosen(v, u) * u - v) <= Abs(k * u - v)
    ensures Abs(Chosen(v, u) * u - v) == Abs(k * u - v) && k != Chosen(v, u) ==> Chosen(v, u) % 2 == 0
  {
    var q, rem := v / u, v % u;
    assert v == q * u + rem;
    assert (q + 1) * u == q * u + u;
    if k <= q {
      MulLeft(k, q, u);
      if k < q {
        MulLeft(k, q - 1, u);
        assert (q - 1) * u == q * u - u;
      }
    } else {
      MulLeft(q + 1, k, u);
      if k > q + 1 {
        MulLeft(q + 2, k, u);
        assert (q + 2) * u == q * u + 2 * u;
      }
    }
  }

  /** The significand fits, and times its power of two it is the chosen multiple. */
  lemma RoundIs(v: nat)
    requires 0 < v < TWO_64 && TopBit(v) > 52
    ensures var p, r := TopBit(v), Round(v);
      var u := Pow2(p - 52);
      && u % 2 == 0 && TWO_52 <= r.q < TWO_53 && p <= r.p <= p + 1
      && r.q * Pow2(r.p - 52) == Chosen(v, u) * u && (Chosen(v, u) % 2 == 0 ==> r.q % 2 == 0)
  {
    hide Pow2, TopBit;
    var p := TopBit(v);
    var u := Pow2(p - 52);
    Powers();
    Doubles(p - 53);
    Doubles(p - 52);
    TopBetween(v);
    QuotientRange(v, u);
    var r := Round(v);
    if r.p == p + 1 {
      assert r.q == TWO_52 && Chosen(v, u) == TWO_53;
    } else {
      assert r.q == Chosen(v, u);
    }
  }

  lemma Doubles(k: nat)
    ensures Pow2(k + 1) == 2 * Pow2(k)
  {
  }

  lemma TopBetween(v: nat)
    requires v > 0 && TopBit(v) > 52
    ensures TWO_52 * Pow2(TopBit(v) - 52) <= v < TWO_53 * Pow2(TopBit(v) - 52)
  {
    hide Pow2, TopBit;
    Powers();
    Pow2Add(52, TopBit(v) - 52);
    Pow2Add(53, TopBit(v) - 52);
  }

  lemma QuotientRange(v: nat, u: nat)
    requires u > 0 && TWO_52 * u <= v < TWO_53 * u
    ensures TWO_52 <= v / u < TWO_53
  {
    var q := v / u;
    assert v == q * u + v % u;
    assert (q + 1) * u == q * u + u;
    if q < TWO_52 {
      MulLeft(q + 1, TWO_52, u);
    }
    if q >= TWO_53 {
      MulLeft(TWO_53, q, u);
    }
  }

  /** Small integers are exact. */
  lemma ExactIs(v: nat)
    requires 0 < v && TopBit(v) <= 52
    ensures var r := Round(v); TWO_52 <= r.q < TWO_53 && r.p <= 52 && r.q == v * Pow2(52 - r.p)
  {
    var p := TopBit(v);
    Powers();
    Pow2Add(p, 52 - p);
    Pow2Add(p + 1, 52 - p);
    MulLeft(Pow2(p), v, Pow2(52 - p));
    Scale(v, Pow2(p + 1), Pow2(52 - p));
  }

  lemma Scale(a: int, b: int, u: int)
    requires a < b && u > 0
    ensures a * u < b * u
  {
  }

  // ----- the assembled double -----

  lemma AssembleIs(sign: nat, r: Rounded)
    requires (sign == 0 || sign == TWO_63) && TWO_52 <= r.q < TWO_53 && r.p <= 64
    ensures var bits := Assemble(sign, r);
      && Finite(bits) && (bits >= TWO_63 <==> sign == TWO_63)
      && Magnitude(bits) == r.q * Pow2(r.p + 1022) && bits % 2 == r.q % 2
  {
    var f, e := r.q - TWO_52, r.p + 1023;
    assert r.q % TWO_52 == f;
    var bits := Assemble(sign, r);
    assert sign == (if sign == 0 then 0 else 2048) * TWO_52;
    var top := e + if sign == 0 then 0 else 2048;
    assert bits == top * TWO_52 + f;
    assert bits / TWO_52 == top && bits % TWO_52 == f;
    assert top % 2048 == e;
  }

  // ----- doubles and the grid -----

  /** At or above the binade of `p` a double is on its grid; below it, it is below the binade. */
  lemma OnGrid(d: nat, p: nat) returns (k: nat)
    requires Finite(d)
    ensures Magnitude(d) == k * Pow2(p + 1022) || Magnitude(d) < Pow2(p + 1074)
  {
    var e, f := Exponent(d), Fraction(d);
    Powers();
    k := 0;
    Pow2Add(52, p + 1022);
    if e > 0 && e - 1 >= p + 1022 {
      var over := e - 1 - (p + 1022);
      Pow2Add(over, p + 1022);
      k := (TWO_52 + f) * Pow2(over);
      Assoc(TWO_52 + f, Pow2(over), Pow2(p + 1022));
    } else if e > 0 {
      Pow2Less(e - 1, p + 1021);
      Pow2Add(53, p + 1021);
      Scale(TWO_52 + f, TWO_53, Pow2(e - 1));
      MulRight(Pow2(e - 1), Pow2(p + 1021), TWO_53);
    } else {
      Pow2Less(53, p + 1074);
    }
  }

  lemma Assoc(a: nat, b: nat, c: nat)
    ensures a * b * c == a * (b * c)
  {
  }

  lemma MulRight(a: nat, b: nat, u: nat)
    requires a <= b
    ensures u * a <= u * b
  {
  }

  lemma AbsScale(a: int, b: int, u: nat)
    ensures Abs(a * u - b * u) == Abs(a - b) * u
  {
    assert a * u - b * u == (a - b) * u;
    if a < b {
      assert (b - a) * u == -((a - b) * u);
    }
  }

  lemma UnitIs()
    ensures Unit() == Pow2(1074)
  {
  }

  /** Distances from `v`, in units. */
  lemma LargeNearest(v: nat, d: nat)
    requires 0 < v < TWO_64 && TopBit(v) > 52 && Finite(d)
    ensures var m := Round(v).q * Pow2(Round(v).p + 1022);
      && Abs(m - v * Unit()) <= Abs(Magnitude(d) - v * Unit())
      && (Abs(m - v * Unit()) == Abs(Magnitude(d) - v * Unit()) && Magnitude(d) != m ==> Round(v).q % 2 == 0)
  {
    hide Pow2, Round, TopBit, Chosen, Magnitude, Finite, Unit;
    UnitIs();
    var p, r := TopBit(v), Round(v);
    var u, c := Pow2(p - 52), Chosen(v, Pow2(p - 52));
    RoundIs(v);
    var m := r.q * Pow2(r.p + 1022);
    Pow2Add(r.p - 52, 1074);
    Assoc(r.q, Pow2(r.p - 52), Unit());
    assert m == c * u * Unit();
    Pow2Add(p - 52, 1074);
    Powers();
    var k := OnGrid(d, p);
    if Magnitude(d) == k * Pow2(p + 1022) {
      Assoc(k, u, Unit());
      GridRival(v, u, k, Unit());
    } else {
      Pow2Add(p, 1074);
      Pow2Add(52, p - 52);
      MulLeft(Pow2(p), v, Unit());
      GridRival(v, u, TWO_52, Unit());
    }
  }

  /** A rival on the grid, in any unit. */
  lemma GridRival(v: nat, u: nat, k: int, unit: nat)
    requires u > 0 && u % 2 == 0 && unit > 0
    ensures var m, x := Chosen(v, u) * u * unit, k * u * unit;
      && Abs(m - v * unit) <= Abs(x - v * unit)
      && (Abs(m - v * unit) == Abs(x - v * unit) && x != m ==> Chosen(v, u) % 2 == 0)
  {
    var c := Chosen(v, u);
    ChosenNearest(v, u, k);
    hide Chosen, Abs;
    AbsScale(c * u, v, unit);
    AbsScale(k * u, v, unit);
    MulLeft(Abs(c * u - v), Abs(k * u - v), unit);
    if Abs(c * u - v) < Abs(k * u - v) {
      Scale(Abs(c * u - v), Abs(k * u - v), unit);
    }
  }

  lemma SmallExact(v: nat)
    requires 0 < v && TopBit(v) <= 52
    ensures Round(v).q * Pow2(Round(v).p + 1022) == v * Unit()
  {
    ExactIs(v);
    var p := Round(v).p;
    Pow2Add(52 - p, p + 1022);
    Assoc(v, Pow2(52 - p), Pow2(p + 1022));
  }

  lemma MagnitudeNearest(v: nat, sign: nat, d: nat)
    requires v < TWO_64 && (sign == 0 || (sign == TWO_63 && v > 0)) && Finite(d)
    ensures var bits := ConvertMagnitude(v, sign);
      && Finite(bits) && (bits >= TWO_63 <==> sign == TWO_63)
      && Abs(Magnitude(bits) - v * Unit()) <= Abs(Magnitude(d) - v * Unit())
      && (Abs(Magnitude(bits) - v * Unit()) == Abs(Magnitude(d) - v * Unit()) && Magnitude(d) != Magnitude(bits) ==>
        bits % 2 == 0)
  {
    hide Pow2, Unit, Round, Assemble;
    if v == 0 {
      assert Magnitude(0) == 0;
    } else {
      TopBitBound(v);
      if TopBit(v) <= 52 {
        ExactIs(v);
        SmallExact(v);
        AssembleIs(sign, Round(v));
      } else {
        RoundIs(v);
        LargeNearest(v, d);
        AssembleIs(sign, Round(v));
      }
    }
  }

  lemma SidesNearest(v: nat, negative: bool, d: nat)
    requires v < TWO_64 && (negative ==> v > 0) && Finite(d)
    ensures var bits := ConvertMagnitude(v, if negative then TWO_63 else 0);
      Finite(bits) && NoCloser(bits, Signed(negative, v), d)
  {
    hide Magnitude, ConvertMagnitude, Unit, Exponent;
    var sign := if negative then TWO_63 else 0;
    var bits := ConvertMagnitude(v, sign);
    ZeroFinite();
    MagnitudeNearest(v, sign, d);
    MagnitudeNearest(v, sign, 0);
    SignedProduct(negative, v, Unit());
    OtherSide(Magnitude(bits), Magnitude(d), v * Unit(), negative);
  }

  lemma ZeroFinite()
    ensures Finite(0) && Magnitude(0) == 0
  {
  }

  lemma SignedProduct(negative: bool, v: int, u: nat)
    ensures Signed(negative, v) * u == Signed(negative, v * u)
  {
  }

  /** A rival of the other sign is no closer than zero. */
  lemma OtherSide(x: nat, y: nat, w: nat, negative: bool)
    requires Abs(x - w) <= w
    ensures Abs(Signed(negative, x) - Signed(negative, w)) == Abs(x - w)
    ensures Abs(Signed(negative, y) - Signed(negative, w)) == Abs(y - w)
    ensures Abs(Signed(!negative, y) - Signed(negative, w)) == y + w
  {
  }

  /** Every unsigned integer becomes the nearest double, ties to even. */
  lemma UnsignedRounded(x: nat)
    requires x < TWO_64
    ensures Nearest(FromUnsigned(x), x)
  {
    SidesNearest(x, false, 0);
    forall d | Finite(d) ensures NoCloser(FromUnsigned(x), x, d) {
      SidesNearest(x, false, d);
    }
  }

  /** Every signed integer becomes the nearest double, ties to even. */
  lemma SignedRounded(x: nat)
    requires x < TWO_64
    ensures Nearest(FromSigned(x), SignedValue(x))
  {
    var v, negative := if x >= TWO_63 then TWO_64 - x else x, x >= TWO_63;
    SidesNearest(v, negative, 0);
    forall d | Finite(d) ensures NoCloser(FromSigned(x), SignedValue(x), d) {
      SidesNearest(v, negative, d);
    }
  }

  /** Integers of at most 53 significant bits are represented exactly. */
  lemma SmallIntegersExact(x: nat)
    requires x < TWO_53
    ensures Scaled(FromUnsigned(x)) == x * Unit()
  {
    if x > 0 {
      Powers();
      if TopBit(x) > 52 {
        Pow2Less(53, TopBit(x));
      }
      ExactIs(x);
      SmallExact(x);
      AssembleIs(0, Round(x));
    }
  }
}
