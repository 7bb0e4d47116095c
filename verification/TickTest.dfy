/** Whether a price is a whole number of ticks: a quotient rounded to 300 digits, compared with the
    nearest whole number up to a tolerance.
 */
module TickTest {
  import opened Decimals

  const QUOTIENT_PRECISION := 300

  /** Tolerance of the test, and how far rounding the quotient can move it: 1E-9 and 1E-42. */
  const TOLERANCE := -9
  const SLACK := -42

  function Shifted(c: nat, k: nat): (r: nat)
    ensures c > 0 ==> r > 0
  {
    BelowTimes(0, Pow(k), if c > 0 then c else 1);
    c * Pow(k)
  }

  /** The whole quotient, made to end in neither 0 nor 5 if there is a remainder. */
  function Quotient(num: nat, den: nat): nat
    requires den > 0
  {
    var q := num / den;
    if num % den != 0 && q % 5 == 0 then q + 1 else q
  }

  /** Division: two guard digits, a last digit that remembers a remainder, then rounding. Dropping the
      trailing zeros of an exact quotient does not change its value and is not repeated here. */
  function Div(a: Dec, b: Dec, precision: nat): Dec
    requires b.coef > 0 && precision >= 1
  {
    var shift := NumDigits(b.coef) - NumDigits(a.coef) + precision + 1;
    var num := if shift >= 0 then Shifted(a.coef, shift) else a.coef;
    var den := if shift >= 0 then b.coef else Shifted(b.coef, -shift);
    Round(Dec(false, Quotient(num, den), a.exp - b.exp - shift), precision)
  }

  /** The nearest whole number, ties to even. */
  function Nearest(d: Dec): nat {
    if d.exp >= 0 then d.coef * Pow(d.exp) else HalfEven(d.coef, Pow(-d.exp))
  }

  function Dist(x: real, y: real): real {
    if x < y then y - x else x - y
  }

  predicate Aligns(price: Dec, tick: Dec)
    requires tick.coef > 0
  {
    var scaled := Div(price, tick, QUOTIENT_PRECISION);
    Dist(Val(scaled), Nearest(scaled) as real) <= Scale(TOLERANCE)
  }

  // ---- how far rounding moves a value -----------------------------------------------------------

  /** Rounding to a unit takes the nearest multiple, and of two equally near ones the even one. */
  lemma HalfEvenIsNear(n: nat, unit: nat, m: nat)
    requires unit >= 1 && m == HalfEven(n, unit) * unit
    ensures 2 * m <= 2 * n + unit && 2 * n <= 2 * m + unit
    ensures 2 * m == 2 * n + unit || 2 * n == 2 * m + unit ==> HalfEven(n, unit) % 2 == 0
  {
    var q, r := n / unit, n % unit;
    assert n == q * unit + r;
    assert (q + 1) * unit == q * unit + unit;
  }

  lemma {:induction false} ScaleGrows(a: int, b: int)
    requires a <= b
    ensures Scale(a) <= Scale(b)
    decreases b - a
  {
    if a < b {
      ScaleGrows(a, b - 1);
      ScaleStep(b - 1);
    } else {
      assert Scale(a) == Scale(b);
    }
  }

  lemma RealOrder(x: real, y: real, s: real)
    requires x <= y && s > 0.0
    ensures x * s <= y * s
  {
    assert (y - x) * s >= 0.0;
    Distribute(y, -x, s);
  }

  /** A product; hidden, it is one term to reason about. */
  function Times(x: real, y: real): real {
    x * y
  }

  lemma ValIs(d: RawDec)
    ensures Val(d) == Times(d.coef as real, Scale(d.exp))
  {
  }

  lemma DistScales(x: real, y: real, limit: real, t: real)
    requires Dist(x, y) <= limit && t > 0.0
    ensures Dist(Times(x, t), Times(y, t)) <= Times(limit, t)
  {
    RealOrder(x, y + limit, t);
    RealOrder(y, x + limit, t);
    Distribute(y, limit, t);
    Distribute(x, limit, t);
  }

  lemma UnitValue(e: int, k: nat)
    ensures Times(Pow(k) as real, Scale(e)) == Scale(e + k)
  {
    hide Pow, Scale;
    ScaleAdds(k, e);
    ScaleIsPow(k);
  }

  lemma ShiftedValue(q: nat, k: nat, e: int, m: nat)
    requires m == q * Pow(k)
    ensures Times(q as real, Scale(e + k)) == Times(m as real, Scale(e))
  {
    hide Pow, Scale;
    UnitValue(e, k);
    RealProduct(q, Pow(k));
    Associate(q as real, Pow(k) as real, Scale(e));
  }

  lemma NearInts(x: nat, y: nat, unit: nat)
    requires x <= y + unit && y <= x + unit
    ensures Dist(x as real, y as real) <= unit as real
  {
  }

  /** Digits dropped as one unit of ten to the k: the value moves by at most that unit. */
  lemma DroppedDigits(coef: nat, e: int, k: nat, q: nat)
    requires q == HalfEven(coef, Pow(k))
    ensures Dist(Times(q as real, Scale(e + k)), Times(coef as real, Scale(e))) <= Scale(e + k)
  {
    hide HalfEven, Pow, Scale, Times, Dist;
    var p := Pow(k);
    var m := q * p;
    HalfEvenIsNear(coef, p, m);
    ShiftedValue(q, k, e, m);
    UnitValue(e, k);
    NearInts(m, coef, p);
    DistScales(m as real, coef as real, p as real, Scale(e));
  }

  /** Rounding moves a value by at most one unit in the place of its last kept digit. */
  lemma RoundIsNear(d: Dec, precision: nat, extra: nat)
    requires precision >= 1 && d.coef < Pow(precision + extra) && precision + extra >= 1
    ensures Dist(Val(Round(d, precision)), Val(d)) <= Scale(d.exp + extra)
  {
    hide Pow, HalfEven, Scale, NumDigits, Dist, Times, Val;
    DigitsIff(d.coef, precision + extra);
    SameIsNear(Val(d), Scale(d.exp + extra));
    if NumDigits(d.coef) > precision {
      var k := NumDigits(d.coef) - precision;
      var q := HalfEven(d.coef, Pow(k));
      DroppedDigits(d.coef, d.exp, k, q);
      ScaleGrows(d.exp + k, d.exp + extra);
      ValIs(d);
      ValIs(Round(d, precision));
      CarryKeepsValue(precision, d.exp + k);
    }
  }

  lemma SameIsNear(x: real, limit: real)
    requires limit > 0.0
    ensures Dist(x, x) <= limit
  {
  }

  lemma CarryKeepsValue(precision: nat, e: int)
    requires precision >= 1
    ensures Times(Pow(precision - 1) as real, Scale(e + 1)) == Times(Pow(precision) as real, Scale(e))
  {
    PowStep(precision - 1);
    hide Pow, Scale;
    ScaleStep(e);
    var x, s := Pow(precision - 1) as real, Scale(e);
    TimesTen(x, s);
    Associate(10.0, x, s);
  }

  // ---- the quotient -------------------------------------------------------------------------------

  /** The quotient before rounding, times the divisor, misses the dividend by at most the divisor. */
  lemma QuotientBelow(n: nat, d: nat, m: nat)
    requires d >= 1 && m == Quotient(n, d) * d
    ensures m <= n + d && n <= m + d && Quotient(n, d) <= n / d + 1
  {
    var q := n / d;
    assert n == q * d + n % d;
    assert (q + 1) * d == q * d + d;
  }

  lemma QuotientFits(a: nat, b: nat, shift: nat, h: nat, most: nat, q: nat, sticky: nat)
    requires a < Pow(h) && b >= 1 && h + shift == most + NumDigits(b) - 1
    requires q == a * Pow(shift) / b && sticky <= q + 1
    ensures sticky < Pow(most + 1)
  {
    hide Pow, NumDigits;
    var l := NumDigits(b) - 1;
    DigitsBound(b);
    PowAdds(h, shift);
    PowAdds(most, l);
    PowStep(most);
    BelowTimes(a, Pow(h), Pow(shift));
    QuotientBound(a * Pow(shift), b, Pow(most), Pow(l), q);
  }

  lemma QuotientBound(n: nat, b: nat, x: nat, y: nat, q: nat)
    requires 1 <= y <= b && n < x * y && q == n / b
    ensures q < x
  {
    assert q * b <= n;
    if q >= x {
      ProductUp(x, y, q, b);
    }
  }

  lemma ProductUp(x: nat, y: nat, q: nat, b: nat)
    requires x <= q && y <= b
    ensures x * y <= q * b
  {
    assert x * y <= x * b;
    assert x * b <= q * b;
  }

  /** The unrounded quotient, times the tick, is within one unit of the price. */
  lemma UnroundedIsNear(a: Dec, b: Dec, shift: nat, quotient: nat, n: nat, m: nat)
    requires n == a.coef * Pow(shift) && m == quotient * b.coef && m <= n + b.coef && n <= m + b.coef
    ensures var e := a.exp - b.exp - shift;
      Dist(Times(Val(Dec(false, quotient, e)), Val(b)), Val(a)) <= Times(Scale(e), Val(b))
  {
    hide Pow, Scale, Times, Dist, Val;
    var e := a.exp - b.exp - shift;
    ShiftedValue(a.coef, shift, e + b.exp, n);
    ValIs(a);
    ProductValue(quotient, b, e, m);
    ProductValue(1, b, e, b.coef);
    UnitDec(e);
    NearInts(m, n, b.coef);
    DistScales(m as real, n as real, b.coef as real, Scale(e + b.exp));
  }

  lemma UnitDec(e: int)
    ensures Val(Dec(false, 1, e)) == Scale(e)
  {
  }

  lemma ProductValue(x: nat, b: Dec, e: int, m: nat)
    requires m == x * b.coef
    ensures Times(Val(Dec(false, x, e)), Val(b)) == Times(m as real, Scale(e + b.exp))
  {
    hide Scale;
    ScaleAdds(e, b.exp);
    RealProduct(x, b.coef);
    Regroup(x as real, b.coef as real, Scale(e), Scale(b.exp));
  }

  lemma ValIsPositive(d: Dec)
    requires d.coef > 0
    ensures Val(d) > 0.0
  {
    var c, s := d.coef as real, Scale(d.exp);
    assert c >= 1.0 && s > 0.0;
    RealOrder(1.0, c, s);
  }

  lemma FitsDigits(d: Dec, w: nat)
    requires Fits(d, w, w) && w >= 1
    ensures 1 <= NumDigits(d.coef) <= w
  {
    DigitsIff(d.coef, w);
  }

  lemma ShiftIs(a: Dec, b: Dec, precision: nat)
    requires b.coef > 0 && precision >= 1 && NumDigits(a.coef) <= NumDigits(b.coef) + precision + 1
    ensures var shift := NumDigits(b.coef) - NumDigits(a.coef) + precision + 1;
      Div(a, b, precision) == Round(Dec(false, Quotient(Shifted(a.coef, shift), b.coef), a.exp - b.exp - shift),
          precision)
  {
  }

  /** The quotient before rounding: below ten to the 303, and within one unit of the price per tick. */
  lemma BeforeRounding(price: Dec, tick: Dec, shift: nat)
    requires tick.coef > 0 && shift == NumDigits(tick.coef) - NumDigits(price.coef) + QUOTIENT_PRECISION + 1
    ensures var q, e := Quotient(Shifted(price.coef, shift), tick.coef), price.exp - tick.exp - shift;
      && q < Pow(QUOTIENT_PRECISION + 3)
      && Dist(Times(Val(Dec(false, q, e)), Val(tick)), Val(price)) <= Times(Scale(e), Val(tick))
  {
    hide Pow, Scale, NumDigits, Quotient, Dist, Val, Times;
    var n, d := Shifted(price.coef, shift), tick.coef;
    var q := Quotient(n, d);
    var m := q * d;
    DigitsBound(price.coef);
    QuotientBelow(n, d, m);
    QuotientFits(price.coef, d, shift, NumDigits(price.coef), QUOTIENT_PRECISION + 2, n / d, q);
    UnroundedIsNear(price, tick, shift, q, n, m);
  }

  /** The rounded quotient times the tick misses the price by at most 1E-42 ticks. */
  lemma QuotientIsNear(price: Dec, tick: Dec, w: nat)
    requires Fits(price, w, w) && Fits(tick, w, w) && price.coef > 0 && tick.coef > 0 && 1 <= w <= 128
    ensures Dist(Times(Val(Div(price, tick, QUOTIENT_PRECISION)), Val(tick)), Val(price)) <= Times(Scale(SLACK),
      Val(tick))
  {
    hide Pow, Scale, NumDigits, Fits, Round, Quotient, Dist, Val, Times, Div, Shifted;
    FitsDigits(price, w);
    FitsDigits(tick, w);
    PlacesOf(price, w);
    PlacesOf(tick, w);
    var shift := NumDigits(tick.coef) - NumDigits(price.coef) + QUOTIENT_PRECISION + 1;
    var e := price.exp - tick.exp - shift;
    assert e <= -46;
    ShiftIs(price, tick, QUOTIENT_PRECISION);
    BeforeRounding(price, tick, shift);
    var q := Dec(false, Quotient(Shifted(price.coef, shift), tick.coef), e);
    RoundIsNear(q, QUOTIENT_PRECISION, 3);
    CombineErrors(Val(Round(q, QUOTIENT_PRECISION)), Val(q), tick, Val(price), e);
  }

  lemma DistChain(x: real, y: real, z: real, a: real, b: real, c: real)
    requires Dist(x, y) <= a && Dist(y, z) <= b && a + b <= c
    ensures Dist(x, z) <= c
  {
  }

  lemma CombineErrors(x: real, y: real, tick: Dec, price: real, e: int)
    requires tick.coef > 0 && e <= -46
    requires Dist(x, y) <= Scale(e + 3) && Dist(Times(y, Val(tick)), price) <= Times(Scale(e), Val(tick))
    ensures Dist(Times(x, Val(tick)), price) <= Times(Scale(SLACK), Val(tick))
  {
    hide Scale, Times, Dist, Val;
    ValIsPositive(tick);
    var t := Val(tick);
    DistScales(x, y, Scale(e + 3), t);
    TwoErrors(e, t);
    DistChain(Times(x, t), Times(y, t), price, Times(Scale(e + 3), t), Times(Scale(e), t), Times(Scale(SLACK), t));
  }

  lemma PlacesOf(d: Dec, w: nat)
    requires Fits(d, w, w)
    ensures d.exp + w >= 0 && d.exp <= 0
  {
  }

  lemma TwoErrors(e: int, t: real)
    requires e <= -46 && t > 0.0
    ensures Times(Scale(e + 3), t) + Times(Scale(e), t) <= Times(Scale(SLACK), t)
  {
    hide Scale;
    ScaleGrows(e, e + 3);
    ScaleStep(e + 3);
    ScaleGrows(e + 4, SLACK);
    Distribute(Scale(e + 3), Scale(e), t);
    RealOrder(Scale(e + 3) + Scale(e), Scale(SLACK), t);
  }

  // ---- what the test decides -----------------------------------------------------------------------

  lemma HalfNear(x: real, y: real, unit: real, s: real)
    requires 2.0 * x <= 2.0 * y + unit && 2.0 * y <= 2.0 * x + unit && s > 0.0
    ensures 2.0 * Dist(x * s, y * s) <= unit * s
  {
    RealOrder(2.0 * x, 2.0 * y + unit, s);
    RealOrder(2.0 * y, 2.0 * x + unit, s);
    Distribute(2.0 * y, unit, s);
    Distribute(2.0 * x, unit, s);
    Associate(2.0, x, s);
    Associate(2.0, y, s);
  }

  lemma WholeScale(n: nat, e: int)
    requires e < 0
    ensures (n * Pow(-e)) as real * Scale(e) == n as real
  {
    hide Pow, Scale;
    Rescaled(Dec(false, n, 0), e);
    ScaleZero();
  }

  lemma NearestIsNear(d: Dec)
    ensures 2.0 * Dist(Val(d), Nearest(d) as real) <= 1.0
  {
    hide Scale, HalfEven, Pow;
    if d.exp >= 0 {
      ScaleIsPow(d.exp);
      RealProduct(d.coef, Pow(d.exp));
    } else {
      var p, n := Pow(-d.exp), Nearest(d);
      HalfEvenIsNear(d.coef, p, n * p);
      WholeScale(n, d.exp);
      WholeScale(1, d.exp);
      HalfNear(d.coef as real, (n * p) as real, p as real, Scale(d.exp));
    }
  }

  lemma SmallConstants()
    ensures 0.0 < Scale(SLACK) < Scale(TOLERANCE) && 4.0 * Scale(TOLERANCE) < 1.0
  {
    hide Scale;
    ScaleGrows(SLACK, TOLERANCE - 1);
    ScaleStep(TOLERANCE - 1);
    ScaleGrows(TOLERANCE, -1);
    ScaleStep(-1);
    ScaleZero();
  }

  /** A whole number this near is the nearest one. */
  lemma OnlyOneNear(x: real, k: int, n: int, limit: real)
    requires Dist(x, k as real) <= limit && 2.0 * Dist(x, n as real) <= 1.0 && 4.0 * limit < 1.0
    ensures k == n
  {
    var apart := k - n;
    assert -1.0 < apart as real < 1.0;
  }

  lemma DistDivides(x: real, y: real, limit: real, t: real)
    requires Dist(Times(x, t), Times(y, t)) <= Times(limit, t) && t > 0.0
    ensures Dist(x, y) <= limit
  {
    if x > y + limit {
      StrictOrder(y + limit, x, t);
      Distribute(y, limit, t);
    }
    if y > x + limit {
      StrictOrder(x + limit, y, t);
      Distribute(x, limit, t);
    }
  }

  lemma StrictOrder(x: real, y: real, s: real)
    requires x < y && s > 0.0
    ensures x * s < y * s
  {
    assert (y - x) * s > 0.0;
    Distribute(y, -x, s);
  }

  /** The price is k ticks, up to a part of a tick. */
  predicate WithinTicks(price: Dec, tick: Dec, k: int, limit: real) {
    Dist(Val(price), Times(k as real, Val(tick))) <= Times(limit, Val(tick))
  }

  function WideLimit(): real {
    Scale(-9) + Scale(-42)
  }

  function NarrowLimit(): real {
    Scale(-9) - Scale(-42)
  }

  /** A price passes only if it is within the tolerance, and 1E-42 ticks, of a whole number of ticks. */
  lemma AlignedIsNearTicks(price: Dec, tick: Dec, w: nat)
    requires Fits(price, w, w) && Fits(tick, w, w) && price.coef > 0 && tick.coef > 0 && 1 <= w <= 128
    requires Aligns(price, tick)
    ensures exists k: int :: WithinTicks(price, tick, k, WideLimit())
  {
    hide Div, Nearest, Val, Scale, Fits, Dist, Times;
    var x, t := Div(price, tick, QUOTIENT_PRECISION), Val(tick);
    var k: int := Nearest(x);
    QuotientIsNear(price, tick, w);
    ValIsPositive(tick);
    DistScales(Val(x), k as real, Scale(TOLERANCE), t);
    DistTurns(Times(Val(x), t), Val(price));
    TimesAdds(Scale(TOLERANCE), Scale(SLACK), t);
    DistChain(Val(price), Times(Val(x), t), Times(k as real, t), Times(Scale(SLACK), t), Times(Scale(TOLERANCE), t),
        Times(WideLimit(), t));
    assert WithinTicks(price, tick, k, WideLimit());
  }

  lemma DistTurns(x: real, y: real)
    ensures Dist(x, y) == Dist(y, x)
  {
  }

  lemma TimesAdds(x: real, y: real, t: real)
    ensures Times(x + y, t) == Times(x, t) + Times(y, t)
    ensures Times(x - y, t) == Times(x, t) - Times(y, t)
  {
    Distribute(x, y, t);
    Distribute(x, -y, t);
  }

  /** Every price that is a whole number of ticks passes, and every price within the tolerance less
      1E-42 ticks of one. */
  lemma NearTicksAligns(price: Dec, tick: Dec, w: nat, k: int)
    requires Fits(price, w, w) && Fits(tick, w, w) && price.coef > 0 && tick.coef > 0 && 1 <= w <= 128
    requires WithinTicks(price, tick, k, NarrowLimit())
    ensures Aligns(price, tick)
  {
    hide Div, Nearest, Val, Scale, Fits, Dist, Times;
    var x, t := Div(price, tick, QUOTIENT_PRECISION), Val(tick);
    QuotientIsNear(price, tick, w);
    ValIsPositive(tick);
    SmallConstants();
    TimesAdds(Scale(TOLERANCE), Scale(SLACK), t);
    DistChain(Times(Val(x), t), Val(price), Times(k as real, t), Times(Scale(SLACK), t),
              Times(Scale(TOLERANCE) - Scale(SLACK), t), Times(Scale(TOLERANCE), t));
    DistDivides(Val(x), k as real, Scale(TOLERANCE), t);
    NearestIsNear(x);
    OnlyOneNear(Val(x), k, Nearest(x), Scale(TOLERANCE));
  }

  /** In particular a whole number of ticks always passes. */
  lemma WholeTicksAlign(price: Dec, tick: Dec, w: nat, k: int)
    requires Fits(price, w, w) && Fits(tick, w, w) && price.coef > 0 && tick.coef > 0 && 1 <= w <= 128
    requires Val(price) == k as real * Val(tick)
    ensures Aligns(price, tick)
  {
    hide Aligns, Val, Scale, Fits;
    SmallConstants();
    ValIsPositive(tick);
    RealOrder(0.0, Scale(TOLERANCE) - Scale(SLACK), Val(tick));
    NearTicksAligns(price, tick, w, k);
  }

  // ---- the sticky digit --------------------------------------------------------------------------------

  lemma RoundsWith(n: nat, unit: nat, a: nat, rest: nat)
    requires unit >= 1 && n == a * unit + rest && rest < unit
    ensures HalfEven(n, unit) == if 2 * rest > unit || (2 * rest == unit && a % 2 == 1) then a + 1 else a
  {
    var q, r := n / unit, n % unit;
    assert (q - a) * unit == rest - r;
    BeyondOne(q - a, unit);
  }

  lemma Compared(b: nat, half: nat, den: nat)
    requires den >= 1
    ensures b >= half ==> b * den >= half * den
    ensures b < half ==> b * den + den <= half * den
    ensures b > half ==> b * den >= half * den + den
  {
    BeyondOne(b - half, den);
    assert b * den - half * den == (b - half) * den;
  }

  lemma Divides(b: nat, unit: nat, a: nat)
    requires unit % 10 == 0
    ensures (a * unit + b) % 5 == b % 5 && (unit / 2) % 5 == 0 && unit == 2 * (unit / 2)
  {
    var t := unit / 10;
    assert unit == 10 * t;
    var m := a * (2 * t);
    assert a * unit == 5 * m;
  }

  lemma BelowTogether(b: nat, r: nat, unit: nat, den: nat)
    requires b < unit && r < den
    ensures b * den + r < den * unit
  {
    BeyondOne(unit - b, den);
    assert den * unit - b * den == (unit - b) * den;
  }

  /** The last digit tells a rest from a half of a unit exactly as the remainder does. */
  lemma SameSide(b: nat, c: nat, r: nat, den: nat, half: nat)
    requires r < den && half % 5 == 0 && c == if r != 0 && b % 5 == 0 then b + 1 else b
    ensures b * den + r > half * den <==> c > half
    ensures b * den + r == half * den <==> c == half
  {
    Compared(b, half, den);
  }

  lemma Regrouped(a: nat, b: nat, r: nat, unit: nat, den: nat)
    ensures (a * unit + b) * den + r == a * (den * unit) + (b * den + r)
  {
    Associative(a, unit, den);
  }

  lemma Associative(a: nat, unit: nat, den: nat)
    ensures (a * unit) * den == a * (den * unit)
  {
  }

  lemma Doubled(den: nat, unit: nat, half: nat)
    requires unit == 2 * half
    ensures den * unit == 2 * (half * den)
  {
  }

  function Stepped(rest: nat, half: nat, a: nat): nat {
    if rest > half || (rest == half && a % 2 == 1) then a + 1 else a
  }

  lemma QuotientRounds(q: nat, r: nat, a: nat, b: nat, c: nat, unit: nat, half: nat, whole: nat)
    requires unit >= 10 && unit % 10 == 0 && half == unit / 2 && q == a * unit + b && b < unit
    requires c == (if r != 0 && b % 5 == 0 then b + 1 else b)
    requires whole == (if r != 0 && q % 5 == 0 then q + 1 else q)
    ensures HalfEven(whole, unit) == Stepped(c, half, a) && half % 5 == 0 && unit == 2 * half
  {
    hide HalfEven;
    Divides(b, unit, a);
    assert whole == a * unit + c && c < unit;
    RoundsWith(whole, unit, a, c);
  }

  lemma TrueRounds(num: nat, q: nat, r: nat, a: nat, b: nat, den: nat, unit: nat, half: nat, all: nat)
    requires unit == 2 * half && half >= 1 && den >= 1 && all == den * unit
    requires num == q * den + r && r < den && q == a * unit + b && b < unit
    ensures all >= 1 && HalfEven(num, all) == Stepped(b * den + r, half * den, a)
  {
    hide HalfEven;
    BelowTogether(b, r, unit, den);
    Regrouped(a, b, r, unit, den);
    RoundsWith(num, all, a, b * den + r);
    Doubled(den, unit, half);
  }

  lemma BothRound(num: nat, q: nat, r: nat, a: nat, b: nat, den: nat, unit: nat, all: nat, whole: nat)
    requires den >= 1 && unit >= 10 && unit % 10 == 0 && all == den * unit
    requires num == q * den + r && r < den && q == a * unit + b && b < unit
    requires whole == (if r != 0 && q % 5 == 0 then q + 1 else q)
    ensures all >= 1 && HalfEven(whole, unit) == HalfEven(num, all)
  {
    hide HalfEven;
    var half, c := unit / 2, if r != 0 && b % 5 == 0 then b + 1 else b;
    QuotientRounds(q, r, a, b, c, unit, half, whole);
    TrueRounds(num, q, r, a, b, den, unit, half, all);
    SameSide(b, c, r, den, half);
  }

  lemma DivMod(n: nat, d: nat) returns (q: nat, r: nat)
    requires d >= 1
    ensures n == q * d + r && r < d && q == n / d && r == n % d
  {
    q, r := n / d, n % d;
  }

  /** Making the last digit remember a remainder loses nothing: rounding the whole quotient is rounding the
      true one, whatever number of digits is dropped. */
  lemma StickyDigitRounds(num: nat, den: nat, unit: nat, all: nat)
    requires den >= 1 && unit >= 10 && unit % 10 == 0 && all == den * unit
    ensures all >= 1 && HalfEven(Quotient(num, den), unit) == HalfEven(num, all)
  {
    hide HalfEven;
    var q, r := DivMod(num, den);
    var a, b := DivMod(q, unit);
    var whole := Quotient(num, den);
    assert whole == if r != 0 && q % 5 == 0 then q + 1 else q;
    hide Quotient;
    BothRound(num, q, r, a, b, den, unit, all, whole);
  }
}
