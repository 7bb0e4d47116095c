/** Decimal arithmetic as the commission and affordability tests use it.

    A number is a sign, a coefficient and an exponent of ten. An operation is computed
    exactly and then rounded half to even to the working precision.
 */
module Decimals {
  /** A number that is not below zero; only zero can carry the minus sign. */
  datatype RawDec = Dec(neg: bool, coef: nat, exp: int)
  type Dec = d: RawDec | d.neg ==> d.coef == 0 witness Dec(false, 0, 0)

  function Pow(k: nat): (p: nat)
    ensures p >= 1
  {
    if k == 0 then 1 else 10 * Pow(k - 1)
  }

  /** Ten to any integer power. */
  function Scale(e: int): (s: real)
    ensures s > 0.0
    decreases if e < 0 then -e else e
  {
    if e == 0 then 1.0 else if e > 0 then 10.0 * Scale(e - 1) else Scale(e + 1) / 10.0
  }

  /** The rational a decimal stands for. */
  function Val(d: RawDec): real {
    d.coef as real * Scale(d.exp)
  }

  // ---- rounding to a working precision ------------------------------------------------------

  function NumDigits(n: nat): (k: nat)
    ensures k >= 1
  {
    if n < 10 then 1 else 1 + NumDigits(n / 10)
  }

  function HalfEven(n: nat, unit: nat): nat
    requires unit >= 1
  {
    var q, r := n / unit, n % unit;
    if 2 * r > unit || (2 * r == unit && q % 2 == 1) then q + 1 else q
  }

  function Round(d: Dec, precision: nat): Dec
    requires precision >= 1
  {
    if NumDigits(d.coef) <= precision then d
    else
      var k := NumDigits(d.coef) - precision;
      var q := HalfEven(d.coef, Pow(k));
      if q == Pow(precision) then Dec(false, Pow(precision - 1), d.exp + k + 1) else Dec(false, q, d.exp + k)
  }

  function Least(a: int, b: int): int {
    if a < b then a else b
  }

  function ExactMul(a: Dec, b: Dec): Dec {
    var c := a.coef * b.coef;
    Dec(c == 0 && a.neg != b.neg, c, a.exp + b.exp)
  }

  function ExactAdd(a: Dec, b: Dec): Dec {
    var e := Least(a.exp, b.exp);
    var c := a.coef * Pow(a.exp - e) + b.coef * Pow(b.exp - e);
    Dec(c == 0 && a.neg && b.neg, c, e)
  }

  function Mul(a: Dec, b: Dec, precision: nat): Dec
    requires precision >= 1
  {
    Round(ExactMul(a, b), precision)
  }

  function Add(a: Dec, b: Dec, precision: nat): Dec
    requires precision >= 1
  {
    Round(ExactAdd(a, b), precision)
  }

  /** Commission of an order: quantity * (price * multiplier * rate + amount), left to right. */
  function Fee(quantity: Dec, price: Dec, multiplier: Dec, rate: Dec, amount: Dec, precision: nat): Dec
    requires precision >= 1
  {
    Mul(quantity, Add(Mul(Mul(price, multiplier, precision), rate, precision), amount, precision), precision)
  }

  // ---- powers --------------------------------------------------------------------------------

  lemma {:induction false} PowAdds(a: nat, b: nat)
    ensures Pow(a + b) == Pow(a) * Pow(b)
  {
    if a > 0 {
      PowAdds(a - 1, b);
      assert Pow(a + b) == 10 * (Pow(a - 1) * Pow(b)) == (10 * Pow(a - 1)) * Pow(b);
    }
  }

  lemma PowGrows(a: nat, b: nat)
    requires a <= b
    ensures Pow(a) <= Pow(b)
  {
    PowAdds(a, b - a);
    assert Pow(a) * 1 <= Pow(a) * Pow(b - a);
  }

  lemma PowStep(k: nat)
    ensures Pow(k + 1) == 10 * Pow(k) && Pow(0) == 1
  {
  }

  lemma ScaleStep(e: int)
    ensures Scale(e + 1) == 10.0 * Scale(e)
  {
  }

  lemma Regroup(x: real, y: real, s: real, t: real)
    ensures (x * y) * (s * t) == (x * s) * (y * t)
  {
    assert (x * y) * (s * t) == x * (y * (s * t));
    assert y * (s * t) == s * (y * t);
    assert x * (s * (y * t)) == (x * s) * (y * t);
  }

  lemma Associate(x: real, y: real, z: real)
    ensures (x * y) * z == x * (y * z)
  {
  }

  lemma Distribute(x: real, y: real, z: real)
    ensures (x + y) * z == x * z + y * z
  {
  }

  lemma TimesTen(x: real, y: real)
    ensures x * (10.0 * y) == 10.0 * (x * y)
  {
  }

  lemma {:induction false} ScaleAdds(a: int, b: int)
    ensures Scale(a + b) == Scale(a) * Scale(b)
    decreases if b < 0 then -b else b
  {
    hide Scale;
    if b > 0 {
      ScaleAdds(a, b - 1);
      ScaleStep(a + b - 1);
      ScaleStep(b - 1);
      TimesTen(Scale(a), Scale(b - 1));
    } else if b < 0 {
      ScaleAdds(a, b + 1);
      ScaleStep(a + b);
      ScaleStep(b);
      TimesTen(Scale(a), Scale(b));
    } else {
      ScaleZero();
    }
  }

  lemma ScaleZero()
    ensures Scale(0) == 1.0
  {
  }

  lemma {:induction false} ScaleIsPow(k: nat)
    ensures Scale(k) == Pow(k) as real
  {
    if k > 0 {
      ScaleIsPow(k - 1);
    }
  }

  // ---- when nothing is rounded -----------------------------------------------------------------

  lemma {:induction false} DigitsBound(n: nat)
    ensures n < Pow(NumDigits(n))
    ensures n >= 1 ==> Pow(NumDigits(n) - 1) <= n
  {
    if n >= 10 {
      DigitsBound(n / 10);
    } else {
      assert Pow(1) == 10 && Pow(0) == 1;
    }
  }

  /** A coefficient has at most k digits iff it is below ten to the k. */
  lemma DigitsIff(n: nat, k: nat)
    requires k >= 1
    ensures NumDigits(n) <= k <==> n < Pow(k)
  {
    DigitsBound(n);
    if NumDigits(n) <= k {
      PowGrows(NumDigits(n), k);
    } else {
      PowGrows(k, NumDigits(n) - 1);
      assert n >= 10;
    }
  }

  lemma RealProduct(a: nat, b: nat)
    ensures (a * b) as real == a as real * b as real
  {
  }

  lemma BeyondOne(d: int, p: int)
    requires p > 0
    ensures (d >= 1 ==> d * p >= p) && (d <= -1 ==> d * p <= -p)
  {
  }

  lemma ZeroProduct(a: nat, b: nat)
    ensures a * b == 0 <==> a == 0 || b == 0
  {
    if a > 0 && b > 0 {
      assert a * b >= b;
    }
  }

  /** Before rounding a product is the product of the rationals; one that is zero has the sign of its factors. */
  lemma MulIsExact(a: Dec, b: Dec)
    ensures Val(ExactMul(a, b)) == Val(a) * Val(b)
    ensures ExactMul(a, b).neg <==> (a.coef == 0 || b.coef == 0) && a.neg != b.neg
  {
    ZeroProduct(a.coef, b.coef);
    hide Scale;
    ScaleAdds(a.exp, b.exp);
    RealProduct(a.coef, b.coef);
    Regroup(a.coef as real, b.coef as real, Scale(a.exp), Scale(b.exp));
  }

  lemma Rescaled(d: Dec, e: int)
    requires e <= d.exp
    ensures (d.coef * Pow(d.exp - e)) as real * Scale(e) == Val(d)
  {
    hide Scale, Pow;
    ScaleAdds(d.exp - e, e);
    ScaleIsPow(d.exp - e);
    RealProduct(d.coef, Pow(d.exp - e));
    Associate(d.coef as real, Pow(d.exp - e) as real, Scale(e));
  }

  /** Before rounding a sum is the sum of the rationals; a zero keeps the minus sign only if both terms have it. */
  lemma AddIsExact(a: Dec, b: Dec)
    ensures Val(ExactAdd(a, b)) == Val(a) + Val(b)
    ensures ExactAdd(a, b).neg <==> a.neg && b.neg
  {
    var e := Least(a.exp, b.exp);
    hide Scale, Pow;
    Rescaled(a, e);
    Rescaled(b, e);
    var x, y := a.coef * Pow(a.exp - e), b.coef * Pow(b.exp - e);
    Distribute(x as real, y as real, Scale(e));
  }

  /** At most `digits` digits and at most `places` places after the point. */
  predicate Fits(d: Dec, digits: nat, places: nat) {
    d.coef < Pow(digits) && d.exp + places >= 0 && d.exp <= 0
  }

  lemma ProductBelow(a: nat, b: nat, x: nat, y: nat)
    requires a < x && b < y
    ensures a * b < x * y
  {
    assert a * b <= a * y;
    assert a * y < x * y;
  }

  lemma BelowTimes(a: nat, b: nat, x: nat)
    requires a < b && x >= 1
    ensures a * x < b * x
  {
    assert b * x == a * x + (b - a) * x;
  }

  lemma MulFits(a: Dec, b: Dec, m: nat, n: nat, i: nat, j: nat)
    requires Fits(a, m, i) && Fits(b, n, j)
    ensures Fits(ExactMul(a, b), m + n, i + j)
  {
    PowAdds(m, n);
    ProductBelow(a.coef, b.coef, Pow(m), Pow(n));
  }

  lemma ShiftFits(coef: nat, digits: nat, shift: nat, most: nat)
    requires coef < Pow(digits) && digits + shift <= most
    ensures coef * Pow(shift) < Pow(most)
  {
    PowAdds(digits, shift);
    PowGrows(digits + shift, most);
    hide Pow;
    BelowTimes(coef, Pow(digits), Pow(shift));
  }

  lemma AddFits(a: Dec, b: Dec, m: nat, n: nat, i: nat, j: nat, most: nat)
    requires Fits(a, m, i) && Fits(b, n, j) && m + j <= most && n + i <= most && i >= j
    ensures Fits(ExactAdd(a, b), most + 1, i)
  {
    var e := Least(a.exp, b.exp);
    if b.exp <= a.exp {
      ShiftFits(a.coef, m, a.exp - e, most);
      ShiftFits(b.coef, n, 0, most);
    } else {
      ShiftFits(a.coef, m, 0, most);
      ShiftFits(b.coef, n, b.exp - e, most);
    }
  }

  lemma FitsIsExact(d: Dec, digits: nat, places: nat, precision: nat)
    requires Fits(d, digits, places) && digits <= precision && precision >= 1
    ensures Round(d, precision) == d
  {
    PowGrows(digits, precision);
    DigitsIff(d.coef, precision);
  }

  ghost function ExactFee(quantity: Dec, price: Dec, multiplier: Dec, rate: Dec, amount: Dec): Dec {
    ExactMul(quantity, ExactAdd(ExactMul(ExactMul(price, multiplier), rate), amount))
  }

  /** Five amounts of at most w digits need at most 5w + 1 digits, so a working precision
      of that size never rounds and the fee is the true rational. */
  lemma FeeIsExact(quantity: Dec, price: Dec, multiplier: Dec, rate: Dec, amount: Dec, w: nat, precision: nat)
    requires Fits(quantity, w, w) && Fits(price, w, w) && Fits(multiplier, w, w) && Fits(rate, w, w)
    requires Fits(amount, w, w)
    requires w >= 1 && 5 * w + 1 <= precision
    ensures Fee(quantity, price, multiplier, rate, amount, precision) ==
      ExactFee(quantity, price, multiplier, rate, amount)
    ensures ExactFee(quantity, price, multiplier, rate, amount).exp <= 0
    ensures Val(Fee(quantity, price, multiplier, rate, amount, precision)) ==
            Val(quantity) * (Val(price) * Val(multiplier) * Val(rate) + Val(amount))
  {
    hide Pow, Round, Fits, Val, ExactAdd, ExactMul;
    var pm := ExactMul(price, multiplier);
    MulFits(price, multiplier, w, w, w, w);
    FitsIsExact(pm, 2 * w, 2 * w, precision);
    var pmr := ExactMul(pm, rate);
    MulFits(pm, rate, 2 * w, w, 2 * w, w);
    FitsIsExact(pmr, 3 * w, 3 * w, precision);
    var sum := ExactAdd(pmr, amount);
    AddFits(pmr, amount, 3 * w, w, 3 * w, w, 4 * w);
    FitsIsExact(sum, 4 * w + 1, 3 * w, precision);
    var fee := ExactMul(quantity, sum);
    MulFits(quantity, sum, w, 4 * w + 1, w, 3 * w);
    FitsIsExact(fee, 5 * w + 1, 4 * w, precision);
    FitsMeans(fee, 5 * w + 1, 4 * w);
    MulIsExact(price, multiplier);
    MulIsExact(pm, rate);
    AddIsExact(pmr, amount);
    MulIsExact(quantity, sum);
  }

  lemma FitsMeans(d: Dec, digits: nat, places: nat)
    requires Fits(d, digits, places)
    ensures d.exp <= 0
  {
  }

  /** Two amounts of at most w digits add exactly within 2w + 1 digits. */
  lemma SumIsExact(a: Dec, b: Dec, w: nat, precision: nat)
    requires Fits(a, w, w) && Fits(b, w, w) && w >= 1 && 2 * w + 1 <= precision
    ensures Add(a, b, precision) == ExactAdd(a, b) && ExactAdd(a, b).exp <= 0
    ensures Val(Add(a, b, precision)) == Val(a) + Val(b)
  {
    hide Pow, Round, Fits, Val, ExactAdd;
    AddFits(a, b, w, w, w, w, 2 * w);
    FitsIsExact(ExactAdd(a, b), 2 * w + 1, w, precision);
    FitsMeans(ExactAdd(a, b), 2 * w + 1, w);
    AddIsExact(a, b);
  }
}
