/** `Rate::try_pow`: square-and-multiply over truncated 128-bit products, and
    how far truncation can move it from simple interest and from the exact
    power. */
module RatePow {
  import opened FixedPoint
  import Arith

  /** The exact power. */
  function Pow(b: nat, n: nat): nat {
    if n == 0 then 1 else b * Pow(b, n - 1)
  }

  /** The loop from a given `base`, `ret` and `exp` on. It squares the base once
      more than the result needs, so it can overflow where the power fits. */
  function PowLoop(base: Rate, ret: Rate, exp: nat): Result<Rate>
    decreases exp
  {
    if exp == 0 then Ok(ret) else
    var squared :- RateMul(base, base);
    if exp / 2 % 2 != 0 then
      var product :- RateMul(ret, squared);
      PowLoop(squared, product, exp / 2)
    else
      PowLoop(squared, ret, exp / 2)
  }

  function Power(base: Rate, exp: nat): Result<Rate> {
    PowLoop(base, if exp % 2 != 0 then base else WAD, exp)
  }

  method TryPow(self: Rate, exponent: U64) returns (r: Result<Rate>)
    ensures r == Power(self, exponent)
  {
    var exp: nat := exponent;
    var base: Rate := self;
    var ret: Rate := if exp % 2 != 0 then base else WAD;
    while exp > 0
      invariant PowLoop(base, ret, exp) == Power(self, exponent)
    {
      exp := exp / 2;
      base :- RateMul(base, base);
      if exp % 2 != 0 {
        ret :- RateMul(ret, base);
      }
    }
    r := Ok(ret);
  }

  // ---- at least simple interest ----

  /** A truncated product of growth factors keeps both interests whole. */
  lemma ProductKeepsInterest(a: nat, b: nat, p: nat, q: nat, r: nat)
    requires a >= WAD + p && b >= WAD + q && IsFloor(r, a * b, WAD)
    ensures r >= WAD + p + q
  {
    Arith.MulMono(WAD + q, b, WAD + p);
    Arith.MulMono(WAD + p, a, b);
    assert (WAD + p) * (WAD + q) == (WAD + p + q) * WAD + p * q;
    if r < WAD + p + q {
      Arith.MulMono(r + 1, WAD + p + q, WAD);
    }
  }

  lemma HalveOf(e: nat, h: nat, m: nat)
    ensures e == 2 * h + 1 ==> e * m == m + h * (2 * m)
    ensures e == 2 * h ==> e * m == h * (2 * m)
  {
  }

  lemma Halve(e: nat, m: nat)
    ensures e % 2 != 0 ==> e * m == m + e / 2 * (2 * m)
    ensures e % 2 == 0 ==> e * m == e / 2 * (2 * m)
  {
    HalveOf(e, e / 2, m);
  }

  lemma {:induction false} LoopAtLeastSimple(base: Rate, ret: Rate, exp: nat, b: nat, r: nat)
    requires base >= WAD + b && ret >= WAD + r
    requires PowLoop(base, ret, exp).Ok?
    ensures PowLoop(base, ret, exp).value >= WAD + r + exp / 2 * (2 * b)
    decreases exp
  {
    if exp > 0 {
      var squared := RateMul(base, base).value;
      ProductKeepsInterest(base, base, b, b, squared);
      Halve(exp / 2, 2 * b);
      if exp / 2 % 2 != 0 {
        var product := RateMul(ret, squared).value;
        ProductKeepsInterest(ret, squared, r, 2 * b, product);
        LoopAtLeastSimple(squared, product, exp / 2, 2 * b, r + 2 * b);
      } else {
        LoopAtLeastSimple(squared, ret, exp / 2, 2 * b, r);
      }
    }
  }

  /** `n` slots of compounding at `1 + x` pay at least simple interest `n * x`,
      however the loop splits the exponent and truncates. */
  lemma AtLeastSimpleInterest(x: nat, n: nat)
    requires WAD + x < U128_LIMIT && Power(WAD + x, n).Ok?
    ensures Power(WAD + x, n).value >= WAD + n * x
  {
    Halve(n, x);
    LoopAtLeastSimple(WAD + x, if n % 2 != 0 then WAD + x else WAD, n, x, if n % 2 != 0 then x else 0);
  }

  // ---- at most the exact power ----

  /** `v / WAD` is at most the exact `(b / WAD)^k`. */
  ghost predicate AtMostPower(v: nat, b: nat, k: nat) {
    v * Pow(WAD, k) <= WAD * Pow(b, k)
  }

  lemma {:induction false} PowAdd(b: nat, j: nat, k: nat)
    ensures Pow(b, j + k) == Pow(b, j) * Pow(b, k)
  {
    if j == 0 {
    } else {
      PowAdd(b, j - 1, k);
      assert b * (Pow(b, j - 1) * Pow(b, k)) == b * Pow(b, j - 1) * Pow(b, k);
    }
  }

  lemma CrossProduct(r: nat, u: nat, v: nat, w: nat, p: nat, q: nat, s: nat, t: nat)
    requires w > 0 && r * w <= u * v && u * p <= w * s && v * q <= w * t
    ensures r * (p * q) <= w * (s * t)
  {
    Arith.MulMono(r * w, u * v, p * q);
    Arith.MulMono(u * p, w * s, v * q);
    Arith.MulMono(v * q, w * t, w * s);
    assert (u * v) * (p * q) == (u * p) * (v * q);
    assert (w * t) * (w * s) == (w * (s * t)) * w;
    assert (r * w) * (p * q) == (r * (p * q)) * w;
    Arith.CancelLe(r * (p * q), w * (s * t), w);
  }

  lemma ProductAtMostPower(u: nat, v: nat, b: nat, j: nat, k: nat, r: nat)
    requires AtMostPower(u, b, j) && AtMostPower(v, b, k) && IsFloor(r, u * v, WAD)
    ensures AtMostPower(r, b, j + k)
  {
    PowAdd(WAD, j, k);
    PowAdd(b, j, k);
    CrossProduct(r, u, v, WAD, Pow(WAD, j), Pow(WAD, k), Pow(b, j), Pow(b, k));
  }

  lemma {:induction false} LoopAtMostPower(base: Rate, ret: Rate, exp: nat, b: nat, m: nat, k: nat)
    requires AtMostPower(base, b, m) && AtMostPower(ret, b, k)
    requires PowLoop(base, ret, exp).Ok?
    ensures AtMostPower(PowLoop(base, ret, exp).value, b, k + exp / 2 * (2 * m))
    decreases exp
  {
    if exp > 0 {
      var squared := RateMul(base, base).value;
      ProductAtMostPower(base, base, b, m, m, squared);
      Halve(exp / 2, 2 * m);
      if exp / 2 % 2 != 0 {
        var product := RateMul(ret, squared).value;
        ProductAtMostPower(ret, squared, b, k, 2 * m, product);
        LoopAtMostPower(squared, product, exp / 2, b, 2 * m, k + 2 * m);
      } else {
        LoopAtMostPower(squared, ret, exp / 2, b, 2 * m, k);
      }
    }
  }

  /** Truncated compounding never pays more than the exact power:
      `value / WAD <= (base / WAD)^n`, for any base and exponent. */
  lemma AtMostExactPower(base: Rate, n: nat)
    requires Power(base, n).Ok?
    ensures Power(base, n).value * Pow(WAD, n) <= WAD * Pow(base, n)
  {
    Halve(n, 1);
    assert Pow(base, 1) == base * Pow(base, 0) && Pow(WAD, 1) == WAD * Pow(WAD, 0);
    LoopAtMostPower(base, if n % 2 != 0 then base else WAD, n, base, 1, if n % 2 != 0 then 1 else 0);
  }

  // ---- monotone in the base ----

  lemma RateMulMonotone(a: Rate, b: Rate, c: Rate, d: Rate)
    requires a <= c && b <= d && RateMul(c, d).Ok?
    ensures RateMul(a, b).Ok? && RateMul(a, b).value <= RateMul(c, d).value
  {
    Arith.MulMono(a, c, b);
    Arith.MulMono(b, d, c);
  }

  lemma {:induction false} LoopMonotone(base: Rate, ret: Rate, base': Rate, ret': Rate, exp: nat)
    requires base <= base' && ret <= ret' && PowLoop(base', ret', exp).Ok?
    ensures PowLoop(base, ret, exp).Ok?
    ensures PowLoop(base, ret, exp).value <= PowLoop(base', ret', exp).value
    decreases exp
  {
    if exp > 0 {
      RateMulMonotone(base, base, base', base');
      var squared, squared' := RateMul(base, base).value, RateMul(base', base').value;
      if exp / 2 % 2 != 0 {
        RateMulMonotone(ret, squared, ret', squared');
        LoopMonotone(squared, RateMul(ret, squared).value, squared', RateMul(ret', squared').value, exp / 2);
      } else {
        LoopMonotone(squared, ret, squared', ret', exp / 2);
      }
    }
  }

  /** A smaller base succeeds wherever a larger one does, and yields no more. */
  lemma PowerMonotone(base: Rate, base': Rate, n: nat)
    requires base <= base' && Power(base', n).Ok?
    ensures Power(base, n).Ok? && Power(base, n).value <= Power(base', n).value
  {
    LoopMonotone(base, if n % 2 != 0 then base else WAD, base', if n % 2 != 0 then base' else WAD, n);
  }
}
