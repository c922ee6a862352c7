/** Exact decimal multipliers applied to 128-bit amounts. */
module ExactDecimal {
  import opened Common

  const I128_MAX: int := 0x7FFF_FFFF_FFFF_FFFF_FFFF_FFFF_FFFF_FFFF
  const I128_MIN: int := -0x8000_0000_0000_0000_0000_0000_0000_0000

  /** A decimal of the library: a 96-bit coefficient over a power of ten. */
  datatype Decimal = Decimal(coefficient: nat, scale: nat)

  datatype Parsed = Ok(multiplier: Decimal) | NotPositive | TooPrecise

  ghost predicate Storable(d: Decimal) { d.coefficient < 0x1_0000_0000_0000_0000_0000_0000 && d.scale <= 28 }

  ghost predicate IsMultiplier(d: Decimal) { Storable(d) && d.coefficient > 0 && d.scale <= 9 }

  predicate InRange(x: int) { I128_MIN <= x <= I128_MAX }

  function Pow10(n: nat): (r: nat)
    ensures r > 0
  {
    if n == 0 then 1 else 10 * Pow10(n - 1)
  }

  // ---------------------------------------------------------------------------
  // Machine arithmetic
  // ---------------------------------------------------------------------------

  function Checked(x: int): Option<int> { if InRange(x) then Some(x) else None }

  /** Division and remainder of the machine: toward zero, the remainder signed like the dividend. */
  function TruncDiv(a: int, b: int): int
    requires b > 0
  {
    if a >= 0 then a / b else -((-a) / b)
  }

  function TruncRem(a: int, b: int): int
    requires b > 0
  {
    a - TruncDiv(a, b) * b
  }

  function CheckedPow10(scale: nat): Option<nat> { if InRange(Pow10(scale)) then Some(Pow10(scale)) else None }

  function CheckedDiv(a: int, b: nat): Option<int> { if b == 0 then None else Checked(TruncDiv(a, b)) }

  function CheckedRem(a: int, b: nat): Option<int> { if b == 0 then None else Checked(TruncRem(a, b)) }

  function CheckedScale(m: Decimal, base: int): Option<int> {
    match CheckedPow10(m.scale)
    case None => None
    case Some(divisor) =>
      match (CheckedDiv(base, divisor), CheckedRem(base, divisor))
      case (Some(whole), Some(remainder)) =>
        (match (Checked(whole * m.coefficient), Checked(remainder * m.coefficient))
         case (Some(high), Some(product)) =>
           (match CheckedDiv(product, divisor)
            case Some(low) => Checked(high + low)
            case None => None)
         case _ => None)
      case _ => None
  }

  // ---------------------------------------------------------------------------
  // Construction
  // ---------------------------------------------------------------------------

  /** Strips trailing zeros of the coefficient while the scale allows. */
  function Normalize(d: Decimal): Decimal
    decreases d.scale
  {
    if d.scale > 0 && d.coefficient % 10 == 0 then Normalize(Decimal(d.coefficient / 10, d.scale - 1)) else d
  }

  /** What follows the library's own parsing: sign, precision, normal form. */
  function Parse(d: Decimal): Parsed {
    if d.coefficient == 0 then NotPositive
    else if d.scale > 9 then TooPrecise
    else Ok(Normalize(d))
  }

  /** Both denote the same number. */
  ghost predicate SameValue(a: Decimal, b: Decimal) {
    a.coefficient * Pow10(b.scale) == b.coefficient * Pow10(a.scale)
  }

  // ---------------------------------------------------------------------------
  // Arithmetic lemmas
  // ---------------------------------------------------------------------------

  lemma MulMono(a: int, b: int, c: nat)
    requires a <= b
    ensures a * c <= b * c
  {
  }

  /** Truncation is the only integer whose multiple leaves a short remainder of the same sign. */
  lemma DivIs(a: nat, b: nat, q: nat, r: nat)
    requires b > 0 && a == q * b + r && r < b
    ensures a / b == q
  {
    var q', r' := a / b, a % b;
    assert a == q' * b + r';
    if q < q' { MulMono(q + 1, q', b); assert false; }
    if q' < q { MulMono(q' + 1, q, b); assert false; }
  }

  lemma Dist(x: int, y: int, z: int)
    ensures (x + y) * z == x * z + y * z
  {
  }

  lemma Swap(x: int, y: int, z: int)
    ensures (x * y) * z == (x * z) * y
  {
  }

  lemma SplitProduct(a: nat, b: nat, c: nat, q: nat, r: nat, q2: nat, r2: nat)
    requires a == q * b + r && r * c == q2 * b + r2
    ensures a * c == (q * c + q2) * b + r2
  {
    Dist(q * b, r, c);
    Swap(q, b, c);
    Dist(q * c, q2, b);
  }

  lemma SplitDiv(a: nat, b: nat, c: nat, q: nat, r: nat)
    requires b > 0 && a == q * b + r && r < b
    ensures r * c >= 0 && a * c >= 0 && (a * c) / b == q * c + (r * c) / b
  {
    MulMono(0, r, c);
    MulMono(0, a, c);
    MulMono(0, q, c);
    var q2, r2 := (r * c) / b, (r * c) % b;
    SplitProduct(a, b, c, q, r, q2, r2);
    DivIs(a * c, b, q * c + q2, r2);
  }

  lemma NegMul(a: int, c: int)
    ensures (-a) * c == -(a * c)
  {
  }

  lemma TruncNeg(x: int, b: nat)
    requires x >= 0 && b > 0
    ensures TruncDiv(-x, b) == -(x / b) && TruncRem(-x, b) == -(x % b)
  {
    NegMul(x / b, b);
  }

  lemma TruncSplit(base: int, b: nat, c: nat)
    requires b > 0
    ensures TruncDiv(base * c, b) == TruncDiv(base, b) * c + TruncDiv(TruncRem(base, b) * c, b)
    ensures base >= 0 ==> TruncDiv(base, b) >= 0 && 0 <= TruncRem(base, b) < b
    ensures base <= 0 ==> TruncDiv(base, b) <= 0 && 0 <= -TruncRem(base, b) < b
  {
    if base >= 0 {
      TruncSplitPos(base, b, c, base / b, base % b);
    } else {
      TruncSplitNeg(base, -base, b, c, (-base) / b, (-base) % b);
    }
  }

  lemma TruncSplitPos(n: int, b: nat, c: nat, q: int, r: int)
    requires n >= 0 && b > 0 && q == n / b && r == n % b
    ensures TruncDiv(n, b) == q >= 0 && TruncRem(n, b) == r && 0 <= r < b
    ensures TruncDiv(n * c, b) == TruncDiv(n, b) * c + TruncDiv(TruncRem(n, b) * c, b)
  {
    SplitDiv(n, b, c, q, r);
  }

  lemma TruncSplitNeg(base: int, n: int, b: nat, c: nat, q: int, r: int)
    requires base == -n && n >= 0 && b > 0 && q == n / b && r == n % b
    ensures TruncDiv(base, b) == -q <= 0 && TruncRem(base, b) == -r && 0 <= r < b
    ensures TruncDiv(base * c, b) == TruncDiv(base, b) * c + TruncDiv(TruncRem(base, b) * c, b)
  {
    SplitDiv(n, b, c, q, r);
    TruncNeg(n, b);
    NegMul(n, c);
    NegMul(q, c);
    NegMul(r, c);
    TruncNeg(n * c, b);
    TruncNeg(r * c, b);
  }

  lemma Pow10Bound(n: nat)
    requires n <= 9
    ensures Pow10(n) <= 1_000_000_000
    ensures Pow10(n) == [1, 10, 100, 1_000, 10_000, 100_000, 1_000_000, 10_000_000, 100_000_000, 1_000_000_000][n]
  {
    assert Pow10(0) == 1 && Pow10(1) == 10 && Pow10(2) == 100 && Pow10(3) == 1_000;
    assert Pow10(4) == 10_000 && Pow10(5) == 100_000 && Pow10(6) == 1_000_000;
    assert Pow10(7) == 10_000_000 && Pow10(8) == 100_000_000 && Pow10(9) == 1_000_000_000;
  }

  /** The partial product of the remainder always fits: 10^9 * 2^96 < 2^127. */
  lemma {:induction false} RemainderNeverOverflows(m: Decimal, base: int)
    requires IsMultiplier(m) && InRange(base)
    ensures InRange(TruncRem(base, Pow10(m.scale)) * m.coefficient)
  {
    var b, r := Pow10(m.scale), TruncRem(base, Pow10(m.scale));
    Pow10Bound(m.scale);
    TruncSplit(base, b, m.coefficient);
    MulMono(r, 1_000_000_000, m.coefficient);
    MulMono(-1_000_000_000, r, m.coefficient);
  }

  lemma TruncShrinks(a: int, b: nat)
    requires b > 0
    ensures a >= 0 ==> 0 <= TruncDiv(a, b) <= a
    ensures a <= 0 ==> a <= TruncDiv(a, b) <= 0
  {
    var n: nat := if a >= 0 then a else -a;
    assert n == (n / b) * b + n % b;
    MulMono(1, b, n / b);
  }

  // ---------------------------------------------------------------------------
  // Theorems
  // ---------------------------------------------------------------------------

  /** For every multiplier and every 128-bit base the result is the exact product truncated toward
      zero when that fits in 128 bits, and `None` exactly when it does not. */
  lemma {:induction false} ScaleIsExact(m: Decimal, base: int)
    requires IsMultiplier(m) && InRange(base)
    ensures CheckedScale(m, base) == Checked(TruncDiv(base * m.coefficient, Pow10(m.scale)))
  {
    var b, c := Pow10(m.scale), m.coefficient;
    var whole, rem := TruncDiv(base, b), TruncRem(base, b);
    Pow10Bound(m.scale);
    TruncSplit(base, b, c);
    TruncShrinks(base, b);
    RemainderNeverOverflows(m, base);
    TruncShrinks(rem * c, b);
    if base >= 0 {
      MulMono(0, whole, c);
      MulMono(0, rem, c);
    } else {
      MulMono(whole, 0, c);
      MulMono(rem, 0, c);
    }
  }

  /** `r` is `x / b` with the fraction cut off. */
  ghost predicate IsTruncated(x: int, b: nat, r: int) {
    if x >= 0 then 0 <= r * b <= x < (r + 1) * b else (r - 1) * b < x <= r * b <= 0
  }

  lemma TruncIsTruncated(x: int, b: nat)
    requires b > 0
    ensures IsTruncated(x, b, TruncDiv(x, b))
  {
    var n: nat := if x >= 0 then x else -x;
    var q := n / b;
    assert n == q * b + n % b;
    Dist(q, 1, b);
    NegMul(q, b);
    NegMul(q + 1, b);
    MulMono(0, q, b);
  }

  lemma TruncatedOnce(x: int, b: nat, q: int, r: int)
    requires b > 0 && IsTruncated(x, b, q) && IsTruncated(x, b, r)
    ensures q == r
  {
    if q < r { MulMono(q + 1, r, b); MulMono(q, r - 1, b); }
    if r < q { MulMono(r + 1, q, b); MulMono(r, q - 1, b); }
  }

  /** Scaling gives `r` exactly when `r` is the product over the power of ten, cut off, and fits in 128
      bits; and nothing exactly when what it would be does not fit. */
  lemma ScaleIff(m: Decimal, base: int, r: int)
    requires IsMultiplier(m) && InRange(base)
    ensures CheckedScale(m, base) == Some(r) <==>
              && IsTruncated(base * m.coefficient, Pow10(m.scale), r)
              && -170141183460469231731687303715884105728 <= r <= 170141183460469231731687303715884105727
    ensures CheckedScale(m, base) == None && IsTruncated(base * m.coefficient, Pow10(m.scale), r) ==>
              r < -170141183460469231731687303715884105728 || 170141183460469231731687303715884105727 < r
  {
    var x, b := base * m.coefficient, Pow10(m.scale);
    ScaleIsExact(m, base);
    TruncIsTruncated(x, b);
    if IsTruncated(x, b, r) { TruncatedOnce(x, b, TruncDiv(x, b), r); }
  }

  lemma {:induction false} NormalizeKeepsValue(d: Decimal)
    ensures Normalize(d).scale <= d.scale && Normalize(d).coefficient <= d.coefficient
    ensures Normalize(d).scale > 0 ==> Normalize(d).coefficient % 10 != 0
    ensures d.coefficient == Normalize(d).coefficient * Pow10(d.scale - Normalize(d).scale)
    decreases d.scale
  {
    if d.scale > 0 && d.coefficient % 10 == 0 {
      var e := Decimal(d.coefficient / 10, d.scale - 1);
      NormalizeKeepsValue(e);
      var k := e.scale - Normalize(e).scale;
      assert d.coefficient == 10 * e.coefficient;
      assert Pow10(k + 1) == 10 * Pow10(k);
    }
  }

  lemma {:induction false} Pow10Adds(a: nat, b: nat)
    ensures Pow10(a + b) == Pow10(a) * Pow10(b)
  {
    if a > 0 {
      Pow10Adds(a - 1, b);
    }
  }

  lemma DivCancels(n: nat, b: nat, k: nat)
    requires b > 0 && k > 0
    ensures n * k >= 0 && b * k > 0 && (n * k) / (b * k) == n / b
  {
    var q, r := n / b, n % b;
    MulMono(1, b, k);
    MulMono(0, n, k);
    MulMono(0, r, k);
    MulMono(r + 1, b, k);
    Dist(r, 1, k);
    Dist(q * b, r, k);
    Assoc(q, b, k);
    DivIs(n * k, b * k, q, r * k);
  }

  lemma Assoc(x: int, y: int, z: int)
    ensures (x * y) * z == x * (y * z)
  {
  }

  lemma TruncCancels(a: int, b: nat, k: nat)
    requires b > 0 && k > 0
    ensures b * k > 0 && TruncDiv(a * k, b * k) == TruncDiv(a, b)
  {
    var n: nat := if a >= 0 then a else -a;
    DivCancels(n, b, k);
    if a < 0 {
      NegMul(n, k);
      TruncNeg(n, b);
      TruncNeg(n * k, b * k);
    }
  }

  /** Parsing accepts exactly the positive decimals of at most nine places, and the normal form it
      stores scales every amount as the decimal that was written. */
  lemma {:induction false} ParseKeepsScaling(d: Decimal, base: int)
    requires Storable(d) && InRange(base)
    ensures Parse(d).Ok? <==> IsMultiplier(d)
    ensures Parse(d).Ok? <==> d.coefficient > 0 && d.scale <= 9
    ensures Parse(d).NotPositive? <==> d.coefficient == 0
    ensures Parse(d).TooPrecise? <==> d.coefficient > 0 && d.scale > 9
    ensures Parse(d).Ok? ==>
              && IsMultiplier(Parse(d).multiplier)
              && SameValue(Parse(d).multiplier, d)
              && CheckedScale(Parse(d).multiplier, base) == CheckedScale(d, base)
  {
    if IsMultiplier(d) {
      var n := Normalize(d);
      NormalizeKeepsValue(d);
      var k := d.scale - n.scale;
      var f, g := Pow10(n.scale), Pow10(k);
      Pow10Adds(n.scale, k);
      Swap(n.coefficient, g, f);
      Assoc(n.coefficient, f, g);
      ScaleIsExact(d, base);
      ScaleIsExact(n, base);
      TruncCancels(base * n.coefficient, f, g);
      Assoc(base, n.coefficient, g);
    }
  }

  /** Two parsed multipliers of equal value are the same stored multiplier. */
  lemma {:induction false} NormalFormIsUnique(a: Decimal, b: Decimal)
    requires a.scale > 0 ==> a.coefficient % 10 != 0
    requires b.scale > 0 ==> b.coefficient % 10 != 0
    requires SameValue(a, b) && a.scale <= b.scale
    ensures a == b
  {
    var k := b.scale - a.scale;
    var c, f, g := a.coefficient, Pow10(a.scale), Pow10(k);
    Pow10Adds(a.scale, k);
    assert c * g == b.coefficient by {
      Assoc(c, f, g);
      Swap(c, f, g);
      CancelFactor(c * g, b.coefficient, f);
    }
    if k > 0 { TenDivides(c, Pow10(k - 1)); }
  }

  lemma TenDivides(c: nat, h: nat)
    ensures (c * (10 * h)) % 10 == 0
  {
    assert c * (10 * h) == 10 * (c * h);
  }

  lemma CancelFactor(x: nat, y: nat, f: nat)
    requires f > 0 && x * f == y * f
    ensures x == y
  {
    if x < y { MulMono(x + 1, y, f); }
    if y < x { MulMono(y + 1, x, f); }
  }
}
