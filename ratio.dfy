/** `calculateAspectRatio` and its inner Euclidean `gcd`
    (server.js lines 24-29). */
module Ratio {
  import opened Values
  import Decimal

  predicate Divides(d: nat, n: nat) {
    d > 0 && n % d == 0
  }

  /** The only positive common divisor of p and q is 1. */
  ghost predicate Coprime(p: nat, q: nat) {
    forall d: nat :: Divides(d, p) && Divides(d, q) ==> d == 1
  }

  lemma {:induction false} ProductAtLeast(m: nat, d: nat)
    requires m >= 1
    ensures m * d >= d
  {
    if m > 1 {
      ProductAtLeast(m - 1, d);
      assert m * d == (m - 1) * d + d;
    }
  }

  lemma MultipleDivides(d: nat, k: nat)
    requires d > 0
    ensures Divides(d, d * k)
  {
    var n := d * k;
    var q, r := n / d, n % d;
    assert n == q * d + r && 0 <= r < d;
    if q < k {
      ProductAtLeast(k - q, d);
    } else if q > k {
      ProductAtLeast(q - k, d);
    }
  }

  lemma DividesSum(d: nat, x: nat, y: nat)
    requires Divides(d, x) && Divides(d, y)
    ensures Divides(d, x + y)
  {
    assert x + y == d * (x / d + y / d);
    MultipleDivides(d, x / d + y / d);
  }

  lemma DividesMultiple(d: nat, x: nat, m: nat)
    requires Divides(d, x)
    ensures Divides(d, m * x)
  {
    assert m * x == d * (m * (x / d));
    MultipleDivides(d, m * (x / d));
  }

  lemma DividesDifference(d: nat, x: nat, y: nat)
    requires Divides(d, x) && Divides(d, y) && y <= x
    ensures Divides(d, x - y)
  {
    assert x - y == d * (x / d - y / d);
    MultipleDivides(d, x / d - y / d);
  }

  /** Euclid's `b ? gcd(b, a % b) : a`, which divides both arguments. */
  function Gcd(a: nat, b: nat): (g: nat)
    ensures a > 0 || b > 0 ==> Divides(g, a) && Divides(g, b)
    decreases b
  {
    if b == 0 then a
    else
      var g := Gcd(b, a % b);
      assert a == (a / b) * b + a % b;
      DividesMultiple(g, b, a / b);
      DividesSum(g, (a / b) * b, a % b);
      g
  }

  /** Every common divisor divides the gcd. */
  lemma {:induction false} GcdGreatest(a: nat, b: nat, d: nat)
    requires Divides(d, a) && Divides(d, b)
    ensures Divides(d, Gcd(a, b))
    decreases b
  {
    if b != 0 {
      assert a % b == a - (a / b) * b;
      DividesMultiple(d, b, a / b);
      DividesDifference(d, a, (a / b) * b);
      GcdGreatest(b, a % b, d);
    }
  }

  lemma DivisorAtMost(m: nat, n: nat)
    requires Divides(m, n) && n > 0
    ensures m <= n
  {
    assert n == m * (n / m);
    assert n / m >= 1;
  }

  lemma ScaledDivisor(d: nat, p: nat, g: nat)
    requires Divides(d, p) && g > 0
    ensures Divides(d * g, p * g)
  {
    var k := p / d;
    assert p == d * k;
    assert p * g == (d * g) * k;
    MultipleDivides(d * g, k);
  }

  lemma ReducedCommonDivisor(w: nat, h: nat, d: nat)
    requires w > 0 && h > 0
    requires Divides(d, w / Gcd(w, h)) && Divides(d, h / Gcd(w, h))
    ensures d == 1
  {
    var g := Gcd(w, h);
    assert w == (w / g) * g && h == (h / g) * g;
    ScaledDivisor(d, w / g, g);
    ScaledDivisor(d, h / g, g);
    GcdGreatest(w, h, d * g);
    DivisorAtMost(d * g, g);
  }

  /** Dividing both sides by their gcd leaves parts with no common factor. */
  lemma ReducedCoprime(w: nat, h: nat)
    requires w > 0 && h > 0
    ensures Gcd(w, h) > 0 && Coprime(w / Gcd(w, h), h / Gcd(w, h))
  {
    forall d: nat | Divides(d, w / Gcd(w, h)) && Divides(d, h / Gcd(w, h))
      ensures d == 1
    {
      ReducedCommonDivisor(w, h, d);
    }
  }

  /** `calculateAspectRatio(width, height)`: "N/A" unless both dimensions are
      truthy, otherwise "p:q" with width:height reduced by their gcd. */
  function AspectRatio(width: Option<nat>, height: Option<nat>): (r: string)
    ensures r == "N/A" <==> !(NatTruthy(width) && NatTruthy(height))
  {
    if !NatTruthy(width) || !NatTruthy(height) then "N/A"
    else
      var g := Gcd(width.value, height.value);
      var r := Decimal.NatToString(width.value / g) + ":" + Decimal.NatToString(height.value / g);
      assert Decimal.IsDigit(r[0]);
      r
  }

  lemma ReducedProportional(w: nat, h: nat, g: nat)
    requires Divides(g, w) && Divides(g, h) && w > 0 && h > 0
    ensures w / g > 0 && h / g > 0 && (w / g) * h == (h / g) * w
  {
    var p, q := w / g, h / g;
    assert w == p * g && h == q * g;
    calc {
      p * h;
      p * (q * g);
      q * (p * g);
      q * w;
    }
  }

  /** For positive dimensions the ratio text is "p:q" where p:q equals
      w:h and p and q are coprime. */
  lemma AspectRatioReduced(w: nat, h: nat)
    requires w > 0 && h > 0
    ensures var g := Gcd(w, h);
      var p, q := w / g, h / g;
      && AspectRatio(Some(w), Some(h)) == Decimal.NatToString(p) + ":" + Decimal.NatToString(q)
      && p > 0 && q > 0
      && p * h == q * w
      && Coprime(p, q)
  {
    ReducedCoprime(w, h);
    ReducedProportional(w, h, Gcd(w, h));
  }

  /** The 1920x1080 example: "16:9". */
  lemma FullHdIsSixteenByNine()
    ensures AspectRatio(Some(1920), Some(1080)) == "16:9"
  {
    assert Gcd(1920, 1080) == 120 by {
      assert Gcd(1920, 1080) == Gcd(1080, 840) == Gcd(840, 240) == Gcd(240, 120) == Gcd(120, 0);
    }
  }
}
