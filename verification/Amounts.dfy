/**
 Integer amounts, prices and the two rounding directions of the market engine.

 A price is a ratio between an amount of one asset (`base`) and an amount of another (`quote`).
 Converting an amount through a price is an exact rational product followed by rounding down
 (`Times`) or up (`TimesUp`).  Everything the market promises about rounding follows from the
 two adjunctions `DownAdjoint` and `UpAdjoint` below.
 */
module Amounts {

  type AssetId = nat
  type AccountId = nat

  const CORE: AssetId := 0
  const HUNDRED_PERCENT: nat := 10000
  const MAX_SHARE_SUPPLY: nat := 1_000_000_000_000_000

  datatype Asset = Asset(amount: int, id: AssetId)

  datatype Price = Price(base: Asset, quote: Asset)

  predicate ValidPrice(p: Price) {
    p.base.amount > 0 && p.quote.amount > 0 && p.base.id != p.quote.id
  }

  /** The reciprocal price, `~p` in the source. */
  function Inverse(p: Price): Price {
    Price(p.quote, p.base)
  }

  /** `p` is at least as high as `q`, for two prices with the same base and the same quote asset. */
  predicate AtLeast(p: Price, q: Price) {
    p.base.amount * q.quote.amount >= q.base.amount * p.quote.amount
  }

  // Rounding ------------------------------------------------------------------------------

  function Quotient(a: nat, d: nat): (q: nat)
    requires d > 0
    ensures q * d <= a < (q + 1) * d
  {
    var q := a / d;
    DivBounds(a, d, q);
    q
  }

  function Down(x: nat, num: nat, den: nat): (r: nat)
    requires den > 0
    ensures r * den <= x * num < (r + 1) * den
  {
    Quotient(x * num, den)
  }

  function Up(x: nat, num: nat, den: nat): (r: nat)
    requires den > 0
    ensures x * num <= r * den < x * num + den
  {
    var r := Quotient(x * num + den - 1, den);
    assert (r + 1) * den == r * den + den;
    r
  }

  lemma DivBounds(a: nat, d: nat, q: nat)
    requires d > 0 && q == a / d
    ensures q * d <= a < (q + 1) * d
  {
    assert a == q * d + a % d;
    assert (q + 1) * d == q * d + d;
  }

  lemma LessFromScaled(a: int, b: int, d: nat)
    requires d > 0 && a * d < b * d
    ensures a < b
  {
    if b <= a {
      MulMono(b, a, d);
    }
  }

  lemma AtMostFromScaled(a: int, b: int, d: nat)
    requires d > 0 && a * d <= b * d
    ensures a <= b
  {
    assert (b + 1) * d == b * d + d;
    LessFromScaled(a, b + 1, d);
  }

  lemma MulMono(a: int, b: int, d: nat)
    requires a <= b
    ensures a * d <= b * d
  {
    assert b * d - a * d == (b - a) * d;
  }

  /** Rounding down is the largest integer amount not worth more than `x`. */
  lemma DownAdjoint(x: nat, num: nat, den: nat, k: nat)
    requires den > 0
    ensures k <= Down(x, num, den) <==> k * den <= x * num
  {
    var r := Down(x, num, den);
    if k <= r {
      MulMono(k, r, den);
    }
    if k * den <= x * num {
      LessFromScaled(k, r + 1, den);
    }
  }

  /** Rounding up is the least integer amount worth at least `x`. */
  lemma UpAdjoint(x: nat, num: nat, den: nat, k: nat)
    requires den > 0
    ensures Up(x, num, den) <= k <==> x * num <= k * den
  {
    var r := Up(x, num, den);
    if r <= k {
      MulMono(r, k, den);
    }
    if x * num <= k * den {
      assert (k + 1) * den == k * den + den;
      LessFromScaled(r, k + 1, den);
    }
  }

  /**
   Convert `x` down and the result back up: the amount returned never exceeds `x`, it is the least
   amount still worth the same, and what is left over is worth nothing.
   */
  lemma DownThenUp(x: nat, num: nat, den: nat)
    requires den > 0 && num > 0
    ensures var k := Down(x, num, den); var p := Up(k, den, num);
            && p <= x
            && Down(x - p, num, den) == 0
            && Down(p, num, den) == k
            && (k > 0 ==> p > 0)
  {
    var k := Down(x, num, den);
    var p := Up(k, den, num);
    UpAdjoint(k, den, num, x);
    assert (k + 1) * den == k * den + den;
    assert (x - p) * num == x * num - p * num;
    if Down(x - p, num, den) >= 1 {
      DownAdjoint(x - p, num, den, 1);
    }
    DownAdjoint(p, num, den, k);
    if Down(p, num, den) >= k + 1 {
      DownAdjoint(p, num, den, k + 1);
      MulMono(p, x, num);
      assert false;
    }
    if k > 0 && p == 0 {
      MulMono(1, k, den);
    }
  }

  // Assets through prices -----------------------------------------------------------------

  predicate Convertible(a: Asset, p: Price) {
    && a.amount >= 0 && p.base.amount >= 0 && p.quote.amount >= 0
    && ((a.id == p.base.id && p.base.amount > 0) || (a.id != p.base.id && a.id == p.quote.id && p.quote.amount > 0))
  }

  /** `asset * price`: rounded down. */
  function Times(a: Asset, p: Price): Asset
    requires Convertible(a, p)
  {
    if a.id == p.base.id then Asset(Down(a.amount, p.quote.amount, p.base.amount), p.quote.id)
    else Asset(Down(a.amount, p.base.amount, p.quote.amount), p.base.id)
  }

  /** `asset.multiply_and_round_up(price)`. */
  function TimesUp(a: Asset, p: Price): Asset
    requires Convertible(a, p)
  {
    if a.id == p.base.id then Asset(Up(a.amount, p.quote.amount, p.base.amount), p.quote.id)
    else Asset(Up(a.amount, p.base.amount, p.quote.amount), p.base.id)
  }

  /** A better price never converts to less. */
  lemma DownBetterPrice(x: nat, n1: nat, d1: nat, n2: nat, d2: nat)
    requires d1 > 0 && d2 > 0 && n1 * d2 <= n2 * d1
    ensures Down(x, n1, d1) <= Down(x, n2, d2)
  {
    var k := Down(x, n1, d1);
    calc {
      k * d2 * d1;
      k * d1 * d2;
    <= { MulMono(k * d1, x * n1, d2); }
      x * n1 * d2;
      n1 * d2 * x;
    <= { MulMono(n1 * d2, n2 * d1, x); }
      n2 * d1 * x;
      x * n2 * d1;
    }
    AtMostFromScaled(k * d2, x * n2, d1);
    DownAdjoint(x, n2, d2, k);
  }

  // Percentages -------------------------------------------------------------------------------

  /** A percentage of an amount, rounded down. */
  function CutFee(a: nat, p: nat): nat {
    if a == 0 || p == 0 then 0
    else if p == HUNDRED_PERCENT then a
    else Down(a, p, HUNDRED_PERCENT)
  }

  lemma CutBounds(a: nat, p: nat)
    ensures CutFee(a, p) * HUNDRED_PERCENT <= a * p < (CutFee(a, p) + 1) * HUNDRED_PERCENT
  {
  }

  /** Cutting two percentages separately never gives more than cutting their sum. */
  lemma CutsAddUp(a: nat, p: nat, q: nat)
    ensures CutFee(a, p) + CutFee(a, q) <= CutFee(a, p + q)
  {
    var c, d, e := CutFee(a, p), CutFee(a, q), CutFee(a, p + q);
    CutBounds(a, p);
    CutBounds(a, q);
    CutBounds(a, p + q);
    assert a * (p + q) == a * p + a * q;
    assert (c + d) * HUNDRED_PERCENT == c * HUNDRED_PERCENT + d * HUNDRED_PERCENT;
    LessFromScaled(c + d, e + 1, HUNDRED_PERCENT);
  }

  lemma CutIsPart(a: nat, p: nat)
    requires p <= HUNDRED_PERCENT
    ensures CutFee(a, p) <= a
  {
    CutBounds(a, p);
    MulMono(p, HUNDRED_PERCENT, a);
    AtMostFromScaled(CutFee(a, p), a, HUNDRED_PERCENT);
  }
}
