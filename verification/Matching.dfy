/**
 Limit orders, the order of the book, and the arithmetic of one limit-limit match.
 Nothing here changes state; the market class applies these amounts to the ledger.
 */
module Matching {
  import opened Amounts

  /**
   An offer to sell `forSale` units of `price.base.id` for at least the ratio `price`.
   `deferredFee` is a CORE amount charged at the first fill; `deferredPaid` is what the seller paid
   for it when the fee was not paid in CORE.
   */
  datatype LimitOrder = LimitOrder(seller: AccountId, forSale: int, price: Price, deferredFee: int, deferredPaid: Asset)
  {
    predicate WellFormed() {
      ValidPrice(price) && 0 < forSale && deferredFee >= 0 && deferredPaid.amount >= 0
    }

    function Sells(): AssetId { price.base.id }

    function Buys(): AssetId { price.quote.id }

    function AmountForSale(): Asset { Asset(forSale, Sells()) }

    function AmountToReceive(): Asset
      requires WellFormed()
    {
      Times(AmountForSale(), price)
    }

    /** The seller asks for nothing in return, so the order must be culled. */
    predicate Dust()
      requires WellFormed()
    {
      AmountToReceive().amount == 0
    }

    /** What is left of the order once `paid` has been sold; the deferred fee has then been charged. */
    function AfterFill(paid: int): LimitOrder {
      this.(forSale := forSale - paid, deferredFee := 0, deferredPaid := deferredPaid.(amount := 0))
    }
  }

  predicate SameSide(o: LimitOrder, p: LimitOrder) {
    o.Sells() == p.Sells() && o.Buys() == p.Buys()
  }

  predicate Opposite(o: LimitOrder, p: LimitOrder) {
    o.Sells() == p.Buys() && o.Buys() == p.Sells()
  }

  /** The two offers overlap: `maker.price >= ~taker.price`. */
  predicate Crosses(taker: LimitOrder, maker: LimitOrder) {
    AtLeast(maker.price, Inverse(taker.price))
  }

  lemma ConvertsWithin(x: nat, y: nat, b: nat, q: nat)
    requires b > 0 && q > 0
    ensures Up(Down(x, b, q), q, b) <= x && Up(Down(y, q, b), b, q) <= y
    ensures x <= Down(y, q, b) ==> Down(x, b, q) <= y
  {
    DownThenUp(x, b, q);
    DownThenUp(y, q, b);
    if x <= Down(y, q, b) {
      MulMono(x, Down(y, q, b), b);
      AtMostFromScaled(Down(x, b, q), y, q);
    }
  }

  /** The trade a match settles on; `Nothing` when the taker would pay something for nothing. */
  datatype Trade = Nothing | Trade(takerPays: nat, takerReceives: nat, takerExhausted: bool)

  function TradeOf(taker: LimitOrder, maker: LimitOrder): (t: Trade)
    requires taker.WellFormed() && maker.WellFormed() && Opposite(taker, maker)
    ensures t.Trade? ==> t.takerPays <= taker.forSale && t.takerReceives <= maker.forSale
  {
    ConvertsWithin(taker.forSale, maker.forSale, maker.price.base.amount, maker.price.quote.amount);
    var matchPrice := maker.price;
    var worth := Times(maker.AmountForSale(), matchPrice).amount;
    if taker.forSale <= worth then
      var received := Times(taker.AmountForSale(), matchPrice);
      if received.amount == 0 then Nothing
      else Trade(TimesUp(received, matchPrice).amount, received.amount, true)
    else
      Trade(worth, TimesUp(Asset(worth, taker.Sells()), matchPrice).amount, false)
  }

  /** Value of `x` units of the taker's asset in the maker's asset at the match price, rounded down. */
  function WorthToTaker(x: nat, maker: LimitOrder): nat
    requires maker.WellFormed()
  {
    Down(x, maker.price.base.amount, maker.price.quote.amount)
  }

  /** Value of `x` units of the maker's asset in the taker's asset at the match price, rounded down. */
  function WorthToMaker(x: nat, maker: LimitOrder): nat
    requires maker.WellFormed()
  {
    Down(x, maker.price.quote.amount, maker.price.base.amount)
  }

  /** A trade moves something both ways, and the order that is not exhausted keeps something. */
  lemma TradeIsProper(taker: LimitOrder, maker: LimitOrder)
    requires taker.WellFormed() && maker.WellFormed() && Opposite(taker, maker) && !maker.Dust()
    ensures var t := TradeOf(taker, maker);
            t.Trade? ==> t.takerReceives > 0 && t.takerPays > 0 && (!t.takerExhausted ==> t.takerPays < taker.forSale)
  {
    DownThenUp(taker.forSale, maker.price.base.amount, maker.price.quote.amount);
    DownThenUp(maker.forSale, maker.price.quote.amount, maker.price.base.amount);
  }

  /** With offers and prices inside the share-supply cap, so is every product a match computes. */
  lemma MatchNeverOverflows(taker: LimitOrder, maker: LimitOrder)
    requires taker.WellFormed() && maker.WellFormed() && Opposite(taker, maker)
    requires maker.forSale <= maker.price.base.amount
    requires taker.forSale <= MAX_SHARE_SUPPLY
    requires maker.price.base.amount <= MAX_SHARE_SUPPLY && maker.price.quote.amount <= MAX_SHARE_SUPPLY
    ensures Times(maker.AmountForSale(), maker.price).amount <= MAX_SHARE_SUPPLY
    ensures taker.forSale <= Times(maker.AmountForSale(), maker.price).amount ==>
              Times(taker.AmountForSale(), maker.price).amount <= MAX_SHARE_SUPPLY
    ensures TradeOf(taker, maker).Trade? ==>
              TradeOf(taker, maker).takerPays <= MAX_SHARE_SUPPLY && TradeOf(taker, maker).takerReceives <= MAX_SHARE_SUPPLY
  {
    var b, q := maker.price.base.amount, maker.price.quote.amount;
    var worth := Down(maker.forSale, q, b);
    MulMono(maker.forSale, b, q);
    AtMostFromScaled(worth, q, b);
    if taker.forSale <= worth {
      MulMono(taker.forSale, worth, b);
      AtMostFromScaled(Down(taker.forSale, b, q), maker.forSale, q);
    }
  }

  /**
   Rounding favours neither side beyond one unit: the exhausted order pays the least amount worth
   what it receives at the match price, and the other order does no worse than the match price.
   */
  lemma MatchIsFair(taker: LimitOrder, maker: LimitOrder)
    requires taker.WellFormed() && maker.WellFormed() && Opposite(taker, maker)
    requires TradeOf(taker, maker).Trade?
    ensures var t := TradeOf(taker, maker);
            t.takerExhausted ==>
              && (forall y: nat :: t.takerReceives <= WorthToTaker(y, maker) <==> t.takerPays <= y)
              && t.takerPays * maker.price.base.amount >= t.takerReceives * maker.price.quote.amount
    ensures var t := TradeOf(taker, maker);
            !t.takerExhausted ==>
              && (forall y: nat :: t.takerPays <= WorthToMaker(y, maker) <==> t.takerReceives <= y)
              && t.takerReceives * maker.price.quote.amount >= t.takerPays * maker.price.base.amount
  {
    var t := TradeOf(taker, maker);
    var b, q := maker.price.base.amount, maker.price.quote.amount;
    forall y: nat
      ensures t.takerExhausted ==> (t.takerReceives <= WorthToTaker(y, maker) <==> t.takerPays <= y)
      ensures !t.takerExhausted ==> (t.takerPays <= WorthToMaker(y, maker) <==> t.takerReceives <= y)
    {
      if t.takerExhausted {
        DownAdjoint(y, b, q, t.takerReceives);
        UpAdjoint(t.takerReceives, q, b, y);
      } else {
        DownAdjoint(y, q, b, t.takerPays);
        UpAdjoint(t.takerPays, b, q, y);
      }
    }
  }

  /** The remainder of the exhausted order is worth nothing at its own price, so it is always culled. */
  lemma ExhaustedRemainderIsDust(taker: LimitOrder, maker: LimitOrder)
    requires taker.WellFormed() && maker.WellFormed() && Opposite(taker, maker) && Crosses(taker, maker)
    requires TradeOf(taker, maker).Trade?
    ensures var t := TradeOf(taker, maker);
            if t.takerExhausted then
              t.takerPays < taker.forSale ==> taker.AfterFill(t.takerPays).WellFormed() && taker.AfterFill(t.takerPays).Dust()
            else
              t.takerReceives < maker.forSale ==> maker.AfterFill(t.takerReceives).WellFormed() && maker.AfterFill(t.takerReceives).Dust()
  {
    var t := TradeOf(taker, maker);
    var b, q := maker.price.base.amount, maker.price.quote.amount;
    if t.takerExhausted {
      DownThenUp(taker.forSale, b, q);
      DownBetterPrice(taker.forSale - t.takerPays, taker.price.quote.amount, taker.price.base.amount, b, q);
    } else {
      DownThenUp(maker.forSale, q, b);
    }
  }

  /** A taker for which the match settles on `Nothing` is dust at its own price too. */
  lemma NothingMeansDust(taker: LimitOrder, maker: LimitOrder)
    requires taker.WellFormed() && maker.WellFormed() && Opposite(taker, maker) && Crosses(taker, maker)
    requires TradeOf(taker, maker).Nothing?
    ensures taker.Dust()
  {
    DownBetterPrice(taker.forSale, taker.price.quote.amount, taker.price.base.amount,
                    maker.price.base.amount, maker.price.quote.amount);
  }

  // Order of the book ---------------------------------------------------------------------

  lemma AtLeastTransitive(p: Price, q: Price, r: Price)
    requires ValidPrice(p) && ValidPrice(q) && ValidPrice(r)
    requires AtLeast(p, q) && AtLeast(q, r)
    ensures AtLeast(p, r)
  {
    var b1, q1, b2, q2, b3, q3 := p.base.amount, p.quote.amount, q.base.amount, q.quote.amount, r.base.amount, r.quote.amount;
    calc {
      b3 * q1 * q2;
      b3 * q2 * q1;
    <= { MulMono(b3 * q2, b2 * q3, q1); }
      b2 * q3 * q1;
      b2 * q1 * q3;
    <= { MulMono(b2 * q1, b1 * q2, q3); }
      b1 * q2 * q3;
      b1 * q3 * q2;
    }
    AtMostFromScaled(b3 * q1, b1 * q3, q2);
  }

  /** If `front` precedes `o` on the same side and `front` does not cross `other`, neither does `o`. */
  lemma BehindFrontDoesNotCross(front: LimitOrder, o: LimitOrder, other: LimitOrder)
    requires front.WellFormed() && o.WellFormed() && other.WellFormed()
    requires AtLeast(front.price, o.price) && !Crosses(front, other)
    ensures !Crosses(o, other)
  {
    if Crosses(o, other) {
      assert AtLeast(Inverse(o.price), Inverse(front.price));
      AtLeastTransitive(other.price, Inverse(o.price), Inverse(front.price));
    }
  }

  lemma CrossesSymmetric(o: LimitOrder, p: LimitOrder)
    ensures Crosses(o, p) <==> Crosses(p, o)
  {
  }

  /** The orders on the side selling `base` for `quote`. */
  function Side(limits: map<nat, LimitOrder>, base: AssetId, quote: AssetId): set<nat> {
    set i | i in limits && limits[i].Sells() == base && limits[i].Buys() == quote
  }

  ghost predicate AllWellFormed(limits: map<nat, LimitOrder>) {
    forall i :: i in limits ==> limits[i].WellFormed()
  }

  ghost predicate DustFree(limits: map<nat, LimitOrder>) {
    AllWellFormed(limits) && forall i :: i in limits ==> !limits[i].Dust()
  }

  ghost predicate Uncrossed(limits: map<nat, LimitOrder>) {
    forall i, j :: i in limits && j in limits && Opposite(limits[i], limits[j]) ==> !Crosses(limits[i], limits[j])
  }

  // Price-time order ------------------------------------------------------------------------

  /** `p` of object `i` comes no later than `q` of object `j`: a higher price, or an equal one and an older id. */
  predicate Precedes(p: Price, i: nat, q: Price, j: nat) {
    AtLeast(p, q) && (AtLeast(q, p) ==> i <= j)
  }

  lemma PrecedesTotal(p: Price, i: nat, q: Price, j: nat)
    ensures Precedes(p, i, q, j) || Precedes(q, j, p, i)
  {
  }

  lemma PrecedesTransitive(p: Price, i: nat, q: Price, j: nat, r: Price, k: nat)
    requires ValidPrice(p) && ValidPrice(q) && ValidPrice(r)
    requires Precedes(p, i, q, j) && Precedes(q, j, r, k)
    ensures Precedes(p, i, r, k)
  {
    AtLeastTransitive(p, q, r);
    if AtLeast(r, p) {
      AtLeastTransitive(q, r, p);
      AtLeastTransitive(r, p, q);
    }
  }

  predicate IsFirst(ids: set<nat>, price: nat -> Price, i: nat) {
    i in ids && forall j :: j in ids ==> Precedes(price(i), i, price(j), j)
  }

  /** Every non-empty set of priced objects has a first one, which is where an ordered index begins. */
  lemma {:induction false} FirstExists(ids: set<nat>, price: nat -> Price)
    requires ids != {} && forall i :: i in ids ==> ValidPrice(price(i))
    ensures exists i :: IsFirst(ids, price, i)
    decreases |ids|
  {
    hide Precedes;
    var k :| k in ids;
    PrecedesTotal(price(k), k, price(k), k);
    var rest := ids - {k};
    assert ids == {k} + rest;
    if rest == {} {
      assert IsFirst(ids, price, k);
    } else {
      FirstExists(rest, price);
      var i :| IsFirst(rest, price, i);
      PrecedesTotal(price(i), i, price(k), k);
      if Precedes(price(i), i, price(k), k) {
        assert IsFirst(ids, price, i);
      } else {
        forall j | j in rest ensures Precedes(price(k), k, price(j), j) {
          PrecedesTransitive(price(k), k, price(i), i, price(j), j);
        }
        assert IsFirst(ids, price, k);
      }
    }
  }
}
