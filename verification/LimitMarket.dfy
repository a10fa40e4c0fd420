/**
 Limit orders on the ledger: fees, fills, culling, cancelling, matching two limit orders, and
 applying a new order to the book.
 */
module LimitMarket {
  import opened Amounts
  import opened Matching
  import opened Ledger
  import opened Options

  // Fees ----------------------------------------------------------------------------------

  function MarketFee(rule: FeeRule, amount: nat): (fee: nat)
    ensures fee <= amount && fee <= amount * rule.percent / HUNDRED_PERCENT
    ensures rule.charges && amount * rule.percent / HUNDRED_PERCENT <= rule.maxFee ==> fee == amount * rule.percent / HUNDRED_PERCENT
    ensures rule.charges && amount * rule.percent / HUNDRED_PERCENT > rule.maxFee ==> fee == rule.maxFee
    ensures !rule.charges ==> fee == 0
  {
    if !rule.charges || rule.percent == 0 then 0
    else
      MulMono(rule.percent, HUNDRED_PERCENT, amount);
      var percentFee := amount * rule.percent / HUNDRED_PERCENT;
      if percentFee > rule.maxFee then rule.maxFee else percentFee
  }

  /** The share of a deferred fee taken when an order is cancelled: in CORE, and in the asset it was paid in. */
  datatype CancelCharge = CancelCharge(core: nat, paid: nat)

  function ChargeOnCancel(o: LimitOrder, scheduled: nat, virtualOp: bool, skipFee: bool): (c: CancelCharge)
    requires o.WellFormed()
    ensures c.core <= o.deferredFee && c.paid <= o.deferredPaid.amount && (c.core == 0 ==> c.paid == 0)
    ensures c.core <= scheduled && (if virtualOp && !skipFee then c.core == scheduled || c.core == o.deferredFee else c.core == 0)
  {
    if virtualOp && !skipFee && o.deferredFee > 0 then
      var core := if scheduled > o.deferredFee then o.deferredFee else scheduled;
      if core > 0 && o.deferredPaid.amount > 0 then
        MulMono(core, o.deferredFee, o.deferredPaid.amount);
        UpAdjoint(o.deferredPaid.amount, core, o.deferredFee, o.deferredPaid.amount);
        CancelCharge(core, Up(o.deferredPaid.amount, core, o.deferredFee))
      else CancelCharge(core, 0)
    else CancelCharge(0, 0)
  }

  /**
   The charge in the originally paid asset is proportional to the CORE charge, rounded up by less
   than one unit; charging the whole deferred fee takes the whole of what was paid for it.
   */
  lemma CancelChargeIsProportional(o: LimitOrder, scheduled: nat, virtualOp: bool, skipFee: bool)
    requires o.WellFormed() && o.deferredPaid.amount > 0 && o.deferredFee > 0
    ensures var c := ChargeOnCancel(o, scheduled, virtualOp, skipFee);
            && o.deferredPaid.amount * c.core <= c.paid * o.deferredFee < o.deferredPaid.amount * c.core + o.deferredFee
            && (virtualOp && !skipFee && scheduled >= o.deferredFee ==> c == CancelCharge(o.deferredFee, o.deferredPaid.amount))
  {
    var c := ChargeOnCancel(o, scheduled, virtualOp, skipFee);
    if c.core == o.deferredFee {
      AtMostFromScaled(o.deferredPaid.amount, c.paid, o.deferredFee);
    }
  }

  method PayMarketFees(db: Database, receives: Asset) returns (fee: int)
    requires receives.amount >= 0
    modifies db`accumulatedFees
    ensures fee == MarketFee(db.marketFees(receives.id), receives.amount)
    ensures db.accumulatedFees == Credit(old(db.accumulatedFees), receives.id, fee)
    ensures forall a :: db.Net(a) == old(db.Net(a)) + (if a == receives.id then fee else 0)
  {
    hide Database.Net;
    fee := MarketFee(db.marketFees(receives.id), receives.amount);
    db.CollectFee(Asset(fee, receives.id));
  }

  method PayOrder(db: Database, receiver: AccountId, receives: Asset, pays: Asset)
    requires receives.amount >= 0
    modifies db`balances, db`coreInOrders
    ensures db.balances == Credit(old(db.balances), (receiver, receives.id), receives.amount)
    ensures db.coreInOrders == Credit(old(db.coreInOrders), receiver, if pays.id == CORE then -pays.amount else 0)
    ensures forall a :: db.Net(a) == old(db.Net(a)) + (if a == receives.id then receives.amount else 0)
    ensures forall w :: db.CoreGap(w) == old(db.CoreGap(w)) - (if w == receiver && pays.id == CORE then pays.amount else 0)
  {
    hide Database.Net, Database.CoreGap;
    if pays.id == CORE {
      db.AdjustCoreInOrders(receiver, -pays.amount);
    }
    db.AdjustBalance(receiver, receives);
  }

  // Cancelling ----------------------------------------------------------------------------

  /** What the seller gets back of the deferred fee: in CORE, or in the asset it was paid in. */
  function FeeRefund(o: LimitOrder, charge: CancelCharge): Asset {
    if o.deferredPaid.amount == 0 then Asset(o.deferredFee - charge.core, CORE)
    else Asset(o.deferredPaid.amount - charge.paid, o.deferredPaid.id)
  }

  /** What goes back to the fee pool of the asset the fee was paid in. */
  function PoolRefund(o: LimitOrder, charge: CancelCharge): int {
    if o.deferredPaid.amount == 0 then 0 else o.deferredFee - charge.core
  }

  /** Redirect the charged share of the deferred fee to the referral program and the fee asset's issuer. */
  method TakeCancelFee(db: Database, o: LimitOrder, charge: CancelCharge)
    requires o.deferredPaid.amount == 0 || charge.core == 0 ==> charge.paid == 0
    modifies db`accumulatedFees, db`pendingFees
    ensures db.pendingFees == Credit(old(db.pendingFees), o.seller, charge.core)
    ensures db.accumulatedFees == Credit(old(db.accumulatedFees), o.deferredPaid.id, charge.paid)
    ensures forall a :: db.Net(a) == old(db.Net(a)) + (if a == CORE then charge.core else 0) + (if a == o.deferredPaid.id then charge.paid else 0)
  {
    hide Database.Net;
    if charge.core > 0 {
      db.PayFee(o.seller, charge.core);
      if o.deferredPaid.amount != 0 {
        db.CollectFee(Asset(charge.paid, o.deferredPaid.id));
      }
    }
  }

  /** Give back what was for sale. */
  method RefundSale(db: Database, o: LimitOrder)
    requires o.forSale >= 0
    modifies db`balances, db`coreInOrders
    ensures db.balances == Credit(old(db.balances), (o.seller, o.Sells()), o.forSale)
    ensures db.coreInOrders == Credit(old(db.coreInOrders), o.seller, if o.Sells() == CORE then -o.forSale else 0)
    ensures forall a :: db.Net(a) == old(db.Net(a)) + (if a == o.Sells() then o.forSale else 0)
    ensures forall w :: db.CoreGap(w) == old(db.CoreGap(w)) - (if w == o.seller && o.Sells() == CORE then o.forSale else 0)
  {
    hide Database.Net, Database.CoreGap;
    if o.Sells() == CORE {
      db.AdjustCoreInOrders(o.seller, -o.forSale);
    }
    db.AdjustBalance(o.seller, o.AmountForSale());
  }

  /** Give back the uncharged rest of the deferred fee, in the asset it was paid in. */
  method RefundFee(db: Database, o: LimitOrder, charge: CancelCharge)
    requires charge.core <= o.deferredFee && charge.paid <= o.deferredPaid.amount
    modifies db`balances, db`feePool
    ensures db.balances == Credit(old(db.balances), (o.seller, FeeRefund(o, charge).id), FeeRefund(o, charge).amount)
    ensures db.feePool == Credit(old(db.feePool), o.deferredPaid.id, PoolRefund(o, charge))
    ensures forall a :: db.Net(a) == old(db.Net(a)) + (if a == CORE then o.deferredFee - charge.core else 0)
                                     + (if a == o.deferredPaid.id then o.deferredPaid.amount - charge.paid else 0)
  {
    hide Database.Net;
    db.AdjustBalance(o.seller, FeeRefund(o, charge));
    if o.deferredPaid.amount != 0 {
      db.FillFeePool(o.deferredPaid.id, o.deferredFee - charge.core);
    }
  }

  method CancelLimitOrder(db: Database, i: nat, virtualOp: bool, skipFee: bool)
    requires i in db.limits && db.limits[i].WellFormed()
    modifies db`limits, db`balances, db`accumulatedFees, db`feePool, db`pendingFees, db`coreInOrders
    ensures db.limits == old(db.limits) - {i}
    ensures var o := old(db.limits[i]);
            var charge := ChargeOnCancel(o, db.cancelFee, virtualOp, skipFee);
            && db.balances == Credit(Credit(old(db.balances), (o.seller, o.Sells()), o.forSale),
                                     (o.seller, FeeRefund(o, charge).id), FeeRefund(o, charge).amount)
            && db.pendingFees == Credit(old(db.pendingFees), o.seller, charge.core)
            && db.accumulatedFees == Credit(old(db.accumulatedFees), o.deferredPaid.id, charge.paid)
            && db.feePool == Credit(old(db.feePool), o.deferredPaid.id, PoolRefund(o, charge))
            && db.coreInOrders == Credit(old(db.coreInOrders), o.seller, if o.Sells() == CORE then -o.forSale else 0)
    ensures forall a :: db.Net(a) == old(db.Net(a))
    ensures forall w :: db.CoreGap(w) == old(db.CoreGap(w))
  {
    hide Database.Net, Database.CoreGap, Credit;
    var o := db.limits[i];
    var charge := ChargeOnCancel(o, db.cancelFee, virtualOp, skipFee);
    TakeCancelFee(db, o, charge);
    RefundSale(db, o);
    RefundFee(db, o, charge);
    db.RemoveLimit(i);
  }

  method MaybeCullSmallOrder(db: Database, i: nat) returns (culled: bool)
    requires i in db.limits && db.limits[i].WellFormed()
    modifies db`limits, db`balances, db`accumulatedFees, db`feePool, db`pendingFees, db`coreInOrders
    ensures culled == old(db.limits[i].Dust())
    ensures db.limits == if culled then old(db.limits) - {i} else old(db.limits)
    ensures var o := old(db.limits[i]);
            var charge := ChargeOnCancel(o, db.cancelFee, true, false);
            && (culled ==>
                  && db.balances == Credit(Credit(old(db.balances), (o.seller, o.Sells()), o.forSale),
                                           (o.seller, FeeRefund(o, charge).id), FeeRefund(o, charge).amount)
                  && db.pendingFees == Credit(old(db.pendingFees), o.seller, charge.core)
                  && db.accumulatedFees == Credit(old(db.accumulatedFees), o.deferredPaid.id, charge.paid)
                  && db.feePool == Credit(old(db.feePool), o.deferredPaid.id, PoolRefund(o, charge))
                  && db.coreInOrders == Credit(old(db.coreInOrders), o.seller, if o.Sells() == CORE then -o.forSale else 0))
    ensures !culled ==>
              && db.balances == old(db.balances) && db.coreInOrders == old(db.coreInOrders)
              && db.accumulatedFees == old(db.accumulatedFees) && db.feePool == old(db.feePool) && db.pendingFees == old(db.pendingFees)
    ensures forall a :: db.Net(a) == old(db.Net(a))
    ensures forall w :: db.CoreGap(w) == old(db.CoreGap(w))
  {
    hide Database.Net, Database.CoreGap, Credit;
    culled := db.limits[i].AmountToReceive().amount == 0;
    if culled {
      CancelLimitOrder(db, i, true, false);
    }
  }

  // Filling -------------------------------------------------------------------------------

  /** The order disappears: all of it was sold, or what is left is dust and may be culled. */
  predicate FillRemoves(o: LimitOrder, paid: int, cullIfSmall: bool)
    requires o.WellFormed() && 0 <= paid <= o.forSale
    ensures FillRemoves(o, paid, cullIfSmall) <==> paid == o.forSale || (cullIfSmall && (o.forSale - paid) * o.price.quote.amount < o.price.base.amount)
  {
    DownAdjoint(o.forSale - paid, o.price.quote.amount, o.price.base.amount, 1);
    paid == o.forSale || (cullIfSmall && o.AfterFill(paid).Dust())
  }

  method ChargeDeferredFee(db: Database, o: LimitOrder)
    requires o.deferredFee >= 0 && o.deferredPaid.amount >= 0
    modifies db`accumulatedFees, db`pendingFees
    ensures db.accumulatedFees == Credit(old(db.accumulatedFees), o.deferredPaid.id, o.deferredPaid.amount)
    ensures db.pendingFees == Credit(old(db.pendingFees), o.seller, o.deferredFee)
    ensures forall a :: db.Net(a) == old(db.Net(a)) + (if a == CORE then o.deferredFee else 0) + (if a == o.deferredPaid.id then o.deferredPaid.amount else 0)
  {
    hide Database.Net;
    if o.deferredFee > 0 {
      db.PayFee(o.seller, o.deferredFee);
    }
    if o.deferredPaid.amount > 0 {
      db.CollectFee(o.deferredPaid);
    }
  }

  /** Take `paid` off the order, whose deferred fee has been charged; remove it when nothing or dust is left. */
  method ReduceOrder(db: Database, i: nat, paid: int, cullIfSmall: bool) returns (filled: bool)
    requires i in db.limits && db.limits[i].WellFormed()
    requires 0 <= paid <= db.limits[i].forSale
    modifies db`limits, db`balances, db`accumulatedFees, db`feePool, db`pendingFees, db`coreInOrders
    ensures filled == FillRemoves(old(db.limits[i]), paid, cullIfSmall)
    ensures db.limits == if filled then old(db.limits) - {i} else old(db.limits)[i := old(db.limits[i]).AfterFill(paid)]
    ensures var o := old(db.limits[i]);
            && db.balances == Credit(old(db.balances), (o.seller, o.Sells()), if filled then o.forSale - paid else 0)
            && db.coreInOrders == Credit(old(db.coreInOrders), o.seller, if filled && o.Sells() == CORE then paid - o.forSale else 0)
            && (forall a :: db.Net(a) == old(db.Net(a)) - (if a == o.Sells() then paid else 0) - (if a == CORE then o.deferredFee else 0)
                                         - (if a == o.deferredPaid.id then o.deferredPaid.amount else 0))
            && (forall w :: db.CoreGap(w) == old(db.CoreGap(w)) + (if w == o.seller && o.Sells() == CORE then paid else 0))
    ensures db.accumulatedFees == old(db.accumulatedFees) && db.feePool == old(db.feePool) && db.pendingFees == old(db.pendingFees)
  {
    hide Database.Net, Database.CoreGap;
    var o := db.limits[i];
    if paid == o.forSale {
      db.RemoveLimit(i);
      filled := true;
    } else {
      db.SetLimit(i, o.AfterFill(paid));
      filled := false;
      if cullIfSmall {
        filled := MaybeCullSmallOrder(db, i);
      }
    }
  }

  /** Balances once `o` has sold `paid`, been credited `received`, and had the rest refunded if it was removed. */
  function Settled(b: map<(AccountId, AssetId), int>, o: LimitOrder, paid: int, received: int, removed: bool): map<(AccountId, AssetId), int> {
    Credit(Credit(b, (o.seller, o.Buys()), received), (o.seller, o.Sells()), if removed then o.forSale - paid else 0)
  }

  /** Only the seller's two balances change: by what is received, and by what is left of a sale that is over. */
  lemma SettledMeans(b: map<(AccountId, AssetId), int>, o: LimitOrder, paid: int, received: int, removed: bool, w: AccountId, a: AssetId)
    requires o.Sells() != o.Buys()
    ensures At(Settled(b, o, paid, received, removed), (w, a)) - At(b, (w, a))
            == if w != o.seller then 0 else if a == o.Buys() then received else if a == o.Sells() && removed then o.forSale - paid else 0
  {
  }

  /** Accumulated fees once `o` has been filled with a market fee of `fee`. */
  function FeesAfter(f: map<AssetId, int>, o: LimitOrder, fee: int): map<AssetId, int> {
    Credit(Credit(f, o.Buys(), fee), o.deferredPaid.id, o.deferredPaid.amount)
  }

  function CoreAfter(c: map<AccountId, int>, o: LimitOrder, paid: int, removed: bool): map<AccountId, int> {
    Credit(Credit(c, o.seller, if o.Sells() == CORE then -paid else 0),
           o.seller, if removed && o.Sells() == CORE then paid - o.forSale else 0)
  }

  function LimitsAfter(limits: map<nat, LimitOrder>, i: nat, paid: int, removed: bool): map<nat, LimitOrder>
    requires i in limits
  {
    if removed then limits - {i} else limits[i := limits[i].AfterFill(paid)]
  }

  method FillLimitOrder(db: Database, i: nat, pays: int, receives: int, cullIfSmall: bool) returns (filled: bool)
    requires i in db.limits && db.limits[i].WellFormed()
    requires 0 <= pays <= db.limits[i].forSale && receives >= 0
    modifies db`limits, db`balances, db`accumulatedFees, db`feePool, db`pendingFees, db`coreInOrders
    ensures filled == FillRemoves(old(db.limits[i]), pays, cullIfSmall)
    ensures db.limits == LimitsAfter(old(db.limits), i, pays, filled)
    ensures var o := old(db.limits[i]);
            var fee := MarketFee(db.marketFees(o.Buys()), receives);
            && db.balances == Settled(old(db.balances), o, pays, receives - fee, filled)
            && db.accumulatedFees == FeesAfter(old(db.accumulatedFees), o, fee)
            && db.pendingFees == Credit(old(db.pendingFees), o.seller, o.deferredFee)
            && db.coreInOrders == CoreAfter(old(db.coreInOrders), o, pays, filled)
            && (forall a :: db.Net(a) == old(db.Net(a)) + (if a == o.Buys() then receives else 0) - (if a == o.Sells() then pays else 0))
    ensures db.feePool == old(db.feePool)
    ensures forall w :: db.CoreGap(w) == old(db.CoreGap(w))
  {
    hide Database.Net, Database.CoreGap, Credit, MarketFee;
    var o := db.limits[i];
    var fee := PayMarketFees(db, Asset(receives, o.Buys()));
    PayOrder(db, o.seller, Asset(receives - fee, o.Buys()), Asset(pays, o.Sells()));
    ChargeDeferredFee(db, o);
    filled := ReduceOrder(db, i, pays, cullIfSmall);
  }

  // Matching two limit orders ---------------------------------------------------------------

  /**
   The first order is the taker, the second the maker, whose price applies.  The result is a bit
   field: 1 when the taker was filled, 2 when the maker was, and never 0.
   */
  method MatchLimits(db: Database, i: nat, j: nat) returns (result: nat)
    requires i in db.limits && j in db.limits && i != j
    requires db.limits[i].WellFormed() && db.limits[j].WellFormed()
    requires Opposite(db.limits[i], db.limits[j]) && Crosses(db.limits[i], db.limits[j])
    requires !db.limits[j].Dust()
    modifies db`limits, db`balances, db`accumulatedFees, db`feePool, db`pendingFees, db`coreInOrders
    ensures result in {1, 2, 3}
    ensures var taker, maker := old(db.limits[i]), old(db.limits[j]);
            var t := TradeOf(taker, maker);
            if t.Nothing? then
              && result == 1
              && db.limits == old(db.limits) && db.balances == old(db.balances) && db.accumulatedFees == old(db.accumulatedFees)
              && db.pendingFees == old(db.pendingFees) && db.coreInOrders == old(db.coreInOrders)
            else
              var takerFee := MarketFee(db.marketFees(taker.Buys()), t.takerReceives);
              var makerFee := MarketFee(db.marketFees(maker.Buys()), t.takerPays);
              var makerGone := FillRemoves(maker, t.takerReceives, true);
              && (result == 1 || result == 3 <==> t.takerExhausted)
              && (result == 2 || result == 3 <==> makerGone)
              && db.limits == LimitsAfter(LimitsAfter(old(db.limits), i, t.takerPays, t.takerExhausted), j, t.takerReceives, makerGone)
              && db.balances == Settled(Settled(old(db.balances), taker, t.takerPays, t.takerReceives - takerFee, t.takerExhausted),
                                        maker, t.takerReceives, t.takerPays - makerFee, makerGone)
              && db.accumulatedFees == FeesAfter(FeesAfter(old(db.accumulatedFees), taker, takerFee), maker, makerFee)
              && db.pendingFees == Credit(Credit(old(db.pendingFees), taker.seller, taker.deferredFee), maker.seller, maker.deferredFee)
              && db.coreInOrders == CoreAfter(CoreAfter(old(db.coreInOrders), taker, t.takerPays, t.takerExhausted), maker, t.takerReceives, makerGone)
    ensures db.feePool == old(db.feePool)
    ensures forall a :: db.Net(a) == old(db.Net(a))
    ensures forall w :: db.CoreGap(w) == old(db.CoreGap(w))
  {
    hide Database.Net, Database.CoreGap, Credit, MarketFee, Settled, FeesAfter, CoreAfter;
    var taker, maker := db.limits[i], db.limits[j];
    var matchPrice := maker.price;
    TradeIsProper(taker, maker);
    assert TradeOf(taker, maker).Trade? ==> TradeOf(taker, maker).takerExhausted ==>
      FillRemoves(taker, TradeOf(taker, maker).takerPays, true) by {
      if TradeOf(taker, maker).Trade? { ExhaustedRemainderIsDust(taker, maker); }
    }
    assert TradeOf(taker, maker).Trade? ==> !TradeOf(taker, maker).takerExhausted ==>
      FillRemoves(maker, TradeOf(taker, maker).takerReceives, true) by {
      if TradeOf(taker, maker).Trade? { ExhaustedRemainderIsDust(taker, maker); }
    }
    var takerReceives, makerReceives;
    var cullTaker := false;
    if taker.forSale <= Times(maker.AmountForSale(), matchPrice).amount {
      takerReceives := Times(taker.AmountForSale(), matchPrice).amount;
      if takerReceives == 0 {
        return 1;
      }
      makerReceives := TimesUp(Asset(takerReceives, maker.Sells()), matchPrice).amount;
      cullTaker := true;
    } else {
      makerReceives := Times(maker.AmountForSale(), matchPrice).amount;
      takerReceives := TimesUp(Asset(makerReceives, taker.Sells()), matchPrice).amount;
    }
    var takerFilled := FillLimitOrder(db, i, makerReceives, takerReceives, cullTaker);
    var makerFilled := FillLimitOrder(db, j, takerReceives, makerReceives, true);
    result := (if takerFilled then 1 else 0) + (if makerFilled then 2 else 0);
  }

  // Matching a new order against the book ---------------------------------------------------

  /** Apart from order `i`, the book is uncrossed and free of dust. */
  ghost predicate QuietBook(limits: map<nat, LimitOrder>, i: nat) {
    && AllWellFormed(limits)
    && (forall k :: k in limits && k != i ==> !limits[k].Dust())
    && (forall k, l :: k in limits && l in limits && k != i && l != i && Opposite(limits[k], limits[l]) ==> !Crosses(limits[k], limits[l]))
  }

  /** `after` is `before` with some orders other than `i` gone or partly sold. */
  ghost predicate Remnant(before: map<nat, LimitOrder>, after: map<nat, LimitOrder>, i: nat) {
    forall k :: k in after && k != i ==> k in before && IsPart(after[k], before[k])
  }

  /** The same offer, with no more left of it. */
  predicate IsPart(part: LimitOrder, whole: LimitOrder) {
    part == whole || (part.price == whole.price && part.seller == whole.seller && 0 < part.forSale <= whole.forSale)
  }

  ghost predicate Touched(before: map<nat, LimitOrder>, after: map<nat, LimitOrder>, k: nat)
    requires k in before
  {
    k !in after || after[k] != before[k]
  }

  /** Only orders that cross `taker` were touched. */
  ghost predicate OnlyCrossing(before: map<nat, LimitOrder>, after: map<nat, LimitOrder>, i: nat, taker: LimitOrder) {
    forall k :: k in before && k != i && Touched(before, after, k) ==> Opposite(taker, before[k]) && Crosses(taker, before[k])
  }

  /** Price-time priority: a touched order precedes every order still on its side of the book. */
  ghost predicate InPriority(before: map<nat, LimitOrder>, after: map<nat, LimitOrder>, i: nat, taker: LimitOrder) {
    forall k, l :: k in before && k != i && Touched(before, after, k) && l in before && l in after && l != i && l != k
                   && Opposite(taker, before[k]) && Opposite(taker, before[l])
                   ==> Precedes(before[k].price, k, before[l].price, l)
  }

  /** Only orders with a price above `floor` were touched. */
  ghost predicate OnlyAbove(before: map<nat, LimitOrder>, after: map<nat, LimitOrder>, i: nat, floor: Option<Price>) {
    floor.Some? ==> forall k :: k in before && k != i && Touched(before, after, k) ==> !AtLeast(floor.value, before[k].price)
  }

  /** One match against the front of the opposite side keeps the rest of the book quiet. */
  lemma MatchKeepsBookQuiet(limits: map<nat, LimitOrder>, i: nat, j: nat)
    requires i in limits && j in limits && i != j && QuietBook(limits, i)
    requires Opposite(limits[i], limits[j]) && Crosses(limits[i], limits[j])
    requires TradeOf(limits[i], limits[j]).Trade?
    ensures var t := TradeOf(limits[i], limits[j]);
            var makerGone := FillRemoves(limits[j], t.takerReceives, true);
            var after := LimitsAfter(LimitsAfter(limits, i, t.takerPays, t.takerExhausted), j, t.takerReceives, makerGone);
            && QuietBook(after, i) && Remnant(limits, after, i)
            && (i in after ==> after[i] == limits[i].AfterFill(t.takerPays) && IsPart(after[i], limits[i]))
            && (!t.takerExhausted ==> makerGone)
            && (forall k :: k in limits && k != i && k != j ==> k in after && after[k] == limits[k])
  {
    assert limits[i].WellFormed() && limits[j].WellFormed() && !limits[j].Dust();
    hide Times, TimesUp, TradeOf, LimitOrder.Dust, QuietBook;
    var t := TradeOf(limits[i], limits[j]);
    var makerGone := FillRemoves(limits[j], t.takerReceives, true);
    var after := LimitsAfter(LimitsAfter(limits, i, t.takerPays, t.takerExhausted), j, t.takerReceives, makerGone);
    TradeIsProper(limits[i], limits[j]);
    ExhaustedRemainderIsDust(limits[i], limits[j]);
    RemnantIsQuiet(limits, after, i);
  }

  lemma RemnantIsQuiet(limits: map<nat, LimitOrder>, after: map<nat, LimitOrder>, i: nat)
    requires QuietBook(limits, i) && Remnant(limits, after, i)
    requires forall k :: k in after && k != i ==> after[k] == limits[k] || (after[k].WellFormed() && !after[k].Dust())
    requires i in after ==> after[i].WellFormed()
    ensures QuietBook(after, i)
  {
    hide AtLeast, LimitOrder.Dust;
    forall k, l | k in after && l in after && k != i && l != i && Opposite(after[k], after[l])
      ensures !Crosses(after[k], after[l])
    {
      assert Opposite(limits[k], limits[l]);
    }
  }

  lemma WorseThanFront(front: Price, p: Price, bound: Price)
    requires ValidPrice(front) && ValidPrice(p) && ValidPrice(bound)
    requires AtLeast(front, p)
    ensures AtLeast(p, bound) ==> AtLeast(front, bound)
    ensures !AtLeast(bound, p) ==> !AtLeast(bound, front)
  {
    if AtLeast(p, bound) {
      AtLeastTransitive(front, p, bound);
    }
    if AtLeast(bound, front) {
      AtLeastTransitive(bound, front, p);
    }
  }

  predicate Matchable(taker: LimitOrder, maker: LimitOrder, floor: Option<Price>) {
    Opposite(taker, maker) && Crosses(taker, maker) && (floor.Some? ==> !AtLeast(floor.value, maker.price))
  }

  /** `j` comes first among the orders opposite to `i`. */
  ghost predicate IsFront(limits: map<nat, LimitOrder>, i: nat, j: nat)
    requires i in limits && j in limits
  {
    forall k :: k in limits && Opposite(limits[i], limits[k]) ==> Precedes(limits[j].price, j, limits[k].price, k)
  }

  /** The first order of the opposite side in `by_price` order, if it is matchable at all. */
  method BestMaker(db: Database, i: nat, floor: Option<Price>) returns (maker: Option<nat>)
    requires i in db.limits && AllWellFormed(db.limits)
    requires floor.Some? ==> ValidPrice(floor.value)
    ensures maker.None? ==> forall k :: k in db.limits ==> !Matchable(db.limits[i], db.limits[k], floor)
    ensures maker.Some? ==>
              && maker.value in db.limits && maker.value != i && Matchable(db.limits[i], db.limits[maker.value], floor)
              && IsFront(db.limits, i, maker.value)
  {
    hide AtLeast;
    var ids := Side(db.limits, db.limits[i].Buys(), db.limits[i].Sells());
    if ids == {} {
      assert forall k :: k in db.limits && Opposite(db.limits[i], db.limits[k]) ==> k in ids;
      return None;
    }
    var limits := db.limits;
    var price: nat -> Price := k => if k in limits then limits[k].price else limits[i].price;
    FirstExists(ids, price);
    var j :| IsFirst(ids, price, j);
    forall k | k in limits && Opposite(limits[i], limits[k])
      ensures Precedes(limits[j].price, j, limits[k].price, k)
    {
      assert k in ids;
      assert Precedes(price(j), j, price(k), k);
    }
    if Matchable(db.limits[i], db.limits[j], floor) {
      return Some(j);
    }
    forall k | k in db.limits && Opposite(db.limits[i], db.limits[k])
      ensures !Matchable(db.limits[i], db.limits[k], floor)
    {
      if k != j {
        assert Precedes(limits[j].price, j, limits[k].price, k);
        WorseThanFront(db.limits[j].price, db.limits[k].price, Inverse(db.limits[i].price));
        if floor.Some? { WorseThanFront(db.limits[j].price, db.limits[k].price, floor.value); }
      }
    }
    return None;
  }

  /** What holds between the book before a new order and the book once part of it has been matched. */
  ghost predicate Progress(before: map<nat, LimitOrder>, now: map<nat, LimitOrder>, i: nat, taker: LimitOrder, finished: bool) {
    && QuietBook(now, i)
    && (i in now ==> IsPart(now[i], taker))
    && (!finished ==> i in now)
    && (finished && i in now ==> now[i].Dust())
    && Remnant(before, now, i) && OnlyCrossing(before, now, i, taker) && InPriority(before, now, i, taker)
    && (!finished ==> forall k :: k in now && k != i ==> !Touched(before, now, k))
  }

  lemma MatchMakesProgress(before: map<nat, LimitOrder>, now: map<nat, LimitOrder>, i: nat, j: nat, taker: LimitOrder, floor: Option<Price>)
    requires Progress(before, now, i, taker, false) && OnlyAbove(before, now, i, floor)
    requires j in now && j != i && Matchable(now[i], now[j], floor)
    requires IsFront(now, i, j)
    requires TradeOf(now[i], now[j]).Trade?
    ensures var t := TradeOf(now[i], now[j]);
            var makerGone := FillRemoves(now[j], t.takerReceives, true);
            var after := LimitsAfter(LimitsAfter(now, i, t.takerPays, t.takerExhausted), j, t.takerReceives, makerGone);
            Progress(before, after, i, taker, t.takerExhausted || !makerGone) && OnlyAbove(before, after, i, floor)
  {
    assert now[i].WellFormed() && now[j].WellFormed();
    assert j in before && now[j] == before[j];
    hide Times, TimesUp, AtLeast, TradeOf, LimitOrder.Dust, QuietBook, FillRemoves, Progress;
    var t := TradeOf(now[i], now[j]);
    var makerGone := FillRemoves(now[j], t.takerReceives, true);
    var after := LimitsAfter(LimitsAfter(now, i, t.takerPays, t.takerExhausted), j, t.takerReceives, makerGone);
    MatchKeepsBookQuiet(now, i, j);
    StepMakesProgress(before, now, after, i, j, taker, t.takerExhausted || !makerGone);
  }

  /** Touching only the front of the opposite side, and leaving it only if the taker is done, is progress. */
  lemma StepMakesProgress(before: map<nat, LimitOrder>, now: map<nat, LimitOrder>, after: map<nat, LimitOrder>,
                          i: nat, j: nat, taker: LimitOrder, finished: bool)
    requires Progress(before, now, i, taker, false)
    requires j in now && j != i && Opposite(now[i], now[j]) && Crosses(now[i], now[j])
    requires IsFront(now, i, j)
    requires QuietBook(after, i) && Remnant(now, after, i)
    requires forall k :: k in now && k != i && k != j ==> k in after && after[k] == now[k]
    requires i in after ==> IsPart(after[i], now[i])
    requires if finished then i in after ==> after[i].Dust() else i in after && j !in after
    ensures Progress(before, after, i, taker, finished)
  {
    hide AtLeast, LimitOrder.Dust, QuietBook;
    assert now[j] == before[j] && taker.price == now[i].price;
    forall k, l | k in before && k != i && Touched(before, after, k) && l in before && l in after && l != i && l != k
                  && Opposite(taker, before[k]) && Opposite(taker, before[l])
      ensures Precedes(before[k].price, k, before[l].price, l)
    {
      assert k == j ==> Opposite(now[i], now[l]);
    }
  }

  /**
   Match order `i` against the opposite side, best price first, as long as the prices cross and,
   when `floor` is given, the maker's price is above it.
   */
  method MatchAgainstBook(db: Database, i: nat, floor: Option<Price>) returns (finished: bool)
    requires i in db.limits && QuietBook(db.limits, i)
    requires floor.Some? ==> ValidPrice(floor.value)
    modifies db`limits, db`balances, db`accumulatedFees, db`feePool, db`pendingFees, db`coreInOrders
    ensures Progress(old(db.limits), db.limits, i, old(db.limits[i]), finished)
    ensures !finished ==> forall k :: k in db.limits ==> !Matchable(db.limits[i], db.limits[k], floor)
    ensures OnlyAbove(old(db.limits), db.limits, i, floor)
    ensures db.feePool == old(db.feePool)
    ensures forall a :: db.Net(a) == old(db.Net(a))
    ensures forall w :: db.CoreGap(w) == old(db.CoreGap(w))
  {
    hide Database.Net, Database.CoreGap, Credit, MarketFee, Settled, FeesAfter, CoreAfter, Times, TimesUp, AtLeast;
    hide OnlyCrossing, InPriority, Remnant, OnlyAbove, TradeOf;
    ghost var before, taker := db.limits, db.limits[i];
    NoProgressYet(before, i, floor);
    finished := false;
    while !finished
      invariant Progress(before, db.limits, i, taker, finished) && OnlyAbove(before, db.limits, i, floor)
      invariant db.feePool == old(db.feePool)
      invariant forall a :: db.Net(a) == old(db.Net(a))
      invariant forall w :: db.CoreGap(w) == old(db.CoreGap(w))
      decreases !finished, |db.limits|
    {
      var maker := BestMaker(db, i, floor);
      if maker.None? {
        break;
      }
      var j := maker.value;
      if TradeOf(db.limits[i], db.limits[j]).Nothing? {
        NothingMeansDust(db.limits[i], db.limits[j]);
      } else {
        MatchMakesProgress(before, db.limits, i, j, taker, floor);
      }
      var result := MatchLimits(db, i, j);
      finished := result != 2;
    }
  }

  lemma NoProgressYet(limits: map<nat, LimitOrder>, i: nat, floor: Option<Price>)
    requires i in limits && QuietBook(limits, i)
    ensures Progress(limits, limits, i, limits[i], false) && OnlyAbove(limits, limits, i, floor)
  {
  }
}
