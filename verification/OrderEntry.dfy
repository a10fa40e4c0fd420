/** Placing a limit order: the operation that brings new orders into the book. */
module OrderEntry {
  import opened Amounts
  import opened Matching
  import opened Ledger
  import opened Options
  import opened LimitMarket
  import opened MarginMarket

  /** What an order asks for in full is never nothing. */
  lemma NewOrderIsNotDust(o: LimitOrder, sell: Asset, receive: Asset)
    requires o.WellFormed() && o.forSale == sell.amount && o.price == Price(sell, receive)
    ensures !o.Dust()
  {
    DownAdjoint(sell.amount, receive.amount, sell.amount, receive.amount);
    assert receive.amount * sell.amount == sell.amount * receive.amount;
  }

  /** A book that is quiet everywhere stays so apart from a new order. */
  lemma QuietApartFromNew(limits: map<nat, LimitOrder>, i: nat, o: LimitOrder)
    requires AllWellFormed(limits) && DustFree(limits) && Uncrossed(limits) && i !in limits && o.WellFormed()
    ensures QuietBook(limits[i := o], i)
  {
    hide LimitOrder.Dust, Crosses;
  }

  /** The fee an order is placed with, in CORE, and what was taken for it if it was paid in another asset. */
  function OrderFor(seller: AccountId, sell: Asset, receive: Asset, coreFee: nat, fee: Asset): LimitOrder {
    LimitOrder(seller, sell.amount, Price(sell, receive), coreFee, if fee.id == CORE then Asset(0, CORE) else fee)
  }

  /** Lock what is sold and put the order in the book; the fee pool advances the fee if it is not paid in CORE. */
  method LockOrder(db: Database, i: nat, seller: AccountId, sell: Asset, receive: Asset, coreFee: nat, fee: Asset)
    requires i !in db.limits && 0 < sell.amount <= db.Balance(seller, sell.id) && fee.amount >= 0 && (fee.id == CORE ==> fee.amount == coreFee)
    modifies db`limits, db`balances, db`feePool, db`coreInOrders
    ensures db.limits == old(db.limits)[i := OrderFor(seller, sell, receive, coreFee, fee)]
    ensures db.balances == Credit(old(db.balances), (seller, sell.id), -sell.amount)
    ensures db.feePool == (if fee.id == CORE then old(db.feePool) else Credit(old(db.feePool), fee.id, -(coreFee as int)))
    ensures db.coreInOrders == Credit(old(db.coreInOrders), seller, if sell.id == CORE then sell.amount else 0)
    ensures forall a :: db.Net(a) == old(db.Net(a)) + (if a == fee.id then fee.amount else 0)
    ensures forall w :: db.CoreGap(w) == old(db.CoreGap(w))
    ensures forall a :: db.Unbacked(a) == old(db.Unbacked(a))
  {
    hide Database.Net, Database.CoreGap, Database.Unbacked, Credit;
    if fee.id != CORE {
      db.FillFeePool(fee.id, -(coreFee as int));
    }
    db.AdjustCoreInOrders(seller, if sell.id == CORE then sell.amount else 0);
    db.AdjustBalance(seller, Asset(-sell.amount, sell.id));
    db.SetLimit(i, OrderFor(seller, sell, receive, coreFee, fee));
  }

  /**
   Locking an order and cancelling it without a charge undoes the lock: what was sold is back, the fee pool is
   as before, and the fee is given back in the asset it was paid in.  (A fee of 0 is worth no CORE.)
   */
  method LockAndCancel(db: Database, i: nat, seller: AccountId, sell: Asset, receive: Asset, coreFee: nat, fee: Asset)
    requires i !in db.limits && 0 < sell.amount <= db.Balance(seller, sell.id) && receive.amount > 0 && sell.id != receive.id
    requires fee.amount >= 0 && (fee.id == CORE ==> fee.amount == coreFee) && (fee.id != CORE && fee.amount == 0 ==> coreFee == 0)
    modifies db`limits, db`balances, db`accumulatedFees, db`feePool, db`pendingFees, db`coreInOrders
    ensures db.limits == old(db.limits)
    ensures forall w, a :: db.Balance(w, a) == old(db.Balance(w, a)) + (if w == seller && a == fee.id then fee.amount else 0)
    ensures forall a :: At(db.feePool, a) == At(old(db.feePool), a) && At(db.accumulatedFees, a) == At(old(db.accumulatedFees), a)
    ensures forall w :: At(db.pendingFees, w) == At(old(db.pendingFees), w) && At(db.coreInOrders, w) == At(old(db.coreInOrders), w)
  {
    hide Database.Net, Database.CoreGap, Database.Unbacked;
    LockOrder(db, i, seller, sell, receive, coreFee, fee);
    CancelLimitOrder(db, i, false, false);
  }

  /**
   Place an order: lock it, match it, and take the fee from what the seller has then.  From a book without
   crossing orders and without dust it leads to such a book again, so every run of orders does, and it
   creates and destroys nothing.
   */
  method PlaceLimitOrder(db: Database, i: nat, seller: AccountId, sell: Asset, receive: Asset, coreFee: nat, fee: Asset,
                         fillOrKill: bool, admitted: bool, feed: Option<Feed>) returns (thrown: bool)
    requires i !in db.limits && AllWellFormed(db.limits) && DustFree(db.limits) && Uncrossed(db.limits)
    requires fee.amount >= 0 && (fee.id == CORE ==> fee.amount == coreFee)
    requires feed.Some? ==> feed.value.Valid() && AllOpen(db.calls) && sell.id == feed.value.debtId && receive.id == feed.value.collateralId
    modifies db`limits, db`balances, db`accumulatedFees, db`feePool, db`pendingFees, db`coreInOrders, db`calls, db`supply
    ensures !thrown ==> DustFree(db.limits) && Uncrossed(db.limits)
    ensures !thrown ==> admitted && 0 < sell.amount <= old(db.Balance(seller, sell.id)) && receive.amount > 0 && sell.id != receive.id
    ensures thrown ==> !(admitted && 0 < sell.amount <= old(db.Balance(seller, sell.id)) && receive.amount > 0 && sell.id != receive.id)
                       || (feed.Some? && CalledCannotPay(db.limits, db.calls, i, feed.value)) || (fillOrKill && i in db.limits) || db.Balance(seller, fee.id) < fee.amount
    ensures !thrown && fillOrKill ==> i !in db.limits
    ensures !thrown && feed.Some? ==>
              var o := OrderFor(seller, sell, receive, coreFee, fee);
              if AtFront(old(db.limits)[i := o], i)
              then CallsServed(old(db.limits)[i := o], db.limits, old(db.calls), db.calls, i, o, feed.value, i !in db.limits)
              else db.limits == old(db.limits)[i := o] && db.calls == old(db.calls)
    ensures !thrown && i in db.limits ==> IsPart(db.limits[i], OrderFor(seller, sell, receive, coreFee, fee))
    ensures !thrown ==> forall a :: db.Net(a) == old(db.Net(a))
    ensures !thrown ==> forall w :: db.CoreGap(w) == old(db.CoreGap(w))
    ensures !thrown ==> forall a :: db.Unbacked(a) == old(db.Unbacked(a))
  {
    if !admitted || sell.amount <= 0 || receive.amount <= 0 || sell.id == receive.id || db.Balance(seller, sell.id) < sell.amount {
      return true;
    }
    var o := OrderFor(seller, sell, receive, coreFee, fee);
    NewOrderIsNotDust(o, sell, receive);
    QuietApartFromNew(db.limits, i, o);
    hide Database.Net, Database.CoreGap, Database.Unbacked, Credit, QuietBook, DustFree, Uncrossed, AllOpen, LimitOrder.Dust,
         Remnant, OnlyCrossing, InPriority, IsPart, CallsServed, AtFront;
    LockOrder(db, i, seller, sell, receive, coreFee, fee);
    var filled;
    thrown, filled := ApplyOrder(db, i, feed);
    if thrown || (fillOrKill && !filled) || db.Balance(seller, fee.id) < fee.amount {
      return true;
    }
    db.AdjustBalance(seller, Asset(-fee.amount, fee.id));
    return false;
  }
}
