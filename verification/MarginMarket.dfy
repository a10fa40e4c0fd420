/**
 Margin positions against limit orders, and the application of a new limit order to the whole
 market: other limit orders first where their price is better, then margin calls, then the rest.
 */
module MarginMarket {
  import opened Amounts
  import opened Sums
  import opened Matching
  import opened Ledger
  import opened Options
  import opened LimitMarket

  /**
   What the price feed of a market-issued asset says about margin calls.  Both prices are
   collateral per debt: `squeeze` is what a called position pays, `call` the price at which it is
   called.  `callPrice` and `cover` stand for `price::call_price` and `get_max_debt_to_cover`.
   */
  datatype Feed = Feed(debtId: AssetId, collateralId: AssetId, squeeze: Price, call: Price,
                       callPrice: CallOrder -> Price, cover: CallOrder -> int)
  {
    ghost predicate Valid() {
      && ValidPrice(squeeze) && squeeze.base.id == collateralId && squeeze.quote.id == debtId
      && ValidPrice(call) && call.base.id == collateralId && call.quote.id == debtId
      && (forall c: CallOrder :: ValidPrice(callPrice(c)))
      && (forall c: CallOrder :: c.debt > 0 ==> 0 < cover(c) <= c.debt)
    }

    predicate Governs(c: CallOrder) {
      c.debtId == debtId && c.collateralId == collateralId
    }
  }

  ghost predicate AllOpen(calls: map<nat, CallOrder>) {
    forall j :: j in calls ==> calls[j].debt > 0 && calls[j].collateral >= 0 && ValidPrice(calls[j].callPrice)
                               && calls[j].debtId != calls[j].collateralId
  }

  /** A position once it has paid `paid` of collateral for `covered` of its debt. */
  function Covered(c: CallOrder, paid: int, covered: int, callPrice: CallOrder -> Price): CallOrder {
    var d := c.(debt := c.debt - covered, collateral := c.collateral - paid);
    d.(callPrice := callPrice(d))
  }

  /** A position cannot pay more than its collateral, nor all of it while debt is left: its call price would divide by 0. */
  predicate Overdrawn(c: CallOrder, pays: int, receives: int) {
    pays > c.collateral || (pays == c.collateral && receives < c.debt)
  }


  method FillCallOrder(db: Database, j: nat, pays: int, receives: int, callPrice: CallOrder -> Price) returns (thrown: bool, closed: bool)
    requires j in db.calls && 0 <= pays && 0 <= receives <= db.calls[j].debt
    modifies db`calls, db`supply, db`balances, db`coreInOrders
    ensures thrown <==> Overdrawn(old(db.calls[j]), pays, receives)
    ensures thrown ==> unchanged(db)
    ensures !thrown ==> closed == (receives == old(db.calls[j].debt)) && (closed || (j in db.calls && db.calls[j].collateral > 0))
    ensures !thrown ==>
            var c := old(db.calls[j]);
            && db.calls == (if closed then old(db.calls) - {j} else old(db.calls)[j := Covered(c, pays, receives, callPrice)])
            && db.supply == Credit(old(db.supply), c.debtId, -receives)
            && db.balances == Credit(old(db.balances), (c.borrower, c.collateralId), if closed then c.collateral - pays else 0)
            && db.coreInOrders == Credit(old(db.coreInOrders), c.borrower,
                                         if c.collateralId != CORE then 0 else if closed then -c.collateral else -pays)
            && (forall a :: db.Net(a) == old(db.Net(a)) - (if a == c.collateralId then pays else 0) + (if a == c.debtId then receives else 0))
    ensures forall w :: db.CoreGap(w) == old(db.CoreGap(w))
    ensures forall a :: db.Unbacked(a) == old(db.Unbacked(a))
  {
    hide Database.Net, Database.CoreGap, Database.Unbacked, Credit;
    var c := db.calls[j];
    if Overdrawn(c, pays, receives) {
      return true, false;
    }
    var freed := c.collateral - pays;
    thrown, closed := false, c.debt == receives;
    if closed {
      db.RemoveCall(j);
    } else {
      db.SetCall(j, Covered(c, pays, receives, callPrice));
    }
    db.AdjustSupply(c.debtId, -receives);
    db.AdjustBalance(c.borrower, Asset(if closed then freed else 0, c.collateralId));
    db.AdjustCoreInOrders(c.borrower, if c.collateralId != CORE then 0 else if closed then -pays - freed else -pays);
  }

  // A limit order against a position ----------------------------------------------------------

  /** What a limit order selling debt for collateral trades with a position willing to cover `toBuy`. */
  function MarginTrade(forSale: nat, toBuy: nat, p: Price): (t: Trade)
    requires ValidPrice(p)
    ensures t.Trade? ==> t.takerPays <= forSale && t.takerPays <= toBuy
  {
    var collateral, debt := p.base.amount, p.quote.amount;
    DownThenUp(forSale, collateral, debt);
    if toBuy > forSale then
      var received := Down(forSale, collateral, debt);
      if received == 0 then Nothing else Trade(Up(received, debt, collateral), received, true)
    else
      Trade(toBuy, Up(toBuy, collateral, debt), false)
  }

  /**
   An exhausted limit order pays the least amount worth what it receives, and its remainder is
   dust at its own price; otherwise it receives the least amount worth what the position covers.
   */
  lemma MarginTradeIsFair(o: LimitOrder, toBuy: nat, p: Price)
    requires o.WellFormed() && ValidPrice(p) && AtLeast(p, Inverse(o.price)) && toBuy > 0
    ensures var t := MarginTrade(o.forSale, toBuy, p);
            && (t.Nothing? ==> o.Dust())
            && (t.Trade? ==>
                  && t.takerPays > 0
                  && (t.takerExhausted ==>
                        && (forall y: nat :: t.takerReceives <= Down(y, p.base.amount, p.quote.amount) <==> t.takerPays <= y)
                        && (t.takerPays < o.forSale ==> o.AfterFill(t.takerPays).Dust()))
                  && (!t.takerExhausted ==>
                        t.takerPays == toBuy &&
                        forall y: nat :: t.takerPays <= Down(y, p.quote.amount, p.base.amount) <==> t.takerReceives <= y))
  {
    var b, q := p.base.amount, p.quote.amount;
    var t := MarginTrade(o.forSale, toBuy, p);
    DownThenUp(o.forSale, b, q);
    if t.Nothing? {
      DownBetterPrice(o.forSale, o.price.quote.amount, o.price.base.amount, b, q);
    } else {
      forall y: nat
        ensures t.takerExhausted ==> (t.takerReceives <= Down(y, b, q) <==> t.takerPays <= y)
        ensures !t.takerExhausted ==> (t.takerPays <= Down(y, q, b) <==> t.takerReceives <= y)
      {
        DownAdjoint(y, b, q, t.takerReceives);
        UpAdjoint(t.takerReceives, q, b, y);
        DownAdjoint(y, q, b, t.takerPays);
        UpAdjoint(t.takerPays, b, q, y);
      }
      DownBetterPrice(o.forSale - t.takerPays, o.price.quote.amount, o.price.base.amount, b, q);
    }
  }

  /** The position has no collateral, or the trade overdraws it. */
  predicate CannotPay(o: LimitOrder, c: CallOrder, feed: Feed)
    requires feed.Valid() && o.forSale > 0 && feed.cover(c) > 0
  {
    var t := MarginTrade(o.forSale, feed.cover(c), feed.squeeze);
    c.collateral <= 0 || (t.Trade? && Overdrawn(c, t.takerReceives, t.takerPays))
  }

  /** What a match does to the order and the position; the result says which of them are used up. */
  ghost predicate MatchEffect(limits: map<nat, LimitOrder>, calls: map<nat, CallOrder>, i: nat, j: nat, feed: Feed, result: nat,
                              limits': map<nat, LimitOrder>, calls': map<nat, CallOrder>)
    requires i in limits && j in calls && feed.Valid() && limits[i].forSale > 0 && feed.cover(calls[j]) > 0
  {
    var t := MarginTrade(limits[i].forSale, feed.cover(calls[j]), feed.squeeze);
    if t.Nothing? then result == 1 && limits' == limits && calls' == calls
    else
      var gone := t.takerExhausted || t.takerPays == limits[i].forSale;
      && t.takerReceives <= calls[j].collateral
      && result == (if gone then 1 else 0) + (if t.takerPays == calls[j].debt then 2 else 0)
      && limits' == LimitsAfter(limits, i, t.takerPays, gone)
      && calls' == CallsAfter(calls, j, t.takerReceives, t.takerPays, feed.callPrice)
  }


  /**
   Match a limit order (taker) with a margin position (maker) at the squeeze price.  The match
   throws when the position cannot pay; the caller then rolls everything back.
   */
  method MatchLimitWithCall(db: Database, i: nat, j: nat, feed: Feed) returns (thrown: bool, result: nat)
    requires i in db.limits && j in db.calls && feed.Valid() && feed.Governs(db.calls[j])
    requires db.limits[i].WellFormed() && db.limits[i].Sells() == feed.debtId && db.limits[i].Buys() == feed.collateralId
    requires AtLeast(feed.squeeze, Inverse(db.limits[i].price))
    requires AllOpen(db.calls)
    modifies db`limits, db`balances, db`accumulatedFees, db`feePool, db`pendingFees, db`coreInOrders, db`calls, db`supply
    ensures thrown <==> CannotPay(old(db.limits[i]), old(db.calls[j]), feed)
    ensures thrown ==> db.limits == old(db.limits) && db.calls == old(db.calls)
    ensures !thrown ==> MatchEffect(old(db.limits), old(db.calls), i, j, feed, result, db.limits, db.calls)
    ensures !thrown ==>
              var o, c := old(db.limits[i]), old(db.calls[j]);
              var t := MarginTrade(o.forSale, feed.cover(c), feed.squeeze);
              if t.Nothing? then db.balances == old(db.balances) && db.supply == old(db.supply)
              else
                var fee := MarketFee(db.marketFees(o.Buys()), t.takerReceives);
                var gone := t.takerExhausted || t.takerPays == o.forSale;
                && db.balances == Credit(Settled(old(db.balances), o, t.takerPays, t.takerReceives - fee, gone),
                                         (c.borrower, c.collateralId), if t.takerPays == c.debt then c.collateral - t.takerReceives else 0)
                && db.supply == Credit(old(db.supply), c.debtId, -(t.takerPays as int))
    ensures !thrown ==> AllOpen(db.calls) && db.feePool == old(db.feePool)
    ensures !thrown ==> forall a :: db.Net(a) == old(db.Net(a))
    ensures !thrown ==> forall w :: db.CoreGap(w) == old(db.CoreGap(w))
    ensures !thrown ==> forall a :: db.Unbacked(a) == old(db.Unbacked(a))
  {
    hide Database.Net, Database.CoreGap, Database.Unbacked, Credit, MarketFee, Settled, FeesAfter, CoreAfter, Times, TimesUp;
    var o, c := db.limits[i], db.calls[j];
    if c.collateral <= 0 {
      return true, 0;
    }
    var toBuy := feed.cover(c);
    MarginTradeIsFair(o, toBuy, feed.squeeze);
    var t := MarginTrade(o.forSale, toBuy, feed.squeeze);
    if t.Nothing? {
      return false, 1;
    }
    if Overdrawn(c, t.takerReceives, t.takerPays) {
      return true, 0;
    }
    var gone := FillLimitOrder(db, i, t.takerPays, t.takerReceives, t.takerExhausted);
    var failed, closed := FillCallOrder(db, j, t.takerReceives, t.takerPays, feed.callPrice);
    thrown, result := false, (if gone then 1 else 0) + (if closed then 2 else 0);
  }

  // A new limit order against the whole market --------------------------------------------------

  /** Position `j` is called, and no position of the feed's asset has a lower call price, or the same and an older id. */
  ghost predicate IsFirstCalled(calls: map<nat, CallOrder>, j: nat, feed: Feed) {
    && j in calls && feed.Governs(calls[j]) && AtLeast(feed.call, calls[j].callPrice)
    && forall k :: k in calls && feed.Governs(calls[k]) ==> Precedes(Inverse(calls[j].callPrice), j, Inverse(calls[k].callPrice), k)
  }

  /** The position of the feed's asset with the least call price, if it is to be called at all. */
  method FirstCalled(db: Database, feed: Feed) returns (called: Option<nat>)
    requires feed.Valid() && AllOpen(db.calls)
    ensures called.Some? ==> IsFirstCalled(db.calls, called.value, feed)
    ensures called.None? ==> NoneCalled(db.calls, feed)
  {
    hide AtLeast;
    var calls := db.calls;
    var ids := set j | j in calls && feed.Governs(calls[j]);
    if ids == {} {
      assert forall k :: k in calls && feed.Governs(calls[k]) ==> k in ids;
      return None;
    }
    var price: nat -> Price := k => if k in calls then Inverse(calls[k].callPrice) else feed.call;
    FirstExists(ids, price);
    var j :| IsFirst(ids, price, j);
    forall k | k in calls && feed.Governs(calls[k])
      ensures Precedes(Inverse(calls[j].callPrice), j, Inverse(calls[k].callPrice), k)
      ensures AtLeast(feed.call, calls[k].callPrice) ==> AtLeast(feed.call, calls[j].callPrice)
    {
      assert k in ids;
      assert Precedes(price(j), j, price(k), k);
      CheaperStaysCalled(calls[j].callPrice, calls[k].callPrice, feed.call);
    }
    called := if AtLeast(feed.call, calls[j].callPrice) then Some(j) else None;
  }

  lemma CheaperStaysCalled(p: Price, q: Price, bound: Price)
    requires ValidPrice(p) && ValidPrice(q) && ValidPrice(bound) && AtLeast(Inverse(p), Inverse(q))
    ensures AtLeast(bound, q) ==> AtLeast(bound, p)
  {
    if AtLeast(bound, q) {
      AtLeastTransitive(bound, q, p);
    }
  }

  ghost function OpenDebt(calls: map<nat, CallOrder>, a: AssetId): nat
    requires AllOpen(calls)
  {
    TotalBoundsTerm(calls, DebtIn(a));
    Total(calls, DebtIn(a))
  }

  /** The order only shrinks; once finished with it, it is gone or dust. */
  ghost predicate OrderProgress(limits0: map<nat, LimitOrder>, limits: map<nat, LimitOrder>, i: nat, finished: bool)
    requires i in limits0
  {
    && limits - {i} == limits0 - {i}
    && (i in limits ==> limits[i].WellFormed() && IsPart(limits[i], limits0[i]))
    && (!finished ==> i in limits)
    && (finished && i in limits ==> limits[i].Dust())
  }

  ghost predicate PositionTouched(before: map<nat, CallOrder>, after: map<nat, CallOrder>, k: nat)
    requires k in before
  {
    k !in after || after[k] != before[k]
  }

  /** Only called positions were touched, and each of them comes before every untouched one. */
  ghost predicate CallsInPriority(before: map<nat, CallOrder>, after: map<nat, CallOrder>, feed: Feed) {
    && (forall k :: k in before && PositionTouched(before, after, k) ==> feed.Governs(before[k]) && AtLeast(feed.call, before[k].callPrice))
    && (forall k, l :: k in before && PositionTouched(before, after, k) && l in before && !PositionTouched(before, after, l) && feed.Governs(before[l])
                       ==> Precedes(Inverse(before[k].callPrice), k, Inverse(before[l].callPrice), l))
  }

  lemma PriorityGoesOn(calls0: map<nat, CallOrder>, calls: map<nat, CallOrder>, calls': map<nat, CallOrder>, j: nat, feed: Feed)
    requires CallsInPriority(calls0, calls, feed) && IsFirstCalled(calls, j, feed)
    requires forall k :: k in calls ==> k in calls0
    requires calls' == calls - {j} || (j in calls' && calls' == calls[j := calls'[j]] && calls'[j].debt < calls[j].debt <= calls0[j].debt)
    ensures CallsInPriority(calls0, calls', feed)
  {
    hide AtLeast, Precedes;
    forall k | k in calls0 && PositionTouched(calls0, calls', k) ensures k == j || PositionTouched(calls0, calls, k) {
    }
    assert PositionTouched(calls0, calls', j);
    forall l | l in calls0 && !PositionTouched(calls0, calls', l) ensures l != j && !PositionTouched(calls0, calls, l) && calls[l] == calls0[l] {
    }
  }

  /** Positions only lose debt, and only those the feed governs. */
  ghost predicate PositionsProgress(calls0: map<nat, CallOrder>, calls: map<nat, CallOrder>, feed: Feed) {
    && AllOpen(calls)
    && (forall k :: k in calls ==> k in calls0 && calls[k].debt <= calls0[k].debt)
    && (forall k :: k in calls0 && !feed.Governs(calls0[k]) ==> k in calls && calls[k] == calls0[k])
    && (forall k :: k in calls && feed.Governs(calls[k]) ==> feed.Governs(calls0[k]))
    && CallsInPriority(calls0, calls, feed)
  }


  /** What holds between the market before a new order and the market once it has met some called positions. */
  ghost predicate CallProgress(limits0: map<nat, LimitOrder>, calls0: map<nat, CallOrder>,
                               limits: map<nat, LimitOrder>, calls: map<nat, CallOrder>, i: nat, feed: Feed, finished: bool)
    requires i in limits0
  {
    OrderProgress(limits0, limits, i, finished) && PositionsProgress(calls0, calls, feed)
  }

  function CallsAfter(calls: map<nat, CallOrder>, j: nat, paid: int, covered: int, callPrice: CallOrder -> Price): map<nat, CallOrder>
    requires j in calls
  {
    if covered == calls[j].debt then calls - {j} else calls[j := Covered(calls[j], paid, covered, callPrice)]
  }

  lemma PositionsMakeProgress(calls0: map<nat, CallOrder>, calls: map<nat, CallOrder>, j: nat, feed: Feed, paid: int, covered: int)
    requires PositionsProgress(calls0, calls, feed) && feed.Valid() && IsFirstCalled(calls, j, feed)
    requires 0 < covered <= calls[j].debt && 0 <= paid <= calls[j].collateral
    ensures var calls' := CallsAfter(calls, j, paid, covered, feed.callPrice);
            PositionsProgress(calls0, calls', feed) && OpenDebt(calls', feed.debtId) < OpenDebt(calls, feed.debtId)
  {
    hide OpenDebt, CallsInPriority, AtLeast, Precedes;
    var calls' := CallsAfter(calls, j, paid, covered, feed.callPrice);
    DebtShrinks(calls, calls', j, feed.debtId);
    PriorityGoesOn(calls0, calls, calls', j, feed);
  }

  lemma MarginMatchMakesProgress(limits0: map<nat, LimitOrder>, calls0: map<nat, CallOrder>,
                                 limits: map<nat, LimitOrder>, calls: map<nat, CallOrder>, i: nat, j: nat, feed: Feed, result: nat,
                                 limits': map<nat, LimitOrder>, calls': map<nat, CallOrder>)
    requires i in limits0 && CallProgress(limits0, calls0, limits, calls, i, feed, false)
    requires feed.Valid() && IsFirstCalled(calls, j, feed) && AtLeast(feed.squeeze, Inverse(limits[i].price))
    requires MatchEffect(limits, calls, i, j, feed, result, limits', calls')
    ensures var finished := result == 1 || result == 3;
            && CallProgress(limits0, calls0, limits', calls', i, feed, finished)
            && (!finished ==> OpenDebt(calls', feed.debtId) < OpenDebt(calls, feed.debtId))
  {
    hide AtLeast, Times, TimesUp, MarginTrade, LimitOrder.Dust, OpenDebt, CallsAfter;
    MarginTradeIsFair(limits[i], feed.cover(calls[j]), feed.squeeze);
    var t := MarginTrade(limits[i].forSale, feed.cover(calls[j]), feed.squeeze);
    if t.Trade? {
      PositionsMakeProgress(calls0, calls, j, feed, t.takerReceives, t.takerPays);
    }
    hide PositionsProgress;
  }

  lemma DebtShrinks(before: map<nat, CallOrder>, after: map<nat, CallOrder>, j: nat, a: AssetId)
    requires AllOpen(before) && AllOpen(after) && j in before && before[j].debtId == a
    requires after == before - {j} || (j in after && after == before[j := after[j]] && after[j].debt < before[j].debt && after[j].debtId == a)
    ensures OpenDebt(after, a) < OpenDebt(before, a)
  {
    if after == before - {j} {
      TotalRemove(before, j, DebtIn(a));
    } else {
      TotalSet(before, j, after[j], DebtIn(a));
    }
  }

  /** A called position cannot pay for the order as it stands: the match with it throws. */
  ghost predicate CalledCannotPay(limits: map<nat, LimitOrder>, calls: map<nat, CallOrder>, i: nat, feed: Feed)
    requires feed.Valid()
  {
    exists j :: i in limits && limits[i].forSale > 0 && j in calls && calls[j].debt > 0 && feed.Governs(calls[j])
                && AtLeast(feed.call, calls[j].callPrice) && CannotPay(limits[i], calls[j], feed)
  }

  lemma ThrownBecause(limits: map<nat, LimitOrder>, calls: map<nat, CallOrder>, i: nat, j: nat, feed: Feed)
    requires feed.Valid() && i in limits && limits[i].WellFormed() && j in calls && AllOpen(calls) && feed.Governs(calls[j])
    requires AtLeast(feed.call, calls[j].callPrice) && feed.cover(calls[j]) > 0 && CannotPay(limits[i], calls[j], feed)
    ensures CalledCannotPay(limits, calls, i, feed)
  {
  }

  /** No position is called any more. */
  ghost predicate NoneCalled(calls: map<nat, CallOrder>, feed: Feed) {
    forall k :: k in calls && feed.Governs(calls[k]) ==> !AtLeast(feed.call, calls[k].callPrice)
  }

  lemma FirstIsCalled(calls: map<nat, CallOrder>, j: nat, feed: Feed)
    requires IsFirstCalled(calls, j, feed)
    ensures j in calls && feed.Governs(calls[j]) && AtLeast(feed.call, calls[j].callPrice)
  {
  }

  lemma CallReady(limits0: map<nat, LimitOrder>, calls0: map<nat, CallOrder>, limits: map<nat, LimitOrder>, calls: map<nat, CallOrder>, i: nat, feed: Feed)
    requires i in limits0 && CallProgress(limits0, calls0, limits, calls, i, feed, false)
    ensures AllOpen(calls) && i in limits && limits[i].WellFormed() && limits[i].price == limits0[i].price
    ensures limits[i].Sells() == limits0[i].Sells() && limits[i].Buys() == limits0[i].Buys()
  {
  }

  /** The order is matched with the first called position, if there is one. */
  method CallTurn(db: Database, i: nat, feed: Feed, ghost limits0: map<nat, LimitOrder>, ghost calls0: map<nat, CallOrder>)
    returns (thrown: bool, finished: bool, none: bool)
    requires feed.Valid() && i in limits0 && CallProgress(limits0, calls0, db.limits, db.calls, i, feed, false)
    requires limits0[i].Sells() == feed.debtId && limits0[i].Buys() == feed.collateralId && AtLeast(feed.squeeze, Inverse(limits0[i].price))
    modifies db`limits, db`balances, db`accumulatedFees, db`feePool, db`pendingFees, db`coreInOrders, db`calls, db`supply
    ensures !thrown ==> CallProgress(limits0, calls0, db.limits, db.calls, i, feed, finished) && db.feePool == old(db.feePool)
    ensures thrown ==> CalledCannotPay(db.limits, db.calls, i, feed)
    ensures !thrown && none ==> !finished && NoneCalled(db.calls, feed)
    ensures !thrown && !finished && !none ==> OpenDebt(db.calls, feed.debtId) < old(OpenDebt(db.calls, feed.debtId))
    ensures !thrown ==> forall a :: db.Net(a) == old(db.Net(a))
    ensures !thrown ==> forall w :: db.CoreGap(w) == old(db.CoreGap(w))
    ensures !thrown ==> forall a :: db.Unbacked(a) == old(db.Unbacked(a))
  {
    CallReady(limits0, calls0, db.limits, db.calls, i, feed);
    hide *;
    var called := FirstCalled(db, feed);
    if called.None? {
      return false, false, true;
    }
    thrown, finished := MatchFirst(db, i, called.value, feed, limits0, calls0);
    none := false;
  }

  method MatchFirst(db: Database, i: nat, j: nat, feed: Feed, ghost limits0: map<nat, LimitOrder>, ghost calls0: map<nat, CallOrder>)
    returns (thrown: bool, finished: bool)
    requires feed.Valid() && i in limits0 && CallProgress(limits0, calls0, db.limits, db.calls, i, feed, false)
    requires limits0[i].Sells() == feed.debtId && limits0[i].Buys() == feed.collateralId && AtLeast(feed.squeeze, Inverse(limits0[i].price))
    requires IsFirstCalled(db.calls, j, feed)
    modifies db`limits, db`balances, db`accumulatedFees, db`feePool, db`pendingFees, db`coreInOrders, db`calls, db`supply
    ensures !thrown ==> CallProgress(limits0, calls0, db.limits, db.calls, i, feed, finished) && db.feePool == old(db.feePool)
    ensures thrown ==> CalledCannotPay(db.limits, db.calls, i, feed)
    ensures !thrown && !finished ==> OpenDebt(db.calls, feed.debtId) < old(OpenDebt(db.calls, feed.debtId))
    ensures !thrown ==> forall a :: db.Net(a) == old(db.Net(a))
    ensures !thrown ==> forall w :: db.CoreGap(w) == old(db.CoreGap(w))
    ensures !thrown ==> forall a :: db.Unbacked(a) == old(db.Unbacked(a))
  {
    CallReady(limits0, calls0, db.limits, db.calls, i, feed);
    FirstIsCalled(db.calls, j, feed);
    ghost var limits, calls := db.limits, db.calls;
    hide *;
    var result;
    thrown, result := MatchLimitWithCall(db, i, j, feed);
    if thrown {
      ThrownBecause(db.limits, db.calls, i, j, feed);
      return true, false;
    }
    MarginMatchMakesProgress(limits0, calls0, limits, calls, i, j, feed, result, db.limits, db.calls);
    return false, result == 1 || result == 3;
  }

  /** Match order `i` with called positions, least call price first, until it is gone or none is left. */
  method MatchAgainstCalls(db: Database, i: nat, feed: Feed) returns (thrown: bool, finished: bool)
    requires feed.Valid() && AllOpen(db.calls)
    requires i in db.limits && db.limits[i].WellFormed() && db.limits[i].Sells() == feed.debtId && db.limits[i].Buys() == feed.collateralId
    requires AtLeast(feed.squeeze, Inverse(db.limits[i].price))
    modifies db`limits, db`balances, db`accumulatedFees, db`feePool, db`pendingFees, db`coreInOrders, db`calls, db`supply
    ensures !thrown ==> CallProgress(old(db.limits), old(db.calls), db.limits, db.calls, i, feed, finished)
    ensures thrown ==> CalledCannotPay(db.limits, db.calls, i, feed)
    ensures !thrown && !finished ==> NoneCalled(db.calls, feed)
    ensures !thrown ==> db.feePool == old(db.feePool)
    ensures !thrown ==> forall a :: db.Net(a) == old(db.Net(a))
    ensures !thrown ==> forall w :: db.CoreGap(w) == old(db.CoreGap(w))
    ensures !thrown ==> forall a :: db.Unbacked(a) == old(db.Unbacked(a))
  {
    ghost var limits0, calls0 := db.limits, db.calls;
    assert CallProgress(limits0, calls0, db.limits, db.calls, i, feed, false);
    thrown, finished := false, false;
    var none := false;
    hide *;
    while !finished && !none
      invariant CallProgress(limits0, calls0, db.limits, db.calls, i, feed, finished) && db.feePool == old(db.feePool)
      invariant none ==> NoneCalled(db.calls, feed)
      invariant forall a :: db.Net(a) == old(db.Net(a))
      invariant forall w :: db.CoreGap(w) == old(db.CoreGap(w))
      invariant forall a :: db.Unbacked(a) == old(db.Unbacked(a))
      decreases !finished && !none, OpenDebt(db.calls, feed.debtId)
    {
      thrown, finished, none := CallTurn(db, i, feed, limits0, calls0);
      if thrown {
        return;
      }
    }
  }

  lemma ProgressThroughCalls(before: map<nat, LimitOrder>, mid: map<nat, LimitOrder>, after: map<nat, LimitOrder>, i: nat, taker: LimitOrder, finished: bool)
    requires Progress(before, mid, i, taker, false)
    requires after - {i} == mid - {i}
    requires i in after ==> after[i].WellFormed() && IsPart(after[i], mid[i])
    requires if finished then i in after ==> after[i].Dust() else i in after
    ensures Progress(before, after, i, taker, finished)
  {
    hide AtLeast, LimitOrder.Dust;
    forall k | k in after && k != i ensures k in mid && after[k] == mid[k] {
      assert k in after - {i};
    }
    forall k | k in mid && k != i ensures k in after {
      assert k in mid - {i};
    }
  }

  lemma ProgressComposes(before: map<nat, LimitOrder>, mid: map<nat, LimitOrder>, after: map<nat, LimitOrder>, i: nat, taker: LimitOrder, finished: bool)
    requires Progress(before, mid, i, taker, false)
    requires Progress(mid, after, i, mid[i], finished)
    ensures Progress(before, after, i, taker, finished)
  {
    hide AtLeast, LimitOrder.Dust, QuietBook;
    forall k | k in before && k != i && Touched(before, after, k)
      ensures Opposite(taker, before[k]) && Crosses(taker, before[k])
    {
      if k in mid {
        assert !Touched(before, mid, k);
        assert Touched(mid, after, k);
      }
    }
    forall k, l | k in before && k != i && Touched(before, after, k) && l in before && l in after && l != i && l != k
                  && Opposite(taker, before[k]) && Opposite(taker, before[l])
      ensures Precedes(before[k].price, k, before[l].price, l)
    {
      assert l in mid && !Touched(before, mid, l);
      if k in mid {
        assert !Touched(before, mid, k);
        assert Touched(mid, after, k);
      }
    }
  }

  /** An order behind another one on its own side cannot cross anything, so it need not be matched. */
  lemma NotAtFrontIsSound(limits: map<nat, LimitOrder>, i: nat, k: nat)
    requires i in limits && k in limits && k != i && QuietBook(limits, i) && !limits[i].Dust()
    requires SameSide(limits[k], limits[i]) && AtLeast(limits[k].price, limits[i].price)
    ensures DustFree(limits) && Uncrossed(limits)
  {
    hide AtLeast, LimitOrder.Dust;
    forall l | l in limits && Opposite(limits[i], limits[l])
      ensures !Crosses(limits[i], limits[l]) && !Crosses(limits[l], limits[i])
    {
      assert Opposite(limits[k], limits[l]);
      BehindFrontDoesNotCross(limits[k], limits[i], limits[l]);
      CrossesSymmetric(limits[i], limits[l]);
    }
  }

  /** Once nothing on the opposite side is matchable, the whole book is uncrossed. */
  lemma UnmatchableMeansUncrossed(limits: map<nat, LimitOrder>, i: nat)
    requires QuietBook(limits, i)
    requires i in limits ==> forall k :: k in limits ==> !Matchable(limits[i], limits[k], None)
    ensures Uncrossed(limits)
  {
    hide AtLeast, LimitOrder.Dust;
    forall k, l | k in limits && l in limits && Opposite(limits[k], limits[l])
      ensures !Crosses(limits[k], limits[l])
    {
      CrossesSymmetric(limits[k], limits[l]);
      if k == i {
        assert !Matchable(limits[i], limits[l], None);
      } else if l == i {
        assert !Matchable(limits[i], limits[k], None);
      }
    }
  }

  // Limit orders and margin calls together ------------------------------------------------------

  /** The order accepts what called positions pay. */
  predicate MeetsSqueeze(o: LimitOrder, feed: Feed) {
    AtLeast(feed.squeeze, Inverse(o.price))
  }

  /**
   How a new order `o` at the front of its side has dealt with margin calls.  Unless it is used up, no
   position that it could serve is left called.  Limit orders that offer no more than the squeeze price are
   touched only if no position is left called, positions only if no limit order is left that offers more.
   */
  ghost predicate CallsServed(limits0: map<nat, LimitOrder>, limits: map<nat, LimitOrder>, calls0: map<nat, CallOrder>, calls: map<nat, CallOrder>,
                              i: nat, o: LimitOrder, feed: Feed, finished: bool) {
    && (!finished && MeetsSqueeze(o, feed) ==> NoneCalled(calls, feed))
    && ((exists k :: k in limits0 && k != i && Touched(limits0, limits, k) && AtLeast(feed.squeeze, limits0[k].price)) ==> NoneCalled(calls, feed))
    && (calls != calls0 ==> MeetsSqueeze(o, feed) && forall k :: k in limits && k != i && Opposite(o, limits[k]) ==> AtLeast(feed.squeeze, limits[k].price))
    && CallsInPriority(calls0, calls, feed)
  }

  /** An order that positions cannot serve crosses only better limit orders. */
  lemma ServedWithoutCalls(limits0: map<nat, LimitOrder>, limits: map<nat, LimitOrder>, calls: map<nat, CallOrder>, i: nat, o: LimitOrder, feed: Feed, finished: bool)
    requires AllWellFormed(limits0) && o.WellFormed() && feed.Valid() && OnlyCrossing(limits0, limits, i, o) && !MeetsSqueeze(o, feed)
    ensures CallsServed(limits0, limits, calls, calls, i, o, feed, finished)
  {
    forall k | k in limits0 && k != i && Touched(limits0, limits, k) ensures !AtLeast(feed.squeeze, limits0[k].price) {
      if AtLeast(feed.squeeze, limits0[k].price) {
        AtLeastTransitive(feed.squeeze, limits0[k].price, Inverse(o.price));
      }
    }
  }

  lemma ServedByBetterOrders(limits0: map<nat, LimitOrder>, limits: map<nat, LimitOrder>, calls: map<nat, CallOrder>, i: nat, o: LimitOrder, feed: Feed)
    requires OnlyAbove(limits0, limits, i, Some(feed.squeeze))
    ensures CallsServed(limits0, limits, calls, calls, i, o, feed, true)
  {
  }

  lemma ServedByCalls(limits0: map<nat, LimitOrder>, mid: map<nat, LimitOrder>, limits: map<nat, LimitOrder>,
                      calls0: map<nat, CallOrder>, calls: map<nat, CallOrder>, i: nat, o: LimitOrder, feed: Feed, finished: bool)
    requires feed.Valid() && o.WellFormed() && AllWellFormed(mid) && i in mid && mid[i].price == o.price
    requires OnlyAbove(limits0, mid, i, Some(feed.squeeze)) && MeetsSqueeze(o, feed)
    requires forall k :: k in mid ==> !Matchable(mid[i], mid[k], Some(feed.squeeze))
    requires limits - {i} == mid - {i} && CallsInPriority(calls0, calls, feed) && (!finished ==> NoneCalled(calls, feed))
    ensures CallsServed(limits0, limits, calls0, calls, i, o, feed, finished)
  {
    hide CallsInPriority, NoneCalled, AtLeast;
    forall k | k in limits && k != i ensures k in mid && limits[k] == mid[k] {
      assert k in limits - {i};
    }
    forall k | k in mid && k != i ensures k in limits {
      assert k in mid - {i};
    }
    forall k | k in limits && k != i && Opposite(o, limits[k]) ensures AtLeast(feed.squeeze, limits[k].price) {
      assert !Matchable(mid[i], mid[k], Some(feed.squeeze));
      if !Crosses(mid[i], mid[k]) {
        NotCrossingIsLower(feed.squeeze, Inverse(o.price), limits[k].price);
      }
    }
  }

  lemma NotCrossingIsLower(p: Price, q: Price, r: Price)
    requires ValidPrice(p) && ValidPrice(q) && ValidPrice(r) && AtLeast(p, q) && !AtLeast(r, q)
    ensures AtLeast(p, r)
  {
    AtLeastTransitive(p, q, r);
  }

  lemma ServedThroughBook(limits0: map<nat, LimitOrder>, mid: map<nat, LimitOrder>, limits: map<nat, LimitOrder>,
                          calls0: map<nat, CallOrder>, calls: map<nat, CallOrder>, i: nat, o: LimitOrder, feed: Feed, finished: bool)
    requires CallsServed(limits0, mid, calls0, calls, i, o, feed, false) && MeetsSqueeze(o, feed) && Remnant(mid, limits, i)
    ensures CallsServed(limits0, limits, calls0, calls, i, o, feed, finished)
  {
    hide CallsInPriority, NoneCalled, AtLeast;
    forall k | k in limits && k != i && Opposite(o, limits[k]) ensures k in mid && Opposite(o, mid[k]) && mid[k].price == limits[k].price {
    }
  }

  /** First limit orders that offer more than called positions pay, then the called positions. */
  method MatchWithCalls(db: Database, i: nat, feed: Feed) returns (thrown: bool, finished: bool)
    requires i in db.limits && QuietBook(db.limits, i) && feed.Valid() && AllOpen(db.calls)
    requires db.limits[i].Sells() == feed.debtId && db.limits[i].Buys() == feed.collateralId && MeetsSqueeze(db.limits[i], feed)
    modifies db`limits, db`balances, db`accumulatedFees, db`feePool, db`pendingFees, db`coreInOrders, db`calls, db`supply
    ensures thrown ==> CalledCannotPay(db.limits, db.calls, i, feed)
    ensures !thrown ==> Progress(old(db.limits), db.limits, i, old(db.limits[i]), finished) && AllOpen(db.calls)
    ensures !thrown ==> CallsServed(old(db.limits), db.limits, old(db.calls), db.calls, i, old(db.limits[i]), feed, finished)
    ensures !thrown ==> forall a :: db.Net(a) == old(db.Net(a))
    ensures !thrown ==> forall w :: db.CoreGap(w) == old(db.CoreGap(w))
    ensures !thrown ==> forall a :: db.Unbacked(a) == old(db.Unbacked(a))
  {
    hide Database.Net, Database.CoreGap, Database.Unbacked, AtLeast, Remnant, OnlyCrossing, InPriority, OnlyAbove, LimitOrder.Dust,
         Matchable, CallsServed, CallsInPriority;
    ghost var o, limits0 := db.limits[i], db.limits;
    thrown := false;
    finished := MatchAgainstBook(db, i, Some(feed.squeeze));
    if finished {
      ServedByBetterOrders(limits0, db.limits, db.calls, i, o, feed);
      return;
    }
    ghost var mid := db.limits;
    thrown, finished := MatchAgainstCalls(db, i, feed);
    if thrown {
      return;
    }
    ProgressThroughCalls(limits0, mid, db.limits, i, o, finished);
    ServedByCalls(limits0, mid, db.limits, old(db.calls), db.calls, i, o, feed, finished);
  }

  /** The three matching phases of a new order at the front of its side. */
  method MatchNewOrder(db: Database, i: nat, feed: Option<Feed>) returns (thrown: bool, finished: bool)
    requires i in db.limits && QuietBook(db.limits, i)
    requires feed.Some? ==> feed.value.Valid() && AllOpen(db.calls)
                            && db.limits[i].Sells() == feed.value.debtId && db.limits[i].Buys() == feed.value.collateralId
    modifies db`limits, db`balances, db`accumulatedFees, db`feePool, db`pendingFees, db`coreInOrders, db`calls, db`supply
    ensures thrown ==> feed.Some? && CalledCannotPay(db.limits, db.calls, i, feed.value)
    ensures !thrown ==> Progress(old(db.limits), db.limits, i, old(db.limits[i]), finished)
    ensures !thrown && !finished ==> forall k :: k in db.limits ==> !Matchable(db.limits[i], db.limits[k], None)
    ensures feed.None? ==> db.calls == old(db.calls) && db.supply == old(db.supply)
    ensures !thrown && feed.Some? ==>
              && AllOpen(db.calls)
              && CallsServed(old(db.limits), db.limits, old(db.calls), db.calls, i, old(db.limits[i]), feed.value, finished)
    ensures !thrown ==> forall a :: db.Net(a) == old(db.Net(a))
    ensures !thrown ==> forall w :: db.CoreGap(w) == old(db.CoreGap(w))
    ensures !thrown ==> forall a :: db.Unbacked(a) == old(db.Unbacked(a))
  {
    hide Database.Net, Database.CoreGap, Database.Unbacked, AtLeast, Remnant, OnlyCrossing, InPriority, LimitOrder.Dust, Matchable, CallsServed;
    ghost var o, limits0, calls0 := db.limits[i], db.limits, db.calls;
    thrown, finished := false, false;
    NoProgressYet(db.limits, i, None);
    if feed.Some? && MeetsSqueeze(db.limits[i], feed.value) {
      thrown, finished := MatchWithCalls(db, i, feed.value);
      if thrown {
        return;
      }
    }
    if !finished {
      ghost var mid := db.limits;
      finished := MatchAgainstBook(db, i, None);
      ProgressComposes(limits0, mid, db.limits, i, o, finished);
      if feed.Some? && MeetsSqueeze(o, feed.value) {
        ServedThroughBook(limits0, mid, db.limits, calls0, db.calls, i, o, feed.value, finished);
      } else if feed.Some? {
        ServedWithoutCalls(limits0, db.limits, db.calls, i, o, feed.value, finished);
      }
    }
  }

  /** Cull what is left of a matched order if it is dust. */
  method CullUnmatched(db: Database, i: nat, taker: LimitOrder, finished: bool, ghost before: map<nat, LimitOrder>) returns (filled: bool)
    requires Progress(before, db.limits, i, taker, finished)
    requires !finished ==> forall k :: k in db.limits ==> !Matchable(db.limits[i], db.limits[k], None)
    modifies db`limits, db`balances, db`accumulatedFees, db`feePool, db`pendingFees, db`coreInOrders
    ensures DustFree(db.limits) && Uncrossed(db.limits)
    ensures filled == (i !in db.limits) && (finished ==> filled)
    ensures i in db.limits ==> IsPart(db.limits[i], taker)
    ensures db.limits - {i} == old(db.limits) - {i}
    ensures Remnant(before, db.limits, i) && OnlyCrossing(before, db.limits, i, taker) && InPriority(before, db.limits, i, taker)
    ensures forall a :: db.Net(a) == old(db.Net(a))
    ensures forall w :: db.CoreGap(w) == old(db.CoreGap(w))
  {
    hide Database.Net, Database.CoreGap, Credit, ChargeOnCancel, FeeRefund, PoolRefund, AtLeast, Remnant, OnlyCrossing, InPriority, Matchable;
    if i !in db.limits {
      UnmatchableMeansUncrossed(db.limits, i);
      return true;
    }
    if !finished {
      UnmatchableMeansUncrossed(db.limits, i);
    }
    ProgressThroughCulling(before, db.limits, i, taker, finished);
    filled := MaybeCullSmallOrder(db, i);
    if filled {
      UnmatchableMeansUncrossed(db.limits, i);
    }
  }

  /** No order of the same side comes before order `i`. */
  predicate AtFront(limits: map<nat, LimitOrder>, i: nat)
    requires i in limits
  {
    !exists k :: k in limits && k != i && SameSide(limits[k], limits[i]) && Precedes(limits[k].price, k, limits[i].price, i)
  }

  /**
   Apply the newly created limit order `i` to the market.  `feed` is present when the order sells a
   market-issued asset with a live feed for its backing asset.  Starting from a book that is
   uncrossed and dust-free apart from `i`, the result is uncrossed and dust-free, makers have been
   used strictly in price-time order, nothing that did not cross was touched, called positions were
   served in their turn, and every unit is accounted for.  Only an undercollateralised called position can make this throw.
   */
  method ApplyOrder(db: Database, i: nat, feed: Option<Feed>) returns (thrown: bool, filled: bool)
    requires i in db.limits && QuietBook(db.limits, i) && !db.limits[i].Dust()
    requires feed.Some? ==> feed.value.Valid() && AllOpen(db.calls)
                            && db.limits[i].Sells() == feed.value.debtId && db.limits[i].Buys() == feed.value.collateralId
    modifies db`limits, db`balances, db`accumulatedFees, db`feePool, db`pendingFees, db`coreInOrders, db`calls, db`supply
    ensures thrown ==> feed.Some? && CalledCannotPay(db.limits, db.calls, i, feed.value)
    ensures !thrown ==> DustFree(db.limits) && Uncrossed(db.limits)
    ensures !thrown ==> filled == (i !in db.limits)
    ensures !thrown && i in db.limits ==> IsPart(db.limits[i], old(db.limits[i]))
    ensures !thrown ==>
              && Remnant(old(db.limits), db.limits, i)
              && OnlyCrossing(old(db.limits), db.limits, i, old(db.limits[i]))
              && InPriority(old(db.limits), db.limits, i, old(db.limits[i]))
    ensures feed.None? ==> db.calls == old(db.calls) && db.supply == old(db.supply)
    ensures !AtFront(old(db.limits), i) ==> !thrown && unchanged(db)
    ensures !thrown && feed.Some? ==> AllOpen(db.calls)
    ensures !thrown && feed.Some? && AtFront(old(db.limits), i) ==>
              CallsServed(old(db.limits), db.limits, old(db.calls), db.calls, i, old(db.limits[i]), feed.value, filled)
    ensures !thrown ==> forall a :: db.Net(a) == old(db.Net(a))
    ensures !thrown ==> forall w :: db.CoreGap(w) == old(db.CoreGap(w))
    ensures !thrown ==> forall a :: db.Unbacked(a) == old(db.Unbacked(a))
  {
    hide Database.Net, Database.CoreGap, Database.Unbacked, AtLeast, Times, TimesUp, Matchable, CallsServed;
    thrown := false;
    var o := db.limits[i];
    if !AtFront(db.limits, i) {
      ghost var k :| k in db.limits && k != i && SameSide(db.limits[k], o) && Precedes(db.limits[k].price, k, o.price, i);
      NotAtFrontIsSound(db.limits, i, k);
      return false, false;
    }
    var finished;
    thrown, finished := MatchNewOrder(db, i, feed);
    if thrown {
      return true, false;
    }
    ghost var mid := db.limits;
    filled := CullUnmatched(db, i, o, finished, old(db.limits));
    if feed.Some? {
      ServedThroughCulling(old(db.limits), mid, db.limits, old(db.calls), db.calls, i, o, feed.value, finished, filled);
    }
  }

  lemma ServedThroughCulling(limits0: map<nat, LimitOrder>, mid: map<nat, LimitOrder>, limits: map<nat, LimitOrder>,
                             calls0: map<nat, CallOrder>, calls: map<nat, CallOrder>, i: nat, o: LimitOrder, feed: Feed, finished: bool, filled: bool)
    requires CallsServed(limits0, mid, calls0, calls, i, o, feed, finished) && limits - {i} == mid - {i} && (finished ==> filled)
    ensures CallsServed(limits0, limits, calls0, calls, i, o, feed, filled)
  {
    hide CallsInPriority, NoneCalled, AtLeast;
    forall k | k in limits && k != i ensures k in mid && limits[k] == mid[k] {
      assert k in limits - {i};
    }
    forall k | k in mid && k != i ensures k in limits {
      assert k in mid - {i};
    }
  }

  lemma ProgressThroughCulling(before: map<nat, LimitOrder>, now: map<nat, LimitOrder>, i: nat, taker: LimitOrder, finished: bool)
    requires Progress(before, now, i, taker, finished)
    ensures Progress(before, now - {i}, i, taker, true)
  {
    hide AtLeast, LimitOrder.Dust;
  }
}
