/**
 Forced settlement: units of a market-issued asset handed in are exchanged, once due, for collateral of
 the least collateralised margin positions, up to a cap per maintenance interval.
 */
module ForceSettlement {
  import opened Amounts
  import opened Sums
  import opened Matching
  import opened Ledger
  import opened Options
  import opened LimitMarket
  import opened MarginMarket

  /** How much of the asset may be force-settled in all, before and after, in the current interval. */
  function Cap(b: Bitasset, supply: nat): (cap: nat)
    requires b.forceSettled >= 0 && b.maxForcePercent <= HUNDRED_PERCENT
    ensures cap <= supply + b.forceSettled
    ensures cap * HUNDRED_PERCENT <= (supply + b.forceSettled) * b.maxForcePercent < (cap + 1) * HUNDRED_PERCENT
  {
    var all := supply + b.forceSettled;
    MulMono(b.maxForcePercent, HUNDRED_PERCENT, all);
    if b.maxForcePercent == 0 then 0
    else if b.maxForcePercent == HUNDRED_PERCENT then all
    else all * b.maxForcePercent / HUNDRED_PERCENT
  }

  // One match ---------------------------------------------------------------------------------

  /** What a position and a settlement order exchange, or whether the order is given back instead. */
  datatype Exchange = NoFill(cancel: bool) | Fill(pays: nat, receives: nat, cull: bool)

  predicate Priced(price: Price, mia: AssetId, backing: AssetId) {
    ValidPrice(price) && price.base.id == mia && price.quote.id == backing
  }

  /** The units on offer: the order's balance, at most what the cap still allows, at most the debt. */
  function OnOffer(debt: nat, balance: nat, limit: nat): (units: nat)
    ensures units <= debt && units <= balance && units <= limit && (units == debt || units == balance || units == limit)
  {
    var offered := if balance <= limit then balance else limit;
    if offered <= debt then offered else debt
  }

  function ExchangeOf(debt: nat, balance: nat, limit: nat, price: Price): (e: Exchange)
    requires ValidPrice(price) && debt > 0 && balance > 0 && limit > 0
    ensures e.Fill? ==> 0 < e.receives <= OnOffer(debt, balance, limit) && e.pays > 0
    ensures e.Fill? && e.cull ==> e.receives < balance && OnOffer(debt, balance, limit) == balance
  {
    var first := OnOffer(debt, balance, limit);
    var pays := Down(first, price.quote.amount, price.base.amount);
    if pays == 0 then
      if first == debt then Fill(1, first, false) else NoFill(first == balance)
    else if first == debt then
      UpPositive(first, price.quote.amount, price.base.amount);
      Fill(Up(first, price.quote.amount, price.base.amount), first, false)
    else
      DownThenUp(first, price.quote.amount, price.base.amount);
      var receives := Up(pays, price.base.amount, price.quote.amount);
      Fill(pays, receives, first == balance && receives != balance)
  }

  lemma UpPositive(x: nat, num: nat, den: nat)
    requires den > 0 && num > 0 && x > 0
    ensures Up(x, num, den) > 0
  {
    assert x * num > 0;
  }

  /**
   Rounding of an exchange: a position that is closed pays the least amount worth its debt (and at
   least 1); otherwise the order hands in the least number of units worth what it gets, which is as much as
   the units first on offer are worth, and what is left of them is worth nothing.
   */
  lemma ExchangeIsFair(debt: nat, balance: nat, limit: nat, price: Price)
    requires ValidPrice(price) && debt > 0 && balance > 0 && limit > 0
    ensures var e := ExchangeOf(debt, balance, limit, price);
            var b, q, first := price.base.amount, price.quote.amount, OnOffer(debt, balance, limit);
            && (e.NoFill? ==> Down(first, q, b) == 0 && first < debt)
            && (e.Fill? && e.receives == debt ==> e.pays * b < debt * q + b && (e.pays == 1 || e.pays * b >= debt * q))
            && (e.Fill? && e.receives < debt ==>
                  && e.pays == Down(e.receives, q, b) == Down(first, q, b) && Down(first - e.receives, q, b) == 0
                  && forall r: nat :: Down(r, q, b) >= e.pays ==> r >= e.receives)
  {
    var b, q, first := price.base.amount, price.quote.amount, OnOffer(debt, balance, limit);
    var pays := Down(first, q, b);
    if first == debt {
      if pays == 0 {
        assert 1 * b < debt * q + b by { assert debt * q > 0; }
      }
    } else if pays > 0 {
      DownThenUp(first, q, b);
      forall r: nat | Down(r, q, b) >= pays ensures r >= Up(pays, b, q) {
        DownAdjoint(r, q, b, pays);
        UpAdjoint(pays, b, q, r);
      }
    }
  }

  function CallsAfter(calls: map<nat, CallOrder>, j: nat, e: Exchange, callPrice: CallOrder -> Price): map<nat, CallOrder>
    requires j in calls
  {
    if e.NoFill? then calls else MarginMarket.CallsAfter(calls, j, e.pays, e.receives, callPrice)
  }

  /** The order is gone when it is used up, given back, or its rest is too small to be worth anything. */
  predicate OrderEnds(s: SettleOrder, e: Exchange) {
    if e.NoFill? then e.cancel else e.cull || e.receives >= s.balance.amount
  }

  function SettlesAfter(settles: map<nat, SettleOrder>, i: nat, e: Exchange): map<nat, SettleOrder>
    requires i in settles
  {
    if OrderEnds(settles[i], e) then settles - {i}
    else if e.NoFill? then settles
    else settles[i := settles[i].(balance := Asset(settles[i].balance.amount - e.receives, settles[i].balance.id))]
  }

  /** Who is paid what: a closed position's rest to its borrower, the exchange less the fee and any rest to the order's owner. */
  function PaidOut(balances: map<(AccountId, AssetId), int>, c: CallOrder, s: SettleOrder, e: Exchange, fee: int): map<(AccountId, AssetId), int> {
    if e.NoFill? then Credit(balances, (s.owner, s.balance.id), if e.cancel then s.balance.amount else 0)
    else
      var freed := Credit(balances, (c.borrower, c.collateralId), if e.receives == c.debt then c.collateral - e.pays else 0);
      var paid := Credit(freed, (s.owner, c.collateralId), e.pays - fee);
      Credit(paid, (s.owner, s.balance.id), if e.cull then s.balance.amount - e.receives else 0)
  }

  /**
   In an exchange the owner gets the payment less the fee, and worthless units back if the order ends early; the
   borrower gets the rest of the collateral of a position that is closed; no other balance changes.
   */
  lemma PaidOutMeans(balances: map<(AccountId, AssetId), int>, c: CallOrder, s: SettleOrder, e: Exchange, fee: int, w: AccountId, a: AssetId)
    requires c.debtId == s.balance.id != c.collateralId && e.Fill?
    ensures At(PaidOut(balances, c, s, e, fee), (w, a)) - At(balances, (w, a))
            == (if a == c.collateralId && w == s.owner then e.pays - fee else 0)
               + (if a == c.collateralId && w == c.borrower && e.receives == c.debt then c.collateral - e.pays else 0)
               + (if a == s.balance.id && w == s.owner && e.cull then s.balance.amount - e.receives else 0)
  {
  }

  /** Give an order's units back to its owner. */
  method CancelSettleOrder(db: Database, i: nat)
    requires i in db.settles && db.settles[i].balance.amount >= 0
    modifies db`settles, db`balances
    ensures var s := old(db.settles)[i];
            && db.settles == old(db.settles) - {i}
            && db.balances == Credit(old(db.balances), (s.owner, s.balance.id), s.balance.amount)
    ensures forall a :: db.Net(a) == old(db.Net(a))
  {
    hide Database.Net, Credit;
    db.AdjustBalance(db.settles[i].owner, db.settles[i].balance);
    db.RemoveSettle(i);
  }

  /** The order hands in `pays` and its owner gets `receives`, less the market fee. */
  method FillSettleOrder(db: Database, i: nat, pays: int, receives: Asset) returns (filled: bool)
    requires i in db.settles && 0 <= pays <= db.settles[i].balance.amount && receives.amount >= 0
    modifies db`settles, db`balances, db`accumulatedFees
    ensures filled == (pays == old(db.settles[i].balance.amount))
    ensures var s, fee := old(db.settles)[i], MarketFee(db.marketFees(receives.id), receives.amount);
            && db.settles == (if filled then old(db.settles) - {i}
                              else old(db.settles)[i := s.(balance := Asset(s.balance.amount - pays, s.balance.id))])
            && db.balances == Credit(old(db.balances), (s.owner, receives.id), receives.amount - fee)
            && db.accumulatedFees == Credit(old(db.accumulatedFees), receives.id, fee)
            && (forall a :: db.Net(a) == old(db.Net(a)) - (if a == s.balance.id then pays else 0) + (if a == receives.id then receives.amount else 0))
  {
    hide Database.Net, Credit, MarketFee;
    var s := db.settles[i];
    var fee := PayMarketFees(db, receives);
    filled := pays == s.balance.amount;
    db.AdjustBalance(s.owner, Asset(receives.amount - fee, receives.id));
    if filled {
      db.RemoveSettle(i);
    } else {
      db.SetSettle(i, s.(balance := Asset(s.balance.amount - pays, s.balance.id)));
    }
  }

  /** A settlement order can be matched with a position. */
  ghost predicate CanMatch(c: CallOrder, s: SettleOrder, price: Price) {
    c.debt > 0 && c.collateral > 0 && s.balance.amount > 0 && s.balance.id == c.debtId && Priced(price, c.debtId, c.collateralId)
  }

  /** Carry out an exchange the position can pay for. */
  method CarryOut(db: Database, j: nat, i: nat, e: Exchange, callPrice: CallOrder -> Price)
    requires j in db.calls && i in db.settles && db.settles[i].balance.id == db.calls[j].debtId && e.Fill?
    requires !Overdrawn(db.calls[j], e.pays, e.receives) && e.receives <= db.calls[j].debt && e.receives <= db.settles[i].balance.amount
    requires e.cull ==> e.receives < db.settles[i].balance.amount
    modifies db`calls, db`supply, db`balances, db`coreInOrders, db`settles, db`accumulatedFees
    ensures var c, s := old(db.calls[j]), old(db.settles[i]);
            && db.calls == CallsAfter(old(db.calls), j, e, callPrice) && db.settles == SettlesAfter(old(db.settles), i, e)
            && db.supply == Credit(old(db.supply), c.debtId, -(e.receives as int))
            && db.balances == PaidOut(old(db.balances), c, s, e, MarketFee(db.marketFees(c.collateralId), e.pays))
    ensures forall a :: db.Net(a) == old(db.Net(a))
    ensures forall w :: db.CoreGap(w) == old(db.CoreGap(w))
    ensures forall a :: db.Unbacked(a) == old(db.Unbacked(a))
  {
    hide Database.Net, Database.CoreGap, Database.Unbacked, MarketFee, Covered;
    var c := db.calls[j];
    var thrown, closed := FillCallOrder(db, j, e.pays, e.receives, callPrice);
    var filled := FillSettleOrder(db, i, e.receives, Asset(e.pays, c.collateralId));
    if e.cull {
      CancelSettleOrder(db, i);
    }
  }

  /**
   Match a settlement order with a position.  Throws exactly when the position cannot pay.  Otherwise
   the exchange is carried out, value is conserved, and the units handed in leave the supply.
   */
  method MatchSettle(db: Database, j: nat, i: nat, price: Price, limit: nat, callPrice: CallOrder -> Price) returns (thrown: bool, settled: nat)
    requires j in db.calls && i in db.settles && limit > 0 && CanMatch(db.calls[j], db.settles[i], price)
    modifies db`calls, db`supply, db`balances, db`coreInOrders, db`settles, db`accumulatedFees
    ensures var c, s := old(db.calls[j]), old(db.settles[i]);
            var e := ExchangeOf(c.debt, s.balance.amount, limit, price);
            && (thrown <==> e.Fill? && Overdrawn(c, e.pays, e.receives))
            && (!thrown ==>
                  && settled == (if e.Fill? then e.receives else 0)
                  && db.calls == CallsAfter(old(db.calls), j, e, callPrice)
                  && db.settles == SettlesAfter(old(db.settles), i, e)
                  && db.supply == Credit(old(db.supply), c.debtId, -(settled as int))
                  && db.balances == PaidOut(old(db.balances), c, s, e, if e.Fill? then MarketFee(db.marketFees(c.collateralId), e.pays) else 0))
    ensures forall a :: db.Net(a) == old(db.Net(a))
    ensures forall w :: db.CoreGap(w) == old(db.CoreGap(w))
    ensures forall a :: db.Unbacked(a) == old(db.Unbacked(a))
  {
    var c, s := db.calls[j], db.settles[i];
    var e := ExchangeOf(c.debt, s.balance.amount, limit, price);
    hide Database.Net, Database.CoreGap, Database.Unbacked, Credit, MarketFee, ExchangeOf, Covered;
    if e.NoFill? {
      if e.cancel {
        CancelSettleOrder(db, i);
      }
      assert db.supply == Credit(old(db.supply), c.debtId, 0);
      return false, 0;
    }
    if Overdrawn(c, e.pays, e.receives) {
      return true, 0;
    }
    CarryOut(db, j, i, e, callPrice);
    return false, e.receives;
  }

  // One order ---------------------------------------------------------------------------------

  /** Positions and orders are in known assets and in order; `settled` assets have no positions left. */
  ghost predicate Book(calls: map<nat, CallOrder>, settles: map<nat, SettleOrder>, bitassets: map<AssetId, Bitasset>) {
    && (forall j :: j in calls ==>
          calls[j].debt > 0 && calls[j].debtId in bitassets && calls[j].collateralId == bitassets[calls[j].debtId].backing != calls[j].debtId)
    && (forall i :: i in settles ==> settles[i].balance.amount >= 0 && settles[i].balance.id in bitassets)
    && (forall a :: a in bitassets && bitassets[a].settlementPrice.None? ==> Owed(calls, settles, a))
  }

  /** No more units are handed in than the positions owe. */
  ghost predicate Owed(calls: map<nat, CallOrder>, settles: map<nat, SettleOrder>, a: AssetId) {
    Total(settles, SettleIn(a)) <= Total(calls, DebtIn(a))
  }

  /** Nothing is held in a negative amount. */
  ghost predicate NothingNegative(db: Database, a: AssetId)
    reads db
  {
    && (forall k :: k in db.balances ==> db.balances[k] >= 0) && AllWellFormed(db.limits)
    && (forall j :: j in db.calls ==> db.calls[j].collateral >= 0) && (forall i :: i in db.settles ==> db.settles[i].balance.amount >= 0)
    && (forall i :: i in db.bids ==> db.bids[i].collateral.amount >= 0) && (forall i :: i in db.bitassets ==> db.bitassets[i].fund >= 0)
    && At(db.accumulatedFees, a) >= 0
    && (forall k :: k in db.feePool ==> db.feePool[k] >= 0) && (forall k :: k in db.pendingFees ==> db.pendingFees[k] >= 0)
  }

  /** What every market operation keeps implies it: units handed in are part of the supply, and the supply is owed. */
  lemma OwedByConservation(db: Database, a: AssetId)
    requires NothingNegative(db, a) && db.Net(a) == 0 && db.Unbacked(a) == 0
    ensures Owed(db.calls, db.settles, a)
  {
    TotalBoundsTerm(db.balances, BalanceIn(a));
    TotalBoundsTerm(db.limits, LimitIn(a));
    TotalBoundsTerm(db.calls, CollateralIn(a));
    TotalBoundsTerm(db.bids, BidIn(a));
    TotalBoundsTerm(db.bitassets, FundIn(a));
    TotalBoundsTerm(db.feePool, Whole());
    TotalBoundsTerm(db.pendingFees, Whole());
  }

  /** There is always a position to settle against. */
  lemma DebtExists(calls: map<nat, CallOrder>, settles: map<nat, SettleOrder>, bitassets: map<AssetId, Bitasset>, i: nat)
    requires Book(calls, settles, bitassets) && i in settles && settles[i].balance.amount > 0
    requires bitassets[settles[i].balance.id].settlementPrice.None?
    ensures exists j :: j in calls && calls[j].debtId == settles[i].balance.id
  {
    var mia := settles[i].balance.id;
    assert Owed(calls, settles, mia);
    TotalBoundsTerm(settles, SettleIn(mia));
    assert SettleIn(mia)(i, settles[i]) <= Total(settles, SettleIn(mia));
    if forall j :: j in calls ==> calls[j].debtId != mia {
      TotalZero(calls, DebtIn(mia));
    }
  }

  /** An exchange takes the same number of units off the debt and off the order. */
  lemma ExchangeKeepsOwed(calls: map<nat, CallOrder>, settles: map<nat, SettleOrder>, j: nat, i: nat, e: Exchange, callPrice: CallOrder -> Price, a: AssetId)
    requires Owed(calls, settles, a) && j in calls && i in settles && calls[j].debtId == settles[i].balance.id && settles[i].balance.amount >= 0
    requires e.Fill? ==> e.receives <= calls[j].debt && e.receives <= settles[i].balance.amount
    ensures Owed(CallsAfter(calls, j, e, callPrice), SettlesAfter(settles, i, e), a)
  {
    TotalRemove(calls, j, DebtIn(a));
    TotalRemove(settles, i, SettleIn(a));
    if e.Fill? {
      TotalSet(calls, j, Covered(calls[j], e.pays, e.receives, callPrice), DebtIn(a));
      TotalSet(settles, i, settles[i].(balance := Asset(settles[i].balance.amount - e.receives, settles[i].balance.id)), SettleIn(a));
    }
  }

  lemma ExchangeKeepsBook(calls: map<nat, CallOrder>, settles: map<nat, SettleOrder>, bitassets: map<AssetId, Bitasset>,
                          j: nat, i: nat, e: Exchange, callPrice: CallOrder -> Price)
    requires Book(calls, settles, bitassets) && j in calls && i in settles && calls[j].debtId == settles[i].balance.id
    requires e.Fill? ==> e.receives <= calls[j].debt && e.receives <= settles[i].balance.amount
    ensures Book(CallsAfter(calls, j, e, callPrice), SettlesAfter(settles, i, e), bitassets)
  {
    hide Owed;
    forall a | a in bitassets && bitassets[a].settlementPrice.None?
      ensures Owed(CallsAfter(calls, j, e, callPrice), SettlesAfter(settles, i, e), a)
    {
      ExchangeKeepsOwed(calls, settles, j, i, e, callPrice, a);
    }
  }

  lemma CancelKeepsBook(calls: map<nat, CallOrder>, settles: map<nat, SettleOrder>, bitassets: map<AssetId, Bitasset>, i: nat)
    requires Book(calls, settles, bitassets) && i in settles
    ensures Book(calls, settles - {i}, bitassets)
  {
    forall a | a in bitassets && bitassets[a].settlementPrice.None? ensures Owed(calls, settles - {i}, a) {
      assert Owed(calls, settles, a);
      TotalRemove(settles, i, SettleIn(a));
    }
  }

  /** A position that can buy back its debt can pay for any exchange, and can still buy back what is left. */
  lemma CollateralSuffices(c: CallOrder, balance: nat, limit: nat, price: Price)
    requires ValidPrice(price) && c.debt > 0 && c.collateral > 0 && balance > 0 && limit > 0
    requires c.collateral * price.base.amount >= c.debt * price.quote.amount
    ensures var e := ExchangeOf(c.debt, balance, limit, price);
            e.Fill? ==> e.pays <= c.collateral
                        && (e.receives < c.debt ==> c.collateral - e.pays > 0
                                                    && (c.collateral - e.pays) * price.base.amount >= (c.debt - e.receives) * price.quote.amount)
  {
    ExchangeIsFair(c.debt, balance, limit, price);
    var e := ExchangeOf(c.debt, balance, limit, price);
    var b, q := price.base.amount, price.quote.amount;
    hide ExchangeOf, ValidPrice;
    if e.Fill? {
      if e.receives == c.debt {
        ClosingIsPaidFor(e.pays, c.debt, c.collateral, b, q);
      } else {
        assert e.pays * b <= e.receives * q;
        RestIsPaidFor(e.pays, e.receives, c.debt, c.collateral, b, q);
      }
    }
  }

  lemma ClosingIsPaidFor(pays: nat, debt: nat, collateral: nat, b: nat, q: nat)
    requires b > 0 && collateral * b >= debt * q && pays * b < debt * q + b
    ensures pays <= collateral
  {
    assert (collateral + 1) * b == collateral * b + b;
    LessFromScaled(pays, collateral + 1, b);
  }

  lemma RestIsPaidFor(pays: nat, receives: nat, debt: nat, collateral: nat, b: nat, q: nat)
    requires b > 0 && q > 0 && collateral * b >= debt * q && pays * b <= receives * q && receives < debt
    ensures pays < collateral && (collateral - pays) * b >= (debt - receives) * q
  {
    assert debt * q - receives * q == (debt - receives) * q > 0;
    assert (collateral - pays) * b == collateral * b - pays * b;
    LessFromScaled(pays, collateral, b);
  }

  /** Every position can buy back its debt at its asset's settlement price, where there is one. */
  ghost predicate Solid(calls: map<nat, CallOrder>, fillPrice: AssetId -> Option<Price>) {
    forall j :: j in calls && fillPrice(calls[j].debtId).Some? ==>
      var p := fillPrice(calls[j].debtId).value;
      calls[j].collateral > 0 && calls[j].collateral * p.base.amount >= calls[j].debt * p.quote.amount
  }

  lemma ExchangeKeepsSolid(calls: map<nat, CallOrder>, fillPrice: AssetId -> Option<Price>, j: nat, balance: nat, limit: nat, callPrice: CallOrder -> Price)
    requires Solid(calls, fillPrice) && j in calls && calls[j].debt > 0 && balance > 0 && limit > 0
    requires fillPrice(calls[j].debtId).Some? && ValidPrice(fillPrice(calls[j].debtId).value)
    ensures var e := ExchangeOf(calls[j].debt, balance, limit, fillPrice(calls[j].debtId).value);
            && (e.Fill? ==> !Overdrawn(calls[j], e.pays, e.receives))
            && Solid(CallsAfter(calls, j, e, callPrice), fillPrice)
  {
    CollateralSuffices(calls[j], balance, limit, fillPrice(calls[j].debtId).value);
    hide ExchangeOf;
  }

  /** Collateral per debt; positions are settled in increasing order of it. */
  function Collateralization(c: CallOrder): Price {
    Price(Asset(c.collateral, c.collateralId), Asset(c.debt, c.debtId))
  }

  /** A position the search can find: it starts at the smallest price there is, which one without collateral lies below. */
  predicate Findable(c: CallOrder, mia: AssetId) {
    c.debtId == mia && c.collateral > 0
  }

  /** Position `j` has less collateral per unit of debt than position `k`, or as much and the older id. */
  predicate NoBetterBacked(c: CallOrder, j: nat, d: CallOrder, k: nat) {
    c.collateral * d.debt < d.collateral * c.debt || (c.collateral * d.debt == d.collateral * c.debt && j <= k)
  }

  ghost predicate LeastBacked(calls: map<nat, CallOrder>, j: nat, mia: AssetId) {
    j in calls && Findable(calls[j], mia) && forall k :: k in calls && Findable(calls[k], mia) ==> NoBetterBacked(calls[j], j, calls[k], k)
  }

  method LeastCollateralized(db: Database, mia: AssetId) returns (j: nat)
    requires exists k :: k in db.calls && Findable(db.calls[k], mia)
    requires forall k :: k in db.calls && Findable(db.calls[k], mia) ==> ValidPrice(Collateralization(db.calls[k]))
    ensures LeastBacked(db.calls, j, mia)
  {
    var calls := db.calls;
    var ids := set k | k in calls && Findable(calls[k], mia);
    var any :| any in calls && Findable(calls[any], mia);
    assert any in ids;
    var price: nat -> Price := k => if k in ids then Inverse(Collateralization(calls[k])) else Inverse(Collateralization(calls[any]));
    FirstExists(ids, price);
    j :| IsFirst(ids, price, j);
    forall k | k in calls && Findable(calls[k], mia) ensures NoBetterBacked(calls[j], j, calls[k], k) {
      assert k in ids;
      assert Precedes(price(j), j, price(k), k);
    }
  }

  /** Only order `i` was touched, and it only got smaller. */
  ghost predicate OnlyShrinks(before: map<nat, SettleOrder>, now: map<nat, SettleOrder>, i: nat) {
    && now - {i} == before - {i}
    && (i in now ==> i in before && now[i].owner == before[i].owner && now[i].date == before[i].date
                     && now[i].balance.id == before[i].balance.id && now[i].balance.amount <= before[i].balance.amount)
  }

  lemma ExchangeOnlyShrinks(settles: map<nat, SettleOrder>, i: nat, e: Exchange)
    requires i in settles
    ensures OnlyShrinks(settles, SettlesAfter(settles, i, e), i)
  {
  }

  /** That many units are worth no collateral. */
  predicate BuysNothing(units: int, price: Price)
    requires ValidPrice(price)
  {
    units <= 0 || Down(units, price.quote.amount, price.base.amount) == 0
  }

  lemma StuckMeansCapUsedUp(debt: nat, balance: nat, limit: nat, price: Price)
    requires ValidPrice(price) && debt > 0 && balance > 0 && limit > 0 && ExchangeOf(debt, balance, limit, price) == NoFill(false)
    ensures BuysNothing(limit, price)
  {
    ExchangeIsFair(debt, balance, limit, price);
  }

  /** The position to settle against; the source asserts that there is one. */
  method ChoosePosition(db: Database, i: nat, ghost fillPrice: AssetId -> Option<Price>) returns (thrown: bool, j: nat)
    requires Book(db.calls, db.settles, db.bitassets) && i in db.settles && db.settles[i].balance.amount > 0
    requires db.bitassets[db.settles[i].balance.id].settlementPrice.None? && fillPrice(db.settles[i].balance.id).Some?
    ensures thrown <==> forall k :: k in db.calls ==> !Findable(db.calls[k], db.settles[i].balance.id)
    ensures Solid(db.calls, fillPrice) ==> !thrown
    ensures !thrown ==>
              && j in db.calls && Findable(db.calls[j], db.settles[i].balance.id) && db.calls[j].debt > 0
              && db.calls[j].collateralId == db.bitassets[db.calls[j].debtId].backing
              && LeastBacked(db.calls, j, db.settles[i].balance.id)
  {
    var mia := db.settles[i].balance.id;
    DebtExists(db.calls, db.settles, db.bitassets, i);
    if !exists k :: k in db.calls && Findable(db.calls[k], mia) {
      return true, 0;
    }
    j := LeastCollateralized(db, mia);
    return false, j;
  }

  lemma ExchangeKeepsAll(calls: map<nat, CallOrder>, settles: map<nat, SettleOrder>, bitassets: map<AssetId, Bitasset>,
                         fillPrice: AssetId -> Option<Price>, j: nat, i: nat, limit: nat, callPrice: CallOrder -> Price)
    requires Book(calls, settles, bitassets) && j in calls && i in settles && calls[j].debtId == settles[i].balance.id
    requires calls[j].debt > 0 && settles[i].balance.amount > 0 && limit > 0
    requires fillPrice(calls[j].debtId).Some? && ValidPrice(fillPrice(calls[j].debtId).value)
    ensures var price := fillPrice(calls[j].debtId).value;
            var e := ExchangeOf(calls[j].debt, settles[i].balance.amount, limit, price);
            && Book(CallsAfter(calls, j, e, callPrice), SettlesAfter(settles, i, e), bitassets)
            && OnlyShrinks(settles, SettlesAfter(settles, i, e), i)
            && (Solid(calls, fillPrice) ==> (e.Fill? ==> !Overdrawn(calls[j], e.pays, e.receives)) && Solid(CallsAfter(calls, j, e, callPrice), fillPrice))
            && (e.Fill? ==> 0 < e.receives <= limit)
            && (e.NoFill? && i in SettlesAfter(settles, i, e) ==> BuysNothing(limit, price))
  {
    var price := fillPrice(calls[j].debtId).value;
    var e := ExchangeOf(calls[j].debt, settles[i].balance.amount, limit, price);
    ExchangeKeepsBook(calls, settles, bitassets, j, i, e, callPrice);
    ExchangeOnlyShrinks(settles, i, e);
    if Solid(calls, fillPrice) {
      ExchangeKeepsSolid(calls, fillPrice, j, settles[i].balance.amount, limit, callPrice);
    }
    if e == NoFill(false) {
      StuckMeansCapUsedUp(calls[j].debt, settles[i].balance.amount, limit, price);
    }
    hide Book, Solid, OnlyShrinks, BuysNothing, CallsAfter;
  }

  /** What one turn does to position `j`: it loses debt. */
  ghost predicate LosesDebt(calls: map<nat, CallOrder>, calls': map<nat, CallOrder>, j: nat, units: int)
    requires j in calls
  {
    if units == calls[j].debt then calls' == calls - {j}
    else j in calls' && calls' == calls[j := calls'[j]] && calls'[j].debt == calls[j].debt - units && calls'[j].debtId == calls[j].debtId
  }

  /** What one turn does to order `i`: it hands in units, and is gone if the rest buys nothing. */
  ghost predicate HandsIn(settles: map<nat, SettleOrder>, settles': map<nat, SettleOrder>, i: nat, units: int, price: Price)
    requires i in settles && ValidPrice(price)
  {
    var rest := settles[i].balance.amount - units;
    && rest >= 0
    && (if i in settles' then rest > 0 && settles' == settles[i := settles[i].(balance := Asset(rest, settles[i].balance.id))]
        else settles' == settles - {i} && BuysNothing(rest, price))
  }

  /** One turn of an order: `units` of it are settled, if any, against the position with the least collateral per debt. */
  ghost predicate Turn(calls: map<nat, CallOrder>, settles: map<nat, SettleOrder>, calls': map<nat, CallOrder>, settles': map<nat, SettleOrder>,
                       i: nat, price: Price, units: int)
    requires i in settles && ValidPrice(price)
  {
    && HandsIn(settles, settles', i, units, price)
    && (if units == 0 then calls' == calls
        else units > 0 && exists j :: LeastBacked(calls, j, settles[i].balance.id) && units <= calls[j].debt && LosesDebt(calls, calls', j, units))
  }

  lemma ExchangeIsTurn(calls: map<nat, CallOrder>, settles: map<nat, SettleOrder>, j: nat, i: nat, limit: nat, price: Price, callPrice: CallOrder -> Price)
    requires ValidPrice(price) && i in settles && settles[i].balance.amount > 0 && limit > 0
    requires LeastBacked(calls, j, settles[i].balance.id) && calls[j].debt > 0
    ensures var e := ExchangeOf(calls[j].debt, settles[i].balance.amount, limit, price);
            Turn(calls, settles, CallsAfter(calls, j, e, callPrice), SettlesAfter(settles, i, e), i, price, if e.Fill? then e.receives else 0)
  {
    var e := ExchangeOf(calls[j].debt, settles[i].balance.amount, limit, price);
    ExchangeIsFair(calls[j].debt, settles[i].balance.amount, limit, price);
    var settles' := SettlesAfter(settles, i, e);
    hide ExchangeOf, LeastBacked;
    if e.NoFill? && !e.cancel {
      assert settles' == settles[i := settles[i].(balance := Asset(settles[i].balance.amount, settles[i].balance.id))];
    }
    if e.Fill? {
      assert LosesDebt(calls, CallsAfter(calls, j, e, callPrice), j, e.receives);
    }
  }

  /** Settle part of an order against the least collateralised position, at most `limit` units. */
  method SettleOnce(db: Database, i: nat, fillPrice: AssetId -> Option<Price>, limit: nat, callPrice: CallOrder -> Price) returns (thrown: bool, settled: nat)
    requires Book(db.calls, db.settles, db.bitassets) && i in db.settles && db.settles[i].balance.amount > 0 && limit > 0
    requires var mia := db.settles[i].balance.id;
             && db.bitassets[mia].settlementPrice.None? && fillPrice(mia).Some? && Priced(fillPrice(mia).value, mia, db.bitassets[mia].backing)
    modifies db`calls, db`supply, db`balances, db`coreInOrders, db`settles, db`accumulatedFees
    ensures old(Solid(db.calls, fillPrice)) ==> !thrown && Solid(db.calls, fillPrice)
    ensures !thrown ==> Book(db.calls, db.settles, db.bitassets) && OnlyShrinks(old(db.settles), db.settles, i) && settled <= limit
    ensures !thrown ==> db.supply == Credit(old(db.supply), old(db.settles[i].balance.id), -(settled as int))
    ensures !thrown && settled == 0 && i in db.settles ==> BuysNothing(limit, fillPrice(old(db.settles[i].balance.id)).value)
    ensures !thrown ==> Turn(old(db.calls), old(db.settles), db.calls, db.settles, i, fillPrice(old(db.settles[i].balance.id)).value, settled)
    ensures forall a :: db.Net(a) == old(db.Net(a))
    ensures forall w :: db.CoreGap(w) == old(db.CoreGap(w))
    ensures forall a :: db.Unbacked(a) == old(db.Unbacked(a))
  {
    hide Book, Solid, OnlyShrinks, BuysNothing, CallsAfter, SettlesAfter, PaidOut, Precedes, LeastBacked, Turn, Database.Net, Database.CoreGap, Database.Unbacked, Credit;
    var j;
    thrown, j := ChoosePosition(db, i, fillPrice);
    if thrown {
      return true, 0;
    }
    ExchangeKeepsAll(db.calls, db.settles, db.bitassets, fillPrice, j, i, limit, callPrice);
    ExchangeIsTurn(db.calls, db.settles, j, i, limit, fillPrice(db.settles[i].balance.id).value, callPrice);
    hide ExchangeOf;
    thrown, settled := MatchSettle(db, j, i, fillPrice(db.settles[i].balance.id).value, limit, callPrice);
  }

  lemma OnlyShrinksTransitive(m0: map<nat, SettleOrder>, m1: map<nat, SettleOrder>, m2: map<nat, SettleOrder>, i: nat)
    requires OnlyShrinks(m0, m1, i) && OnlyShrinks(m1, m2, i)
    ensures OnlyShrinks(m0, m2, i)
  {
  }

  lemma CancelOnlyShrinks(m: map<nat, SettleOrder>, i: nat)
    ensures OnlyShrinks(m, m - {i}, i) && OnlyShrinks(m, m, i)
  {
  }

  function WithVolume(bitassets: map<AssetId, Bitasset>, mia: AssetId, settled: int): map<AssetId, Bitasset>
    requires mia in bitassets
  {
    bitassets[mia := bitassets[mia].(forceSettled := settled)]
  }

  lemma VolumeKeepsBook(calls: map<nat, CallOrder>, settles: map<nat, SettleOrder>, bitassets: map<AssetId, Bitasset>, mia: AssetId, settled: int)
    requires Book(calls, settles, bitassets) && mia in bitassets
    ensures Book(calls, settles, WithVolume(bitassets, mia, settled))
  {
    hide Owed;
  }

  /** The settled volume grew by what left the supply of `mia`, and no other supply moved. */
  ghost predicate Moved(supply0: map<AssetId, int>, supply: map<AssetId, int>, mia: AssetId, taken: int) {
    At(supply, mia) == At(supply0, mia) - taken && forall x :: x != mia ==> At(supply, x) == At(supply0, x)
  }

  lemma MovedMore(supply0: map<AssetId, int>, supply: map<AssetId, int>, mia: AssetId, taken: int, more: int)
    requires Moved(supply0, supply, mia, taken)
    ensures Moved(supply0, Credit(supply, mia, -more), mia, taken + more)
  {
  }

  /** What processing one order keeps. */
  ghost predicate Processing(settles0: map<nat, SettleOrder>, supply0: map<AssetId, int>, volume0: int, cap: int,
                             settles: map<nat, SettleOrder>, supply: map<AssetId, int>, volume: int, i: nat)
    requires i in settles0
  {
    && OnlyShrinks(settles0, settles, i) && Moved(supply0, supply, settles0[i].balance.id, volume - volume0)
    && volume0 <= volume && (volume <= cap || volume == volume0)
  }

  lemma ProcessingGoesOn(settles0: map<nat, SettleOrder>, supply0: map<AssetId, int>, volume0: int, cap: int,
                         settles: map<nat, SettleOrder>, supply: map<AssetId, int>, volume: int, i: nat, later: map<nat, SettleOrder>, more: nat)
    requires i in settles0 && Processing(settles0, supply0, volume0, cap, settles, supply, volume, i)
    requires OnlyShrinks(settles, later, i) && volume + more <= cap
    ensures Processing(settles0, supply0, volume0, cap, later, Credit(supply, settles0[i].balance.id, -(more as int)), volume + more, i)
  {
    OnlyShrinksTransitive(settles0, settles, later, i);
    MovedMore(supply0, supply, settles0[i].balance.id, volume - volume0, more);
  }

  /** What can be settled of the asset of an order: it is not globally settled and has a price. */
  ghost predicate Trades(bitassets: map<AssetId, Bitasset>, fillPrice: AssetId -> Option<Price>, mia: AssetId) {
    && mia in bitassets && bitassets[mia].settlementPrice.None?
    && fillPrice(mia).Some? && Priced(fillPrice(mia).value, mia, bitassets[mia].backing)
  }

  // Who is served in a pass -------------------------------------------------------------------

  /** Positions, orders, supplies and assets at the start of a pass. */
  datatype Start = Start(calls: map<nat, CallOrder>, settles: map<nat, SettleOrder>, supply: map<AssetId, int>, bitassets: map<AssetId, Bitasset>)

  /** Positions only lose debt, and a touched one had no more collateral per debt at the start than any untouched one. */
  ghost predicate PositionsInTurn(before: map<nat, CallOrder>, calls: map<nat, CallOrder>) {
    && (forall k :: k in calls ==> k in before && (calls[k] == before[k] || (calls[k].debt < before[k].debt && calls[k].debtId == before[k].debtId)))
    && (forall k, l :: k in before && PositionTouched(before, calls, k) && l in before && !PositionTouched(before, calls, l)
                       && Findable(before[l], before[k].debtId)
                       ==> NoBetterBacked(before[k], k, before[l], l))
  }

  /** Orders are taken by asset, then by date, then by id. */
  predicate Before(s: SettleOrder, i: nat, t: SettleOrder, k: nat) {
    || s.balance.id < t.balance.id
    || (s.balance.id == t.balance.id && (s.date < t.date || (s.date == t.date && i <= k)))
  }

  /** No order in the same asset comes before order `i`. */
  ghost predicate HasTurn(settles: map<nat, SettleOrder>, i: nat) {
    i in settles && forall k :: k in settles && settles[k].balance.id == settles[i].balance.id ==> Before(settles[i], i, settles[k], k)
  }

  /** A touched order comes before every untouched one in the same asset. */
  ghost predicate OrdersInTurn(before: map<nat, SettleOrder>, settles: map<nat, SettleOrder>) {
    && (forall k :: k in settles ==> k in before && settles[k].owner == before[k].owner && settles[k].date == before[k].date
                                     && settles[k].balance.id == before[k].balance.id && settles[k].balance.amount <= before[k].balance.amount)
    && (forall k, l :: k in before && (k !in settles || settles[k] != before[k]) && l in settles && settles[l] == before[l]
                       && before[k].balance.id == before[l].balance.id
                       ==> Before(before[k], k, before[l], l))
  }

  ghost function UnitsIn(settles: map<nat, SettleOrder>, a: AssetId): (nat, int) -> int {
    (i: nat, units: int) => if i in settles && settles[i].balance.id == a then units else 0
  }

  /** What may be left of an order that is gone: units that buy nothing, or any if the asset is settled globally or has no price. */
  ghost predicate MayGoBack(st: Start, fillPrice: AssetId -> Option<Price>, a: AssetId, rest: int) {
    || a !in st.bitassets || st.bitassets[a].settlementPrice.Some? || fillPrice(a).None?
    || (ValidPrice(fillPrice(a).value) && BuysNothing(rest, fillPrice(a).value))
  }

  /** `units` of each order were settled, and what else is missing went back to the owner. */
  ghost predicate Accounted(st: Start, settles: map<nat, SettleOrder>, units: map<nat, int>, fillPrice: AssetId -> Option<Price>) {
    && units.Keys == st.settles.Keys
    && (forall i :: i in st.settles ==> 0 <= units[i] <= st.settles[i].balance.amount)
    && (forall i :: i in settles ==> i in st.settles && settles[i].balance.amount == st.settles[i].balance.amount - units[i])
    && (forall i :: i in st.settles && i !in settles ==> MayGoBack(st, fillPrice, st.settles[i].balance.id, st.settles[i].balance.amount - units[i]))
  }

  /** Exactly the settled units left the supply. */
  ghost predicate LeftSupply(st: Start, supply: map<AssetId, int>, units: map<nat, int>) {
    forall a :: Total(units, UnitsIn(st.settles, a)) == At(st.supply, a) - At(supply, a)
  }

  ghost predicate Served(st: Start, calls: map<nat, CallOrder>, settles: map<nat, SettleOrder>, supply: map<AssetId, int>,
                         units: map<nat, int>, fillPrice: AssetId -> Option<Price>) {
    PositionsInTurn(st.calls, calls) && OrdersInTurn(st.settles, settles) && Accounted(st, settles, units, fillPrice) && LeftSupply(st, supply, units)
  }

  ghost function NoUnits(settles: map<nat, SettleOrder>): map<nat, int> {
    map i | i in settles :: 0
  }

  lemma NothingServedYet(st: Start, fillPrice: AssetId -> Option<Price>)
    requires forall i :: i in st.settles ==> st.settles[i].balance.amount >= 0
    ensures Served(st, st.calls, st.settles, st.supply, NoUnits(st.settles), fillPrice)
  {
    forall a ensures Total(NoUnits(st.settles), UnitsIn(st.settles, a)) == 0 {
      TotalZero(NoUnits(st.settles), UnitsIn(st.settles, a));
    }
  }

  lemma PositionsStayInTurn(before: map<nat, CallOrder>, calls: map<nat, CallOrder>, calls': map<nat, CallOrder>, j: nat, mia: AssetId, units: int)
    requires PositionsInTurn(before, calls) && LeastBacked(calls, j, mia) && 0 < units <= calls[j].debt && LosesDebt(calls, calls', j, units)
    ensures PositionsInTurn(before, calls')
  {
    hide NoBetterBacked;
    forall k | k in before && PositionTouched(before, calls', k) ensures k == j || PositionTouched(before, calls, k) {
    }
    forall l | l in before && !PositionTouched(before, calls', l) ensures l != j && !PositionTouched(before, calls, l) && calls[l] == before[l] {
    }
  }

  lemma OrdersStayInTurn(before: map<nat, SettleOrder>, settles: map<nat, SettleOrder>, settles': map<nat, SettleOrder>, i: nat, units: nat, price: Price)
    requires OrdersInTurn(before, settles) && HasTurn(settles, i) && ValidPrice(price) && HandsIn(settles, settles', i, units, price)
    ensures OrdersInTurn(before, settles') && (i in settles' ==> HasTurn(settles', i))
  {
    hide BuysNothing;
    forall k, l | k in before && (k !in settles' || settles'[k] != before[k]) && l in settles' && settles'[l] == before[l]
                  && before[k].balance.id == before[l].balance.id
      ensures Before(before[k], k, before[l], l)
    {
      assert l in settles && (l == i ==> settles[l] == before[l]);
      if k in settles && settles[k] == before[k] {
        assert k == i;
      }
    }
  }

  lemma StaysAccounted(st: Start, settles: map<nat, SettleOrder>, units: map<nat, int>, fillPrice: AssetId -> Option<Price>,
                       settles': map<nat, SettleOrder>, i: nat, more: nat)
    requires Accounted(st, settles, units, fillPrice) && i in settles && i in st.settles && settles[i].balance.id == st.settles[i].balance.id
    requires var mia := settles[i].balance.id;
             fillPrice(mia).Some? && ValidPrice(fillPrice(mia).value) && HandsIn(settles, settles', i, more, fillPrice(mia).value)
    ensures i in units && Accounted(st, settles', units[i := units[i] + more], fillPrice)
  {
    hide BuysNothing;
  }

  lemma MoreLeftSupply(st: Start, supply: map<AssetId, int>, units: map<nat, int>, i: nat, more: nat)
    requires LeftSupply(st, supply, units) && i in st.settles && i in units
    ensures LeftSupply(st, Credit(supply, st.settles[i].balance.id, -(more as int)), units[i := units[i] + more])
  {
    forall a ensures Total(units[i := units[i] + more], UnitsIn(st.settles, a)) == Total(units, UnitsIn(st.settles, a)) + (if a == st.settles[i].balance.id then more else 0) {
      TotalSet(units, i, units[i] + more, UnitsIn(st.settles, a));
    }
    hide Total, UnitsIn;
  }

  /** A turn of an order whose turn it is keeps it all. */
  lemma ServedGoesOn(st: Start, calls: map<nat, CallOrder>, settles: map<nat, SettleOrder>, supply: map<AssetId, int>, units: map<nat, int>,
                     fillPrice: AssetId -> Option<Price>, calls': map<nat, CallOrder>, settles': map<nat, SettleOrder>, i: nat, more: nat)
    requires Served(st, calls, settles, supply, units, fillPrice) && HasTurn(settles, i)
    requires var mia := settles[i].balance.id;
             fillPrice(mia).Some? && ValidPrice(fillPrice(mia).value) && Turn(calls, settles, calls', settles', i, fillPrice(mia).value, more)
    ensures i in units && Served(st, calls', settles', Credit(supply, settles[i].balance.id, -(more as int)), units[i := units[i] + more], fillPrice)
    ensures i in settles' ==> HasTurn(settles', i)
  {
    var price := fillPrice(settles[i].balance.id).value;
    OrdersStayInTurn(st.settles, settles, settles', i, more, price);
    StaysAccounted(st, settles, units, fillPrice, settles', i, more);
    MoreLeftSupply(st, supply, units, i, more);
    hide OrdersInTurn, Accounted, LeftSupply, HasTurn, HandsIn, PositionsInTurn, LeastBacked, LosesDebt;
    if more > 0 {
      var j :| LeastBacked(calls, j, settles[i].balance.id) && more <= calls[j].debt && LosesDebt(calls, calls', j, more);
      PositionsStayInTurn(st.calls, calls, calls', j, settles[i].balance.id, more);
    }
  }

  /** Giving an order back because its asset is settled globally or has no price. */
  lemma ServedThroughDrop(st: Start, calls: map<nat, CallOrder>, settles: map<nat, SettleOrder>, supply: map<AssetId, int>, units: map<nat, int>,
                          fillPrice: AssetId -> Option<Price>, i: nat)
    requires Served(st, calls, settles, supply, units, fillPrice) && HasTurn(settles, i)
    requires var a := settles[i].balance.id; a !in st.bitassets || st.bitassets[a].settlementPrice.Some? || fillPrice(a).None?
    ensures Served(st, calls, settles - {i}, supply, units, fillPrice)
  {
    hide PositionsInTurn, LeftSupply, BuysNothing;
    forall k, l | k in st.settles && (k !in settles - {i} || settles[k] != st.settles[k]) && l in settles - {i} && settles[l] == st.settles[l]
                  && st.settles[k].balance.id == st.settles[l].balance.id
      ensures Before(st.settles[k], k, st.settles[l], l)
    {
      if k in settles && settles[k] == st.settles[k] {
        assert k == i;
      }
    }
  }

  /** One turn: an empty order is removed, any other is matched once.  No progress ends the order or finds the cap used up. */
  method SettleStep(db: Database, i: nat, fillPrice: AssetId -> Option<Price>, limit: nat, callPrice: CallOrder -> Price) returns (thrown: bool, settled: nat)
    requires Book(db.calls, db.settles, db.bitassets) && i in db.settles && limit > 0
    requires Trades(db.bitassets, fillPrice, db.settles[i].balance.id)
    modifies db`calls, db`supply, db`balances, db`coreInOrders, db`settles, db`accumulatedFees
    ensures old(Solid(db.calls, fillPrice)) ==> !thrown && Solid(db.calls, fillPrice)
    ensures !thrown ==> Book(db.calls, db.settles, db.bitassets) && OnlyShrinks(old(db.settles), db.settles, i) && settled <= limit
    ensures !thrown && i in db.settles ==> db.settles[i].balance.id == old(db.settles[i].balance.id)
    ensures !thrown ==> db.supply == Credit(old(db.supply), old(db.settles[i].balance.id), -(settled as int))
    ensures !thrown && settled == 0 && i in db.settles ==> BuysNothing(limit, fillPrice(old(db.settles[i].balance.id)).value)
    ensures !thrown ==> Turn(old(db.calls), old(db.settles), db.calls, db.settles, i, fillPrice(old(db.settles[i].balance.id)).value, settled)
    ensures forall a :: db.Net(a) == old(db.Net(a))
    ensures forall w :: db.CoreGap(w) == old(db.CoreGap(w))
    ensures forall a :: db.Unbacked(a) == old(db.Unbacked(a))
  {
    if db.settles[i].balance.amount == 0 {
      CancelKeepsBook(db.calls, db.settles, db.bitassets, i);
      CancelOnlyShrinks(db.settles, i);
      hide Book, Solid, Database.Net, Database.CoreGap, Database.Unbacked;
      CancelSettleOrder(db, i);
      return false, 0;
    }
    hide Solid, Turn, Database.Net, Database.CoreGap, Database.Unbacked, BuysNothing;
    thrown, settled := SettleOnce(db, i, fillPrice, limit, callPrice);
  }

  /** What settling one order in several turns keeps; `solid` says that the positions could pay at the start. */
  ghost predicate Repeating(settles0: map<nat, SettleOrder>, supply0: map<AssetId, int>, volume: int, cap: int, solid: bool,
                            calls: map<nat, CallOrder>, settles: map<nat, SettleOrder>, bitassets: map<AssetId, Bitasset>, supply: map<AssetId, int>,
                            settled: int, i: nat, fillPrice: AssetId -> Option<Price>, stuck: bool)
  {
    && i in settles0 && Trades(bitassets, fillPrice, settles0[i].balance.id)
    && Book(calls, settles, bitassets) && Processing(settles0, supply0, volume, cap, settles, supply, settled, i)
    && (i in settles ==> settles[i].balance.id == settles0[i].balance.id) && (solid ==> Solid(calls, fillPrice))
    && (stuck && i in settles ==> BuysNothing(cap - settled, fillPrice(settles0[i].balance.id).value))
  }

  lemma RepeatingStarts(settles: map<nat, SettleOrder>, supply: map<AssetId, int>, volume: int, cap: int,
                        calls: map<nat, CallOrder>, bitassets: map<AssetId, Bitasset>, i: nat, fillPrice: AssetId -> Option<Price>)
    requires i in settles && Trades(bitassets, fillPrice, settles[i].balance.id) && Book(calls, settles, bitassets)
    ensures Repeating(settles, supply, volume, cap, Solid(calls, fillPrice), calls, settles, bitassets, supply, volume, i, fillPrice, false)
  {
    CancelOnlyShrinks(settles, i);
    hide Book, Solid, OnlyShrinks;
  }

  lemma RepeatingEnds(settles0: map<nat, SettleOrder>, supply0: map<AssetId, int>, volume: int, cap: int, solid: bool,
                      calls: map<nat, CallOrder>, settles: map<nat, SettleOrder>, bitassets: map<AssetId, Bitasset>, supply: map<AssetId, int>,
                      settled: int, i: nat, fillPrice: AssetId -> Option<Price>, stuck: bool)
    requires i in settles0 && Trades(bitassets, fillPrice, settles0[i].balance.id)
    requires Repeating(settles0, supply0, volume, cap, solid, calls, settles, bitassets, supply, settled, i, fillPrice, stuck)
    requires settled >= cap || i !in settles || stuck
    ensures Book(calls, settles, bitassets) && Processing(settles0, supply0, volume, cap, settles, supply, settled, i)
    ensures solid ==> Solid(calls, fillPrice)
    ensures i in settles ==> BuysNothing(cap - settled, fillPrice(settles0[i].balance.id).value)
  {
    hide Book, Solid, OnlyShrinks;
  }

  lemma TurnReady(settles0: map<nat, SettleOrder>, supply0: map<AssetId, int>, volume: int, cap: int, solid: bool,
                  calls: map<nat, CallOrder>, settles: map<nat, SettleOrder>, bitassets: map<AssetId, Bitasset>, supply: map<AssetId, int>,
                  settled: int, i: nat, fillPrice: AssetId -> Option<Price>)
    requires i in settles0 && Trades(bitassets, fillPrice, settles0[i].balance.id) && i in settles
    requires Repeating(settles0, supply0, volume, cap, solid, calls, settles, bitassets, supply, settled, i, fillPrice, false)
    ensures Book(calls, settles, bitassets) && Processing(settles0, supply0, volume, cap, settles, supply, settled, i) && (solid ==> Solid(calls, fillPrice))
    ensures var mia := settles0[i].balance.id; settles[i].balance.id == mia && fillPrice(mia).Some? && ValidPrice(fillPrice(mia).value)
  {
    hide Book, Processing, Solid, BuysNothing;
  }

  lemma RepeatingGoesOn(settles0: map<nat, SettleOrder>, supply0: map<AssetId, int>, volume: int, cap: int, solid: bool,
                        settles: map<nat, SettleOrder>, supply: map<AssetId, int>, settled: int, i: nat, fillPrice: AssetId -> Option<Price>,
                        calls': map<nat, CallOrder>, settles': map<nat, SettleOrder>, bitassets: map<AssetId, Bitasset>, more: nat)
    requires i in settles0 && Trades(bitassets, fillPrice, settles0[i].balance.id)
    requires Processing(settles0, supply0, volume, cap, settles, supply, settled, i) && OnlyShrinks(settles, settles', i) && settled + more <= cap
    requires Book(calls', settles', bitassets) && (solid ==> Solid(calls', fillPrice))
    requires i in settles' ==> settles'[i].balance.id == settles0[i].balance.id
    requires more == 0 && i in settles' ==> BuysNothing(cap - settled, fillPrice(settles0[i].balance.id).value)
    ensures Repeating(settles0, supply0, volume, cap, solid, calls', settles', bitassets, Credit(supply, settles0[i].balance.id, -(more as int)),
                      settled + more, i, fillPrice, more == 0)
  {
    ProcessingGoesOn(settles0, supply0, volume, cap, settles, supply, settled, i, settles', more);
    hide Book, Processing, Solid, BuysNothing, OnlyShrinks, Credit;
  }

  /** A turn of settling an order keeps it all. */
  method SettleTurn(db: Database, i: nat, fillPrice: AssetId -> Option<Price>, settled0: int, cap: int, callPrice: CallOrder -> Price,
                    ghost settles0: map<nat, SettleOrder>, ghost supply0: map<AssetId, int>, ghost volume: int, ghost solid: bool,
                    ghost st: Start, ghost units0: map<nat, int>)
    returns (thrown: bool, settled: int, stuck: bool, ghost units: map<nat, int>)
    requires i in settles0 && Trades(db.bitassets, fillPrice, settles0[i].balance.id) && settled0 < cap && i in db.settles
    requires Repeating(settles0, supply0, volume, cap, solid, db.calls, db.settles, db.bitassets, db.supply, settled0, i, fillPrice, false)
    requires Served(st, db.calls, db.settles, db.supply, units0, fillPrice) && HasTurn(db.settles, i)
    modifies db`calls, db`supply, db`balances, db`coreInOrders, db`settles, db`accumulatedFees
    ensures solid ==> !thrown
    ensures !thrown ==> Repeating(settles0, supply0, volume, cap, solid, db.calls, db.settles, db.bitassets, db.supply, settled, i, fillPrice, stuck)
    ensures !thrown ==> settled0 <= settled <= cap && (settled == settled0 ==> stuck)
    ensures !thrown ==> Served(st, db.calls, db.settles, db.supply, units, fillPrice) && (i in db.settles ==> HasTurn(db.settles, i))
    ensures forall a :: db.Net(a) == old(db.Net(a))
    ensures forall w :: db.CoreGap(w) == old(db.CoreGap(w))
    ensures forall a :: db.Unbacked(a) == old(db.Unbacked(a))
  {
    hide *;
    TurnReady(settles0, supply0, volume, cap, solid, db.calls, db.settles, db.bitassets, db.supply, settled0, i, fillPrice);
    var more;
    thrown, more := SettleStep(db, i, fillPrice, cap - settled0, callPrice);
    if thrown {
      return true, settled0, false, units0;
    }
    ServedGoesOn(st, old(db.calls), old(db.settles), old(db.supply), units0, fillPrice, db.calls, db.settles, i, more);
    RepeatingGoesOn(settles0, supply0, volume, cap, solid, old(db.settles), old(db.supply), settled0, i, fillPrice, db.calls, db.settles, db.bitassets, more);
    return false, settled0 + more, more == 0, units0[i := units0[i] + more];
  }

  /**
   Settle an order against one position after the other until it is gone or the cap is reached.
   The settled volume never passes the cap, and an order that stays finds the cap used up for good.
   */
  method SettleRepeatedly(db: Database, i: nat, fillPrice: AssetId -> Option<Price>, volume: int, cap: int, callPrice: CallOrder -> Price,
                          ghost st: Start, ghost units0: map<nat, int>)
    returns (thrown: bool, settled: int, stuck: bool, ghost units: map<nat, int>)
    requires Book(db.calls, db.settles, db.bitassets) && i in db.settles && Trades(db.bitassets, fillPrice, db.settles[i].balance.id)
    requires Served(st, db.calls, db.settles, db.supply, units0, fillPrice) && HasTurn(db.settles, i)
    modifies db`calls, db`supply, db`balances, db`coreInOrders, db`settles, db`accumulatedFees
    ensures old(Solid(db.calls, fillPrice)) ==> !thrown && Solid(db.calls, fillPrice)
    ensures !thrown ==>
              && Book(db.calls, db.settles, db.bitassets)
              && Processing(old(db.settles), old(db.supply), volume, cap, db.settles, db.supply, settled, i)
              && (i in db.settles ==> (stuck || settled >= cap) && BuysNothing(cap - settled, fillPrice(old(db.settles[i].balance.id)).value))
    ensures !thrown ==> Served(st, db.calls, db.settles, db.supply, units, fillPrice)
    ensures forall a :: db.Net(a) == old(db.Net(a))
    ensures forall w :: db.CoreGap(w) == old(db.CoreGap(w))
    ensures forall a :: db.Unbacked(a) == old(db.Unbacked(a))
  {
    hide *;
    ghost var settles0, supply0, solid := db.settles, db.supply, Solid(db.calls, fillPrice);
    RepeatingStarts(db.settles, db.supply, volume, cap, db.calls, db.bitassets, i, fillPrice);
    thrown, settled, stuck, units := false, volume, false, units0;
    while settled < cap && i in db.settles && !stuck
      invariant Repeating(settles0, supply0, volume, cap, solid, db.calls, db.settles, db.bitassets, db.supply, settled, i, fillPrice, stuck)
      invariant Served(st, db.calls, db.settles, db.supply, units, fillPrice) && (i in db.settles ==> HasTurn(db.settles, i))
      invariant forall a :: db.Net(a) == old(db.Net(a))
      invariant forall w :: db.CoreGap(w) == old(db.CoreGap(w))
      invariant forall a :: db.Unbacked(a) == old(db.Unbacked(a))
      decreases cap - settled, !stuck
    {
      thrown, settled, stuck, units := SettleTurn(db, i, fillPrice, settled, cap, callPrice, settles0, supply0, volume, solid, st, units);
      if thrown {
        return;
      }
    }
    RepeatingEnds(settles0, supply0, volume, cap, solid, db.calls, db.settles, db.bitassets, db.supply, settled, i, fillPrice, stuck);
  }

  method ProcessOrder(db: Database, i: nat, fillPrice: AssetId -> Option<Price>, cap: int, callPrice: CallOrder -> Price,
                      ghost st: Start, ghost units0: map<nat, int>) returns (thrown: bool, finished: bool, ghost units: map<nat, int>)
    requires Book(db.calls, db.settles, db.bitassets) && i in db.settles && Trades(db.bitassets, fillPrice, db.settles[i].balance.id)
    requires Served(st, db.calls, db.settles, db.supply, units0, fillPrice) && HasTurn(db.settles, i)
    modifies db`calls, db`supply, db`balances, db`coreInOrders, db`settles, db`accumulatedFees, db`bitassets
    ensures old(Solid(db.calls, fillPrice)) ==> !thrown && Solid(db.calls, fillPrice)
    ensures !thrown ==>
              var mia := old(db.settles[i]).balance.id;
              && mia in db.bitassets && db.bitassets == WithVolume(old(db.bitassets), mia, db.bitassets[mia].forceSettled)
              && Book(db.calls, db.settles, db.bitassets)
              && Processing(old(db.settles), old(db.supply), old(db.bitassets)[mia].forceSettled, cap,
                            db.settles, db.supply, db.bitassets[mia].forceSettled, i)
              && (i in db.settles ==> (finished || db.bitassets[mia].forceSettled >= cap)
                                      && BuysNothing(cap - db.bitassets[mia].forceSettled, fillPrice(mia).value))
    ensures !thrown ==> Served(st, db.calls, db.settles, db.supply, units, fillPrice)
    ensures forall a :: db.Net(a) == old(db.Net(a))
    ensures forall w :: db.CoreGap(w) == old(db.CoreGap(w))
    ensures forall a :: db.Unbacked(a) == old(db.Unbacked(a))
  {
    hide Book, Solid, Processing, OnlyShrinks, BuysNothing, Served, HasTurn, Database.Net, Database.CoreGap, Database.Unbacked, Credit;
    var mia := db.settles[i].balance.id;
    var b := db.bitassets[mia];
    var settled;
    thrown, settled, finished, units := SettleRepeatedly(db, i, fillPrice, b.forceSettled, cap, callPrice, st, units0);
    if thrown {
      return;
    }
    VolumeKeepsBook(db.calls, db.settles, db.bitassets, mia, settled);
    db.SetBitasset(mia, b.(forceSettled := settled));
  }

  // The pass ----------------------------------------------------------------------------------

  /** The first order in an asset not below `from`. */
  method FirstFrom(db: Database, from: AssetId) returns (first: Option<nat>)
    ensures first.None? ==> forall k :: k in db.settles ==> db.settles[k].balance.id < from
    ensures first.Some? ==>
              && first.value in db.settles && db.settles[first.value].balance.id >= from
              && forall k :: k in db.settles && db.settles[k].balance.id >= from ==> Before(db.settles[first.value], first.value, db.settles[k], k)
  {
    first := None;
    var todo := db.settles.Keys;
    while todo != {}
      invariant todo <= db.settles.Keys
      invariant first.None? ==> forall k :: k in db.settles && k !in todo ==> db.settles[k].balance.id < from
      invariant first.Some? ==>
                  && first.value in db.settles && db.settles[first.value].balance.id >= from
                  && forall k :: k in db.settles && k !in todo && db.settles[k].balance.id >= from ==> Before(db.settles[first.value], first.value, db.settles[k], k)
      decreases todo
    {
      var k :| k in todo;
      if db.settles[k].balance.id >= from && (first.None? || !Before(db.settles[first.value], first.value, db.settles[k], k)) {
        first := Some(k);
      }
      todo := todo - {k};
    }
  }

  ghost predicate Known(bitassets: map<AssetId, Bitasset>, supply: map<AssetId, int>) {
    forall a :: a in bitassets ==> bitassets[a].forceSettled >= 0 && bitassets[a].maxForcePercent <= HUNDRED_PERCENT && At(supply, a) >= 0
  }

  ghost function CapIn(bitassets: map<AssetId, Bitasset>, supply: map<AssetId, int>, a: AssetId): nat
    requires Known(bitassets, supply) && a in bitassets
  {
    Cap(bitassets[a], At(supply, a))
  }

  /** Volumes only grew, by what left the supply, and not beyond the cap, which stays the same meanwhile. */
  ghost predicate Bounded(b0: map<AssetId, Bitasset>, s0: map<AssetId, int>, b: map<AssetId, Bitasset>, s: map<AssetId, int>)
    requires Known(b0, s0)
  {
    && b.Keys == b0.Keys
    && forall a :: a in b0 ==>
         && b[a] == b0[a].(forceSettled := b[a].forceSettled)
         && b0[a].forceSettled <= b[a].forceSettled && b[a].forceSettled + At(s, a) == b0[a].forceSettled + At(s0, a)
         && (b[a].forceSettled <= CapIn(b0, s0, a) || b[a].forceSettled == b0[a].forceSettled)
  }

  lemma BoundedIsKnown(b0: map<AssetId, Bitasset>, s0: map<AssetId, int>, b: map<AssetId, Bitasset>, s: map<AssetId, int>)
    requires Known(b0, s0) && Bounded(b0, s0, b, s)
    ensures Known(b, s) && forall a :: a in b ==> CapIn(b, s, a) == CapIn(b0, s0, a)
  {
  }

  lemma ProcessingStaysBounded(b0: map<AssetId, Bitasset>, s0: map<AssetId, int>, b: map<AssetId, Bitasset>, s: map<AssetId, int>,
                               mia: AssetId, volume: int, later: map<AssetId, int>)
    requires Known(b0, s0) && Bounded(b0, s0, b, s) && mia in b
    requires Moved(s, later, mia, volume - b[mia].forceSettled) && b[mia].forceSettled <= volume
    requires volume <= CapIn(b0, s0, mia) || volume == b[mia].forceSettled
    ensures Bounded(b0, s0, WithVolume(b, mia, volume), later)
  {
  }

  /**
   An order that is still there after the pass: its asset is not globally settled, and it is not due
   yet or the rest of the cap buys nothing.
   */
  ghost predicate Rests(s: SettleOrder, bitassets: map<AssetId, Bitasset>, supply: map<AssetId, int>, fillPrice: AssetId -> Option<Price>, now: nat)
    requires Known(bitassets, supply)
  {
    var a := s.balance.id;
    && a in bitassets && bitassets[a].settlementPrice.None?
    && (s.date > now || (fillPrice(a).Some? && ValidPrice(fillPrice(a).value)
                         && BuysNothing(CapIn(bitassets, supply, a) - bitassets[a].forceSettled, fillPrice(a).value)))
  }

  ghost predicate RestBelow(settles: map<nat, SettleOrder>, bitassets: map<AssetId, Bitasset>, supply: map<AssetId, int>,
                            fillPrice: AssetId -> Option<Price>, now: nat, current: AssetId)
    requires Known(bitassets, supply)
  {
    forall k :: k in settles && settles[k].balance.id < current ==> Rests(settles[k], bitassets, supply, fillPrice, now)
  }

  /** Once the first order of an asset rests, the asset's others rest too. */
  lemma AssetRests(settles: map<nat, SettleOrder>, bitassets: map<AssetId, Bitasset>, supply: map<AssetId, int>,
                   fillPrice: AssetId -> Option<Price>, now: nat, i: nat)
    requires Known(bitassets, supply) && i in settles && Rests(settles[i], bitassets, supply, fillPrice, now)
    requires RestBelow(settles, bitassets, supply, fillPrice, now, settles[i].balance.id)
    requires forall k :: k in settles && settles[k].balance.id >= settles[i].balance.id ==> Before(settles[i], i, settles[k], k)
    ensures RestBelow(settles, bitassets, supply, fillPrice, now, settles[i].balance.id + 1)
  {
    hide BuysNothing, Known;
  }

  lemma ProcessingKeepsRest(settles: map<nat, SettleOrder>, b: map<AssetId, Bitasset>, s: map<AssetId, int>, fillPrice: AssetId -> Option<Price>, now: nat,
                            i: nat, later: map<nat, SettleOrder>, volume: int, supplied: map<AssetId, int>)
    requires i in settles && OnlyShrinks(settles, later, i) && settles[i].balance.id in b
    requires Known(b, s) && Known(WithVolume(b, settles[i].balance.id, volume), supplied)
    requires Moved(s, supplied, settles[i].balance.id, volume - b[settles[i].balance.id].forceSettled)
    requires RestBelow(settles, b, s, fillPrice, now, settles[i].balance.id)
    ensures RestBelow(later, WithVolume(b, settles[i].balance.id, volume), supplied, fillPrice, now, settles[i].balance.id)
  {
    forall k | k in later && later[k].balance.id < settles[i].balance.id
      ensures Rests(later[k], WithVolume(b, settles[i].balance.id, volume), supplied, fillPrice, now)
    {
      assert k in later - {i} && k in settles - {i};
      assert Rests(settles[k], b, s, fillPrice, now);
    }
  }

  /** Orders not yet passed. */
  function Remaining(settles: map<nat, SettleOrder>, current: AssetId): set<nat> {
    set k | k in settles && settles[k].balance.id >= current
  }

  lemma FewerRemain(settles: map<nat, SettleOrder>, current: AssetId, later: map<nat, SettleOrder>, next: AssetId, i: nat)
    requires later.Keys <= settles.Keys && current <= next && i in settles && settles[i].balance.id >= current
    requires forall k :: k in later ==> later[k].balance.id == settles[k].balance.id
    ensures |Remaining(later, next)| <= |Remaining(settles, current)|
    ensures i !in later || settles[i].balance.id < next ==> |Remaining(later, next)| < |Remaining(settles, current)|
  {
    var r, l := Remaining(settles, current), Remaining(later, next);
    assert l <= r;
    Shrinks(l, r);
    if i !in later || settles[i].balance.id < next {
      assert l <= r - {i} && i in r;
      Shrinks(l, r - {i});
    }
  }

  lemma {:induction false} Shrinks<T>(a: set<T>, b: set<T>)
    requires a <= b
    ensures |a| <= |b|
  {
    if a != {} {
      var x :| x in a;
      Shrinks(a - {x}, b - {x});
    }
  }

  /** Where the pass is: the asset, whether it is done with it, and the cap with the asset it was computed for. */
  datatype Cursor = Cursor(current: AssetId, finished: bool, capFor: Option<AssetId>, cap: int)

  ghost predicate Fixed(bitassets: map<AssetId, Bitasset>, supply: map<AssetId, int>, fillPrice: AssetId -> Option<Price>) {
    && Known(bitassets, supply)
    && forall a :: a in bitassets && fillPrice(a).Some? ==> Priced(fillPrice(a).value, a, bitassets[a].backing)
  }

  /** The pass stands at an order that was left over: it will leave the asset next. */
  ghost predicate Blocked(cur: Cursor, settles: map<nat, SettleOrder>, bitassets: map<AssetId, Bitasset>) {
    && (exists k :: k in settles && settles[k].balance.id == cur.current)
    && cur.capFor == Some(cur.current) && cur.current in bitassets && (cur.finished || bitassets[cur.current].forceSettled >= cur.cap)
  }

  ghost predicate OnPass(cur: Cursor, settles: map<nat, SettleOrder>, bitassets: map<AssetId, Bitasset>, supply: map<AssetId, int>,
                         b0: map<AssetId, Bitasset>, s0: map<AssetId, int>, fillPrice: AssetId -> Option<Price>, now: nat)
  {
    && Fixed(b0, s0, fillPrice) && Bounded(b0, s0, bitassets, supply) && Known(bitassets, supply)
    && RestBelow(settles, bitassets, supply, fillPrice, now, cur.current)
    && (cur.capFor.Some? ==> cur.capFor.value in b0 && cur.cap == CapIn(b0, s0, cur.capFor.value))
    && (cur.finished ==> Blocked(cur, settles, bitassets) && bitassets[cur.current].settlementPrice.None? && fillPrice(cur.current).Some? && ValidPrice(fillPrice(cur.current).value)
                         && BuysNothing(cur.cap - bitassets[cur.current].forceSettled, fillPrice(cur.current).value))
  }

  /** Leave the asset of order `i`, with which the pass is done. */
  method NextAsset(db: Database, cur: Cursor, i: nat, ghost b0: map<AssetId, Bitasset>, ghost s0: map<AssetId, int>,
                   ghost fillPrice: AssetId -> Option<Price>, ghost now: nat) returns (done: bool, next: Cursor)
    requires OnPass(cur, db.settles, db.bitassets, db.supply, b0, s0, fillPrice, now)
    requires i in db.settles && db.settles[i].balance.id >= cur.current
    requires RestBelow(db.settles, db.bitassets, db.supply, fillPrice, now, db.settles[i].balance.id + 1)
    ensures done ==> forall k :: k in db.settles ==> Rests(db.settles[k], db.bitassets, db.supply, fillPrice, now)
    ensures !done ==> OnPass(next, db.settles, db.bitassets, db.supply, b0, s0, fillPrice, now)
    ensures !done ==> |Remaining(db.settles, next.current)| < |Remaining(db.settles, cur.current)|
  {
    hide Rests, Bounded, Fixed, Known, BuysNothing;
    var first := FirstFrom(db, db.settles[i].balance.id + 1);
    if first.None? {
      return true, cur;
    }
    next := cur.(current := db.settles[first.value].balance.id, finished := false);
    FewerRemain(db.settles, cur.current, db.settles, next.current, i);
    return false, next;
  }

  /** The pass has come to order `i`. */
  ghost predicate AtFront(cur: Cursor, settles: map<nat, SettleOrder>, i: nat) {
    && i in settles && settles[i].balance.id == cur.current
    && forall k :: k in settles && settles[k].balance.id >= cur.current ==> Before(settles[i], i, settles[k], k)
  }

  lemma ComesToFront(cur: Cursor, settles: map<nat, SettleOrder>, bitassets: map<AssetId, Bitasset>, supply: map<AssetId, int>,
                     b0: map<AssetId, Bitasset>, s0: map<AssetId, int>, fillPrice: AssetId -> Option<Price>, now: nat, i: nat)
    requires OnPass(cur, settles, bitassets, supply, b0, s0, fillPrice, now) && i in settles && settles[i].balance.id >= cur.current
    requires forall k :: k in settles && settles[k].balance.id >= cur.current ==> Before(settles[i], i, settles[k], k)
    ensures var c := cur.(current := settles[i].balance.id);
            && OnPass(c, settles, bitassets, supply, b0, s0, fillPrice, now) && AtFront(c, settles, i)
            && (Blocked(cur, settles, bitassets) ==> c == cur && cur.capFor == Some(cur.current) && cur.current in bitassets
                                                     && (cur.finished || bitassets[cur.current].forceSettled >= cur.cap))
            && Remaining(settles, c.current) == Remaining(settles, cur.current)
  {
    hide Rests, Bounded, Fixed, Known, BuysNothing;
  }

  lemma DropKeepsPass(cur: Cursor, settles: map<nat, SettleOrder>, bitassets: map<AssetId, Bitasset>, supply: map<AssetId, int>,
                      b0: map<AssetId, Bitasset>, s0: map<AssetId, int>, fillPrice: AssetId -> Option<Price>, now: nat, i: nat)
    requires OnPass(cur, settles, bitassets, supply, b0, s0, fillPrice, now) && AtFront(cur, settles, i) && !cur.finished
    ensures OnPass(cur, settles - {i}, bitassets, supply, b0, s0, fillPrice, now)
    ensures |Remaining(settles - {i}, cur.current)| < |Remaining(settles, cur.current)|
  {
    hide Rests, Bounded, Fixed, Known, BuysNothing;
    FewerRemain(settles, cur.current, settles - {i}, cur.current, i);
  }

  lemma FrontHasTurn(cur: Cursor, settles: map<nat, SettleOrder>, i: nat)
    requires AtFront(cur, settles, i)
    ensures i in settles && settles[i].balance.id == cur.current && HasTurn(settles, i)
  {
  }

  lemma DropReady(cur: Cursor, calls: map<nat, CallOrder>, settles: map<nat, SettleOrder>, bitassets: map<AssetId, Bitasset>, supply: map<AssetId, int>,
                  b0: map<AssetId, Bitasset>, s0: map<AssetId, int>, fillPrice: AssetId -> Option<Price>, now: nat, i: nat)
    requires Book(calls, settles, bitassets) && OnPass(cur, settles, bitassets, supply, b0, s0, fillPrice, now) && i in settles
    requires cur.current in bitassets && settles[i].balance.id == cur.current
    requires bitassets[cur.current].settlementPrice.Some? || fillPrice(cur.current).None?
    ensures !cur.finished && settles[i].balance.amount >= 0
    ensures cur.current !in b0 || b0[cur.current].settlementPrice.Some? || fillPrice(cur.current).None?
  {
    hide Rests, RestBelow, Fixed, BuysNothing, Owed, CapIn;
  }

  /** Give the front order back, because its asset is globally settled or has no price. */
  method DropFront(db: Database, cur: Cursor, i: nat, ghost b0: map<AssetId, Bitasset>, ghost s0: map<AssetId, int>,
                   ghost fillPrice: AssetId -> Option<Price>, ghost now: nat, ghost st: Start, ghost units: map<nat, int>)
    requires Book(db.calls, db.settles, db.bitassets) && AtFront(cur, db.settles, i)
    requires OnPass(cur, db.settles, db.bitassets, db.supply, b0, s0, fillPrice, now)
    requires db.bitassets[cur.current].settlementPrice.Some? || fillPrice(cur.current).None?
    requires Served(st, db.calls, db.settles, db.supply, units, fillPrice) && st.bitassets == b0
    modifies db`settles, db`balances
    ensures Book(db.calls, db.settles, db.bitassets) && OnPass(cur, db.settles, db.bitassets, db.supply, b0, s0, fillPrice, now)
    ensures Served(st, db.calls, db.settles, db.supply, units, fillPrice)
    ensures |Remaining(db.settles, cur.current)| < old(|Remaining(db.settles, cur.current)|)
    ensures forall a :: db.Net(a) == old(db.Net(a))
  {
    hide *;
    FrontHasTurn(cur, db.settles, i);
    OrderIsKnown(db.calls, db.settles, db.bitassets, i);
    DropReady(cur, db.calls, db.settles, db.bitassets, db.supply, b0, s0, fillPrice, now, i);
    DropKeepsPass(cur, db.settles, db.bitassets, db.supply, b0, s0, fillPrice, now, i);
    CancelKeepsBook(db.calls, db.settles, db.bitassets, i);
    ServedThroughDrop(st, db.calls, db.settles, db.supply, units, fillPrice, i);
    CancelSettleOrder(db, i);
  }

  lemma ProcessingKeepsPass(cur: Cursor, settles: map<nat, SettleOrder>, bitassets: map<AssetId, Bitasset>, supply: map<AssetId, int>,
                            b0: map<AssetId, Bitasset>, s0: map<AssetId, int>, fillPrice: AssetId -> Option<Price>, now: nat, i: nat,
                            later: map<nat, SettleOrder>, supplied: map<AssetId, int>, volume: int, finished: bool)
    requires OnPass(cur, settles, bitassets, supply, b0, s0, fillPrice, now) && AtFront(cur, settles, i) && !cur.finished
    requires cur.capFor == Some(cur.current) && Trades(bitassets, fillPrice, cur.current)
    requires Processing(settles, supply, bitassets[cur.current].forceSettled, cur.cap, later, supplied, volume, i)
    requires i in later ==> (finished || volume >= cur.cap) && BuysNothing(cur.cap - volume, fillPrice(cur.current).value)
    ensures var next := cur.(finished := finished && i in later); var b := WithVolume(bitassets, cur.current, volume);
            && OnPass(next, later, b, supplied, b0, s0, fillPrice, now)
            && |Remaining(later, next.current)| <= |Remaining(settles, cur.current)|
            && (i !in later ==> |Remaining(later, next.current)| < |Remaining(settles, cur.current)|)
            && (i in later ==> Blocked(next, later, b))
  {
    var b := WithVolume(bitassets, cur.current, volume);
    ProcessingStaysBounded(b0, s0, bitassets, supply, cur.current, volume, supplied);
    BoundedIsKnown(b0, s0, b, supplied);
    ProcessingKeepsRest(settles, bitassets, supply, fillPrice, now, i, later, volume, supplied);
    ShrunkenOrders(settles, later, i);
    FewerRemain(settles, cur.current, later, cur.current, i);
    hide Rests, Bounded, Fixed, Known, BuysNothing, OnlyShrinks, RestBelow, Remaining, Moved;
  }

  lemma ShrunkenOrders(settles: map<nat, SettleOrder>, later: map<nat, SettleOrder>, i: nat)
    requires OnlyShrinks(settles, later, i) && i in settles
    ensures later.Keys <= settles.Keys && forall k :: k in later ==> later[k].balance.id == settles[k].balance.id
  {
    forall k | k in later ensures k in settles && later[k].balance.id == settles[k].balance.id {
      if k != i { assert k in later - {i} && k in settles - {i}; }
    }
  }

  /** Settle the front order as far as the cap allows. */
  method ProcessFront(db: Database, cur: Cursor, i: nat, now: nat, fillPrice: AssetId -> Option<Price>, callPrice: CallOrder -> Price,
                      ghost b0: map<AssetId, Bitasset>, ghost s0: map<AssetId, int>, ghost st: Start, ghost units0: map<nat, int>)
    returns (thrown: bool, next: Cursor, ghost units: map<nat, int>)
    requires Book(db.calls, db.settles, db.bitassets) && AtFront(cur, db.settles, i) && !cur.finished
    requires OnPass(cur, db.settles, db.bitassets, db.supply, b0, s0, fillPrice, now)
    requires cur.capFor == Some(cur.current) && Trades(db.bitassets, fillPrice, cur.current)
    requires Served(st, db.calls, db.settles, db.supply, units0, fillPrice)
    modifies db`calls, db`supply, db`balances, db`coreInOrders, db`settles, db`accumulatedFees, db`bitassets
    ensures old(Solid(db.calls, fillPrice)) ==> !thrown && Solid(db.calls, fillPrice)
    ensures !thrown ==>
              && Book(db.calls, db.settles, db.bitassets) && OnPass(next, db.settles, db.bitassets, db.supply, b0, s0, fillPrice, now)
              && |Remaining(db.settles, next.current)| <= old(|Remaining(db.settles, cur.current)|)
              && (|Remaining(db.settles, next.current)| < old(|Remaining(db.settles, cur.current)|) || Blocked(next, db.settles, db.bitassets))
    ensures !thrown ==> Served(st, db.calls, db.settles, db.supply, units, fillPrice)
    ensures forall a :: db.Net(a) == old(db.Net(a))
    ensures forall w :: db.CoreGap(w) == old(db.CoreGap(w))
    ensures forall a :: db.Unbacked(a) == old(db.Unbacked(a))
  {
    hide AtFront, Book, Solid, Served, HasTurn, OnPass, Processing, BuysNothing, Blocked, Remaining, Before, Trades, Database.Net, Database.CoreGap, Database.Unbacked;
    FrontHasTurn(cur, db.settles, i);
    var finished;
    thrown, finished, units := ProcessOrder(db, i, fillPrice, cur.cap, callPrice, st, units0);
    if thrown {
      return true, cur, units0;
    }
    ProcessingKeepsPass(cur, old(db.settles), old(db.bitassets), old(db.supply), b0, s0, fillPrice, now, i,
                        db.settles, db.supply, db.bitassets[cur.current].forceSettled, finished);
    next := cur.(finished := finished && i in db.settles);
  }

  lemma FrontRests(cur: Cursor, settles: map<nat, SettleOrder>, bitassets: map<AssetId, Bitasset>, supply: map<AssetId, int>,
                   b0: map<AssetId, Bitasset>, s0: map<AssetId, int>, fillPrice: AssetId -> Option<Price>, now: nat, i: nat)
    requires OnPass(cur, settles, bitassets, supply, b0, s0, fillPrice, now) && AtFront(cur, settles, i)
    requires cur.current in bitassets && bitassets[cur.current].settlementPrice.None?
    requires settles[i].date > now
             || (fillPrice(cur.current).Some? && cur.capFor == Some(cur.current) && (bitassets[cur.current].forceSettled >= cur.cap || cur.finished))
    ensures RestBelow(settles, bitassets, supply, fillPrice, now, cur.current + 1)
  {
    BoundedIsKnown(b0, s0, bitassets, supply);
    assert Rests(settles[i], bitassets, supply, fillPrice, now);
    AssetRests(settles, bitassets, supply, fillPrice, now, i);
  }

  lemma AssetTrades(cur: Cursor, settles: map<nat, SettleOrder>, bitassets: map<AssetId, Bitasset>, supply: map<AssetId, int>,
                    b0: map<AssetId, Bitasset>, s0: map<AssetId, int>, fillPrice: AssetId -> Option<Price>, now: nat)
    requires OnPass(cur, settles, bitassets, supply, b0, s0, fillPrice, now) && cur.current in bitassets
    requires bitassets[cur.current].settlementPrice.None? && fillPrice(cur.current).Some?
    ensures Trades(bitassets, fillPrice, cur.current)
  {
  }

  lemma OrderIsKnown(calls: map<nat, CallOrder>, settles: map<nat, SettleOrder>, bitassets: map<AssetId, Bitasset>, i: nat)
    requires Book(calls, settles, bitassets) && i in settles
    ensures settles[i].balance.id in bitassets
  {
  }

  /** The cap is computed once per asset. */
  method WithCap(db: Database, cur: Cursor, ghost b0: map<AssetId, Bitasset>, ghost s0: map<AssetId, int>,
                 ghost fillPrice: AssetId -> Option<Price>, ghost now: nat) returns (c: Cursor)
    requires OnPass(cur, db.settles, db.bitassets, db.supply, b0, s0, fillPrice, now) && cur.current in db.bitassets
    ensures OnPass(c, db.settles, db.bitassets, db.supply, b0, s0, fillPrice, now)
    ensures c.current == cur.current && c.finished == cur.finished && c.capFor == Some(cur.current)
    ensures cur.capFor == Some(cur.current) ==> c == cur
  {
    BoundedIsKnown(b0, s0, db.bitassets, db.supply);
    if cur.capFor == Some(cur.current) {
      return cur;
    }
    return cur.(capFor := Some(cur.current), cap := Cap(db.bitassets[cur.current], At(db.supply, cur.current)));
  }

  /** One iteration of the pass: an order is removed, or the pass moves on, or it is blocked and moves on next. */
  method PassStep(db: Database, cur: Cursor, now: nat, fillPrice: AssetId -> Option<Price>, callPrice: CallOrder -> Price,
                  ghost b0: map<AssetId, Bitasset>, ghost s0: map<AssetId, int>, ghost st: Start, ghost units0: map<nat, int>)
    returns (thrown: bool, done: bool, next: Cursor, ghost units: map<nat, int>)
    requires Book(db.calls, db.settles, db.bitassets) && OnPass(cur, db.settles, db.bitassets, db.supply, b0, s0, fillPrice, now)
    requires Served(st, db.calls, db.settles, db.supply, units0, fillPrice) && st.bitassets == b0
    modifies db`calls, db`supply, db`balances, db`coreInOrders, db`settles, db`accumulatedFees, db`bitassets
    ensures old(Solid(db.calls, fillPrice)) ==> !thrown && Solid(db.calls, fillPrice)
    ensures !thrown ==> Book(db.calls, db.settles, db.bitassets) && OnPass(next, db.settles, db.bitassets, db.supply, b0, s0, fillPrice, now)
    ensures !thrown && done ==> forall k :: k in db.settles ==> Rests(db.settles[k], db.bitassets, db.supply, fillPrice, now)
    ensures !thrown && !done ==>
              var left, before := |Remaining(db.settles, next.current)|, old(|Remaining(db.settles, cur.current)|);
              left < before || (left == before && Blocked(next, db.settles, db.bitassets) && !old(Blocked(cur, db.settles, db.bitassets)))
    ensures !thrown ==> Served(st, db.calls, db.settles, db.supply, units, fillPrice)
    ensures forall a :: db.Net(a) == old(db.Net(a))
    ensures forall w :: db.CoreGap(w) == old(db.CoreGap(w))
    ensures forall a :: db.Unbacked(a) == old(db.Unbacked(a))
  {
    hide Book, Served, Rests, Bounded, Fixed, BuysNothing, Solid, Trades, Remaining, Blocked, Before, Database.Net, Database.CoreGap, Database.Unbacked;
    thrown, done, units := false, false, units0;
    var first := FirstFrom(db, cur.current);
    if first.None? {
      return false, true, cur, units0;
    }
    var i := first.value;
    ComesToFront(cur, db.settles, db.bitassets, db.supply, b0, s0, fillPrice, now, i);
    OrderIsKnown(db.calls, db.settles, db.bitassets, i);
    var c := cur.(current := db.settles[i].balance.id);
    var b := db.bitassets[c.current];
    if b.settlementPrice.Some? {
      DropFront(db, c, i, b0, s0, fillPrice, now, st, units0);
      return false, false, c, units0;
    }
    if db.settles[i].date > now {
      FrontRests(c, db.settles, db.bitassets, db.supply, b0, s0, fillPrice, now, i);
      done, next := NextAsset(db, c, i, b0, s0, fillPrice, now);
      return false, done, if done then c else next, units0;
    }
    if fillPrice(c.current).None? {
      DropFront(db, c, i, b0, s0, fillPrice, now, st, units0);
      return false, false, c, units0;
    }
    var capped := WithCap(db, c, b0, s0, fillPrice, now);
    if b.forceSettled >= capped.cap || capped.finished {
      FrontRests(capped, db.settles, db.bitassets, db.supply, b0, s0, fillPrice, now, i);
      done, next := NextAsset(db, capped, i, b0, s0, fillPrice, now);
      return false, done, if done then capped else next, units0;
    }
    AssetTrades(capped, db.settles, db.bitassets, db.supply, b0, s0, fillPrice, now);
    thrown, next, units := ProcessFront(db, capped, i, now, fillPrice, callPrice, b0, s0, st, units0);
  }

  /**
   Settle all orders that are due.  The pass ends, conserves value, never lifts an asset's settled
   volume over its cap, throws only if some position cannot buy back its debt, and leaves only orders that
   rest.  `units` of each order are settled: exactly these leave the supply, and nothing else goes missing
   from an order whose asset can be settled but units that buy nothing.  Orders are served in their turn, by
   the positions with the least collateral per debt.
   */
  method ClearExpiredSettlements(db: Database, now: nat, fillPrice: AssetId -> Option<Price>, callPrice: CallOrder -> Price)
    returns (thrown: bool, ghost units: map<nat, int>)
    requires Book(db.calls, db.settles, db.bitassets) && Fixed(db.bitassets, db.supply, fillPrice)
    modifies db`calls, db`supply, db`balances, db`coreInOrders, db`settles, db`accumulatedFees, db`bitassets
    ensures old(Solid(db.calls, fillPrice)) ==> !thrown && Solid(db.calls, fillPrice)
    ensures !thrown ==> Book(db.calls, db.settles, db.bitassets) && Known(db.bitassets, db.supply)
    ensures !thrown ==> Bounded(old(db.bitassets), old(db.supply), db.bitassets, db.supply)
    ensures !thrown ==> forall k :: k in db.settles ==> Rests(db.settles[k], db.bitassets, db.supply, fillPrice, now)
    ensures !thrown ==> Served(Start(old(db.calls), old(db.settles), old(db.supply), old(db.bitassets)), db.calls, db.settles, db.supply, units, fillPrice)
    ensures forall a :: db.Net(a) == old(db.Net(a))
    ensures forall w :: db.CoreGap(w) == old(db.CoreGap(w))
    ensures forall a :: db.Unbacked(a) == old(db.Unbacked(a))
  {
    hide *;
    ghost var b0, s0 := db.bitassets, db.supply;
    ghost var st := Start(db.calls, db.settles, db.supply, db.bitassets);
    var cur, done := Cursor(0, false, None, 0), false;
    PassStarts(cur, st, fillPrice, now);
    PassEnds(cur, db.settles, db.bitassets, db.supply, b0, s0, fillPrice, now);
    units := NoUnits(db.settles);
    while !done
      invariant Book(db.calls, db.settles, db.bitassets) && OnPass(cur, db.settles, db.bitassets, db.supply, b0, s0, fillPrice, now)
      invariant Known(db.bitassets, db.supply) && Bounded(b0, s0, db.bitassets, db.supply)
      invariant Served(st, db.calls, db.settles, db.supply, units, fillPrice)
      invariant old(Solid(db.calls, fillPrice)) ==> Solid(db.calls, fillPrice)
      invariant done ==> forall k :: k in db.settles ==> Rests(db.settles[k], db.bitassets, db.supply, fillPrice, now)
      invariant forall a :: db.Net(a) == old(db.Net(a))
      invariant forall w :: db.CoreGap(w) == old(db.CoreGap(w))
      invariant forall a :: db.Unbacked(a) == old(db.Unbacked(a))
      decreases !done, |Remaining(db.settles, cur.current)|, !Blocked(cur, db.settles, db.bitassets)
    {
      thrown, done, cur, units := PassStep(db, cur, now, fillPrice, callPrice, b0, s0, st, units);
      if thrown {
        return;
      }
      PassEnds(cur, db.settles, db.bitassets, db.supply, b0, s0, fillPrice, now);
    }
    thrown := false;
  }

  lemma PassStarts(cur: Cursor, st: Start, fillPrice: AssetId -> Option<Price>, now: nat)
    requires Book(st.calls, st.settles, st.bitassets) && Fixed(st.bitassets, st.supply, fillPrice) && cur == Cursor(0, false, None, 0)
    ensures Known(st.bitassets, st.supply) && OnPass(cur, st.settles, st.bitassets, st.supply, st.bitassets, st.supply, fillPrice, now)
    ensures Served(st, st.calls, st.settles, st.supply, NoUnits(st.settles), fillPrice)
  {
    NothingServedYet(st, fillPrice);
    hide Served, Owed;
  }

  lemma PassEnds(cur: Cursor, settles: map<nat, SettleOrder>, bitassets: map<AssetId, Bitasset>, supply: map<AssetId, int>,
                 b0: map<AssetId, Bitasset>, s0: map<AssetId, int>, fillPrice: AssetId -> Option<Price>, now: nat)
    requires OnPass(cur, settles, bitassets, supply, b0, s0, fillPrice, now)
    ensures Known(b0, s0) && Known(bitassets, supply) && Bounded(b0, s0, bitassets, supply)
  {
    hide Rests, RestBelow, BuysNothing, CapIn, Blocked;
  }
}
