/**
 Global settlement of a market-issued asset, redemption of its units from the settlement fund, and
 its revival when collateral bids cover the outstanding supply.
 */
module Settlement {
  import opened Amounts
  import opened Sums
  import opened Matching
  import opened Ledger
  import opened Options
  import opened MarginMarket

  // Closing all positions -------------------------------------------------------------------

  /** What a position pays into the fund: its debt at the settlement price, rounded up, capped by its collateral. */
  function PaysIn(c: CallOrder, price: Price): int
    requires c.debt >= 0 && price.base.amount > 0 && price.quote.amount >= 0
  {
    var pays := Up(c.debt, price.quote.amount, price.base.amount);
    if pays > c.collateral then c.collateral else pays
  }

  /** `paid` is the least amount that is worth the position's debt at `price`, or the whole collateral if that is less. */
  ghost predicate Settles(c: CallOrder, price: Price, paid: int) {
    forall k: nat :: paid <= k <==> k >= c.collateral || c.debt * price.quote.amount <= k * price.base.amount
  }

  lemma PaysInSettles(c: CallOrder, price: Price)
    requires c.debt >= 0 && c.collateral >= 0 && price.base.amount > 0 && price.quote.amount >= 0
    ensures Settles(c, price, PaysIn(c, price)) && 0 <= PaysIn(c, price) <= c.collateral
    ensures forall p :: p >= 0 && Settles(c, price, p) ==> p == PaysIn(c, price)
  {
    var r := PaysIn(c, price);
    forall k: nat ensures r <= k <==> k >= c.collateral || c.debt * price.quote.amount <= k * price.base.amount {
      UpAdjoint(c.debt, price.quote.amount, price.base.amount, k);
    }
    hide PaysIn;
    forall p | p >= 0 && Settles(c, price, p) ensures p == r {
      assert p <= r <==> r >= c.collateral || c.debt * price.quote.amount <= r * price.base.amount;
      assert r <= p <==> p >= c.collateral || c.debt * price.quote.amount <= p * price.base.amount;
    }
  }

  /** Position `j` is the only one of its borrower in `mia`. */
  ghost predicate Sole(calls: map<nat, CallOrder>, j: nat, mia: AssetId) {
    && j in calls && calls[j].debtId == mia
    && forall k :: k in calls && k != j && calls[k].debtId == mia ==> calls[k].borrower != calls[j].borrower
  }

  /** A borrower with one position gets back all but what settles it. */
  lemma SoleBorrowerIsFreed(calls: map<nat, CallOrder>, mia: AssetId, price: Price, j: nat, paid: nat)
    requires AllOpen(calls) && price.base.amount > 0 && price.quote.amount >= 0 && Sole(calls, j, mia) && Settles(calls[j], price, paid)
    ensures Total(calls, FreedTo(mia, price, calls[j].borrower)) == calls[j].collateral - paid
  {
    var w := FreedTo(mia, price, calls[j].borrower);
    PaysInSettles(calls[j], price);
    TotalPick(calls, j, w);
    TotalZero(calls - {j}, w);
  }

  ghost function PaidIn(mia: AssetId, price: Price): (nat, CallOrder) -> int
    requires price.base.amount > 0 && price.quote.amount >= 0
  {
    (j: nat, c: CallOrder) => if c.debtId == mia && c.debt >= 0 then PaysIn(c, price) else 0
  }

  ghost function FreedTo(mia: AssetId, price: Price, who: AccountId): (nat, CallOrder) -> int
    requires price.base.amount > 0 && price.quote.amount >= 0
  {
    (j: nat, c: CallOrder) => if c.debtId == mia && c.borrower == who && c.debt >= 0 then c.collateral - PaysIn(c, price) else 0
  }

  ghost predicate BackedBy(calls: map<nat, CallOrder>, mia: AssetId, backing: AssetId) {
    forall j :: j in calls && calls[j].debtId == mia ==> calls[j].collateralId == backing
  }

  /** What is freed by closing positions goes to their borrowers: balances and what is still to be freed stay the same in sum. */
  ghost predicate Freeing(calls0: map<nat, CallOrder>, calls: map<nat, CallOrder>, balances0: map<(AccountId, AssetId), int>,
                          balances: map<(AccountId, AssetId), int>, mia: AssetId, backing: AssetId, price: Price)
    requires price.base.amount > 0 && price.quote.amount >= 0
  {
    forall who: AccountId, a: AssetId ::
      At(balances, (who, a)) + (if a == backing then Total(calls, FreedTo(mia, price, who)) else 0)
      == At(balances0, (who, a)) + (if a == backing then Total(calls0, FreedTo(mia, price, who)) else 0)
  }

  lemma FreeingComposes(c0: map<nat, CallOrder>, c1: map<nat, CallOrder>, c2: map<nat, CallOrder>, b0: map<(AccountId, AssetId), int>,
                        b1: map<(AccountId, AssetId), int>, b2: map<(AccountId, AssetId), int>, mia: AssetId, backing: AssetId, price: Price)
    requires price.base.amount > 0 && price.quote.amount >= 0
    requires Freeing(c0, c1, b0, b1, mia, backing, price) && Freeing(c1, c2, b1, b2, mia, backing, price)
    ensures Freeing(c0, c2, b0, b2, mia, backing, price)
  {
    hide FreedTo, Total;
    forall who: AccountId, a: AssetId
      ensures At(b2, (who, a)) + (if a == backing then Total(c2, FreedTo(mia, price, who)) else 0)
              == At(b0, (who, a)) + (if a == backing then Total(c0, FreedTo(mia, price, who)) else 0)
    {
      assert At(b1, (who, a)) + (if a == backing then Total(c1, FreedTo(mia, price, who)) else 0)
             == At(b0, (who, a)) + (if a == backing then Total(c0, FreedTo(mia, price, who)) else 0);
    }
  }

  method CloseAtSettlement(db: Database, j: nat, mia: AssetId, price: Price, callPrice: CallOrder -> Price) returns (paid: int)
    requires j in db.calls && db.calls[j].debtId == mia && db.calls[j].collateralId != mia
    requires db.calls[j].debt > 0 && db.calls[j].collateral >= 0
    requires price.base.amount > 0 && price.quote.amount >= 0
    modifies db`calls, db`supply, db`balances, db`coreInOrders
    ensures var c := old(db.calls[j]);
            && paid == PaysIn(c, price) && 0 <= paid <= c.collateral
            && (forall a :: At(db.supply, a) == old(At(db.supply, a)) - (if a == mia then c.debt else 0))
            && Freeing(old(db.calls), db.calls, old(db.balances), db.balances, mia, c.collateralId, price)
            && (forall a :: db.Net(a) == old(db.Net(a)) - (if a == c.collateralId then paid else 0) + (if a == mia then c.debt else 0))
    ensures db.calls == old(db.calls) - {j}
    ensures Total(db.calls, PaidIn(mia, price)) == Total(old(db.calls), PaidIn(mia, price)) - paid
    ensures forall w :: db.CoreGap(w) == old(db.CoreGap(w))
  {
    hide Database.Net, Database.CoreGap, Database.Unbacked, Up;
    var c := db.calls[j];
    paid := PaysIn(c, price);
    TotalRemove(db.calls, j, PaidIn(mia, price));
    forall who ensures Total(db.calls - {j}, FreedTo(mia, price, who)) == Total(db.calls, FreedTo(mia, price, who)) - (if who == c.borrower then c.collateral - paid else 0) {
      TotalRemove(db.calls, j, FreedTo(mia, price, who));
    }
    var thrown, closed := FillCallOrder(db, j, paid, c.debt, callPrice);
  }

  /** What is summed up for each position of `mia` is what settles it. */
  ghost predicate EachSettles(calls: map<nat, CallOrder>, mia: AssetId, price: Price)
    requires price.base.amount > 0 && price.quote.amount >= 0
  {
    forall j :: j in calls && calls[j].debtId == mia && calls[j].debt >= 0 ==> Settles(calls[j], price, PaidIn(mia, price)(j, calls[j]))
  }

  lemma EachOneSettles(calls: map<nat, CallOrder>, mia: AssetId, price: Price)
    requires AllOpen(calls) && price.base.amount > 0 && price.quote.amount >= 0
    ensures EachSettles(calls, mia, price)
  {
    forall j | j in calls && calls[j].debtId == mia ensures Settles(calls[j], price, PaidIn(mia, price)(j, calls[j])) {
      PaysInSettles(calls[j], price);
    }
  }

  method CloseAllPositions(db: Database, mia: AssetId, backing: AssetId, price: Price, callPrice: CallOrder -> Price) returns (gathered: int)
    requires mia != backing && price.base.amount > 0 && price.quote.amount >= 0
    requires AllOpen(db.calls) && BackedBy(db.calls, mia, backing)
    modifies db`calls, db`supply, db`balances, db`coreInOrders
    ensures db.calls == map j | j in old(db.calls) && old(db.calls)[j].debtId != mia :: old(db.calls)[j]
    ensures gathered == Total(old(db.calls), PaidIn(mia, price)) && EachSettles(old(db.calls), mia, price)
    ensures forall a :: a != mia ==> At(db.supply, a) == old(At(db.supply, a))
    ensures forall who, a :: db.Balance(who, a) == old(db.Balance(who, a))
                             + (if a == backing then Total(old(db.calls), FreedTo(mia, price, who)) else 0)
    ensures forall a :: db.Net(a) == old(db.Net(a)) - (if a == backing then gathered else 0)
                                     + (if a == mia then old(At(db.supply, mia)) - At(db.supply, mia) else 0)
    ensures forall w :: db.CoreGap(w) == old(db.CoreGap(w))
  {
    hide Database.Net, Database.CoreGap, Database.Unbacked, Up, PaysIn, PaidIn, FreedTo, Total, EachSettles, Settles, Closing, AllOpen, BackedBy, Freeing;
    EachOneSettles(db.calls, mia, price);
    ghost var before, supply := db.calls, db.supply;
    gathered := 0;
    var open := set j | j in db.calls && db.calls[j].debtId == mia;
    ClosingStarts(before, db.balances, mia, backing, price, open);
    while open != {}
      invariant Closing(before, db.calls, mia, open)
      invariant gathered + Total(db.calls, PaidIn(mia, price)) == Total(before, PaidIn(mia, price))
      invariant forall a :: a != mia ==> At(db.supply, a) == At(supply, a)
      invariant Freeing(before, db.calls, old(db.balances), db.balances, mia, backing, price)
      invariant forall a :: db.Net(a) == old(db.Net(a)) - (if a == backing then gathered else 0)
                                         + (if a == mia then At(supply, mia) - At(db.supply, mia) else 0)
      invariant forall w :: db.CoreGap(w) == old(db.CoreGap(w))
      decreases |open|
    {
      var j :| j in open;
      ClosingGoesOn(before, db.calls, mia, backing, open, j);
      ghost var calls, balances := db.calls, db.balances;
      var paid := CloseAtSettlement(db, j, mia, price, callPrice);
      FreeingComposes(before, calls, db.calls, old(db.balances), balances, db.balances, mia, backing, price);
      gathered := gathered + paid;
      open := open - {j};
    }
    NothingLeftToClose(before, db.calls, mia, price);
    AllFreed(before, db.calls, old(db.balances), db.balances, mia, backing, price);
  }

  /** Positions in other assets are untouched, and `open` are the positions in `mia` that are left. */
  ghost predicate Closing(before: map<nat, CallOrder>, calls: map<nat, CallOrder>, mia: AssetId, open: set<nat>) {
    && (forall j :: j in open <==> j in calls && calls[j].debtId == mia)
    && (forall j :: j in calls ==> j in before && calls[j] == before[j])
    && (forall j :: j in before && before[j].debtId != mia ==> j in calls)
  }

  lemma ClosingStarts(calls: map<nat, CallOrder>, balances: map<(AccountId, AssetId), int>, mia: AssetId, backing: AssetId, price: Price, open: set<nat>)
    requires price.base.amount > 0 && price.quote.amount >= 0 && open == set j | j in calls && calls[j].debtId == mia
    ensures Closing(calls, calls, mia, open) && Freeing(calls, calls, balances, balances, mia, backing, price)
  {
  }

  lemma ClosingGoesOn(before: map<nat, CallOrder>, calls: map<nat, CallOrder>, mia: AssetId, backing: AssetId, open: set<nat>, j: nat)
    requires Closing(before, calls, mia, open) && AllOpen(before) && BackedBy(before, mia, backing) && j in open
    ensures j in calls && calls[j].debtId == mia && calls[j].collateralId == backing && calls[j].debt > 0 && calls[j].collateral >= 0
    ensures Closing(before, calls - {j}, mia, open - {j})
  {
  }

  lemma AllFreed(calls0: map<nat, CallOrder>, calls: map<nat, CallOrder>, balances0: map<(AccountId, AssetId), int>,
                 balances: map<(AccountId, AssetId), int>, mia: AssetId, backing: AssetId, price: Price)
    requires price.base.amount > 0 && price.quote.amount >= 0
    requires Freeing(calls0, calls, balances0, balances, mia, backing, price)
    requires forall who :: Total(calls, FreedTo(mia, price, who)) == 0
    ensures forall who, a :: At(balances, (who, a)) == At(balances0, (who, a)) + (if a == backing then Total(calls0, FreedTo(mia, price, who)) else 0)
  {
    hide FreedTo, Total;
  }

  lemma NothingLeftToClose(before: map<nat, CallOrder>, calls: map<nat, CallOrder>, mia: AssetId, price: Price)
    requires price.base.amount > 0 && price.quote.amount >= 0
    requires Closing(before, calls, mia, {})
    ensures Total(calls, PaidIn(mia, price)) == 0
    ensures forall who :: Total(calls, FreedTo(mia, price, who)) == 0
    ensures calls == map j | j in before && before[j].debtId != mia :: before[j]
  {
    assert forall j :: j in calls ==> j !in {};
    TotalZero(calls, PaidIn(mia, price));
    forall who ensures Total(calls, FreedTo(mia, price, who)) == 0 {
      TotalZero(calls, FreedTo(mia, price, who));
    }
  }

  /**
   Force-close every position of `mia` at `price`.  The fund is the sum of what the positions pay,
   every borrower gets the rest of the collateral back, the supply is reported unchanged, and the
   settlement price is supply per fund.
   */
  method GloballySettle(db: Database, mia: AssetId, price: Price, callPrice: CallOrder -> Price)
    requires mia in db.bitassets && db.bitassets[mia].settlementPrice.None? && db.bitassets[mia].fund == 0
    requires mia != db.bitassets[mia].backing && price.base.amount > 0 && price.quote.amount >= 0
    requires AllOpen(db.calls) && BackedBy(db.calls, mia, db.bitassets[mia].backing)
    modifies db`calls, db`supply, db`balances, db`coreInOrders, db`bitassets
    ensures db.calls == map j | j in old(db.calls) && old(db.calls)[j].debtId != mia :: old(db.calls)[j]
    ensures var fund := Total(old(db.calls), PaidIn(mia, price));
            var b := old(db.bitassets[mia]);
            db.bitassets == old(db.bitassets)[mia := b.(settlementPrice := Some(Price(Asset(old(At(db.supply, mia)), mia), Asset(fund, b.backing))), fund := fund)]
    ensures At(db.supply, mia) > 0 ==> SoundFund(db.bitassets[mia], At(db.supply, mia))
    ensures forall a :: At(db.supply, a) == old(At(db.supply, a))
    ensures forall who, a :: db.Balance(who, a) == old(db.Balance(who, a))
                             + (if a == old(db.bitassets[mia].backing) then Total(old(db.calls), FreedTo(mia, price, who)) else 0)
    ensures EachSettles(old(db.calls), mia, price)
    ensures forall j, paid: nat :: Sole(old(db.calls), j, mia) && Settles(old(db.calls)[j], price, paid) ==>
              var c := old(db.calls)[j];
              db.Balance(c.borrower, c.collateralId) == old(db.Balance(c.borrower, c.collateralId)) + c.collateral - paid
    ensures forall a :: db.Net(a) == old(db.Net(a))
    ensures forall w :: db.CoreGap(w) == old(db.CoreGap(w))
  {
    hide Database.Net, Database.CoreGap, Database.Unbacked, PaidIn, FreedTo, EachSettles, Settles;
    forall j, paid: nat | Sole(db.calls, j, mia) && Settles(db.calls[j], price, paid)
      ensures Total(db.calls, FreedTo(mia, price, db.calls[j].borrower)) == db.calls[j].collateral - paid
    {
      SoleBorrowerIsFreed(db.calls, mia, price, j, paid);
    }
    var b := db.bitassets[mia];
    var original := At(db.supply, mia);
    FundIsNotNegative(db.calls, mia, price);
    var gathered := CloseAllPositions(db, mia, b.backing, price, callPrice);
    db.SetBitasset(mia, b.(settlementPrice := Some(Price(Asset(original, mia), Asset(gathered, b.backing))), fund := gathered));
    db.AdjustSupply(mia, original - At(db.supply, mia));
    if original > 0 {
      FreshFundIsSound(db.bitassets[mia], original, gathered);
    }
  }

  lemma FundIsNotNegative(calls: map<nat, CallOrder>, mia: AssetId, price: Price)
    requires price.base.amount > 0 && price.quote.amount >= 0 && AllOpen(calls)
    ensures Total(calls, PaidIn(mia, price)) >= 0
  {
    forall k | k in calls ensures PaidIn(mia, price)(k, calls[k]) >= 0 {
    }
    TotalBoundsTerm(calls, PaidIn(mia, price));
  }

  /** A position with debt and collateral leaves something in the fund, so settling at a positive price does. */
  lemma SettlingFillsTheFund(calls: map<nat, CallOrder>, mia: AssetId, price: Price, j: nat)
    requires price.base.amount > 0 && price.quote.amount > 0 && AllOpen(calls)
    requires j in calls && calls[j].debtId == mia && calls[j].collateral > 0
    ensures Total(calls, PaidIn(mia, price)) > 0
  {
    var c := calls[j];
    var pays := Up(c.debt, price.quote.amount, price.base.amount);
    assert pays > 0 by {
      MulMono(1, c.debt, price.quote.amount);
    }
    forall k | k in calls ensures PaidIn(mia, price)(k, calls[k]) >= 0 {
    }
    TotalBoundsTerm(calls, PaidIn(mia, price));
    assert PaidIn(mia, price)(j, c) == PaysIn(c, price) > 0;
  }

  // Redeeming from the fund -----------------------------------------------------------------

  /** Issued units per collateral, as fixed when the asset was settled. */
  predicate IsSettled(b: Bitasset) {
    b.settlementPrice.Some? && b.settlementPrice.value.base.amount > 0 && b.settlementPrice.value.quote.amount >= 0
  }

  /**
   The fund covers the outstanding supply at the ratio fixed at settlement.  With a non-empty fund
   at settlement, fund and supply can only be exhausted together.
   */
  ghost predicate SoundFund(b: Bitasset, supply: int) {
    && IsSettled(b) && b.fund >= 0 && supply >= 0
    && var supply0, fund0 := b.settlementPrice.value.base.amount, b.settlementPrice.value.quote.amount;
       && b.fund * supply0 >= supply * fund0
       && (if fund0 == 0 then b.fund == 0 else b.fund == 0 <==> supply == 0)
  }

  datatype Redemption = Redemption(paid: nat, received: nat)

  /** Handing in `amount` units of a settled asset. */
  function RedemptionOf(b: Bitasset, supply: nat, amount: nat): (r: Redemption)
    requires IsSettled(b) && b.fund >= 0
  {
    var supply0, fund0 := b.settlementPrice.value.base.amount, b.settlementPrice.value.quote.amount;
    if amount == supply then Redemption(amount, b.fund)
    else
      var received := Down(amount, fund0, supply0);
      if received == 0 then Redemption(amount, 0)
      else
        assert fund0 > 0 by { if fund0 == 0 { assert amount * fund0 == 0; MulMono(1, received, supply0); } }
        Redemption(Up(received, supply0, fund0), received)
  }

  function AfterRedemption(b: Bitasset, r: Redemption): Bitasset {
    b.(fund := b.fund - r.received)
  }

  /** A freshly settled asset has a sound fund. */
  lemma FreshFundIsSound(b: Bitasset, supply: nat, fund: nat)
    requires supply > 0 && b.fund == fund && b.settlementPrice.Some?
    requires b.settlementPrice.value.base.amount == supply && b.settlementPrice.value.quote.amount == fund
    ensures SoundFund(b, supply)
  {
  }

  /**
   Redeeming never asks for more than the fund holds, charges at most what was handed in, and keeps
   the fund sound; only the last holder takes the whole fund.
   */
  lemma RedemptionKeepsFundSound(b: Bitasset, supply: nat, amount: nat)
    requires SoundFund(b, supply) && amount <= supply
    ensures var r := RedemptionOf(b, supply, amount);
            && r.paid <= amount && r.received <= b.fund
            && (amount < supply ==> r.paid < supply && (b.settlementPrice.value.quote.amount > 0 ==> r.received < b.fund))
            && SoundFund(AfterRedemption(b, r), supply - r.paid)
  {
    var r := RedemptionOf(b, supply, amount);
    var supply0, fund0 := b.settlementPrice.value.base.amount, b.settlementPrice.value.quote.amount;
    if amount < supply {
      MulMono(amount, supply, fund0);
      if fund0 > 0 {
        assert (amount + 1) * fund0 == amount * fund0 + fund0;
        MulMono(amount + 1, supply, fund0);
        LessFromScaled(Down(amount, fund0, supply0), b.fund, supply0);
        DownThenUp(amount, fund0, supply0);
      }
      RatioAfter(b.fund, supply, r, supply0, fund0);
    }
  }

  /**
   What a redemption is worth: the last holder gets the whole fund; anybody else the most that is worth no
   more than the units at the fixed ratio, for the fewest units that are worth it.
   */
  lemma RedemptionIsFair(b: Bitasset, supply: nat, amount: nat)
    requires SoundFund(b, supply) && amount <= supply
    ensures var r := RedemptionOf(b, supply, amount);
            var supply0, fund0 := b.settlementPrice.value.base.amount, b.settlementPrice.value.quote.amount;
            if amount == supply then r == Redemption(amount, b.fund)
            else
              && r.received * supply0 <= amount * fund0 < (r.received + 1) * supply0
              && (if r.received == 0 then r.paid == amount else (r.paid - 1) * fund0 < r.received * supply0 <= r.paid * fund0)
  {
    var r := RedemptionOf(b, supply, amount);
    assert (r.paid - 1) * b.settlementPrice.value.quote.amount == r.paid * b.settlementPrice.value.quote.amount - b.settlementPrice.value.quote.amount;
  }

  lemma RatioAfter(fund: int, supply: int, r: Redemption, supply0: nat, fund0: nat)
    requires fund * supply0 >= supply * fund0
    requires r.received * supply0 <= r.paid * fund0
    ensures (fund - r.received) * supply0 >= (supply - r.paid) * fund0
  {
    assert (fund - r.received) * supply0 == fund * supply0 - r.received * supply0;
    assert (supply - r.paid) * fund0 == supply * fund0 - r.paid * fund0;
  }

  /** What a whole history of redemptions leaves of the fund and the supply. */
  ghost predicate RedemptionHistory(b: Bitasset, supply: nat, amounts: seq<nat>, b': Bitasset, supply': nat)
    requires IsSettled(b)
    decreases |amounts|
  {
    if amounts == [] then b' == b && supply' == supply
    else
      && b.fund >= 0 && amounts[0] <= supply
      && var r := RedemptionOf(b, supply, amounts[0]);
         r.paid <= supply && RedemptionHistory(AfterRedemption(b, r), supply - r.paid, amounts[1..], b', supply')
  }

  /** No history of redemptions unbalances the fund. */
  lemma {:induction false} HistoryKeepsFundSound(b: Bitasset, supply: nat, amounts: seq<nat>, b': Bitasset, supply': nat)
    requires SoundFund(b, supply) && RedemptionHistory(b, supply, amounts, b', supply')
    ensures SoundFund(b', supply') && b'.settlementPrice == b.settlementPrice
    decreases |amounts|
  {
    if amounts != [] {
      RedemptionKeepsFundSound(b, supply, amounts[0]);
      var r := RedemptionOf(b, supply, amounts[0]);
      HistoryKeepsFundSound(AfterRedemption(b, r), supply - r.paid, amounts[1..], b', supply');
    }
  }

  /**
   Settle `amount` units against the fund.  Refused only when they are too few to be worth a unit
   of collateral; the check against the size of the fund never fails.
   */
  method Redeem(db: Database, who: AccountId, mia: AssetId, amount: nat) returns (ok: bool, settled: nat)
    requires mia in db.bitassets && mia != db.bitassets[mia].backing && SoundFund(db.bitassets[mia], At(db.supply, mia))
    requires db.bitassets[mia].settlementPrice.value.base.id == mia && db.bitassets[mia].settlementPrice.value.quote.id == db.bitassets[mia].backing
    requires amount <= db.Balance(who, mia) <= At(db.supply, mia)
    modifies db`balances, db`bitassets, db`supply
    ensures var b := old(db.bitassets[mia]);
            var r := RedemptionOf(b, old(At(db.supply, mia)), amount);
            && ok == (r.received > 0 || b.isPrediction)
            && (!ok ==> db.balances == old(db.balances) && db.bitassets == old(db.bitassets) && db.supply == old(db.supply))
            && (ok ==>
                  && settled == r.received
                  && db.balances == Credit(Credit(old(db.balances), (who, mia), -(r.paid as int)), (who, b.backing), r.received)
                  && db.bitassets == old(db.bitassets)[mia := AfterRedemption(b, r)]
                  && db.supply == Credit(old(db.supply), mia, -(r.paid as int)))
    ensures SoundFund(db.bitassets[mia], At(db.supply, mia))
    ensures ok ==> var b := old(db.bitassets[mia]);
                   if amount == old(At(db.supply, mia)) then settled == b.fund
                   else settled * b.settlementPrice.value.base.amount <= amount * b.settlementPrice.value.quote.amount < (settled + 1) * b.settlementPrice.value.base.amount
    ensures forall a :: db.Net(a) == old(db.Net(a))
  {
    hide Database.Net;
    var b := db.bitassets[mia];
    var price := b.settlementPrice.value;
    var supply := At(db.supply, mia);
    RedemptionKeepsFundSound(b, supply, amount);
    RedemptionIsFair(b, supply, amount);
    settled := Times(Asset(amount, mia), price).amount;
    if amount == supply {
      settled := b.fund;
    } else {
      assert settled <= b.fund;
    }
    if settled == 0 && !b.isPrediction {
      return false, 0;
    }
    var pays := amount;
    if amount != supply && settled != 0 {
      pays := TimesUp(Asset(settled, b.backing), price).amount;
    }
    db.AdjustBalance(who, Asset(-pays, mia));
    if settled > 0 {
      db.SetBitasset(mia, b.(fund := b.fund - settled));
      db.AdjustBalance(who, Asset(settled, b.backing));
    }
    db.AdjustSupply(mia, -pays);
    ok := true;
  }
}
