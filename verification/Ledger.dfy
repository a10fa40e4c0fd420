/**
 The ledger every market operation works on: who holds how much of what, and where.

 `Net(a)` is everything held of asset `a` (balances, orders, collateral, settlement orders, bids,
 settlement funds, fees) minus its recorded supply.  The primitive steps below say exactly which
 field they change and by how much they move `Net`; the operations of the market are built from
 them, so that conservation is a sum of primitive moves.
 */
module Ledger {
  import opened Amounts
  import opened Options
  import opened Sums
  import opened Matching

  /** A margin position: `collateral` locked against `debt`. */
  datatype CallOrder = CallOrder(borrower: AccountId, collateral: int, debt: int, collateralId: AssetId, debtId: AssetId, callPrice: Price)

  /** Market-issued units handed in for forced settlement. */
  datatype SettleOrder = SettleOrder(owner: AccountId, balance: Asset, date: nat)

  /** Extra collateral offered for taking over debt after a global settlement (collateral / debt). */
  datatype Bid = Bid(bidder: AccountId, collateral: Asset, debt: Asset)

  /**
   A market-issued asset: what backs it, the price fixed by a global settlement (issued units per
   collateral) and the fund it left, and how much may be and has been force-settled.
   */
  datatype Bitasset = Bitasset(backing: AssetId, isPrediction: bool, settlementPrice: Option<Price>, fund: int,
                               forceSettled: int, maxForcePercent: nat)

  /** How an asset's issuer charges trades that pay out in it; a fee never exceeds the whole trade. */
  datatype FeeTerms = FeeRule(charges: bool, percent: nat, maxFee: nat)
  type FeeRule = r: FeeTerms | r.percent <= HUNDRED_PERCENT witness FeeRule(false, 0, 0)

  function At<K(==)>(m: map<K, int>, k: K): int {
    if k in m then m[k] else 0
  }

  /** Add `d` to the entry of `k`; a zero amount touches nothing. */
  function Credit<K(==)>(m: map<K, int>, k: K, d: int): map<K, int> {
    if d == 0 then m else m[k := At(m, k) + d]
  }

  // Weights -------------------------------------------------------------------------------

  ghost function BalanceIn(a: AssetId): ((AccountId, AssetId), int) -> int {
    (k: (AccountId, AssetId), v: int) => if k.1 == a then v else 0
  }

  ghost function LimitIn(a: AssetId): (nat, LimitOrder) -> int {
    (i: nat, o: LimitOrder) =>
      (if o.Sells() == a then o.forSale else 0) + (if a == CORE then o.deferredFee else 0)
      + (if o.deferredPaid.id == a then o.deferredPaid.amount else 0)
  }

  ghost function CollateralIn(a: AssetId): (nat, CallOrder) -> int {
    (i: nat, c: CallOrder) => if c.collateralId == a then c.collateral else 0
  }

  ghost function DebtIn(a: AssetId): (nat, CallOrder) -> int {
    (i: nat, c: CallOrder) => if c.debtId == a then c.debt else 0
  }

  ghost function SettleIn(a: AssetId): (nat, SettleOrder) -> int {
    (i: nat, s: SettleOrder) => if s.balance.id == a then s.balance.amount else 0
  }

  ghost function BidIn(a: AssetId): (nat, Bid) -> int {
    (i: nat, b: Bid) => if b.collateral.id == a then b.collateral.amount else 0
  }

  ghost function FundIn(a: AssetId): (AssetId, Bitasset) -> int {
    (i: AssetId, b: Bitasset) => if b.backing == a then b.fund else 0
  }

  ghost function Whole(): (nat, int) -> int {
    (i: nat, v: int) => v
  }

  ghost function CoreOffered(who: AccountId): (nat, LimitOrder) -> int {
    (i: nat, o: LimitOrder) => if o.seller == who && o.Sells() == CORE then o.forSale else 0
  }

  ghost function CorePledged(who: AccountId): (nat, CallOrder) -> int {
    (i: nat, c: CallOrder) => if c.borrower == who && c.collateralId == CORE then c.collateral else 0
  }

  lemma TotalCredit<K(!new)>(m: map<K, int>, k: K, d: int, w: (K, int) -> int)
    requires forall x: int, y: int :: w(k, x + y) == w(k, x) + w(k, y)
    ensures Total(Credit(m, k, d), w) == Total(m, w) + w(k, d)
  {
    assert w(k, 0 + 0) == w(k, 0) + w(k, 0);
    TotalSet(m, k, At(m, k) + d, w);
    if d != 0 && k !in m {
      assert w(k, At(m, k) + d) == w(k, 0) + w(k, d);
    }
  }

  class Database {
    const marketFees: AssetId -> FeeRule
    const cancelFee: nat  // scheduled fee of a limit-order cancellation, in CORE
    var balances: map<(AccountId, AssetId), int>
    var limits: map<nat, LimitOrder>
    var calls: map<nat, CallOrder>
    var settles: map<nat, SettleOrder>
    var bids: map<nat, Bid>
    var bitassets: map<AssetId, Bitasset>
    var accumulatedFees: map<AssetId, int>
    var feePool: map<AssetId, int>
    var supply: map<AssetId, int>
    var pendingFees: map<AccountId, int>
    var coreInOrders: map<AccountId, int>
    var nextCall: nat  // id of the next margin position

    constructor (marketFees: AssetId -> FeeRule, cancelFee: nat)
      ensures this.marketFees == marketFees && this.cancelFee == cancelFee
      ensures balances == map[] && limits == map[] && calls == map[] && settles == map[] && bids == map[]
      ensures bitassets == map[] && accumulatedFees == map[] && feePool == map[] && supply == map[]
      ensures pendingFees == map[] && coreInOrders == map[] && nextCall == 0
    {
      this.marketFees, this.cancelFee := marketFees, cancelFee;
      balances, limits, calls, settles, bids := map[], map[], map[], map[], map[];
      bitassets, accumulatedFees, feePool, supply, pendingFees, coreInOrders, nextCall := map[], map[], map[], map[], map[], map[], 0;
    }

    function Balance(who: AccountId, a: AssetId): int
      reads this`balances
    {
      At(balances, (who, a))
    }

    /** Everything held of `a`, less its recorded supply. */
    ghost function Net(a: AssetId): int
      reads this`balances, this`limits, this`calls, this`settles, this`bids, this`bitassets
      reads this`accumulatedFees, this`feePool, this`supply, this`pendingFees
    {
      Total(balances, BalanceIn(a)) + Total(limits, LimitIn(a)) + Total(calls, CollateralIn(a))
      + Total(settles, SettleIn(a)) + Total(bids, BidIn(a)) + Total(bitassets, FundIn(a))
      + At(accumulatedFees, a) + (if a == CORE then Total(feePool, Whole()) + Total(pendingFees, Whole()) else 0)
      - At(supply, a)
    }

    /** Recorded CORE in orders of an account, less what its orders and positions really lock. */
    ghost function CoreGap(who: AccountId): int
      reads this`limits, this`calls, this`coreInOrders
    {
      At(coreInOrders, who) - Total(limits, CoreOffered(who)) - Total(calls, CorePledged(who))
    }

    /** Supply of a market-issued asset not backed by an open margin position. */
    ghost function Unbacked(a: AssetId): int
      reads this`supply, this`calls
    {
      At(supply, a) - Total(calls, DebtIn(a))
    }

    // Primitive steps -----------------------------------------------------------------------

    method AdjustBalance(who: AccountId, delta: Asset)
      requires Balance(who, delta.id) + delta.amount >= 0 || delta.amount >= 0
      modifies this`balances
      ensures balances == Credit(old(balances), (who, delta.id), delta.amount)
      ensures forall a :: Net(a) == old(Net(a)) + (if a == delta.id then delta.amount else 0)
    {
      balances := Credit(balances, (who, delta.id), delta.amount);
      forall a: AssetId
        ensures Net(a) == old(Net(a)) + (if a == delta.id then delta.amount else 0)
      {
        TotalCredit(old(balances), (who, delta.id), delta.amount, BalanceIn(a));
      }
    }

    method CollectFee(fee: Asset)
      modifies this`accumulatedFees
      ensures accumulatedFees == Credit(old(accumulatedFees), fee.id, fee.amount)
      ensures forall a :: Net(a) == old(Net(a)) + (if a == fee.id then fee.amount else 0)
    {
      accumulatedFees := Credit(accumulatedFees, fee.id, fee.amount);
    }

    method PayFee(who: AccountId, amount: int)
      modifies this`pendingFees
      ensures pendingFees == Credit(old(pendingFees), who, amount)
      ensures forall a :: Net(a) == old(Net(a)) + (if a == CORE then amount else 0)
    {
      TotalCredit(pendingFees, who, amount, Whole());
      pendingFees := Credit(pendingFees, who, amount);
    }

    method FillFeePool(asset: AssetId, amount: int)
      modifies this`feePool
      ensures feePool == Credit(old(feePool), asset, amount)
      ensures forall a :: Net(a) == old(Net(a)) + (if a == CORE then amount else 0)
    {
      TotalCredit(feePool, asset, amount, Whole());
      feePool := Credit(feePool, asset, amount);
    }

    method AdjustSupply(asset: AssetId, amount: int)
      modifies this`supply
      ensures supply == Credit(old(supply), asset, amount)
      ensures forall a :: Net(a) == old(Net(a)) - (if a == asset then amount else 0)
      ensures forall a :: Unbacked(a) == old(Unbacked(a)) + (if a == asset then amount else 0)
    {
      supply := Credit(supply, asset, amount);
    }

    method AdjustCoreInOrders(who: AccountId, amount: int)
      modifies this`coreInOrders
      ensures coreInOrders == Credit(old(coreInOrders), who, amount)
      ensures forall w :: CoreGap(w) == old(CoreGap(w)) + (if w == who then amount else 0)
    {
      coreInOrders := Credit(coreInOrders, who, amount);
    }

    method SetLimit(i: nat, o: LimitOrder)
      modifies this`limits
      ensures limits == old(limits)[i := o]
      ensures forall a :: Net(a) == old(Net(a)) + LimitIn(a)(i, o) - (if i in old(limits) then LimitIn(a)(i, old(limits)[i]) else 0)
      ensures forall w :: CoreGap(w) == old(CoreGap(w)) - CoreOffered(w)(i, o) + (if i in old(limits) then CoreOffered(w)(i, old(limits)[i]) else 0)
    {
      limits := limits[i := o];
      forall a: AssetId
        ensures Net(a) == old(Net(a)) + LimitIn(a)(i, o) - (if i in old(limits) then LimitIn(a)(i, old(limits)[i]) else 0)
      {
        TotalSet(old(limits), i, o, LimitIn(a));
      }
      forall w: AccountId
        ensures CoreGap(w) == old(CoreGap(w)) - CoreOffered(w)(i, o) + (if i in old(limits) then CoreOffered(w)(i, old(limits)[i]) else 0)
      {
        TotalSet(old(limits), i, o, CoreOffered(w));
      }
    }

    method RemoveLimit(i: nat)
      requires i in limits
      modifies this`limits
      ensures limits == old(limits) - {i}
      ensures forall a :: Net(a) == old(Net(a)) - LimitIn(a)(i, old(limits)[i])
      ensures forall w :: CoreGap(w) == old(CoreGap(w)) + CoreOffered(w)(i, old(limits)[i])
    {
      limits := limits - {i};
      forall a: AssetId ensures Net(a) == old(Net(a)) - LimitIn(a)(i, old(limits)[i]) {
        TotalRemove(old(limits), i, LimitIn(a));
      }
      forall w: AccountId ensures CoreGap(w) == old(CoreGap(w)) + CoreOffered(w)(i, old(limits)[i]) {
        TotalRemove(old(limits), i, CoreOffered(w));
      }
    }

    method SetCall(i: nat, c: CallOrder)
      modifies this`calls
      ensures calls == old(calls)[i := c]
      ensures forall a :: Net(a) == old(Net(a)) + CollateralIn(a)(i, c) - (if i in old(calls) then CollateralIn(a)(i, old(calls)[i]) else 0)
      ensures forall w :: CoreGap(w) == old(CoreGap(w)) - CorePledged(w)(i, c) + (if i in old(calls) then CorePledged(w)(i, old(calls)[i]) else 0)
      ensures forall a :: Unbacked(a) == old(Unbacked(a)) - DebtIn(a)(i, c) + (if i in old(calls) then DebtIn(a)(i, old(calls)[i]) else 0)
    {
      calls := calls[i := c];
      forall a: AssetId
        ensures Net(a) == old(Net(a)) + CollateralIn(a)(i, c) - (if i in old(calls) then CollateralIn(a)(i, old(calls)[i]) else 0)
        ensures Unbacked(a) == old(Unbacked(a)) - DebtIn(a)(i, c) + (if i in old(calls) then DebtIn(a)(i, old(calls)[i]) else 0)
      {
        TotalSet(old(calls), i, c, CollateralIn(a));
        TotalSet(old(calls), i, c, DebtIn(a));
      }
      forall w: AccountId
        ensures CoreGap(w) == old(CoreGap(w)) - CorePledged(w)(i, c) + (if i in old(calls) then CorePledged(w)(i, old(calls)[i]) else 0)
      {
        TotalSet(old(calls), i, c, CorePledged(w));
      }
    }

    method RemoveCall(i: nat)
      requires i in calls
      modifies this`calls
      ensures calls == old(calls) - {i}
      ensures forall a :: Net(a) == old(Net(a)) - CollateralIn(a)(i, old(calls)[i])
      ensures forall w :: CoreGap(w) == old(CoreGap(w)) + CorePledged(w)(i, old(calls)[i])
      ensures forall a :: Unbacked(a) == old(Unbacked(a)) + DebtIn(a)(i, old(calls)[i])
    {
      calls := calls - {i};
      forall a: AssetId
        ensures Net(a) == old(Net(a)) - CollateralIn(a)(i, old(calls)[i])
        ensures Unbacked(a) == old(Unbacked(a)) + DebtIn(a)(i, old(calls)[i])
      {
        TotalRemove(old(calls), i, CollateralIn(a));
        TotalRemove(old(calls), i, DebtIn(a));
      }
      forall w: AccountId ensures CoreGap(w) == old(CoreGap(w)) + CorePledged(w)(i, old(calls)[i]) {
        TotalRemove(old(calls), i, CorePledged(w));
      }
    }

    method SetSettle(i: nat, s: SettleOrder)
      modifies this`settles
      ensures settles == old(settles)[i := s]
      ensures forall a :: Net(a) == old(Net(a)) + SettleIn(a)(i, s) - (if i in old(settles) then SettleIn(a)(i, old(settles)[i]) else 0)
    {
      settles := settles[i := s];
      forall a: AssetId
        ensures Net(a) == old(Net(a)) + SettleIn(a)(i, s) - (if i in old(settles) then SettleIn(a)(i, old(settles)[i]) else 0)
      {
        TotalSet(old(settles), i, s, SettleIn(a));
      }
    }

    method RemoveSettle(i: nat)
      requires i in settles
      modifies this`settles
      ensures settles == old(settles) - {i}
      ensures forall a :: Net(a) == old(Net(a)) - SettleIn(a)(i, old(settles)[i])
    {
      settles := settles - {i};
      forall a: AssetId ensures Net(a) == old(Net(a)) - SettleIn(a)(i, old(settles)[i]) {
        TotalRemove(old(settles), i, SettleIn(a));
      }
    }

    method RemoveBid(i: nat)
      requires i in bids
      modifies this`bids
      ensures bids == old(bids) - {i}
      ensures forall a :: Net(a) == old(Net(a)) - BidIn(a)(i, old(bids)[i])
    {
      bids := bids - {i};
      forall a: AssetId ensures Net(a) == old(Net(a)) - BidIn(a)(i, old(bids)[i]) {
        TotalRemove(old(bids), i, BidIn(a));
      }
    }

    method SetBitasset(i: AssetId, b: Bitasset)
      modifies this`bitassets
      ensures bitassets == old(bitassets)[i := b]
      ensures forall a :: Net(a) == old(Net(a)) + FundIn(a)(i, b) - (if i in old(bitassets) then FundIn(a)(i, old(bitassets)[i]) else 0)
    {
      bitassets := bitassets[i := b];
      forall a: AssetId
        ensures Net(a) == old(Net(a)) + FundIn(a)(i, b) - (if i in old(bitassets) then FundIn(a)(i, old(bitassets)[i]) else 0)
      {
        TotalSet(old(bitassets), i, b, FundIn(a));
      }
    }
  }
}
