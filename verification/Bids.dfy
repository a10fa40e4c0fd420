/**
 Reviving a globally settled asset from collateral bids: the best bids are executed until they
 cover the outstanding supply, and the settlement fund is shared out among them.
 */
module Bids {
  import opened Amounts
  import opened Sums
  import opened Matching
  import opened Ledger
  import opened Options
  import opened MarginMarket
  import opened Settlement

  ghost predicate ValidBids(bids: map<nat, Bid>) {
    forall i :: i in bids ==> ValidPrice(BidPrice(bids[i]))
  }

  function BidPrice(b: Bid): Price {
    Price(b.collateral, b.debt)
  }

  /** The debt a bid takes over: what it offers, at most the whole supply. */
  function BidDebt(b: Bid, supply: int): (debt: int)
    ensures debt <= b.debt.amount && debt <= supply && (debt == b.debt.amount || debt == supply)
  {
    if b.debt.amount > supply then supply else b.debt.amount
  }

  /** The part of the fund that goes with a debt, at the ratio fixed when the asset was settled, rounded down. */
  function FundShare(debt: nat, price: Price): (share: nat)
    requires price.base.amount > 0 && price.quote.amount >= 0
    ensures InProportion(debt, share, price)
  {
    Down(debt, price.quote.amount, price.base.amount)
  }

  /** `share` is the most that is worth no more than `debt` at `price`. */
  predicate InProportion(debt: int, share: int, price: Price) {
    share * price.base.amount <= debt * price.quote.amount < (share + 1) * price.base.amount
  }

  /** The position the bid would open stands at the feed. */
  predicate Stands(b: Bid, supply: nat, price: Price, acceptable: (int, int) -> bool)
    requires ValidPrice(BidPrice(b)) && price.base.amount > 0 && price.quote.amount >= 0
  {
    acceptable(BidDebt(b, supply), FundShare(BidDebt(b, supply), price) + b.collateral.amount)
  }

  /** A bid stands if its debt, at most the supply, with its own collateral and its proportion of the fund is acceptable. */
  lemma StandsMeans(b: Bid, supply: nat, price: Price, acceptable: (int, int) -> bool, debt: int, share: int)
    requires ValidPrice(BidPrice(b)) && price.base.amount > 0 && price.quote.amount >= 0
    requires debt == (if b.debt.amount > supply then supply else b.debt.amount) && InProportion(debt, share, price)
    ensures Stands(b, supply, price, acceptable) <==> acceptable(debt, b.collateral.amount + share)
  {
    var s := FundShare(BidDebt(b, supply), price);
    LessFromScaled(s, share + 1, price.base.amount);
    LessFromScaled(share, s + 1, price.base.amount);
  }

  ghost predicate Listed(bids: map<nat, Bid>, ids: seq<nat>) {
    forall k :: 0 <= k < |ids| ==> ids[k] in bids && bids[ids[k]].debt.amount >= 0
  }

  /** Debt taken over by a list of bids. */
  ghost function CoveredBy(bids: map<nat, Bid>, ids: seq<nat>, supply: int): int
    requires Listed(bids, ids)
  {
    if ids == [] then 0
    else CoveredBy(bids, ids[..|ids| - 1], supply) + BidDebt(bids[ids[|ids| - 1]], supply)
  }

  /** Fund handed out to a list of bids, each rounded down. */
  ghost function SharedOut(bids: map<nat, Bid>, ids: seq<nat>, supply: nat, price: Price): int
    requires price.base.amount > 0 && price.quote.amount >= 0
    requires Listed(bids, ids)
  {
    if ids == [] then 0
    else SharedOut(bids, ids[..|ids| - 1], supply, price) + FundShare(BidDebt(bids[ids[|ids| - 1]], supply), price)
  }

  /** `ids` are the first bids of `mia` in price order, and they just reach the supply if they reach it at all. */
  ghost predicate Selection(bids: map<nat, Bid>, mia: AssetId, ids: seq<nat>, supply: int) {
    && Listed(bids, ids)
    && (forall k :: 0 <= k < |ids| ==> bids[ids[k]].debt.id == mia)
    && (forall k, l :: 0 <= k < l < |ids| ==> ids[k] != ids[l])
    && (forall k, l :: 0 <= k < l < |ids| ==> Precedes(BidPrice(bids[ids[k]]), ids[k], BidPrice(bids[ids[l]]), ids[l]))
    && (forall k, j :: 0 <= k < |ids| && j in bids && bids[j].debt.id == mia && j !in ids
                       ==> Precedes(BidPrice(bids[ids[k]]), ids[k], BidPrice(bids[j]), j))
    && (forall k :: 0 <= k < |ids| ==> CoveredBy(bids, ids[..k], supply) < supply)
  }

  /** Bid `i` offers more collateral per unit of debt than bid `j`, or as much and is older. */
  predicate OffersMore(b: Bid, i: nat, c: Bid, j: nat) {
    b.collateral.amount * c.debt.amount > c.collateral.amount * b.debt.amount
    || (b.collateral.amount * c.debt.amount == c.collateral.amount * b.debt.amount && i <= j)
  }

  /** The chosen bids offer the most, in order, and no other bid offers more than one of them. */
  ghost predicate BestFirst(bids: map<nat, Bid>, mia: AssetId, ids: seq<nat>)
    requires Listed(bids, ids)
  {
    && (forall k, l :: 0 <= k < l < |ids| ==> OffersMore(bids[ids[k]], ids[k], bids[ids[l]], ids[l]))
    && (forall k, j :: 0 <= k < |ids| && j in bids && bids[j].debt.id == mia && j !in ids ==> OffersMore(bids[ids[k]], ids[k], bids[j], j))
  }

  lemma SelectionIsBestFirst(bids: map<nat, Bid>, mia: AssetId, ids: seq<nat>, supply: int)
    requires Selection(bids, mia, ids, supply)
    ensures BestFirst(bids, mia, ids)
  {
    hide CoveredBy;
  }

  method FirstBid(db: Database, ids: set<nat>) returns (i: nat)
    requires ids != {} && ids <= db.bids.Keys && ValidBids(db.bids)
    ensures i in ids && forall j :: j in ids ==> Precedes(BidPrice(db.bids[i]), i, BidPrice(db.bids[j]), j)
  {
    hide Precedes;
    var bids := db.bids;
    var any :| any in ids;
    var price: nat -> Price := k => if k in bids then BidPrice(bids[k]) else BidPrice(bids[any]);
    FirstExists(ids, price);
    i :| IsFirst(ids, price, i);
    forall j | j in ids ensures Precedes(BidPrice(bids[i]), i, BidPrice(bids[j]), j) {
      assert Precedes(price(i), i, price(j), j);
    }
  }

  lemma NothingSelected(bids: map<nat, Bid>, mia: AssetId, supply: int)
    ensures Selection(bids, mia, [], supply) && CoveredBy(bids, [], supply) == 0
  {
  }

  lemma SelectionExtends(bids: map<nat, Bid>, mia: AssetId, ids: seq<nat>, i: nat, supply: int)
    requires Selection(bids, mia, ids, supply) && CoveredBy(bids, ids, supply) < supply
    requires i in bids && bids[i].debt.id == mia && bids[i].debt.amount >= 0 && i !in ids
    requires forall j :: j in bids && bids[j].debt.id == mia && j !in ids ==> Precedes(BidPrice(bids[i]), i, BidPrice(bids[j]), j)
    ensures Selection(bids, mia, ids + [i], supply)
    ensures CoveredBy(bids, ids + [i], supply) == CoveredBy(bids, ids, supply) + BidDebt(bids[i], supply)
  {
    hide Precedes, BidPrice, BidDebt;
    var more := ids + [i];
    assert more[..|ids|] == ids;
    forall k | 0 <= k < |more| ensures CoveredBy(bids, more[..k], supply) < supply {
      assert more[..k] == ids[..k];
    }
  }

  /** The best bid that was not chosen, if there is one, would not stand at the feed. */
  ghost predicate Blocked(bids: map<nat, Bid>, mia: AssetId, ids: seq<nat>, supply: nat, price: Price, acceptable: (int, int) -> bool)
    requires ValidBids(bids) && price.base.amount > 0 && price.quote.amount >= 0
  {
    forall i :: IsNext(bids, mia, ids, i) ==> !Stands(bids[i], supply, price, acceptable)
  }

  /** `i` is the best bid of `mia` outside `ids`. */
  ghost predicate IsNext(bids: map<nat, Bid>, mia: AssetId, ids: seq<nat>, i: nat) {
    && i in bids && bids[i].debt.id == mia && i !in ids
    && forall j :: j in bids && bids[j].debt.id == mia && j !in ids ==> Precedes(BidPrice(bids[i]), i, BidPrice(bids[j]), j)
  }

  ghost predicate AllStand(bids: map<nat, Bid>, ids: seq<nat>, supply: nat, price: Price, acceptable: (int, int) -> bool)
    requires ValidBids(bids) && Listed(bids, ids) && price.base.amount > 0 && price.quote.amount >= 0
  {
    forall k :: 0 <= k < |ids| ==> Stands(bids[ids[k]], supply, price, acceptable)
  }

  lemma NextIsUnique(bids: map<nat, Bid>, mia: AssetId, ids: seq<nat>, i: nat, j: nat)
    requires ValidBids(bids) && IsNext(bids, mia, ids, i) && IsNext(bids, mia, ids, j)
    ensures i == j
  {
  }

  lemma NextBlocks(bids: map<nat, Bid>, mia: AssetId, ids: seq<nat>, i: nat, supply: nat, price: Price, acceptable: (int, int) -> bool)
    requires ValidBids(bids) && price.base.amount > 0 && price.quote.amount >= 0
    requires IsNext(bids, mia, ids, i) && !Stands(bids[i], supply, price, acceptable)
    ensures Blocked(bids, mia, ids, supply, price, acceptable)
  {
    forall j | IsNext(bids, mia, ids, j) ensures j == i {
      NextIsUnique(bids, mia, ids, i, j);
    }
  }

  lemma NothingLeftBlocks(bids: map<nat, Bid>, mia: AssetId, ids: seq<nat>, supply: nat, price: Price, acceptable: (int, int) -> bool)
    requires ValidBids(bids) && price.base.amount > 0 && price.quote.amount >= 0
    requires forall j :: j in bids && bids[j].debt.id == mia ==> j in ids
    ensures Blocked(bids, mia, ids, supply, price, acceptable)
  {
  }

  lemma SelectedIsNext(bids: map<nat, Bid>, mia: AssetId, ids: seq<nat>, supply: int, k: nat)
    requires Selection(bids, mia, ids, supply) && k < |ids| && ValidBids(bids)
    ensures IsNext(bids, mia, ids[..k], ids[k])
  {
    hide CoveredBy, Precedes;
    forall j | j in bids && bids[j].debt.id == mia && j !in ids[..k]
      ensures Precedes(BidPrice(bids[ids[k]]), ids[k], BidPrice(bids[j]), j)
    {
      if j in ids {
        var l :| 0 <= l < |ids| && ids[l] == j;
        assert forall m :: 0 <= m < k ==> ids[..k][m] == ids[m];
        if l == k { PrecedesTotal(BidPrice(bids[j]), j, BidPrice(bids[j]), j); }
      }
    }
  }

  /** Two selections from the same bids agree as far as both go: the choice is determined. */
  lemma {:induction false} SelectionsAgree(bids: map<nat, Bid>, mia: AssetId, ids: seq<nat>, other: seq<nat>, supply: int, k: nat)
    requires ValidBids(bids) && Selection(bids, mia, ids, supply) && Selection(bids, mia, other, supply)
    requires k <= |ids| && k <= |other|
    ensures ids[..k] == other[..k]
  {
    hide CoveredBy, Precedes, IsNext;
    if k > 0 {
      SelectionsAgree(bids, mia, ids, other, supply, k - 1);
      SelectedIsNext(bids, mia, ids, supply, k - 1);
      SelectedIsNext(bids, mia, other, supply, k - 1);
      NextIsUnique(bids, mia, ids[..k - 1], ids[k - 1], other[k - 1]);
      hide *;
      assert ids[..k] == ids[..k - 1] + [ids[k - 1]] && other[..k] == other[..k - 1] + [other[k - 1]];
    }
  }

  /** When the greedy choice is blocked short of the supply, no run of standing bids covers it. */
  lemma BlockedMeansUncoverable(bids: map<nat, Bid>, mia: AssetId, ids: seq<nat>, other: seq<nat>, supply: nat, price: Price,
                                acceptable: (int, int) -> bool)
    requires ValidBids(bids) && price.base.amount > 0 && price.quote.amount >= 0
    requires Selection(bids, mia, ids, supply) && CoveredBy(bids, ids, supply) < supply
    requires Blocked(bids, mia, ids, supply, price, acceptable)
    requires Selection(bids, mia, other, supply) && AllStand(bids, other, supply, price, acceptable)
    ensures CoveredBy(bids, other, supply) < supply
  {
    assert ids[..|ids|] == ids && other[..|other|] == other;
    if |other| <= |ids| {
      SelectionsAgree(bids, mia, ids, other, supply, |other|);
    } else {
      SelectionsAgree(bids, mia, ids, other, supply, |ids|);
      assert Stands(bids[other[|ids|]], supply, price, acceptable);
      SelectedIsNext(bids, mia, other, supply, |ids|);
      assert false;
    }
  }

  /**
   Collect bids best first while they are acceptable at the feed and the supply is not covered.
   `acceptable` says whether a position of that debt and collateral would stand at the feed.
   */
  method SelectBids(db: Database, mia: AssetId, price: Price, supply: nat, acceptable: (int, int) -> bool) returns (chosen: seq<nat>, covered: int)
    requires ValidBids(db.bids) && price.base.amount > 0 && price.quote.amount >= 0
    ensures Listed(db.bids, chosen)
    ensures Selection(db.bids, mia, chosen, supply) && BestFirst(db.bids, mia, chosen)
    ensures covered == CoveredBy(db.bids, chosen, supply)
    ensures AllStand(db.bids, chosen, supply, price, acceptable)
    ensures covered >= supply || Blocked(db.bids, mia, chosen, supply, price, acceptable)
  {
    hide Precedes, Selection, CoveredBy, BidDebt, Stands, Blocked;
    assert Selection(db.bids, mia, [], supply) && CoveredBy(db.bids, [], supply) == 0 by { NothingSelected(db.bids, mia, supply); }
    var left := set j | j in db.bids && db.bids[j].debt.id == mia;
    chosen, covered := [], 0;
    while covered < supply && left != {}
      invariant left == set j | j in db.bids && db.bids[j].debt.id == mia && j !in chosen
      invariant Listed(db.bids, chosen)
      invariant Selection(db.bids, mia, chosen, supply)
      invariant covered == CoveredBy(db.bids, chosen, supply)
      invariant forall k :: 0 <= k < |chosen| ==>
                  Stands(db.bids[chosen[k]], supply, price, acceptable)
      decreases |left|
    {
      var i := FirstBid(db, left);
      if !Stands(db.bids[i], supply, price, acceptable) {
        assert IsNext(db.bids, mia, chosen, i);
        NextBlocks(db.bids, mia, chosen, i, supply, price, acceptable);
        break;
      }
      SelectionExtends(db.bids, mia, chosen, i, supply);
      covered := covered + BidDebt(db.bids[i], supply);
      chosen := chosen + [i];
      left := left - {i};
    }
    if left == {} {
      forall j | j in db.bids && db.bids[j].debt.id == mia ensures j in chosen {
        assert j !in left;
      }
      NothingLeftBlocks(db.bids, mia, chosen, supply, price, acceptable);
    }
    SelectionIsBestFirst(db.bids, mia, chosen, supply);
  }

  // Executing bids ----------------------------------------------------------------------------

  function PositionFor(b: Bid, debt: int, fromFund: int, callPrice: CallOrder -> Price): CallOrder {
    var c := CallOrder(b.bidder, b.collateral.amount + fromFund, debt, b.collateral.id, b.debt.id, BidPrice(b));
    c.(callPrice := callPrice(c))
  }

  /** Turn a bid into a margin position with `debt` and with `fromFund` added to its collateral. */
  method ExecuteBid(db: Database, i: nat, debt: int, fromFund: int, callPrice: CallOrder -> Price)
    requires i in db.bids && db.nextCall !in db.calls
    modifies db`calls, db`nextCall, db`coreInOrders, db`bids
    ensures var b := old(db.bids[i]);
            && db.calls == old(db.calls)[old(db.nextCall) := PositionFor(b, debt, fromFund, callPrice)]
            && db.coreInOrders == Credit(old(db.coreInOrders), b.bidder, if b.collateral.id == CORE then b.collateral.amount + fromFund else 0)
            && (forall a :: db.Net(a) == old(db.Net(a)) + (if a == b.collateral.id then fromFund else 0))
            && (forall a :: db.Unbacked(a) == old(db.Unbacked(a)) - (if a == b.debt.id then debt else 0))
    ensures db.nextCall == old(db.nextCall) + 1
    ensures db.bids == old(db.bids) - {i}
    ensures forall w :: db.CoreGap(w) == old(db.CoreGap(w))
  {
    hide Database.Net, Database.CoreGap, Database.Unbacked, Credit;
    var b := db.bids[i];
    db.SetCall(db.nextCall, PositionFor(b, debt, fromFund, callPrice));
    db.nextCall := db.nextCall + 1;
    db.AdjustCoreInOrders(b.bidder, if b.collateral.id == CORE then b.collateral.amount + fromFund else 0);
    db.RemoveBid(i);
  }

  /** A share rounded down never overdraws a fund that covers what is still to be taken over. */
  lemma ShareKeepsFundSufficient(remaining: int, toCover: nat, debt: nat, price: Price)
    requires price.base.amount > 0 && price.quote.amount >= 0 && debt <= toCover
    requires remaining * price.base.amount >= toCover * price.quote.amount
    ensures FundShare(debt, price) <= remaining
    ensures (remaining - FundShare(debt, price)) * price.base.amount >= (toCover - debt) * price.quote.amount
  {
    var s0, f0 := price.base.amount, price.quote.amount;
    var share := FundShare(debt, price);
    MulMono(debt, toCover, f0);
    AtMostFromScaled(share, remaining, s0);
    assert (remaining - share) * s0 == remaining * s0 - share * s0;
    assert (toCover - debt) * f0 == toCover * f0 - debt * f0;
  }

  /** The debt the `m`-th of the chosen bids takes over: its own, except that the last one takes the rest. */
  ghost function DebtOf(bids: map<nat, Bid>, ids: seq<nat>, supply: int, m: nat): int
    requires m < |ids| && Listed(bids, ids)
  {
    if m + 1 < |ids| then BidDebt(bids[ids[m]], supply) else supply - CoveredBy(bids, ids[..m], supply)
  }

  /** The share of the fund the `m`-th of the chosen bids gets. */
  ghost function ShareOf(bids: map<nat, Bid>, ids: seq<nat>, supply: nat, fund: int, price: Price, m: nat): int
    requires m < |ids| && price.base.amount > 0 && price.quote.amount >= 0
    requires Listed(bids, ids)
  {
    if m + 1 < |ids| then FundShare(BidDebt(bids[ids[m]], supply), price) else fund - SharedOut(bids, ids[..m], supply, price)
  }

  lemma PrefixGrows(bids: map<nat, Bid>, ids: seq<nat>, supply: nat, price: Price, k: nat)
    requires k < |ids| && price.base.amount > 0 && price.quote.amount >= 0
    requires Listed(bids, ids)
    ensures CoveredBy(bids, ids[..k + 1], supply) == CoveredBy(bids, ids[..k], supply) + BidDebt(bids[ids[k]], supply)
    ensures SharedOut(bids, ids[..k + 1], supply, price) == SharedOut(bids, ids[..k], supply, price) + FundShare(BidDebt(bids[ids[k]], supply), price)
  {
    assert ids[..k + 1][..k] == ids[..k];
  }

  ghost predicate Executable(bids: map<nat, Bid>, mia: AssetId, ids: seq<nat>, supply: nat, fund: int, price: Price) {
    && ValidBids(bids) && Selection(bids, mia, ids, supply) && CoveredBy(bids, ids, supply) >= supply
    && price.base.amount > 0 && price.quote.amount >= 0
    && fund * price.base.amount >= supply * price.quote.amount && (supply == 0 ==> fund == 0)
  }

  /** What is left to cover and left in the fund once the first `k` bids have been executed. */
  ghost predicate SharedSoFar(bids: map<nat, Bid>, ids: seq<nat>, supply: nat, fund: int, price: Price, k: nat, toCover: int, remaining: int)
    requires price.base.amount > 0 && price.quote.amount >= 0 && k <= |ids|
    requires Listed(bids, ids)
  {
    if k == |ids| then toCover == 0 && remaining == 0
    else
      && toCover == supply - CoveredBy(bids, ids[..k], supply) && toCover > 0
      && remaining == fund - SharedOut(bids, ids[..k], supply, price) && remaining >= 0
      && remaining * price.base.amount >= toCover * price.quote.amount
  }

  lemma SharingStarts(bids: map<nat, Bid>, mia: AssetId, ids: seq<nat>, supply: nat, fund: nat, price: Price)
    requires Executable(bids, mia, ids, supply, fund, price)
    ensures SharedSoFar(bids, ids, supply, fund, price, 0, supply, fund)
  {
    assert ids[..0] == [];
  }

  lemma SharingGoesOn(bids: map<nat, Bid>, mia: AssetId, ids: seq<nat>, supply: nat, fund: nat, price: Price, k: nat, toCover: int, remaining: int)
    requires Executable(bids, mia, ids, supply, fund, price) && k < |ids|
    requires SharedSoFar(bids, ids, supply, fund, price, k, toCover, remaining)
    ensures var own := BidDebt(bids[ids[k]], supply);
            var debt := if own >= toCover then toCover else own;
            var share := if own >= toCover then remaining else FundShare(own, price);
            && debt == DebtOf(bids, ids, supply, k) && debt > 0
            && share == ShareOf(bids, ids, supply, fund, price, k) && share >= 0
            && own >= 0 && SharedSoFar(bids, ids, supply, fund, price, k + 1, toCover - debt, remaining - share)
  {
    hide Precedes, FundShare;
    PrefixGrows(bids, ids, supply, price, k);
    var own := BidDebt(bids[ids[k]], supply);
    if k + 1 == |ids| {
      assert ids[..k + 1] == ids;
    } else {
      assert CoveredBy(bids, ids[..k + 1], supply) < supply;
      ShareKeepsFundSufficient(remaining, toCover, own, price);
    }
  }

  /** Every bid on `mia` is in the asset that backs it. */
  predicate AllBackedBy(bids: map<nat, Bid>, mia: AssetId, backing: AssetId) {
    forall i :: i in bids && bids[i].debt.id == mia ==> bids[i].collateral.id == backing
  }

  /** The positions opened from the first `k` chosen bids, besides those that were there before. */
  ghost predicate Opened(calls0: map<nat, CallOrder>, calls: map<nat, CallOrder>, next: nat, bids: map<nat, Bid>, ids: seq<nat>,
                         supply: nat, fund: int, price: Price, callPrice: CallOrder -> Price, k: nat)
    requires price.base.amount > 0 && price.quote.amount >= 0 && k <= |ids|
    requires Listed(bids, ids)
  {
    && (forall j :: j in calls ==> j < next + k)
    && (forall j :: j in calls && j < next <==> j in calls0)
    && (forall j :: j in calls0 ==> calls[j] == calls0[j])
    && (forall m :: 0 <= m < k ==> OpenedAt(calls, next, bids, ids, supply, fund, price, callPrice, m))
  }

  /** The position opened from the `m`-th chosen bid: its debt, its own collateral and its share of the fund. */
  ghost predicate OpenedAt(calls: map<nat, CallOrder>, next: nat, bids: map<nat, Bid>, ids: seq<nat>,
                           supply: nat, fund: int, price: Price, callPrice: CallOrder -> Price, m: nat)
    requires price.base.amount > 0 && price.quote.amount >= 0 && m < |ids|
    requires Listed(bids, ids)
  {
    && next + m in calls
    && calls[next + m] == PositionFor(bids[ids[m]], DebtOf(bids, ids, supply, m), ShareOf(bids, ids, supply, fund, price, m), callPrice)
    && calls[next + m].debt > 0 && calls[next + m].collateral >= bids[ids[m]].collateral.amount
    && IsFor(calls[next + m], bids[ids[m]], callPrice)
    && (m + 1 < |ids| ==> InProportion(calls[next + m].debt, calls[next + m].collateral - bids[ids[m]].collateral.amount, price)
                          && calls[next + m].debt == if bids[ids[m]].debt.amount > supply then supply else bids[ids[m]].debt.amount)
  }

  /** A position of the bidder, in the bid's assets, with the call price that goes with it. */
  ghost predicate IsFor(c: CallOrder, b: Bid, callPrice: CallOrder -> Price) {
    && c.borrower == b.bidder && c.collateralId == b.collateral.id && c.debtId == b.debt.id
    && c.callPrice == callPrice(c.(callPrice := BidPrice(b)))
  }

  lemma OpenedOneMore(calls0: map<nat, CallOrder>, calls: map<nat, CallOrder>, next: nat, bids: map<nat, Bid>, ids: seq<nat>,
                      supply: nat, fund: int, price: Price, callPrice: CallOrder -> Price, k: nat)
    requires price.base.amount > 0 && price.quote.amount >= 0 && k < |ids|
    requires Listed(bids, ids)
    requires Opened(calls0, calls, next, bids, ids, supply, fund, price, callPrice, k)
    requires DebtOf(bids, ids, supply, k) > 0 && ShareOf(bids, ids, supply, fund, price, k) >= 0
    ensures var c := PositionFor(bids[ids[k]], DebtOf(bids, ids, supply, k), ShareOf(bids, ids, supply, fund, price, k), callPrice);
            Opened(calls0, calls[next + k := c], next, bids, ids, supply, fund, price, callPrice, k + 1) && next + k + 1 !in calls
  {
    var c := PositionFor(bids[ids[k]], DebtOf(bids, ids, supply, k), ShareOf(bids, ids, supply, fund, price, k), callPrice);
    var more := calls[next + k := c];
    assert OpenedAt(more, next, bids, ids, supply, fund, price, callPrice, k);
    hide DebtOf, ShareOf, PositionFor;
    forall m | 0 <= m < k ensures OpenedAt(more, next, bids, ids, supply, fund, price, callPrice, m) {
      assert OpenedAt(calls, next, bids, ids, supply, fund, price, callPrice, m);
    }
  }

  function Without(bids: map<nat, Bid>, ids: seq<nat>): map<nat, Bid> {
    map i | i in bids && i !in ids :: bids[i]
  }

  lemma ChosenBid(bids: map<nat, Bid>, mia: AssetId, ids: seq<nat>, supply: int, k: nat)
    requires k < |ids| && Selection(bids, mia, ids, supply)
    ensures ids[k] in bids && bids[ids[k]].debt.id == mia
    ensures ids[k] in Without(bids, ids[..k]) && Without(bids, ids[..k])[ids[k]] == bids[ids[k]]
    ensures Without(bids, ids[..k]) - {ids[k]} == Without(bids, ids[..k + 1])
  {
    hide CoveredBy, Precedes;
    assert ids[..k + 1] == ids[..k] + [ids[k]];
  }

  datatype Share = Share(debt: int, collateral: int)

  /** What one bid takes over: its own debt and its share of the fund, or all that is left. */
  function ShareFor(b: Bid, supply: nat, price: Price, toCover: int, remaining: int): Share
    requires price.base.amount > 0 && price.quote.amount >= 0 && b.debt.amount > 0
  {
    var own := BidDebt(b, supply);
    if own >= toCover then Share(toCover, remaining) else Share(own, FundShare(own, price))
  }

  /** The whole state once the first `k` chosen bids have been executed. */
  ghost predicate Executing(bids0: map<nat, Bid>, calls0: map<nat, CallOrder>, next: nat, bids: map<nat, Bid>, calls: map<nat, CallOrder>,
                            ids: seq<nat>, supply: nat, fund: int, price: Price, callPrice: CallOrder -> Price, k: nat, toCover: int, remaining: int)
    requires price.base.amount > 0 && price.quote.amount >= 0 && k <= |ids| && Listed(bids0, ids)
  {
    && bids == Without(bids0, ids[..k]) && next + k !in calls
    && Opened(calls0, calls, next, bids0, ids, supply, fund, price, callPrice, k)
    && SharedSoFar(bids0, ids, supply, fund, price, k, toCover, remaining)
  }

  lemma ExecutionStarts(bids: map<nat, Bid>, calls: map<nat, CallOrder>, next: nat, mia: AssetId, ids: seq<nat>,
                        supply: nat, fund: nat, price: Price, callPrice: CallOrder -> Price)
    requires Executable(bids, mia, ids, supply, fund, price) && forall j :: j in calls ==> j < next
    ensures Executing(bids, calls, next, bids, calls, ids, supply, fund, price, callPrice, 0, supply, fund)
  {
    SharingStarts(bids, mia, ids, supply, fund, price);
    assert Without(bids, ids[..0]) == bids;
  }

  lemma ExecutionGoesOn(bids0: map<nat, Bid>, calls0: map<nat, CallOrder>, next: nat, bids: map<nat, Bid>, calls: map<nat, CallOrder>, mia: AssetId,
                        ids: seq<nat>, supply: nat, fund: nat, price: Price, callPrice: CallOrder -> Price, k: nat, toCover: int, remaining: int)
    requires Executable(bids0, mia, ids, supply, fund, price) && k < |ids|
    requires Executing(bids0, calls0, next, bids, calls, ids, supply, fund, price, callPrice, k, toCover, remaining)
    requires AllBackedBy(bids0, mia, price.quote.id)
    ensures Listed(bids0, ids) && price.base.amount > 0 && price.quote.amount >= 0
    ensures ids[k] in bids && bids[ids[k]].debt.amount > 0 && bids[ids[k]].debt.id == mia && bids[ids[k]].collateral.id == price.quote.id && next + k !in calls
    ensures var s := ShareFor(bids[ids[k]], supply, price, toCover, remaining);
            Executing(bids0, calls0, next, bids - {ids[k]}, calls[next + k := PositionFor(bids[ids[k]], s.debt, s.collateral, callPrice)],
                      ids, supply, fund, price, callPrice, k + 1, toCover - s.debt, remaining - s.collateral)
  {
    hide Precedes, FundShare, CoveredBy, SharedOut, DebtOf, ShareOf, PositionFor;
    SharingGoesOn(bids0, mia, ids, supply, fund, price, k, toCover, remaining);
    ChosenBid(bids0, mia, ids, supply, k);
    OpenedOneMore(calls0, calls, next, bids0, ids, supply, fund, price, callPrice, k);
  }

  lemma ExecutionEnds(bids0: map<nat, Bid>, calls0: map<nat, CallOrder>, next: nat, bids: map<nat, Bid>, calls: map<nat, CallOrder>,
                      ids: seq<nat>, supply: nat, fund: int, price: Price, callPrice: CallOrder -> Price, toCover: int, remaining: int)
    requires price.base.amount > 0 && price.quote.amount >= 0 && Listed(bids0, ids)
    requires Executing(bids0, calls0, next, bids, calls, ids, supply, fund, price, callPrice, |ids|, toCover, remaining)
    ensures toCover == 0 && remaining == 0 && bids == Without(bids0, ids)
    ensures Opened(calls0, calls, next, bids0, ids, supply, fund, price, callPrice, |ids|)
  {
    assert ids[..|ids|] == ids;
  }

  /** Execute the `k`-th chosen bid: the last one takes whatever debt and whatever part of the fund is left. */
  method ExecuteNext(db: Database, mia: AssetId, chosen: seq<nat>, supply: nat, fund: nat, price: Price, callPrice: CallOrder -> Price,
                     k: nat, toCover0: int, remaining0: int, ghost bids: map<nat, Bid>, ghost calls: map<nat, CallOrder>, ghost next: nat)
    returns (toCover: int, remaining: int)
    requires Executable(bids, mia, chosen, supply, fund, price) && k < |chosen| && db.nextCall == next + k
    requires Executing(bids, calls, next, db.bids, db.calls, chosen, supply, fund, price, callPrice, k, toCover0, remaining0)
    requires AllBackedBy(bids, mia, price.quote.id)
    modifies db`calls, db`nextCall, db`coreInOrders, db`bids
    ensures db.nextCall == next + k + 1
    ensures Executing(bids, calls, next, db.bids, db.calls, chosen, supply, fund, price, callPrice, k + 1, toCover, remaining)
    ensures forall a :: db.Net(a) == old(db.Net(a)) + (if a == price.quote.id then remaining0 - remaining else 0)
    ensures forall a :: db.Unbacked(a) == old(db.Unbacked(a)) - (if a == mia then toCover0 - toCover else 0)
    ensures forall w :: db.CoreGap(w) == old(db.CoreGap(w))
  {
    hide *;
    ExecutionGoesOn(bids, calls, next, db.bids, db.calls, mia, chosen, supply, fund, price, callPrice, k, toCover0, remaining0);
    var share := ShareFor(db.bids[chosen[k]], supply, price, toCover0, remaining0);
    ExecuteBid(db, chosen[k], share.debt, share.collateral, callPrice);
    toCover, remaining := toCover0 - share.debt, remaining0 - share.collateral;
  }

  /**
   Execute the chosen bids in order.  The source's two assertions, that nothing of the fund and
   nothing of the supply is left over, always hold, and the fund is never overdrawn on the way.
   */
  method ExecuteBids(db: Database, mia: AssetId, chosen: seq<nat>, supply: nat, fund: nat, price: Price, callPrice: CallOrder -> Price)
    returns (toCover: int, remaining: int)
    requires Executable(db.bids, mia, chosen, supply, fund, price)
    requires AllBackedBy(db.bids, mia, price.quote.id)
    requires forall j :: j in db.calls ==> j < db.nextCall
    modifies db`calls, db`nextCall, db`coreInOrders, db`bids
    ensures toCover == 0 && remaining == 0
    ensures db.nextCall == old(db.nextCall) + |chosen|
    ensures Opened(old(db.calls), db.calls, old(db.nextCall), old(db.bids), chosen, supply, fund, price, callPrice, |chosen|)
    ensures db.bids == Without(old(db.bids), chosen)
    ensures forall a :: db.Net(a) == old(db.Net(a)) + (if a == price.quote.id then fund else 0)
    ensures forall a :: db.Unbacked(a) == old(db.Unbacked(a)) - (if a == mia then supply else 0)
    ensures forall w :: db.CoreGap(w) == old(db.CoreGap(w))
  {
    ghost var bids, calls, next := db.bids, db.calls, db.nextCall;
    toCover, remaining := supply, fund;
    ExecutionStarts(bids, calls, next, mia, chosen, supply, fund, price, callPrice);
    hide *;
    for k := 0 to |chosen|
      invariant db.nextCall == next + k
      invariant Executing(bids, calls, next, db.bids, db.calls, chosen, supply, fund, price, callPrice, k, toCover, remaining)
      invariant forall a :: db.Net(a) == old(db.Net(a)) + (if a == price.quote.id then fund - remaining else 0)
      invariant forall a :: db.Unbacked(a) == old(db.Unbacked(a)) - (if a == mia then supply - toCover else 0)
      invariant forall w :: db.CoreGap(w) == old(db.CoreGap(w))
    {
      toCover, remaining := ExecuteNext(db, mia, chosen, supply, fund, price, callPrice, k, toCover, remaining, bids, calls, next);
    }
    ExecutionEnds(bids, calls, next, db.bids, db.calls, chosen, supply, fund, price, callPrice, toCover, remaining);
  }

  // Giving back the remaining bids --------------------------------------------------------------

  /** What a bid on `mia` gives back to `who` in asset `a` when it is cancelled. */
  ghost function RefundTo(mia: AssetId, who: AccountId, a: AssetId): (nat, Bid) -> int {
    (i: nat, b: Bid) => if b.debt.id == mia && b.bidder == who && b.collateral.id == a then b.collateral.amount else 0
  }

  function Others(bids: map<nat, Bid>, mia: AssetId): map<nat, Bid> {
    map i | i in bids && bids[i].debt.id != mia :: bids[i]
  }

  method CancelBid(db: Database, i: nat)
    requires i in db.bids && db.bids[i].collateral.amount >= 0
    modifies db`balances, db`bids
    ensures db.bids == old(db.bids) - {i}
    ensures var b := old(db.bids)[i]; db.balances == Credit(old(db.balances), (b.bidder, b.collateral.id), b.collateral.amount)
    ensures forall a :: db.Net(a) == old(db.Net(a))
  {
    hide Database.Net, Credit;
    db.AdjustBalance(db.bids[i].bidder, db.bids[i].collateral);
    db.RemoveBid(i);
  }

  lemma RefundMoves(bids: map<nat, Bid>, balances: map<(AccountId, AssetId), int>, i: nat, mia: AssetId, who: AccountId, a: AssetId)
    requires i in bids && bids[i].debt.id == mia
    ensures var b := bids[i];
            At(Credit(balances, (b.bidder, b.collateral.id), b.collateral.amount), (who, a)) + Total(bids - {i}, RefundTo(mia, who, a))
            == At(balances, (who, a)) + Total(bids, RefundTo(mia, who, a))
  {
    TotalRemove(bids, i, RefundTo(mia, who, a));
  }

  /** Every bid left on `mia` is given back in full to the account that made it. */
  method CancelBids(db: Database, mia: AssetId)
    requires ValidBids(db.bids)
    modifies db`balances, db`bids
    ensures db.bids == Others(old(db.bids), mia)
    ensures forall w, a :: db.Balance(w, a) == old(db.Balance(w, a)) + Total(old(db.bids), RefundTo(mia, w, a))
    ensures forall a :: db.Net(a) == old(db.Net(a))
  {
    hide Database.Net, Credit;
    while exists i :: i in db.bids && db.bids[i].debt.id == mia
      invariant ValidBids(db.bids) && Others(db.bids, mia) == Others(old(db.bids), mia)
      invariant forall w, a :: db.Balance(w, a) + Total(db.bids, RefundTo(mia, w, a)) == old(db.Balance(w, a)) + Total(old(db.bids), RefundTo(mia, w, a))
      invariant forall a :: db.Net(a) == old(db.Net(a))
      decreases |db.bids|
    {
      var i :| i in db.bids && db.bids[i].debt.id == mia;
      forall w, a {
        RefundMoves(db.bids, db.balances, i, mia, w, a);
      }
      CardinalityDrops(db.bids, i);
      CancelBid(db, i);
    }
    forall w, a {
      TotalZero(db.bids, RefundTo(mia, w, a));
    }
    assert db.bids == Others(db.bids, mia);
  }

  // Reviving the asset --------------------------------------------------------------------------

  /** The best bids, in order and each standing at the feed, cover the whole supply. */
  ghost predicate Coverable(bids: map<nat, Bid>, mia: AssetId, supply: nat, price: Price, acceptable: (int, int) -> bool)
    requires ValidBids(bids) && price.base.amount > 0 && price.quote.amount >= 0
  {
    exists ids :: Selection(bids, mia, ids, supply) && AllStand(bids, ids, supply, price, acceptable) && CoveredBy(bids, ids, supply) >= supply
  }

  lemma CoverableExactly(bids: map<nat, Bid>, mia: AssetId, ids: seq<nat>, supply: nat, price: Price, acceptable: (int, int) -> bool)
    requires ValidBids(bids) && price.base.amount > 0 && price.quote.amount >= 0
    requires Selection(bids, mia, ids, supply) && AllStand(bids, ids, supply, price, acceptable)
    requires CoveredBy(bids, ids, supply) >= supply || Blocked(bids, mia, ids, supply, price, acceptable)
    ensures CoveredBy(bids, ids, supply) >= supply <==> Coverable(bids, mia, supply, price, acceptable)
  {
    hide Precedes, Stands;
    if CoveredBy(bids, ids, supply) < supply {
      forall other | Selection(bids, mia, other, supply) && AllStand(bids, other, supply, price, acceptable)
        ensures CoveredBy(bids, other, supply) < supply
      {
        BlockedMeansUncoverable(bids, mia, ids, other, supply, price, acceptable);
      }
    }
  }

  /** Cancel what is left of the bids and lift the settlement. */
  method CancelBidsAndRevive(db: Database, mia: AssetId)
    requires ValidBids(db.bids) && mia in db.bitassets
    modifies db`balances, db`bids, db`bitassets
    ensures db.bids == Others(old(db.bids), mia)
    ensures forall w, a :: db.Balance(w, a) == old(db.Balance(w, a)) + Total(old(db.bids), RefundTo(mia, w, a))
    ensures db.bitassets == old(db.bitassets)[mia := old(db.bitassets)[mia].(settlementPrice := None, fund := 0)]
    ensures forall a :: db.Net(a) == old(db.Net(a)) - (if a == old(db.bitassets)[mia].backing then old(db.bitassets)[mia].fund else 0)
  {
    hide Database.Net;
    CancelBids(db, mia);
    db.SetBitasset(mia, db.bitassets[mia].(settlementPrice := None, fund := 0));
  }

  /** Execute the bids that cover the supply, give back the others, and lift the settlement. */
  method ReviveWith(db: Database, mia: AssetId, chosen: seq<nat>, supply: nat, price: Price, callPrice: CallOrder -> Price)
    requires mia in db.bitassets && db.bitassets[mia].fund >= 0 && db.bitassets[mia].backing == price.quote.id
    requires Executable(db.bids, mia, chosen, supply, db.bitassets[mia].fund, price)
    requires AllBackedBy(db.bids, mia, price.quote.id)
    requires forall j :: j in db.calls ==> j < db.nextCall
    modifies db`calls, db`nextCall, db`coreInOrders, db`bids, db`balances, db`bitassets
    ensures db.bids == Others(old(db.bids), mia)
    ensures db.bitassets == old(db.bitassets)[mia := old(db.bitassets)[mia].(settlementPrice := None, fund := 0)]
    ensures Opened(old(db.calls), db.calls, old(db.nextCall), old(db.bids), chosen, supply, old(db.bitassets[mia].fund), price, callPrice, |chosen|)
    ensures forall w, a :: db.Balance(w, a) == old(db.Balance(w, a)) + Total(Without(old(db.bids), chosen), RefundTo(mia, w, a))
    ensures forall a :: db.Unbacked(a) == old(db.Unbacked(a)) - (if a == mia then supply else 0)
    ensures forall a :: db.Net(a) == old(db.Net(a))
    ensures forall w :: db.CoreGap(w) == old(db.CoreGap(w))
  {
    OthersLeft(db.bids, mia, chosen, supply);
    hide *;
    var toCover, remaining := ExecuteBids(db, mia, chosen, supply, db.bitassets[mia].fund, price, callPrice);
    CancelBidsAndRevive(db, mia);
  }

  lemma OthersLeft(bids: map<nat, Bid>, mia: AssetId, ids: seq<nat>, supply: int)
    requires Selection(bids, mia, ids, supply) && ValidBids(bids)
    ensures Others(Without(bids, ids), mia) == Others(bids, mia) && ValidBids(Without(bids, ids))
  {
    hide CoveredBy, Precedes;
  }

  /**
   The positions that revive an asset: one for each of `chosen`, the best bids, which all stand and just cover
   the supply.  The bids not chosen are given back to their bidders.
   */
  ghost predicate Revives(bids: map<nat, Bid>, calls0: map<nat, CallOrder>, next: nat, balances0: map<(AccountId, AssetId), int>,
                          calls: map<nat, CallOrder>, balances: map<(AccountId, AssetId), int>, mia: AssetId, supply: nat, fund: int, price: Price,
                          acceptable: (int, int) -> bool, callPrice: CallOrder -> Price, chosen: seq<nat>)
    requires ValidBids(bids) && price.base.amount > 0 && price.quote.amount >= 0
  {
    && Selection(bids, mia, chosen, supply) && BestFirst(bids, mia, chosen)
    && AllStand(bids, chosen, supply, price, acceptable) && CoveredBy(bids, chosen, supply) >= supply
    && Opened(calls0, calls, next, bids, chosen, supply, fund, price, callPrice, |chosen|)
    && forall w, a :: At(balances, (w, a)) == At(balances0, (w, a)) + Total(Without(bids, chosen), RefundTo(mia, w, a))
  }

  /**
   At maintenance, a settled asset is revived exactly when it has a feed and its best standing bids
   cover its supply; nothing changes otherwise.  Reviving moves the whole fund and the whole supply into
   the new positions, so nothing is created or lost and the supply is backed by debt again.
   */
  method ProcessBids(db: Database, mia: AssetId, hasFeed: bool, acceptable: (int, int) -> bool, callPrice: CallOrder -> Price)
    returns (revived: bool)
    requires mia in db.bitassets && SoundFund(db.bitassets[mia], At(db.supply, mia))
    requires ValidBids(db.bids) && AllBackedBy(db.bids, mia, db.bitassets[mia].backing)
    requires db.bitassets[mia].settlementPrice.value.quote.id == db.bitassets[mia].backing
    requires forall j :: j in db.calls ==> j < db.nextCall
    modifies db`calls, db`nextCall, db`coreInOrders, db`bids, db`balances, db`bitassets
    ensures revived <==> var b := old(db.bitassets[mia]);
                         !b.isPrediction && hasFeed
                         && Coverable(old(db.bids), mia, At(old(db.supply), mia), b.settlementPrice.value, acceptable)
    ensures !revived ==> unchanged(db)
    ensures revived ==> db.bids == Others(old(db.bids), mia)
    ensures revived ==> db.bitassets == old(db.bitassets)[mia := old(db.bitassets)[mia].(settlementPrice := None, fund := 0)]
    ensures revived ==> exists chosen :: Revives(old(db.bids), old(db.calls), old(db.nextCall), old(db.balances), db.calls, db.balances, mia,
                                                 At(old(db.supply), mia), old(db.bitassets[mia].fund), old(db.bitassets[mia].settlementPrice).value,
                                                 acceptable, callPrice, chosen)
    ensures revived ==> forall a :: db.Unbacked(a) == old(db.Unbacked(a)) - (if a == mia then At(old(db.supply), mia) else 0)
    ensures forall a :: db.Net(a) == old(db.Net(a))
    ensures forall w :: db.CoreGap(w) == old(db.CoreGap(w))
  {
    var b := db.bitassets[mia];
    var price, supply := b.settlementPrice.value, At(db.supply, mia);
    if b.isPrediction || !hasFeed {
      return false;
    }
    var chosen, covered := SelectBids(db, mia, price, supply, acceptable);
    CoverableExactly(db.bids, mia, chosen, supply, price, acceptable);
    assert covered >= supply ==> Executable(db.bids, mia, chosen, supply, b.fund, price);
    hide *;
    if covered < supply {
      return false;
    }
    ReviveWith(db, mia, chosen, supply, price, callPrice);
    RevivesWith(old(db.bids), old(db.calls), old(db.nextCall), old(db.balances), db.calls, db.balances, mia, supply, b.fund, price, acceptable, callPrice, chosen);
    return true;
  }

  lemma RevivesWith(bids: map<nat, Bid>, calls0: map<nat, CallOrder>, next: nat, balances0: map<(AccountId, AssetId), int>,
                    calls: map<nat, CallOrder>, balances: map<(AccountId, AssetId), int>, mia: AssetId, supply: nat, fund: int, price: Price,
                    acceptable: (int, int) -> bool, callPrice: CallOrder -> Price, chosen: seq<nat>)
    requires ValidBids(bids) && price.base.amount > 0 && price.quote.amount >= 0 && Listed(bids, chosen)
    requires Selection(bids, mia, chosen, supply) && AllStand(bids, chosen, supply, price, acceptable) && CoveredBy(bids, chosen, supply) >= supply
    requires Opened(calls0, calls, next, bids, chosen, supply, fund, price, callPrice, |chosen|)
    requires forall w, a :: At(balances, (w, a)) == At(balances0, (w, a)) + Total(Without(bids, chosen), RefundTo(mia, w, a))
    ensures Revives(bids, calls0, next, balances0, calls, balances, mia, supply, fund, price, acceptable, callPrice, chosen)
  {
    SelectionIsBestFirst(bids, mia, chosen, supply);
    hide Selection, BestFirst, AllStand, CoveredBy, Opened, Without, RefundTo, Total;
  }
}
