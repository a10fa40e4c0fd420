/**
 The person-to-person exchange: a client trades CORE for outside money through a gateway, and the CORE
 is held in escrow until the trade is released, refunded or decided by an arbiter.
 */
module Escrow {
  import opened Amounts
  import opened Sums
  import opened Ledger
  import opened Options

  const ARBITER_PERCENT := 100

  /** Where a trade stands.  Escrow is held from `Called` on. */
  datatype Status = Created | Called | Paid | Disputed | Replied

  /** A trade: `toClient` says that the gateway sells CORE to the client, otherwise the client sells. */
  datatype Order = Order(gateway: AccountId, client: AccountId, amount: nat, toClient: bool, status: Status,
                         approveBy: nat, replyBy: nat, initiator: Option<AccountId>) {
    /** Who puts the CORE in escrow, and who is to get it. */
    function Depositor(): AccountId {
      if toClient then gateway else client
    }

    function Buyer(): AccountId {
      if toClient then client else gateway
    }

    predicate HoldsEscrow() {
      !status.Created?
    }

    predicate Party(a: AccountId) {
      a == gateway || a == client
    }

    ghost predicate Sound() {
      amount > 0 && gateway != client && (!toClient ==> !status.Created?)
    }

    /** The two parties of a trade are the one who deposits and the one who is to get it. */
    lemma Roles()
      requires Sound()
      ensures Depositor() != Buyer() && forall a :: Party(a) <==> a == Depositor() || a == Buyer()
      ensures Party(gateway) && Party(client)
    {
    }
  }

  ghost function Held(): (nat, Order) -> int {
    (i: nat, o: Order) => if o.HoldsEscrow() then o.amount else 0
  }

  /** A trade that ran out of time: nobody approved it, or nobody paid. */
  predicate Expired(o: Order, now: nat) {
    (o.status.Created? && o.approveBy < now) || (o.status.Called? && o.replyBy < now)
  }

  /** What account `w` gets back when the expired trades are undone. */
  ghost function RefundOf(now: nat, w: AccountId): (nat, Order) -> int {
    (i: nat, o: Order) => if Expired(o, now) && o.HoldsEscrow() && o.Depositor() == w then o.amount else 0
  }

  function Unexpired(orders: map<nat, Order>, now: nat): map<nat, Order> {
    map i | i in orders && !Expired(orders[i], now) :: orders[i]
  }

  lemma UnexpiredAre(orders: map<nat, Order>, now: nat)
    ensures forall i :: i in orders && i !in Unexpired(orders, now) <==>
              i in orders && ((orders[i].status.Created? && orders[i].approveBy < now) || (orders[i].status.Called? && orders[i].replyBy < now))
  {
  }

  class Exchange {
    var balances: map<AccountId, int>
    var orders: map<nat, Order>
    var next: nat

    ghost predicate Valid()
      reads this
    {
      forall i :: i in orders ==> i < next && orders[i].Sound()
    }

    /** CORE in balances and in escrow. */
    ghost function Net(): int
      reads this
    {
      Total(balances, Whole()) + Total(orders, Held())
    }

    constructor (balances: map<AccountId, int>)
      ensures Valid() && this.balances == balances && orders == map[] && Net() == Total(balances, Whole())
    {
      this.balances, orders, next := balances, map[], 0;
    }

    method Pay(w: AccountId, amount: int)
      modifies this`balances
      ensures balances == Credit(old(balances), w, amount) && Net() == old(Net()) + amount
    {
      TotalCredit(balances, w, amount, Whole());
      balances := Credit(balances, w, amount);
    }

    method Put(i: nat, o: Order)
      modifies this`orders
      ensures orders == old(orders)[i := o]
      ensures Net() == old(Net()) + Held()(i, o) - (if i in old(orders) then Held()(i, old(orders)[i]) else 0)
    {
      TotalSet(orders, i, o, Held());
      orders := orders[i := o];
    }

    /** A trade ends: its order is removed, so nothing can be paid out for it again. */
    method End(i: nat)
      requires i in orders
      modifies this`orders
      ensures orders == old(orders) - {i} && Net() == old(Net()) - Held()(i, old(orders)[i])
    {
      TotalRemove(orders, i, Held());
      orders := orders - {i};
    }

    /** Open a trade.  A client who sells deposits at once; a gateway that sells must have the amount. */
    method Create(gateway: AccountId, client: AccountId, amount: int, toClient: bool, admitted: bool, approveBy: nat, replyBy: nat)
      returns (thrown: bool)
      requires Valid()
      modifies this
      ensures Valid() && Net() == old(Net())
      ensures thrown <==> !(admitted && amount > 0 && gateway != client && At(old(balances), if toClient then gateway else client) >= amount)
      ensures thrown ==> unchanged(this)
      ensures !thrown ==>
                && next == old(next) + 1
                && orders == old(orders)[old(next) := Order(gateway, client, amount, toClient, if toClient then Created else Called,
                                                            if toClient then approveBy else 0, if toClient then 0 else replyBy, None)]
                && balances == (if toClient then old(balances) else Credit(old(balances), orders[old(next)].Depositor(), -amount))
                && orders[old(next)].Depositor() == (if toClient then gateway else client)
    {
      if !(admitted && amount > 0 && gateway != client && At(balances, if toClient then gateway else client) >= amount) {
        return true;
      }
      Put(next, Order(gateway, client, amount, toClient, if toClient then Created else Called,
                      if toClient then approveBy else 0, if toClient then 0 else replyBy, None));
      next := next + 1;
      if !toClient {
        Pay(client, -amount);
      }
      return false;
    }

    /** The gateway takes the client up on a trade and deposits. */
    method Call(i: nat, gateway: AccountId, amount: int, replyBy: nat) returns (thrown: bool)
      requires Valid()
      modifies this`orders, this`balances
      ensures Valid() && Net() == old(Net())
      ensures thrown <==> !(i in old(orders) && old(orders)[i].toClient && old(orders)[i].status.Created? && old(orders)[i].gateway == gateway
                            && old(orders)[i].amount == amount && At(old(balances), gateway) >= amount)
      ensures thrown ==> unchanged(this)
      ensures !thrown ==>
                && orders == old(orders)[i := old(orders)[i].(status := Called, replyBy := replyBy, approveBy := 0)]
                && balances == Credit(old(balances), gateway, -amount) && gateway == orders[i].Depositor()
    {
      if i !in orders || !orders[i].toClient || !orders[i].status.Created? || orders[i].gateway != gateway
         || orders[i].amount != amount || At(balances, gateway) < amount {
        return true;
      }
      Put(i, orders[i].(status := Called, replyBy := replyBy, approveBy := 0));
      Pay(gateway, -amount);
      return false;
    }

    /** The buyer reports the outside payment. */
    method ReportPayment(i: nat, payer: AccountId) returns (thrown: bool)
      requires Valid()
      modifies this`orders
      ensures Valid() && Net() == old(Net())
      ensures thrown <==> !(i in old(orders) && old(orders)[i].status.Called? && old(orders)[i].Buyer() == payer)
      ensures orders == if thrown then old(orders) else old(orders)[i := old(orders)[i].(status := Paid, replyBy := 0)]
    {
      if i !in orders || !orders[i].status.Called? || orders[i].Buyer() != payer {
        return true;
      }
      Put(i, orders[i].(status := Paid, replyBy := 0));
      return false;
    }

    /** The trade is done: the escrow goes to the buyer. */
    method Release(i: nat, paying: AccountId, receiving: AccountId) returns (thrown: bool)
      requires Valid()
      modifies this`orders, this`balances
      ensures Valid() && Net() == old(Net())
      ensures thrown <==> !(i in old(orders) && old(orders)[i].HoldsEscrow()
                            && old(orders)[i].Buyer() == paying && old(orders)[i].Depositor() == receiving)
      ensures thrown ==> unchanged(this)
      ensures !thrown ==> orders == old(orders) - {i} && balances == Credit(old(balances), old(orders)[i].Buyer(), old(orders)[i].amount)
    {
      if i !in orders || !orders[i].HoldsEscrow() || orders[i].Buyer() != paying || orders[i].Depositor() != receiving {
        return true;
      }
      Pay(orders[i].Buyer(), orders[i].amount);
      End(i);
      return false;
    }

    /** The gateway calls the trade off; what a client deposited is refunded. */
    method Cancel(i: nat, gateway: AccountId) returns (thrown: bool)
      requires Valid()
      modifies this`orders, this`balances
      ensures Valid() && Net() == old(Net())
      ensures thrown <==> !(i in old(orders) && old(orders)[i].gateway == gateway
                            && (if old(orders)[i].toClient then old(orders)[i].status.Created? else old(orders)[i].status.Called?))
      ensures thrown ==> unchanged(this)
      ensures !thrown ==> orders == old(orders) - {i}
      ensures !thrown ==> balances == Credit(old(balances), old(orders)[i].Depositor(), if old(orders)[i].HoldsEscrow() then old(orders)[i].amount else 0)
    {
      if i !in orders || orders[i].gateway != gateway
         || (if orders[i].toClient then !orders[i].status.Created? else !orders[i].status.Called?) {
        return true;
      }
      if !orders[i].toClient {
        Pay(orders[i].client, orders[i].amount);
      }
      End(i);
      return false;
    }

    method OpenDispute(i: nat, party: AccountId, arbiterListed: bool) returns (thrown: bool)
      requires Valid()
      modifies this`orders
      ensures Valid() && Net() == old(Net())
      ensures thrown <==> !(i in old(orders) && old(orders)[i].status.Paid? && old(orders)[i].Party(party) && arbiterListed)
      ensures orders == if thrown then old(orders) else old(orders)[i := old(orders)[i].(status := Disputed, initiator := Some(party))]
    {
      if i !in orders || !orders[i].status.Paid? || !orders[i].Party(party) || !arbiterListed {
        return true;
      }
      Put(i, orders[i].(status := Disputed, initiator := Some(party)));
      return false;
    }

    /** Only the other party can reply. */
    method ReplyDispute(i: nat, party: AccountId, arbiterListed: bool) returns (thrown: bool)
      requires Valid()
      modifies this`orders
      ensures Valid() && Net() == old(Net())
      ensures thrown <==> !(i in old(orders) && old(orders)[i].status.Disputed? && old(orders)[i].Party(party)
                            && old(orders)[i].initiator != Some(party) && arbiterListed)
      ensures orders == if thrown then old(orders) else old(orders)[i := old(orders)[i].(status := Replied)]
    {
      if i !in orders || !orders[i].status.Disputed? || !orders[i].Party(party) || orders[i].initiator == Some(party) || !arbiterListed {
        return true;
      }
      Put(i, orders[i].(status := Replied));
      return false;
    }

    /** The arbiter takes a commission and gives the rest to the winning party. */
    method Resolve(i: nat, winner: AccountId, loser: AccountId, arbiter: AccountId, arbiterListed: bool) returns (thrown: bool)
      requires Valid()
      modifies this`orders, this`balances
      ensures Valid() && Net() == old(Net())
      ensures thrown <==> !(i in old(orders) && (old(orders)[i].status.Disputed? || old(orders)[i].status.Replied?)
                            && old(orders)[i].Party(winner) && old(orders)[i].Party(loser) && winner != loser && arbiterListed)
      ensures thrown ==> unchanged(this)
      ensures !thrown ==>
                var o := old(orders)[i]; var fee := CutFee(o.amount, ARBITER_PERCENT);
                && fee <= o.amount && orders == old(orders) - {i}
                && balances == Credit(Credit(old(balances), arbiter, fee), winner, o.amount - fee)
    {
      if i !in orders || !(orders[i].status.Disputed? || orders[i].status.Replied?)
         || !orders[i].Party(winner) || !orders[i].Party(loser) || winner == loser || !arbiterListed {
        return true;
      }
      var o := orders[i];
      var fee := CutFee(o.amount, ARBITER_PERCENT);
      CutIsPart(o.amount, ARBITER_PERCENT);
      Pay(arbiter, fee);
      Pay(winner, o.amount - fee);
      End(i);
      return false;
    }

    lemma RefundMoves(i: nat, now: nat, w: AccountId)
      requires i in orders && Expired(orders[i], now)
      ensures At(Credit(balances, orders[i].Depositor(), if orders[i].HoldsEscrow() then orders[i].amount else 0), w) + Total(orders - {i}, RefundOf(now, w))
              == At(balances, w) + Total(orders, RefundOf(now, w))
    {
      TotalRemove(orders, i, RefundOf(now, w));
    }

    method ExpireOne(i: nat, now: nat)
      requires Valid() && i in orders && Expired(orders[i], now)
      modifies this`orders, this`balances
      ensures Valid() && Net() == old(Net()) && orders == old(orders) - {i}
      ensures balances == Credit(old(balances), old(orders)[i].Depositor(), if old(orders)[i].HoldsEscrow() then old(orders)[i].amount else 0)
    {
      if orders[i].status.Called? {
        Pay(orders[i].Depositor(), orders[i].amount);
      }
      End(i);
    }

    /** Undo every trade that ran out of time; each deposit goes back to the account that made it. */
    method AutoCancel(now: nat)
      requires Valid()
      modifies this`orders, this`balances
      ensures Valid() && Net() == old(Net()) && orders == Unexpired(old(orders), now)
      ensures forall i :: i in old(orders) && i !in orders <==>
                i in old(orders) && ((old(orders)[i].status.Created? && old(orders)[i].approveBy < now) || (old(orders)[i].status.Called? && old(orders)[i].replyBy < now))
      ensures forall w :: At(balances, w) == At(old(balances), w) + Total(old(orders), RefundOf(now, w))
    {
      hide Net, Credit, Expired;
      while exists i :: i in orders && Expired(orders[i], now)
        invariant Valid() && Net() == old(Net()) && Unexpired(orders, now) == Unexpired(old(orders), now)
        invariant forall w :: At(balances, w) + Total(orders, RefundOf(now, w)) == At(old(balances), w) + Total(old(orders), RefundOf(now, w))
        decreases |orders|
      {
        var i :| i in orders && Expired(orders[i], now);
        forall w {
          RefundMoves(i, now, w);
        }
        CardinalityDrops(orders, i);
        ExpireOne(i, now);
      }
      forall w {
        TotalZero(orders, RefundOf(now, w));
      }
      assert orders == Unexpired(orders, now);
      UnexpiredAre(old(orders), now);
    }
  }
}
