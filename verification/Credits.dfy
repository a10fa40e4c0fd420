/**
 Credits: CORE borrowed from the system or from another account, repaid out of the borrower's
 cashback.  Cashback that is withheld for a running credit is neither in a balance nor in a vesting
 balance; it is accounted for by the difference of what may be and what was repaid.
 */
module Credits {
  import opened Amounts
  import opened Sums
  import opened Ledger
  import opened Options

  const SYSTEM: AccountId := 0
  const COMMITTEE_ACCOUNT: AccountId := 0
  const WITNESS_ACCOUNT: AccountId := 1
  const RELAXED_COMMITTEE_ACCOUNT: AccountId := 2
  const NULL_ACCOUNT: AccountId := 3
  const TEMP_ACCOUNT: AccountId := 4

  /** A borrower's credit; nothing is owed when `total` is 0. */
  datatype Loan = Loan(total: int, allowed: int, repaid: int, creditor: AccountId) {
    /** What every running credit satisfies. */
    predicate Sound() {
      if total > 0 then 0 <= repaid <= allowed < total && (creditor == SYSTEM ==> repaid == 0)
      else this == NO_LOAN
    }
  }

  const NO_LOAN := Loan(0, 0, 0, SYSTEM)

  datatype Offer = Offer(creditor: AccountId, minIncome: int, amount: int, repay: int)

  /** The chain's own accounts get no cashback. */
  predicate IsChainAccount(a: AccountId)
    ensures IsChainAccount(a) <==> a < 5
  {
    a == COMMITTEE_ACCOUNT || a == WITNESS_ACCOUNT || a == RELAXED_COMMITTEE_ACCOUNT || a == NULL_ACCOUNT || a == TEMP_ACCOUNT
  }

  ghost function Withheld(): (AccountId, Loan) -> int {
    (a: AccountId, l: Loan) => l.allowed - l.repaid
  }

  class CreditBook {
    var balances: map<AccountId, int>
    var vesting: map<AccountId, int>
    var supply: int
    var loans: map<AccountId, Loan>
    var offers: map<nat, Offer>
    var nextOffer: nat

    ghost predicate Valid()
      reads this
    {
      && (forall a :: a in loans ==> loans[a].Sound())
      && (forall o :: o in offers ==> o < nextOffer && 0 < offers[o].amount <= offers[o].repay)
    }

    /** Everything held, less the recorded supply. */
    ghost function Net(): int
      reads this
    {
      Total(balances, Whole()) + Total(vesting, Whole()) + Total(loans, Withheld()) - supply
    }

    function LoanOf(a: AccountId): Loan
      reads this
    {
      if a in loans then loans[a] else NO_LOAN
    }

    constructor ()
      ensures Valid() && Net() == 0
    {
      balances, vesting, supply, loans, offers, nextOffer := map[], map[], 0, map[], map[], 0;
    }

    lemma LoanMoves(a: AccountId, l: Loan)
      ensures Total(loans[a := l], Withheld()) == Total(loans, Withheld()) - (LoanOf(a).allowed - LoanOf(a).repaid) + (l.allowed - l.repaid)
    {
      TotalSet(loans, a, l, Withheld());
    }

    /** Borrow newly issued CORE; twice the amount is to be repaid. */
    method GetSystemCredit(debtor: AccountId, amount: int, maxCredit: int, enabled: bool) returns (thrown: bool)
      requires Valid()
      modifies this`balances, this`supply, this`loans
      ensures Valid() && Net() == old(Net())
      ensures thrown <==> !(enabled && amount > 0 && old(LoanOf(debtor)).total == 0 && amount <= maxCredit)
      ensures thrown ==> unchanged(this)
      ensures !thrown ==>
                && loans == old(loans)[debtor := Loan(2 * amount, 0, 0, SYSTEM)] && supply == old(supply) + amount
                && balances == Credit(old(balances), debtor, amount)
    {
      if !(enabled && amount > 0 && LoanOf(debtor).total == 0 && amount <= maxCredit) {
        return true;
      }
      LoanMoves(debtor, Loan(2 * amount, 0, 0, SYSTEM));
      TotalCredit(balances, debtor, amount, Whole());
      supply := supply + amount;
      loans := loans[debtor := Loan(2 * amount, 0, 0, SYSTEM)];
      balances := Credit(balances, debtor, amount);
      return false;
    }

    method CreateOffer(offer: Offer) returns (thrown: bool)
      requires Valid()
      modifies this`offers, this`nextOffer
      ensures Valid() && Net() == old(Net())
      ensures thrown <==> !(0 < offer.amount <= offer.repay)
      ensures thrown ==> unchanged(this)
      ensures !thrown ==> offers == old(offers)[old(nextOffer) := offer] && nextOffer == old(nextOffer) + 1
    {
      if !(0 < offer.amount <= offer.repay) {
        return true;
      }
      offers, nextOffer := offers[nextOffer := offer], nextOffer + 1;
      return false;
    }

    method CancelOffer(o: nat, owner: AccountId) returns (thrown: bool)
      requires Valid()
      modifies this`offers
      ensures Valid() && Net() == old(Net())
      ensures thrown <==> !(o in old(offers) && old(offers)[o].creditor == owner)
      ensures offers == if thrown then old(offers) else old(offers) - {o}
    {
      if o !in offers || offers[o].creditor != owner {
        return true;
      }
      offers := offers - {o};
      return false;
    }

    /** Borrow from another account on the terms of its offer. */
    method FillOffer(o: nat, debtor: AccountId, creditor: AccountId, amount: int, income: int) returns (thrown: bool)
      requires Valid()
      modifies this`balances, this`loans, this`offers
      ensures Valid() && Net() == old(Net())
      ensures thrown <==> !(o in old(offers) && At(old(balances), old(offers)[o].creditor) >= amount > 0 && old(LoanOf(debtor)).total == 0
                            && old(offers)[o].minIncome <= income && old(offers)[o].amount == amount && old(offers)[o].creditor == creditor)
      ensures thrown ==> unchanged(this)
      ensures !thrown ==>
                && loans == old(loans)[debtor := Loan(old(offers)[o].repay, 0, 0, creditor)] && offers == old(offers) - {o}
                && balances == Credit(Credit(old(balances), creditor, -amount), debtor, amount)
    {
      if o !in offers || !(At(balances, offers[o].creditor) >= amount > 0) || LoanOf(debtor).total != 0
         || offers[o].minIncome > income || offers[o].amount != amount || offers[o].creditor != creditor {
        return true;
      }
      var l := Loan(offers[o].repay, 0, 0, creditor);
      LoanMoves(debtor, l);
      TotalCredit(balances, creditor, -amount, Whole());
      TotalCredit(Credit(balances, creditor, -amount), debtor, amount, Whole());
      loans := loans[debtor := l];
      balances := Credit(Credit(balances, creditor, -amount), debtor, amount);
      offers := offers - {o};
      return false;
    }

    /** Pay withheld cashback out to the creditor. */
    method Repay(debtor: AccountId, creditor: AccountId, amount: int) returns (thrown: bool)
      requires Valid()
      modifies this`balances, this`loans
      ensures Valid() && Net() == old(Net())
      ensures var l := old(LoanOf(debtor));
              && (thrown <==> !(0 < amount <= l.allowed - l.repaid && l.creditor != SYSTEM && l.creditor == creditor))
              && (thrown ==> unchanged(this))
              && (!thrown ==> loans == old(loans)[debtor := l.(repaid := l.repaid + amount)] && balances == Credit(old(balances), creditor, amount))
    {
      var l := LoanOf(debtor);
      if !(0 < amount <= l.allowed - l.repaid && l.creditor != SYSTEM && l.creditor == creditor) {
        return true;
      }
      LoanMoves(debtor, l.(repaid := l.repaid + amount));
      TotalCredit(balances, creditor, amount, Whole());
      loans := loans[debtor := l.(repaid := l.repaid + amount)];
      balances := Credit(balances, creditor, amount);
      return false;
    }

    /** Settle a credit in full: the system's is taken out of the supply, another account gets what it is still owed. */
    method CloseLoan(a: AccountId)
      requires Valid() && LoanOf(a).total > 0
      modifies this`balances, this`supply, this`loans
      ensures Valid() && Net() == old(Net()) + old(LoanOf(a)).total - old(LoanOf(a)).allowed
      ensures var l := old(LoanOf(a));
              && loans == old(loans)[a := NO_LOAN]
              && supply == old(supply) - (if l.creditor == SYSTEM then l.total else 0)
              && balances == (if l.creditor == SYSTEM then old(balances) else Credit(old(balances), l.creditor, l.total - l.repaid))
    {
      var l := LoanOf(a);
      LoanMoves(a, NO_LOAN);
      if l.creditor == SYSTEM {
        supply := supply - l.total;
      } else {
        TotalCredit(balances, l.creditor, l.total - l.repaid, Whole());
        balances := Credit(balances, l.creditor, l.total - l.repaid);
      }
      loans := loans[a := NO_LOAN];
    }

    /** What is left of cashback goes to the account's vesting balance; a chain account's leaves the supply. */
    method DepositRest(a: AccountId, amount: nat)
      requires Valid()
      modifies this`vesting, this`supply
      ensures Valid() && Net() == old(Net()) + amount
      ensures vesting == (if IsChainAccount(a) then old(vesting) else Credit(old(vesting), a, amount))
      ensures supply == old(supply) - (if IsChainAccount(a) then amount else 0)
    {
      if IsChainAccount(a) {
        supply := supply - amount;
      } else {
        TotalCredit(vesting, a, amount, Whole());
        vesting := Credit(vesting, a, amount);
      }
    }

    /**
     Pay cashback to an account.  While the credit is larger, all of it is withheld; the payment that
     reaches the whole credit closes it, and only the rest is paid out.  In every case exactly `amount` is
     added to what is held.
     */
    method DepositCashback(a: AccountId, amount: nat)
      requires Valid()
      modifies this`balances, this`vesting, this`supply, this`loans
      ensures Valid() && Net() == old(Net()) + amount
      ensures var l := old(LoanOf(a));
              if amount == 0 then unchanged(this)
              else if l.total == 0 then
                && loans == old(loans) && balances == old(balances)
                && vesting == (if IsChainAccount(a) then old(vesting) else Credit(old(vesting), a, amount))
                && supply == old(supply) - (if IsChainAccount(a) then amount else 0)
              else if l.total - l.allowed > amount then
                && loans == old(loans)[a := l.(allowed := l.allowed + amount)]
                && balances == old(balances) && vesting == old(vesting) && supply == old(supply)
              else
                var rest := amount - (l.total - l.allowed);
                && loans == old(loans)[a := NO_LOAN]
                && balances == (if l.creditor == SYSTEM then old(balances) else Credit(old(balances), l.creditor, l.total - l.repaid))
                && vesting == (if IsChainAccount(a) then old(vesting) else Credit(old(vesting), a, rest))
                && supply == old(supply) - (if l.creditor == SYSTEM then l.total else 0) - (if IsChainAccount(a) then rest else 0)
    {
      if amount == 0 {
        return;
      }
      var l, rest := LoanOf(a), amount;
      if l.total > 0 {
        var credit := l.total - l.allowed;
        if credit > amount {
          LoanMoves(a, l.(allowed := l.allowed + amount));
          loans := loans[a := l.(allowed := l.allowed + amount)];
          return;
        }
        rest := amount - credit;
        CloseLoan(a);
      }
      DepositRest(a, rest);
    }
  }
}
