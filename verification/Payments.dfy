/** Lists of payments made by one account, in tokens or in coins. */
module Payments {
  import opened Evm

  datatype Payment = Payment(payee: Address, amount: nat)

  function AmountOf(ps: seq<Payment>): nat {
    if ps == [] then 0 else ps[0].amount + AmountOf(ps[1..])
  }

  /** What `a` receives; an account may be the payee of several payments. */
  function ReceivedBy(a: Address, ps: seq<Payment>): nat {
    if ps == [] then 0 else (if ps[0].payee == a then ps[0].amount else 0) + ReceivedBy(a, ps[1..])
  }

  /** Whether `balance` lasts for all payments in order; what the payer pays to itself stays with it. */
  predicate Affordable(balance: nat, from: Address, ps: seq<Payment>) {
    ps == [] ||
    (ps[0].amount <= balance
     && Affordable(if ps[0].payee == from then balance else balance - ps[0].amount, from, ps[1..]))
  }

  lemma {:induction false} AmountCoversPayments(balance: nat, from: Address, ps: seq<Payment>)
    requires AmountOf(ps) <= balance
    ensures Affordable(balance, from, ps)
  {
    if ps != [] {
      AmountCoversPayments(if ps[0].payee == from then balance else balance - ps[0].amount, from, ps[1..]);
    }
  }
}
