/** A standard token of EIP-20: a call either moves exactly the amount asked for or reverts. */
module Erc20 {
  import opened Wrappers
  import opened Evm
  import opened Ledgers
  import opened Payments

  datatype Error = InsufficientBalance | InsufficientAllowance | Overflow

  /** `allowances[(owner, spender)]` is what `spender` may still take from `owner`. */
  datatype Token = Token(balances: Ledger, allowances: map<(Address, Address), nat>)

  function Allowance(t: Token, owner: Address, spender: Address): nat {
    Read(t.allowances, (owner, spender), 0)
  }

  function Transfer(t: Token, from: Address, to: Address, amount: nat): Result<Token, Error> {
    var balance := At(t.balances, from);
    :- Require(amount <= balance, InsufficientBalance);
    var debited := t.balances[from := balance - amount];
    :- Require(At(debited, to) + amount <= MAX_UINT256, Overflow);
    Success(t.(balances := debited[to := At(debited, to) + amount]))
  }

  function Approve(t: Token, owner: Address, spender: Address, amount: nat): Token {
    t.(allowances := t.allowances[(owner, spender) := amount])
  }

  function TransferFrom(t: Token, spender: Address, from: Address, to: Address, amount: nat): Result<Token, Error> {
    var allowance := Allowance(t, from, spender);
    :- Require(amount <= allowance, InsufficientAllowance);
    Transfer(Approve(t, from, spender, allowance - amount), from, to, amount)
  }

  /** The balances add up to the supply, which is a uint256. */
  ghost predicate Solvent(t: Token) {
    Total(t.balances) <= MAX_UINT256
  }

  /** A transfer conserves the supply and, in a solvent token, fails only for lack of balance. */
  lemma TransferConserves(t: Token, from: Address, to: Address, amount: nat)
    ensures var r := Transfer(t, from, to, amount);
            r.Success? ==> Total(r.value.balances) == Total(t.balances)
    ensures Solvent(t) ==> (Transfer(t, from, to, amount).Success? <==> amount <= At(t.balances, from))
  {
    var balance := At(t.balances, from);
    if amount <= balance {
      var debited := t.balances[from := balance - amount];
      TotalWrite(t.balances, from, balance - amount);
      TotalWrite(debited, to, At(debited, to) + amount);
    }
  }

  /** An approval is the power to take exactly so much, as far as the balance goes; it grants nobody else anything. */
  lemma ApprovalGrants(t: Token, owner: Address, spender: Address, amount: nat, to: Address, taken: nat)
    requires Solvent(t)
    ensures var t' := Approve(t, owner, spender, amount);
            && t'.balances == t.balances
            && (TransferFrom(t', spender, owner, to, taken).Success?
                <==> taken <= amount && taken <= At(t.balances, owner))
            && forall o: Address, s: Address :: (o, s) != (owner, spender) ==> Allowance(t', o, s) == Allowance(t, o, s)
  {
    var t' := Approve(t, owner, spender, amount);
    if taken <= amount {
      TransferConserves(Approve(t', owner, spender, amount - taken), owner, to, taken);
    }
  }

  // ----- a sequence of payments taken from one account -----

  /** Calls transferFrom once for each payment, in order. */
  function PayAll(t: Token, spender: Address, from: Address, ps: seq<Payment>): Result<Token, Error>
    decreases |ps|
  {
    if ps == [] then Success(t)
    else
      var paid :- TransferFrom(t, spender, from, ps[0].payee, ps[0].amount);
      PayAll(paid, spender, from, ps[1..])
  }

  lemma TransferFromMoves(t: Token, spender: Address, from: Address, to: Address, amount: nat, a: Address)
    requires TransferFrom(t, spender, from, to, amount).Success?
    ensures var t' := TransferFrom(t, spender, from, to, amount).value;
            && At(t'.balances, a)
               == At(t.balances, a) + (if a == to then amount else 0) - (if a == from then amount else 0)
            && Total(t'.balances) == Total(t.balances)
            && t'.allowances == t.allowances[(from, spender) := Allowance(t, from, spender) - amount]
  {
    TransferConserves(Approve(t, from, spender, Allowance(t, from, spender) - amount), from, to, amount);
  }

  lemma TransferFromSucceeds(t: Token, spender: Address, from: Address, to: Address, amount: nat)
    requires Solvent(t)
    ensures TransferFrom(t, spender, from, to, amount).Success? <==>
            amount <= Allowance(t, from, spender) && amount <= At(t.balances, from)
  {
    if amount <= Allowance(t, from, spender) {
      TransferConserves(Approve(t, from, spender, Allowance(t, from, spender) - amount), from, to, amount);
    }
  }

  /**
   Paying succeeds exactly when the allowance covers the sum and the balance lasts, for every aliasing of payer,
   payees and spender.
   */
  lemma {:induction false} PayAllSucceeds(t: Token, spender: Address, from: Address, ps: seq<Payment>)
    requires Solvent(t)
    ensures PayAll(t, spender, from, ps).Success? <==>
            AmountOf(ps) <= Allowance(t, from, spender) && Affordable(At(t.balances, from), from, ps)
    decreases |ps|
  {
    hide TransferFrom;
    if ps != [] {
      var p := ps[0];
      var first := TransferFrom(t, spender, from, p.payee, p.amount);
      TransferFromSucceeds(t, spender, from, p.payee, p.amount);
      if first.Success? {
        TransferFromMoves(t, spender, from, p.payee, p.amount, from);
        PayAllSucceeds(first.value, spender, from, ps[1..]);
      }
    }
  }

  /** What a completed sequence of payments does to every balance, to the allowance and to the supply. */
  lemma {:induction false} PayAllMoves(t: Token, spender: Address, from: Address, ps: seq<Payment>, a: Address)
    requires PayAll(t, spender, from, ps).Success?
    ensures var t' := PayAll(t, spender, from, ps).value;
            && At(t'.balances, a) == At(t.balances, a) + ReceivedBy(a, ps) - (if a == from then AmountOf(ps) else 0)
            && Total(t'.balances) == Total(t.balances)
            && Allowance(t', from, spender) == Allowance(t, from, spender) - AmountOf(ps)
            && forall o: Address, s: Address :: (o, s) != (from, spender) ==> Allowance(t', o, s) == Allowance(t, o, s)
    decreases |ps|
  {
    if ps != [] {
      TransferFromMoves(t, spender, from, ps[0].payee, ps[0].amount, a);
      var t1 := TransferFrom(t, spender, from, ps[0].payee, ps[0].amount).value;
      PayAllMoves(t1, spender, from, ps[1..], a);
    }
  }
}
