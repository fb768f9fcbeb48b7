/**
 * The wallet store: the wallet table and the history log as the fields of
 * one object, changed in place by the operations of the wallet and history
 * managers.  Each database transaction of wallets/models.py is one method here.
 */
module WalletStore {
  import opened WalletModels

  class Store {
    var wallets: WalletTable
    var history: seq<Entry>

    ghost function State(): Tables
      reads this
    {
      Tables(wallets, history)
    }

    /** Balances reconcile with the log, are never negative, and every entry refers to an existing wallet. */
    ghost predicate Valid()
      reads this
    {
      Good(State())
    }

    constructor ()
      ensures Valid()
      ensures wallets == map[] && history == []
    {
      wallets := map[];
      history := [];
    }

    /**
     * `create_new`: insert a wallet with balance 0 for `owner` under the
     * token the generator produced; a token already in the table makes the
     * insert fail and nothing changes.
     */
    method CreateNew(owner: UserId, generated: Token) returns (r: Option<Wallet>)
      requires Valid()
      modifies this
      ensures Valid()
      ensures State() == AfterCreate(old(State()), owner, generated)
      ensures r == if generated in old(wallets) then None else Some(Wallet(generated, owner, 0))
    {
      CreatePreservesGood(State(), owner, generated);
      if generated in wallets {
        r := None;
      } else {
        var w := Wallet(generated, owner, 0);
        wallets := wallets[generated := w];
        r := Some(w);
      }
    }

    /** `new_deposit`: append the "Deposit" row for `w`, dated now. */
    method NewDeposit(w: Token, amount: int)
      modifies this
      ensures wallets == old(wallets)
      ensures history == old(history) + [Entry(DEPOSIT_SUMMARY, None, w, amount, |old(history)|, true)]
    {
      history := history + [DepositEntry(w, amount, |history|)];
    }

    /** `new_transfer`: append the row recording a charge and its outcome, dated now. */
    method NewTransfer(source: Token, target: Token, summary: string, amount: int, success: bool)
      modifies this
      ensures wallets == old(wallets)
      ensures history == old(history) + [Entry(summary, Some(source), target, amount, |old(history)|, success)]
    {
      history := history + [TransferEntry(source, target, summary, amount, |history|, success)];
    }

    /**
     * `Wallet.deposit`, run on the existing wallet `w` with an amount the
     * validator accepted: credit the balance, then log the deposit.
     */
    method Deposit(w: Token, amount: int)
      requires Valid() && w in wallets && amount > 0
      modifies this
      ensures Valid()
      ensures State() == AfterDeposit(old(State()), w, amount)
      ensures wallets[w].balance == old(wallets[w].balance) + amount
    {
      ghost var s := State();
      DepositPreservesGood(s, w, amount);
      wallets := wallets[w := wallets[w].(balance := wallets[w].balance + amount)];
      NewDeposit(w, amount);
    }

    /**
     * `Wallet.make_charge`, run on the existing wallet `target`: look up the
     * source by token; if it holds at least `amount`, debit it, credit
     * `target` and log a successful entry; otherwise log a failed entry and
     * change no balance.
     */
    method MakeCharge(target: Token, source: Token, amount: int, summary: string) returns (r: ChargeOutcome)
      requires Valid() && target in wallets && amount > 0
      modifies this
      ensures Valid()
      ensures r == ChargeOutcomeOf(old(State()), source, amount)
      ensures State() == AfterCharge(old(State()), target, source, amount, summary)
      ensures r == SourceNotFound ==> wallets == old(wallets) && history == old(history)
      ensures r != SourceNotFound ==> |history| == |old(history)| + 1 && history[..|old(history)|] == old(history)
      ensures r == InsufficientFunds ==> wallets == old(wallets) && !history[|old(history)|].success
    {
      ghost var s := State();
      ChargePreservesGood(s, target, source, amount, summary);
      if source !in wallets {
        r := SourceNotFound;
        return;
      }
      var sourceInstance := wallets[source];
      if sourceInstance.balance >= amount {
        wallets := wallets[source := sourceInstance.(balance := sourceInstance.balance - amount)];
        wallets := wallets[target := wallets[target].(balance := wallets[target].balance + amount)];
        assert wallets == Transfer(s.wallets, source, target, amount);
        NewTransfer(source, target, summary, amount, true);
        r := Charged;
        assert State() == AfterCharge(s, target, source, amount, summary);
      } else {
        NewTransfer(source, target, summary, amount, false);
        r := InsufficientFunds;
        assert State() == AfterCharge(s, target, source, amount, summary);
      }
    }
  }
}
