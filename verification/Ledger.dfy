/** The ledger on which the programs act in place, and the shared escrow operations as
    sequences of transfers, account closings and lamport moves. Each method is the function
    of the same name on balances; on failure it stops where it is, and the transaction
    that called it rolls the ledger back. */
module Ledgers {
  import opened Wrappers
  import opened Bits
  import opened Accounts
  import Payouts

  datatype UniTransferParams =
    | NativeTransfer(from: Address, to: Address, amount: nat)
    | TokenTransfer(from: Address, to: Address, amount: nat)

  class Ledger {
    const chain: Chain
    var lamports: map<Address, nat>
    var tokens: map<Address, nat>

    constructor (chain: Chain, b: Balances)
      ensures this.chain == chain && View() == b
    {
      this.chain := chain;
      lamports, tokens := b.lamports, b.tokens;
    }

    function View(): Balances
      reads this
    {
      Balances(lamports, tokens)
    }

    /** The outcome and the new balances are those of `expected`. */
    ghost predicate Became(r: Outcome, expected: Result<Balances>)
      reads this
    {
      match expected
      case Ok(b) => r == Pass && View() == b
      case Err(e) => r == Fail(e)
    }

    /** The runtime's rollback. */
    method Restore(b: Balances)
      modifies this
      ensures View() == b
    {
      lamports, tokens := b.lamports, b.tokens;
    }

    method SubLamports(a: Address, n: nat) returns (r: Outcome)
      modifies this`lamports
      ensures Became(r, Accounts.SubLamports(old(View()), a, n))
    {
      var held := View().Lamports(a);
      if held < n {
        return Fail(InsufficientFunds);
      }
      lamports := lamports[a := held - n];
      return Pass;
    }

    method AddLamports(a: Address, n: nat)
      modifies this`lamports
      ensures View() == Accounts.AddLamports(old(View()), a, n)
    {
      lamports := lamports[a := View().Lamports(a) + n];
    }

    method MoveLamports(from: Address, to: Address, n: nat) returns (r: Outcome)
      modifies this`lamports
      ensures Became(r, Accounts.MoveLamports(old(View()), from, to, n))
    {
      r := SubLamports(from, n);
      if r.Fail? {
        return;
      }
      AddLamports(to, n);
      return Pass;
    }

    method UniTransfer(params: UniTransferParams) returns (r: Outcome)
      modifies this
      ensures Became(r, match params
        case NativeTransfer(from, to, n) => Accounts.NativeTransfer(old(View()), from, to, n)
        case TokenTransfer(from, to, n) => Accounts.TokenTransfer(chain, old(View()), from, to, n))
    {
      if params.amount == 0 {
        return Pass;
      }
      match params {
        case NativeTransfer(from, to, n) =>
          r := MoveLamports(from, to, n);
        case TokenTransfer(from, to, n) =>
          r := MoveTokens(from, to, n);
      }
    }

    method ShiftTokens(from: Address, to: Address, n: nat) returns (r: Outcome)
      requires from in tokens && to in tokens && from != to && n <= tokens[from]
      modifies this
      ensures var moved := old(View().WithTokens(from, tokens[from] - n).WithTokens(to, tokens[to] + n));
        Became(r, if IsNative(chain, from) then Accounts.MoveLamports(moved, from, to, n) else Ok(moved))
    {
      tokens := tokens[from := tokens[from] - n];
      tokens := tokens[to := tokens[to] + n];
      if IsNative(chain, from) {
        r := MoveLamports(from, to, n);
      } else {
        r := Pass;
      }
    }

    /** The token program's transfer; tokens of the native mint take their lamports along. */
    method MoveTokens(from: Address, to: Address, n: nat) returns (r: Outcome)
      requires n > 0
      modifies this
      ensures Became(r, Accounts.TokenTransfer(chain, old(View()), from, to, n))
    {
      if from !in tokens || to !in tokens {
        return Fail(AccountNotInitialized);
      }
      :- Need(tokens[from] >= n, InsufficientFunds);
      if from == to {
        return Pass;
      }
      r := ShiftTokens(from, to, n);
    }

    method SyncNative(a: Address) returns (r: Outcome)
      modifies this`tokens
      ensures Became(r, Accounts.SyncNative(chain, old(View()), a))
    {
      if a !in tokens || !IsNative(chain, a) {
        return Fail(AccountNotInitialized);
      }
      :- Need(View().Lamports(a) >= chain.tokenRent + tokens[a], InsufficientFunds);
      tokens := tokens[a := View().Lamports(a) - chain.tokenRent];
      return Pass;
    }

    method CloseTokenAccount(a: Address, to: Address) returns (r: Outcome)
      modifies this
      ensures Became(r, Accounts.CloseTokenAccount(chain, old(View()), a, to))
    {
      if a !in tokens || a == to {
        return Fail(AccountNotInitialized);
      }
      :- Need(IsNative(chain, a) || tokens[a] == 0, NonNativeHasBalance);
      var all := View().Lamports(a);
      r := MoveLamports(a, to, all);
      if r.Fail? {
        return;
      }
      tokens := tokens - {a};
      return Pass;
    }

    method FundRent(payer: Address, a: Address, rent: nat) returns (r: Outcome)
      modifies this`lamports
      ensures Became(r, Accounts.FundRent(old(View()), payer, a, rent))
    {
      var held := View().Lamports(a);
      if held < rent {
        :- MoveLamports(payer, a, rent - held);
      }
      return Pass;
    }

    method OpenTokenAccount(payer: Address, a: Address) returns (r: Outcome)
      modifies this
      ensures Became(r, Accounts.OpenTokenAccount(chain, old(View()), payer, a))
    {
      if a in tokens {
        return Pass;
      }
      :- FundRent(payer, a, chain.tokenRent);
      var held := View().Lamports(a);
      tokens := tokens[a := if IsNative(chain, a) && held >= chain.tokenRent then held - chain.tokenRent else 0];
      return Pass;
    }

    method CloseAccount(a: Address, to: Address)
      modifies this`lamports
      ensures View() == Accounts.CloseAccount(old(View()), a, to)
    {
      var all := View().Lamports(a);
      lamports := lamports[a := 0];
      AddLamports(to, all);
    }

    method WithdrawAndCloseTokenAta(ata: Address, to: Address, rentRecipient: Address) returns (r: Outcome)
      modifies this
      ensures Became(r, Payouts.WithdrawAndCloseTokenAta(chain, old(View()), ata, to, rentRecipient))
    {
      var all := Payouts.TokensIn(View(), ata);
      :- UniTransfer(UniTransferParams.TokenTransfer(ata, to, all));
      r := CloseTokenAccount(ata, rentRecipient);
    }

    method ProcessPayout(
      assetIsNative: bool, amount: nat, escrow: Address, ata: Address,
      recipient: Address, recipientAta: Option<Address>, rentRecipient: Address) returns (r: Outcome)
      modifies this
      ensures Became(r, Payouts.ProcessPayout(
        chain, old(View()), assetIsNative, amount, escrow, ata, recipient, recipientAta, rentRecipient))
    {
      if assetIsNative {
        :- CloseTokenAccount(ata, escrow);
        :- SubLamports(escrow, amount);
        AddLamports(recipient, amount);
        return Pass;
      }
      :- Need(recipientAta.Some?, MissingRecipientAta);
      r := WithdrawAndCloseTokenAta(ata, recipientAta.value, rentRecipient);
    }

    method PayDepositAndClose(escrow: Address, deposit: nat, rentRecipient: Address, executor: Address)
      returns (r: Outcome)
      modifies this
      ensures Became(r, Payouts.PayDepositAndClose(old(View()), escrow, deposit, rentRecipient, executor))
    {
      if rentRecipient != executor {
        :- SubLamports(escrow, deposit);
        AddLamports(executor, deposit);
      }
      CloseAccount(escrow, rentRecipient);
      return Pass;
    }

    method RescueFunds(
      now: u32, start: Option<u32>, ata: Address, recipient: Address, recipientAta: Address, amount: u64)
      returns (r: Outcome)
      modifies this
      ensures Became(r, Payouts.RescueFunds(chain, old(View()), now, start, ata, recipient, recipientAta, amount))
    {
      if start.Some? {
        :- Need(now >= start.value, InvalidRescueStart);
      }
      :- Need(ata in tokens && recipientAta in tokens, AccountNotInitialized);
      var held := tokens[ata];
      :- UniTransfer(UniTransferParams.TokenTransfer(ata, recipientAta, amount));
      if amount == held {
        :- CloseTokenAccount(ata, recipient);
      }
      return Pass;
    }
  }
}
