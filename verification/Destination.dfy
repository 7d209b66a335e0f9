/** The destination program: its accounts as mutable state and its instruction handlers as
    methods, each proved to do to the state what the specification says. */
module Destination {
  import opened Wrappers
  import opened Bits
  import opened Numerals
  import opened Timelocks
  import opened Merkle
  import opened Accounts
  import opened Ledgers
  import Spec = DestinationSpec
  import Invariant = DestinationInvariant

  class DestinationProgram {
    const h: Hasher
    const ledger: Ledger
    var escrows: map<EscrowId, Spec.EscrowDst>
    var resolvers: set<Bytes32>
    var now: u32

    constructor (h: Hasher, ledger: Ledger, resolvers: set<Bytes32>, now: u32)
      ensures this.h == h && this.ledger == ledger
      ensures View() == Spec.State(ledger.View(), map[], resolvers, now)
    {
      this.h, this.ledger, this.resolvers, this.now := h, ledger, resolvers, now;
      escrows := map[];
    }

    function View(): Spec.State
      reads this, ledger
    {
      Spec.State(ledger.View(), escrows, resolvers, now)
    }

    /** The outcome and the new state are those of `expected`. */
    ghost predicate Became(r: Outcome, expected: Result<Spec.State>)
      reads this, ledger
    {
      match expected
      case Ok(s) => r == Pass && View() == s
      case Err(e) => r == Fail(e)
    }

    /** `init` on the escrow account and `init_if_needed` on its token account. */
    method OpenAccounts(p: Spec.CreateParams) returns (r: Outcome)
      modifies ledger
      ensures ledger.Became(r, Spec.OpenAccounts(ledger.chain, old(ledger.View()), p))
    {
      var id := Spec.CreatedId(p);
      :- ledger.FundRent(Key(p.creator), EscrowPda(id), ledger.chain.escrowRent);
      r := ledger.OpenTokenAccount(Key(p.creator), EscrowAta(id, p.token));
    }

    /** Native tokens are sent as lamports and left unwrapped. */
    method Deposit(p: Spec.CreateParams, given: bool) returns (r: Outcome)
      modifies ledger
      ensures ledger.Became(r, Spec.Deposit(ledger.chain, old(ledger.View()), p, given))
    {
      var ata := EscrowAta(Spec.CreatedId(p), p.token);
      if p.assetIsNative {
        r := ledger.UniTransfer(UniTransferParams.NativeTransfer(Key(p.creator), ata, p.amount));
      } else {
        :- Need(given, MissingCreatorAta);
        r := ledger.UniTransfer(UniTransferParams.TokenTransfer(Wallet(p.creator, p.token), ata, p.amount));
      }
    }

    method Create(p: Spec.CreateParams, given: bool) returns (r: Outcome)
      modifies this, ledger
      ensures Became(r, Spec.Create(ledger.chain, old(View()), p, given))
    {
      var id := Spec.CreatedId(p);
      // Account constraints: the escrow is new, its token account is opened if needed.
      :- Need(GivenIsOpen(ledger.View(), given, Wallet(p.creator, p.token)), AccountNotInitialized);
      :- Need(id !in escrows, AccountAlreadyInUse);
      :- OpenAccounts(p);
      // Handler.
      var updated := Redeploy(p.timelocks, now);
      var cancellationStart := StageStart(updated, DstCancellation);
      :- AsOutcome(cancellationStart);
      :- Need(cancellationStart.value <= p.srcCancellationTimestamp, InvalidCreationTime);
      :- Need(p.amount != 0 && p.safetyDeposit != 0, ZeroAmountOrDeposit);
      :- Need(p.safetyDeposit <= ledger.chain.escrowRent, SafetyDepositTooLarge);
      :- Need(p.token == ledger.chain.nativeMint || !p.assetIsNative, InconsistentNativeTrait);
      :- Deposit(p, given);
      escrows := escrows[id := Spec.NewEscrow(p, now)];
      return Pass;
    }

    /** The payout of a withdrawal: the asset, then the deposit, then the rent. */
    method PayRecipient(id: EscrowId, e: Spec.EscrowDst, executor: Bytes32, given: bool) returns (r: Outcome)
      modifies ledger
      ensures ledger.Became(r, Spec.PayRecipient(ledger.chain, old(ledger.View()), id, e, executor, given))
    {
      r := ledger.ProcessPayout(e.assetIsNative, e.amount, EscrowPda(id), EscrowAta(id, e.token), e.recipient,
                              Optional(given, Spec.RecipientAta(e)), Key(e.creator));
      if r.Fail? {
        return;
      }
      r := ledger.PayDepositAndClose(EscrowPda(id), e.safetyDeposit, Key(e.creator), Key(executor));
    }

    method OpenRecipient(payer: Bytes32, e: Spec.EscrowDst, given: bool) returns (r: Outcome)
      modifies ledger
      ensures ledger.Became(r, Spec.OpenRecipient(ledger.chain, old(ledger.View()), payer, e, given))
    {
      if given {
        :- ledger.OpenTokenAccount(Key(payer), Spec.RecipientAta(e));
      }
      return Pass;
    }

    /** The window and the secret. */
    method CheckWithdrawal(e: Spec.EscrowDst, stage: Stage, secret: Bytes32) returns (r: Outcome)
      ensures r == AsOutcome(Spec.WithdrawGate(h, e, now, stage, secret))
    {
      r := AsOutcome(After(e.timelocks, now, stage));
      if r.Fail? {
        return;
      }
      :- AsOutcome(Before(e.timelocks, now, DstCancellation));
      :- Need(h(secret) == e.hashlock, InvalidSecret);
      return Pass;
    }

    /** The withdrawal shared by the private and the public instruction. */
    method WithdrawFrom(
      id: EscrowId, executor: Bytes32, stage: Stage, secret: Bytes32, given: bool) returns (r: Outcome)
      modifies this, ledger
      ensures Became(r, Spec.WithdrawFrom(h, ledger.chain, old(View()), id, executor, stage, secret, given))
    {
      if id !in escrows {
        return Fail(AccountNotInitialized);
      }
      var escrow := escrows[id];
      :- Need(EscrowAta(id, escrow.token) in ledger.tokens, AccountNotInitialized);
      :- OpenRecipient(executor, escrow, given);
      :- CheckWithdrawal(escrow, stage, secret);
      :- PayRecipient(id, escrow, executor, given);
      escrows := escrows - {id};
      return Pass;
    }

    method Withdraw(id: EscrowId, secret: Bytes32, given: bool) returns (r: Outcome)
      modifies this, ledger
      ensures Became(r, Spec.Withdraw(h, ledger.chain, old(View()), id, secret, given))
    {
      r := WithdrawFrom(id, id.creator, DstWithdrawal, secret, given);
    }

    method PublicWithdraw(payer: Bytes32, id: EscrowId, secret: Bytes32, given: bool) returns (r: Outcome)
      modifies this, ledger
      ensures Became(r, Spec.PublicWithdraw(h, ledger.chain, old(View()), payer, id, secret, given))
    {
      if payer !in resolvers {
        return Fail(NotAuthorised);
      }
      r := WithdrawFrom(id, payer, DstPublicWithdrawal, secret, given);
    }

    method ReturnToCreator(id: EscrowId, e: Spec.EscrowDst, given: bool) returns (r: Outcome)
      modifies ledger
      ensures ledger.Became(r, Spec.ReturnToCreator(ledger.chain, old(ledger.View()), id, e, given))
    {
      r := ledger.ProcessPayout(e.assetIsNative, e.amount, EscrowPda(id), EscrowAta(id, e.token), Key(e.creator),
                              Optional(given, Wallet(e.creator, e.token)), Key(e.creator));
      if r.Fail? {
        return;
      }
      ledger.CloseAccount(EscrowPda(id), Key(e.creator));
      return Pass;
    }

    method Cancel(id: EscrowId, given: bool) returns (r: Outcome)
      modifies this, ledger
      ensures Became(r, Spec.Cancel(ledger.chain, old(View()), id, given))
    {
      if id !in escrows {
        return Fail(AccountNotInitialized);
      }
      var escrow := escrows[id];
      :- Need(EscrowAta(id, escrow.token) in ledger.tokens
           && GivenIsOpen(ledger.View(), given, Wallet(escrow.creator, escrow.token)), AccountNotInitialized);
      :- AsOutcome(After(escrow.timelocks, now, DstCancellation));
      :- ReturnToCreator(id, escrow, given);
      escrows := escrows - {id};
      return Pass;
    }

    method RescueEscrow(id: EscrowId, mint: Bytes32, amount: u64) returns (r: Outcome)
      modifies this, ledger
      ensures Became(r, Spec.RescueEscrow(ledger.chain, old(View()), id, mint, amount))
    {
      var start := None;
      if id in escrows {
        var s := RescueStart(escrows[id].timelocks);
        :- AsOutcome(s);
        start := Some(s.value);
      }
      r := ledger.RescueFunds(now, start, EscrowAta(id, mint), Key(id.creator), Wallet(id.creator, mint), amount);
    }

    method Dispatch(ix: Spec.Instruction) returns (r: Outcome)
      requires !ix.Tick? && !ix.World?
      modifies this, ledger
      ensures Became(r, Spec.Apply(h, ledger.chain, old(View()), ix))
    {
      match ix {
        case ICreate(p, given) => r := Create(p, given);
        case IWithdraw(id, secret, given) => r := Withdraw(id, secret, given);
        case IPublicWithdraw(payer, id, secret, given) => r := PublicWithdraw(payer, id, secret, given);
        case ICancel(id, given) => r := Cancel(id, given);
        case IRescue(id, mint, amount) => r := RescueEscrow(id, mint, amount);
      }
    }

    /** A transaction: all of an instruction's effects, or none of them. Whatever was funded
        and is not rescued stays funded, and no lamport or token is made or lost. */
    method Execute(ix: Spec.Instruction) returns (r: Outcome)
      requires !ix.Tick? && !ix.World?
      modifies this, ledger
      ensures r.Pass? <==> Spec.Apply(h, ledger.chain, old(View()), ix).Ok?
      ensures View() == Spec.Next(h, ledger.chain, old(View()), ix)
      ensures forall rescued :: Invariant.Solvent(ledger.chain, old(View()), rescued) ==>
        && Conserves(ledger.chain, old(View().balances), View().balances)
        && Invariant.Solvent(ledger.chain, View(),
             if r.Pass? then Invariant.RescuedAfter(old(View()), rescued, ix) else rescued)
    {
      var before := View();
      r := Dispatch(ix);
      if r.Fail? {
        ledger.Restore(before.balances);
        escrows, resolvers, now := before.escrows, before.resolvers, before.now;
      }
      Invariant.NextKeepsSolvency(h, ledger.chain, before, ix);
    }
  }
}
