/** The source program: its accounts as mutable state and its instruction handlers as
    methods, each proved to do to the state what the specification says. */
module Source {
  import opened Wrappers
  import opened Bits
  import opened Numerals
  import opened Timelocks
  import opened Auction
  import opened Merkle
  import opened PartialFill
  import opened DstAmount
  import opened Encoding
  import opened Accounts
  import opened Ledgers
  import Spec = SourceSpec
  import Invariant = SourceInvariant

  class SourceProgram {
    const h: Hasher
    const ledger: Ledger
    var orders: map<Bytes32, Spec.Order>
    var escrows: map<EscrowId, Spec.EscrowSrc>
    var resolvers: set<Bytes32>
    var now: u32

    constructor (h: Hasher, ledger: Ledger, resolvers: set<Bytes32>, now: u32)
      ensures this.h == h && this.ledger == ledger
      ensures View() == Spec.State(ledger.View(), map[], map[], resolvers, now)
    {
      this.h, this.ledger, this.resolvers, this.now := h, ledger, resolvers, now;
      orders, escrows := map[], map[];
    }

    function View(): Spec.State
      reads this, ledger
    {
      Spec.State(ledger.View(), orders, escrows, resolvers, now)
    }

    /** The outcome and the new state are those of `expected`. */
    ghost predicate Became(r: Outcome, expected: Result<Spec.State>)
      reads this, ledger
    {
      match expected
      case Ok(s) => r == Pass && View() == s
      case Err(e) => r == Fail(e)
    }

    /** `init` on the order account and `init_if_needed` on its token account. */
    method OpenOrderAccounts(creator: Bytes32, orderHash: Bytes32, token: Bytes32) returns (r: Outcome)
      modifies ledger
      ensures ledger.Became(r, Spec.OpenOrderAccounts(ledger.chain, old(ledger.View()), creator, orderHash, token))
    {
      r := ledger.FundRent(Key(creator), OrderPda(orderHash), ledger.chain.orderRent);
      if r.Fail? {
        return;
      }
      r := ledger.OpenTokenAccount(Key(creator), OrderAta(orderHash, token));
    }

    /** The same for an escrow. */
    method OpenEscrowAccounts(taker: Bytes32, id: EscrowId, token: Bytes32) returns (r: Outcome)
      modifies ledger
      ensures ledger.Became(r, Spec.OpenEscrowAccounts(ledger.chain, old(ledger.View()), taker, id, token))
    {
      r := ledger.FundRent(Key(taker), EscrowPda(id), ledger.chain.escrowRent);
      if r.Fail? {
        return;
      }
      r := ledger.OpenTokenAccount(Key(taker), EscrowAta(id, token));
    }

    /** Native tokens are sent as lamports and wrapped; others come from the token account. */
    method Deposit(p: OrderParams, ata: Address, given: bool) returns (r: Outcome)
      modifies ledger
      ensures ledger.Became(r, Spec.Deposit(ledger.chain, old(ledger.View()), p, ata, given))
    {
      if p.assetIsNative {
        :- ledger.UniTransfer(UniTransferParams.NativeTransfer(Key(p.maker), ata, p.amount));
        r := ledger.SyncNative(ata);
      } else {
        :- Need(given, MissingCreatorAta);
        r := ledger.UniTransfer(UniTransferParams.TokenTransfer(Wallet(p.maker, p.token), ata, p.amount));
      }
    }

    method CheckNewOrder(p: OrderParams) returns (r: Outcome)
      ensures r == AsOutcome(Spec.CheckNewOrder(ledger.chain, now, p))
    {
      if p.allowMultipleFills {
        :- Need(PartsAmount(p.hashlock) > 1, InvalidPartsAmount);
      }
      :- Need(now < p.expirationTime, OrderHasExpired);
      :- Need(p.amount != 0 && p.safetyDeposit != 0, ZeroAmountOrDeposit);
      :- Need(p.safetyDeposit <= ledger.chain.escrowRent, SafetyDepositTooLarge);
      :- Need(p.token == ledger.chain.nativeMint || !p.assetIsNative, InconsistentNativeTrait);
      return Pass;
    }

    method Create(p: OrderParams, given: bool) returns (r: Outcome)
      modifies this, ledger
      ensures Became(r, Spec.Create(h, ledger.chain, old(View()), p, given))
    {
      var orderHash := OrderHash(h, p);
      var ata, creatorAta := OrderAta(orderHash, p.token), Wallet(p.maker, p.token);
      // Account constraints: the order is new, its token account is opened if needed.
      :- Need(GivenIsOpen(ledger.View(), given, creatorAta), AccountNotInitialized);
      :- Need(orderHash !in orders, AccountAlreadyInUse);
      :- OpenOrderAccounts(p.maker, orderHash, p.token);
      // Handler.
      :- Need(ledger.View().Lamports(ata) >= p.maxCancellationPremium, InvalidCancellationFee);
      :- CheckNewOrder(p);
      :- Deposit(p, ata, given);
      orders := orders[orderHash := Spec.NewOrder(p, orderHash, now)];
      return Pass;
    }

    /** The secret check of a fill: the proof must fold to the order's root and its index
        must be the one this fill is due. */
    method CheckFillHashlock(o: Spec.Order, amount: u64, proof: Option<MerkleProof>)
      returns (r: Outcome, hashlock: Bytes32)
      ensures match Spec.FillHashlock(h, o, amount, proof)
              case Ok(l) => r == Pass && hashlock == l
              case Err(e) => r == Fail(e)
    {
      hashlock := o.hashlock;
      if proof.Some? {
        var root := ProcessProof(h, proof.value);
        if root[2..] != o.hashlock[2..] {
          return Fail(InvalidMerkleProof), hashlock;
        }
        var valid := IsValidPartialFill(amount, o.remainingAmount, o.amount, PartsAmount(o.hashlock),
                                        proof.value.index);
        if valid.Err? {
          return Fail(valid.error), hashlock;
        }
        if !valid.value {
          return Fail(InvalidPartialFill), hashlock;
        }
        hashlock := proof.value.hashedSecret;
      }
      r := Pass;
    }

    /** Everything a fill must satisfy before tokens move. */
    method CheckFill(o: Spec.Order, amount: u64, proof: Option<MerkleProof>, data: AuctionData)
      returns (r: Outcome, hashlock: Bytes32)
      ensures match Spec.CheckFill(h, o, now, amount, proof, data)
              case Ok(l) => r == Pass && hashlock == l
              case Err(e) => r == Fail(e)
    {
      hashlock := o.hashlock;
      if !((o.allowMultipleFills && amount <= o.remainingAmount) || (!o.allowMultipleFills && amount == o.amount)) {
        return Fail(InvalidAmount), hashlock;
      }
      if now >= o.expirationTime {
        return Fail(OrderHasExpired), hashlock;
      }
      if h(EncodeAuction(data)) != o.dutchAuctionDataHash {
        return Fail(DutchAuctionDataHashMismatch), hashlock;
      }
      if o.allowMultipleFills != proof.Some? {
        return Fail(InconsistentMerkleProofTrait), hashlock;
      }
      r, hashlock := CheckFillHashlock(o, amount, proof);
    }

    /** Closes an order's token account and the order account, both to the creator. */
    method CloseOrder(o: Spec.Order, orderHash: Bytes32) returns (r: Outcome)
      modifies ledger
      ensures ledger.Became(r, Spec.CloseOrder(ledger.chain, old(ledger.View()), o, orderHash))
    {
      r := ledger.CloseTokenAccount(OrderAta(orderHash, o.token), Key(o.creator));
      if r.Fail? {
        return;
      }
      ledger.CloseAccount(OrderPda(orderHash), Key(o.creator));
      return Pass;
    }

    /** Sends an order's tokens back to its creator, unless they are native. */
    method ReturnTokens(o: Spec.Order, orderHash: Bytes32) returns (r: Outcome)
      modifies ledger
      ensures ledger.Became(r, Spec.ReturnTokens(ledger.chain, old(ledger.View()), o, orderHash))
    {
      var orderAta := OrderAta(orderHash, o.token);
      if !o.assetIsNative {
        var all := Payouts.TokensIn(ledger.View(), orderAta);
        :- ledger.UniTransfer(UniTransferParams.TokenTransfer(orderAta, Wallet(o.creator, o.token), all));
      }
      return Pass;
    }

    /** Closes the order through the resolver, who keeps the reward. */
    method SettleThroughResolver(o: Spec.Order, orderHash: Bytes32, resolver: Bytes32, reward: nat) returns (r: Outcome)
      modifies ledger
      ensures ledger.Became(r,
        Spec.SettleThroughResolver(ledger.chain, old(ledger.View()), o, orderHash, resolver, reward))
    {
      var orderAta := OrderAta(orderHash, o.token);
      var held := ledger.View().Lamports(orderAta);
      :- Need(held >= reward, ArithmeticOverflow);
      var makerAmount := held - reward;
      :- ledger.CloseTokenAccount(orderAta, Key(resolver));
      r := ledger.UniTransfer(UniTransferParams.NativeTransfer(Key(resolver), Key(o.creator), makerAmount));
      if r.Fail? {
        return;
      }
      ledger.CloseAccount(OrderPda(orderHash), Key(o.creator));
      return Pass;
    }

    /** Moves a fill's tokens: all there are if it takes the remainder, donations included. */
    method TakeFromOrder(o: Spec.Order, orderHash: Bytes32, amount: u64, to: Address) returns (r: Outcome)
      modifies ledger
      ensures ledger.Became(r, Spec.TakeFromOrder(ledger.chain, old(ledger.View()), o, orderHash, amount, to))
    {
      var orderAta := OrderAta(orderHash, o.token);
      var amountToTransfer: nat := amount;
      if o.remainingAmount == amount {
        amountToTransfer := Payouts.TokensIn(ledger.View(), orderAta);
      }
      r := ledger.UniTransfer(UniTransferParams.TokenTransfer(orderAta, to, amountToTransfer));
    }

    method GetDstAmount(o: Spec.Order, amount: u64, data: AuctionData) returns (r: Result<u256>)
      ensures r == EscrowDstAmount(o.dstAmount, amount, o.amount, now, data)
    {
      var base := ProRata(o.dstAmount, amount, o.amount);
      if base.Err? {
        return Err(base.error);
      }
      var rateBump := CalculateRateBump(now, data);
      var raised := CheckedCeil(base.value, BASE_1E7 + rateBump, BASE_1E7);
      if raised.Err? {
        return Err(raised.error);
      }
      return Ok(raised.value);
    }

    /** Writes the new escrow and either closes the order or takes the fill off what remains. */
    method RecordFill(orderHash: Bytes32, amount: u64, id: EscrowId, e: Spec.EscrowSrc) returns (r: Outcome)
      requires orderHash in orders && Spec.FillAmountAllowed(orders[orderHash], amount)
      modifies this, ledger
      ensures Became(r, Spec.RecordFill(ledger.chain, old(View()), orderHash, amount, id, e))
    {
      var order := orders[orderHash];
      escrows := escrows[id := e];
      if !order.allowMultipleFills || order.remainingAmount == amount {
        :- CloseOrder(order, orderHash);
        orders := orders - {orderHash};
      } else {
        orders := orders[orderHash := order.(remainingAmount := order.remainingAmount - amount)];
      }
      return Pass;
    }

    method FillOrder(
      id: EscrowId, taker: Bytes32, orderHash: Bytes32, amount: u64, proof: Option<MerkleProof>, data: AuctionData)
      returns (r: Outcome)
      requires orderHash in orders
      modifies this, ledger
      ensures Became(r, Spec.FillOrder(
        h, ledger.chain, old(View()), id, taker, orderHash, amount, proof, data))
    {
      var order := orders[orderHash];
      var checked, hashlock := CheckFill(order, amount, proof, data);
      :- checked;
      :- TakeFromOrder(order, orderHash, amount, EscrowAta(id, order.token));
      var dstAmount := GetDstAmount(order, amount, data);
      :- AsOutcome(dstAmount);
      r := RecordFill(orderHash, amount, id, Spec.NewEscrow(order, hashlock, taker, amount, dstAmount.value, now));
    }

    method CreateEscrow(
      taker: Bytes32, orderHash: Bytes32, amount: u64, proof: Option<MerkleProof>, data: AuctionData)
      returns (r: Outcome)
      modifies this, ledger
      ensures Became(r, Spec.CreateEscrow(h, ledger.chain, old(View()), taker, orderHash, amount, proof, data))
    {
      if taker !in resolvers {
        return Fail(NotAuthorised);
      }
      :- Need(orderHash in orders, AccountNotInitialized);
      var order := orders[orderHash];
      :- Need(OrderAta(orderHash, order.token) in ledger.tokens, AccountNotInitialized);
      var id := Spec.FillId(order, orderHash, taker, amount, proof);
      :- Need(id !in escrows, AccountAlreadyInUse);
      :- OpenEscrowAccounts(taker, id, order.token);
      r := FillOrder(id, taker, orderHash, amount, proof, data);
    }

    /** All tokens to the taker, the deposit to the executor, the rent to the taker. */
    method PayTaker(id: EscrowId, e: Spec.EscrowSrc, executor: Bytes32) returns (r: Outcome)
      modifies ledger
      ensures ledger.Became(r, Spec.PayTaker(ledger.chain, old(ledger.View()), id, e, executor))
    {
      r := ledger.WithdrawAndCloseTokenAta(EscrowAta(id, e.token), Wallet(e.taker, e.token), Key(e.taker));
      if r.Fail? {
        return;
      }
      r := ledger.PayDepositAndClose(EscrowPda(id), e.safetyDeposit, Key(e.taker), Key(executor));
    }

    /** The asset back to the maker, the deposit to the executor, the rent to the taker. */
    method RefundMaker(id: EscrowId, e: Spec.EscrowSrc, executor: Bytes32, given: bool) returns (r: Outcome)
      modifies ledger
      ensures ledger.Became(r, Spec.RefundMaker(ledger.chain, old(ledger.View()), id, e, executor, given))
    {
      r := ledger.ProcessPayout(e.assetIsNative, e.amount, EscrowPda(id), EscrowAta(id, e.token), Key(e.maker),
                              Optional(given, Wallet(e.maker, e.token)), Key(e.taker));
      if r.Fail? {
        return;
      }
      r := ledger.PayDepositAndClose(EscrowPda(id), e.safetyDeposit, Key(e.taker), Key(executor));
    }

    /** The window and the secret. */
    method CheckWithdrawal(e: Spec.EscrowSrc, stage: Stage, secret: Bytes32) returns (r: Outcome)
      ensures r == AsOutcome(Spec.WithdrawGate(h, e, now, stage, secret))
    {
      r := AsOutcome(After(e.timelocks, now, stage));
      if r.Fail? {
        return;
      }
      :- AsOutcome(Before(e.timelocks, now, SrcCancellation));
      :- Need(h(secret) == e.hashlock, InvalidSecret);
      return Pass;
    }

    /** The withdrawal shared by the private and the public instruction. */
    method WithdrawFrom(id: EscrowId, executor: Bytes32, stage: Stage, secret: Bytes32) returns (r: Outcome)
      modifies this, ledger
      ensures Became(r, Spec.WithdrawFrom(h, ledger.chain, old(View()), id, executor, stage, secret))
    {
      if id !in escrows {
        return Fail(AccountNotInitialized);
      }
      var escrow := escrows[id];
      :- Need(EscrowAta(id, escrow.token) in ledger.tokens
           && Wallet(escrow.taker, escrow.token) in ledger.tokens, AccountNotInitialized);
      :- CheckWithdrawal(escrow, stage, secret);
      :- PayTaker(id, escrow, executor);
      escrows := escrows - {id};
      return Pass;
    }

    /** The cancellation shared by the private and the public instruction. */
    method CancelFrom(id: EscrowId, executor: Bytes32, stage: Stage, given: bool) returns (r: Outcome)
      modifies this, ledger
      ensures Became(r, Spec.CancelFrom(ledger.chain, old(View()), id, executor, stage, given))
    {
      if id !in escrows {
        return Fail(AccountNotInitialized);
      }
      var escrow := escrows[id];
      :- Need(EscrowAta(id, escrow.token) in ledger.tokens
           && GivenIsOpen(ledger.View(), given, Wallet(escrow.maker, escrow.token)), AccountNotInitialized);
      :- AsOutcome(After(escrow.timelocks, now, stage));
      :- RefundMaker(id, escrow, executor, given);
      escrows := escrows - {id};
      return Pass;
    }

    method Withdraw(id: EscrowId, secret: Bytes32) returns (r: Outcome)
      modifies this, ledger
      ensures Became(r, Spec.Withdraw(h, ledger.chain, old(View()), id, secret))
    {
      r := WithdrawFrom(id, id.creator, SrcWithdrawal, secret);
    }

    method PublicWithdraw(payer: Bytes32, id: EscrowId, secret: Bytes32) returns (r: Outcome)
      modifies this, ledger
      ensures Became(r, Spec.PublicWithdraw(h, ledger.chain, old(View()), payer, id, secret))
    {
      if payer !in resolvers {
        return Fail(NotAuthorised);
      }
      r := WithdrawFrom(id, payer, SrcPublicWithdrawal, secret);
    }

    method CancelEscrow(id: EscrowId, given: bool) returns (r: Outcome)
      modifies this, ledger
      ensures Became(r, Spec.CancelEscrow(ledger.chain, old(View()), id, given))
    {
      r := CancelFrom(id, id.creator, SrcCancellation, given);
    }

    method PublicCancelEscrow(payer: Bytes32, id: EscrowId, given: bool) returns (r: Outcome)
      modifies this, ledger
      ensures Became(r, Spec.PublicCancelEscrow(ledger.chain, old(View()), payer, id, given))
    {
      if payer !in resolvers {
        return Fail(NotAuthorised);
      }
      r := CancelFrom(id, payer, SrcPublicCancellation, given);
    }

    method CancelOrder(orderHash: Bytes32, given: bool) returns (r: Outcome)
      modifies this, ledger
      ensures Became(r, Spec.CancelOrder(ledger.chain, old(View()), orderHash, given))
    {
      if orderHash !in orders {
        return Fail(AccountNotInitialized);
      }
      var order := orders[orderHash];
      :- Need(Spec.CancelAccountsOpen(View(), orderHash, given), AccountNotInitialized);
      :- Need(order.assetIsNative == !given, InconsistentNativeTrait);
      :- ReturnTokens(order, orderHash);
      :- CloseOrder(order, orderHash);
      orders := orders - {orderHash};
      return Pass;
    }

    method CancelOrderByResolver(resolver: Bytes32, orderHash: Bytes32, rewardLimit: u64, given: bool)
      returns (r: Outcome)
      modifies this, ledger
      ensures Became(r, Spec.CancelOrderByResolver(ledger.chain, old(View()), resolver, orderHash, rewardLimit, given))
    {
      if resolver !in resolvers {
        return Fail(NotAuthorised);
      }
      :- Need(orderHash in orders, AccountNotInitialized);
      var order := orders[orderHash];
      :- Need(Spec.CancelAccountsOpen(View(), orderHash, given), AccountNotInitialized);
      :- Need(now >= order.expirationTime, OrderNotExpired);
      :- Need(order.maxCancellationPremium > 0, CancelOrderByResolverIsForbidden);
      :- Need(order.assetIsNative == !given, InconsistentNativeTrait);
      :- ReturnTokens(order, orderHash);
      var reward := Spec.ResolverReward(order, now, rewardLimit);
      :- AsOutcome(reward);
      :- SettleThroughResolver(order, orderHash, resolver, reward.value);
      orders := orders - {orderHash};
      return Pass;
    }

    method RescueFundsForEscrow(id: EscrowId, mint: Bytes32, amount: u64) returns (r: Outcome)
      modifies this, ledger
      ensures Became(r, Spec.RescueFundsForEscrow(ledger.chain, old(View()), id, mint, amount))
    {
      var start := None;
      if id in escrows {
        var s := RescueStart(escrows[id].timelocks);
        :- AsOutcome(s);
        start := Some(s.value);
      }
      r := ledger.RescueFunds(now, start, EscrowAta(id, mint), Key(id.creator), Wallet(id.creator, mint), amount);
    }

    method RescueFundsForOrder(resolver: Bytes32, p: OrderParams, mint: Bytes32, amount: u64) returns (r: Outcome)
      modifies this, ledger
      ensures Became(r, Spec.RescueFundsForOrder(h, ledger.chain, old(View()), resolver, p, mint, amount))
    {
      if resolver !in resolvers {
        return Fail(NotAuthorised);
      }
      var orderHash := OrderHash(h, p);
      var start := None;
      if orderHash in orders {
        var s := RescueStart(orders[orderHash].timelocks);
        :- AsOutcome(s);
        start := Some(s.value);
      }
      r := ledger.RescueFunds(now, start, OrderAta(orderHash, mint), Key(resolver), Wallet(resolver, mint), amount);
    }

    method Dispatch(ix: Spec.Instruction) returns (r: Outcome)
      requires !ix.Tick? && !ix.World?
      modifies this, ledger
      ensures Became(r, Spec.Apply(h, ledger.chain, old(View()), ix))
    {
      match ix {
        case ICreate(p, given) => r := Create(p, given);
        case ICreateEscrow(taker, orderHash, amount, proof, data) =>
          r := CreateEscrow(taker, orderHash, amount, proof, data);
        case IWithdraw(id, secret) => r := Withdraw(id, secret);
        case IPublicWithdraw(payer, id, secret) => r := PublicWithdraw(payer, id, secret);
        case ICancelEscrow(id, given) => r := CancelEscrow(id, given);
        case IPublicCancelEscrow(payer, id, given) => r := PublicCancelEscrow(payer, id, given);
        case ICancelOrder(orderHash, given) => r := CancelOrder(orderHash, given);
        case ICancelOrderByResolver(resolver, orderHash, limit, given) =>
          r := CancelOrderByResolver(resolver, orderHash, limit, given);
        case IRescueForEscrow(id, mint, amount) => r := RescueFundsForEscrow(id, mint, amount);
        case IRescueForOrder(resolver, p, mint, amount) => r := RescueFundsForOrder(resolver, p, mint, amount);
      }
    }

    /** A transaction: all of an instruction's effects, or none of them. Whatever was funded
        and is not rescued stays funded, and no lamport or token is made or lost. */
    method Execute(ix: Spec.Instruction) returns (r: Outcome)
      requires !ix.Tick? && !ix.World?
      modifies this, ledger
      ensures r.Pass? <==> Spec.Apply(h, ledger.chain, old(View()), ix).Ok?
      ensures View() == Spec.Next(h, ledger.chain, old(View()), ix)
      ensures forall rescued :: Invariant.Solvent(ledger.chain, old(View()), rescued) ==>
        && Conserves(ledger.chain, old(View().balances), View().balances)
        && Invariant.Solvent(ledger.chain, View(),
             if r.Pass? then Invariant.RescuedAfter(h, old(View()), rescued, ix) else rescued)
    {
      var before := View();
      r := Dispatch(ix);
      if r.Fail? {
        ledger.Restore(before.balances);
        orders, escrows, resolvers, now := before.orders, before.escrows, before.resolvers, before.now;
      }
      Invariant.NextKeepsSolvency(h, ledger.chain, before, ix);
    }
  }
}
