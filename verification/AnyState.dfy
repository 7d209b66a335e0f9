/** What each instruction of the source program takes and does in every reachable state,
    also where a rescue has taken from what it concerns: `rescued` may hold anything. */
module SourceAnyState {
  import opened Wrappers
  import opened Bits
  import opened Numerals
  import opened Timelocks
  import opened Auction
  import opened Merkle
  import opened DstAmount
  import opened Accounts
  import opened Payouts
  import opened SourceSpec
  import opened SourceInvariant
  import opened SourceEffects

  /** The escrow account holds the executor's share. */
  predicate CanReward(b: Balances, id: EscrowId, e: EscrowSrc, executor: Bytes32) {
    executor == e.taker || e.safetyDeposit <= b.Lamports(EscrowPda(id))
  }

  /** A withdrawal takes both token accounts, the window and the secret, and a deposit for
      whoever executes it; it pays out every token there is, be it none. */
  lemma WithdrawTakes(
    h: Hasher, c: Chain, s: State, rescued: set<Address>, id: EscrowId, executor: Bytes32, stage: Stage,
    secret: Bytes32)
    requires Solvent(c, s, rescued)
    ensures var r := WithdrawFrom(h, c, s, id, executor, stage, secret);
      && (r.Ok? <==>
          && id in s.escrows
          && var e := s.escrows[id];
          && EscrowAta(id, e.token) in s.balances.tokens && Wallet(e.taker, e.token) in s.balances.tokens
          && CanWithdraw(h, e, s.now, stage, secret) && CanReward(s.balances, id, e, executor))
      && (r.Ok? ==>
          var e := s.escrows[id];
          PaidInTokens(c, s.balances, r.value.balances, EscrowPda(id), EscrowAta(id, e.token), Wallet(e.taker, e.token),
                       e.safetyDeposit, Key(e.taker), Key(executor)))
  {
    if id in s.escrows {
      var e := s.escrows[id];
      WithdrawGateAnswers(h, e, s.now, stage, secret);
      if EscrowAta(id, e.token) in s.balances.tokens {
        TokenPayoutSplit(c, s.balances, e.safetyDeposit, EscrowPda(id), EscrowAta(id, e.token),
                         Wallet(e.taker, e.token), Key(e.taker), Key(executor));
      }
    }
  }

  /** There is enough to refund: for a native asset its amount and the executor's share, in
      lamports; for any other the share. */
  predicate CanPayRefund(b: Balances, id: EscrowId, e: EscrowSrc, executor: Bytes32) {
    if e.assetIsNative
    then e.amount + If(executor != e.taker, e.safetyDeposit)
         <= b.Lamports(EscrowAta(id, e.token)) + b.Lamports(EscrowPda(id))
    else CanReward(b, id, e, executor)
  }

  /** What the refund paid, in lamports or in tokens. */
  ghost predicate RefundPaid(c: Chain, b: Balances, b': Balances, id: EscrowId, e: EscrowSrc, executor: Bytes32) {
    var pda, ata := EscrowPda(id), EscrowAta(id, e.token);
    if e.assetIsNative
    then PaidInLamports(b, b', pda, ata, e.amount, Key(e.maker), e.safetyDeposit, Key(e.taker), Key(executor))
    else PaidInTokens(c, b, b', pda, ata, Wallet(e.maker, e.token), e.safetyDeposit, Key(e.taker), Key(executor))
  }

  lemma RefundMakerTakes(c: Chain, b: Balances, id: EscrowId, e: EscrowSrc, executor: Bytes32, given: bool)
    requires Backed(c, b) && EscrowTerms(c, id, e) && EscrowAta(id, e.token) in b.tokens
    requires GivenIsOpen(b, given, Wallet(e.maker, e.token))
    ensures var r := RefundMaker(c, b, id, e, executor, given);
      && (r.Ok? <==> (e.assetIsNative || given) && CanPayRefund(b, id, e, executor))
      && (r.Ok? ==> RefundPaid(c, b, r.value, id, e, executor))
  {
    var pda, ata := EscrowPda(id), EscrowAta(id, e.token);
    if e.assetIsNative {
      NativePayoutSplit(c, b, e.amount, e.safetyDeposit, pda, ata, Key(e.maker), Key(e.taker), Key(executor));
    } else if given {
      TokenPayoutSplit(c, b, e.safetyDeposit, pda, ata, Wallet(e.maker, e.token), Key(e.taker), Key(executor));
    }
  }

  lemma CancelFromSteps(c: Chain, s: State, id: EscrowId, executor: Bytes32, stage: Stage, given: bool)
    requires id in s.escrows && EscrowAta(id, s.escrows[id].token) in s.balances.tokens
    requires GivenIsOpen(s.balances, given, Wallet(s.escrows[id].maker, s.escrows[id].token))
    ensures var r, e := CancelFrom(c, s, id, executor, stage, given), s.escrows[id];
            var paid := RefundMaker(c, s.balances, id, e, executor, given);
      && (r.Ok? <==> StartedBy(e.timelocks, stage, s.now) && paid.Ok?)
      && (r.Ok? ==> r.value.balances == paid.value)
  {
  }

  lemma CancelFromNeeds(c: Chain, s: State, id: EscrowId, executor: Bytes32, stage: Stage, given: bool)
    requires CancelFrom(c, s, id, executor, stage, given).Ok?
    ensures id in s.escrows && EscrowAta(id, s.escrows[id].token) in s.balances.tokens
    ensures GivenIsOpen(s.balances, given, Wallet(s.escrows[id].maker, s.escrows[id].token))
  {
  }

  /** A cancellation takes its stage, the accounts and enough to refund. */
  lemma CancelTakes(
    c: Chain, s: State, rescued: set<Address>, id: EscrowId, executor: Bytes32, stage: Stage, given: bool)
    requires Solvent(c, s, rescued)
    ensures var r := CancelFrom(c, s, id, executor, stage, given);
      && (r.Ok? <==>
          && CanRefund(s, id, stage, given)
          && EscrowAta(id, s.escrows[id].token) in s.balances.tokens
          && CanPayRefund(s.balances, id, s.escrows[id], executor))
      && (r.Ok? ==> RefundPaid(c, s.balances, r.value.balances, id, s.escrows[id], executor))
  {
    if CancelFrom(c, s, id, executor, stage, given).Ok? {
      CancelFromNeeds(c, s, id, executor, stage, given);
    }
    if id in s.escrows && EscrowAta(id, s.escrows[id].token) in s.balances.tokens
       && GivenIsOpen(s.balances, given, Wallet(s.escrows[id].maker, s.escrows[id].token)) {
      assert EscrowTerms(c, id, s.escrows[id]);
      CancelFromSteps(c, s, id, executor, stage, given);
      RefundMakerTakes(c, s.balances, id, s.escrows[id], executor, given);
    }
  }

  /** The maker's cancellation takes nothing but the accounts. */
  lemma CancelOrderTakes(c: Chain, s: State, rescued: set<Address>, k: Bytes32, given: bool)
    requires Solvent(c, s, rescued)
    ensures CancelOrder(c, s, k, given).Ok? <==>
      k in s.orders && CancelAccountsOpen(s, k, given) && s.orders[k].assetIsNative == !given
  {
    if k in s.orders && CancelAccountsOpen(s, k, given) && s.orders[k].assetIsNative == !given {
      var o := s.orders[k];
      assert OrderTerms(c, k, o);
      ReturnEffect(c, s.balances, o, k);
      var b0 := ReturnTokens(c, s.balances, o, k).value;
      CloseEffect(c, b0, o, k);
    }
  }

  /** A resolver's cancellation takes lamports for its reward besides those of the tokens. */
  lemma ResolverCancelTakes(
    c: Chain, s: State, rescued: set<Address>, resolver: Bytes32, k: Bytes32, rewardLimit: u64, given: bool)
    requires Solvent(c, s, rescued)
    ensures CancelOrderByResolver(c, s, resolver, k, rewardLimit, given).Ok? <==>
      && resolver in s.resolvers && k in s.orders && CancelAccountsOpen(s, k, given)
      && var o := s.orders[k];
      && o.assetIsNative == !given && o.expirationTime <= s.now && 0 < o.maxCancellationPremium && PremiumFits(o, s.now)
      && (ResolverReward(o, s.now, rewardLimit).Ok? ==>
            ResolverReward(o, s.now, rewardLimit).value + LamportsReturned(c, s.balances, o, k)
            <= s.balances.Lamports(OrderAta(k, o.token)))
  {
    if k in s.orders && CancelAccountsOpen(s, k, given) && s.orders[k].assetIsNative == !given {
      var o := s.orders[k];
      assert OrderTerms(c, k, o);
      RewardDefined(o, s.now, rewardLimit);
      ReturnEffect(c, s.balances, o, k);
      if ResolverReward(o, s.now, rewardLimit).Ok? {
        var b0 := ReturnTokens(c, s.balances, o, k).value;
        SettleSucceeds(c, b0, o, k, resolver, ResolverReward(o, s.now, rewardLimit).value);
        assert b0.Lamports(OrderAta(k, o.token)) + LamportsReturned(c, s.balances, o, k)
            == s.balances.Lamports(OrderAta(k, o.token));
      }
    }
  }

  lemma TakingSucceeds(c: Chain, b: Balances, o: Order, k: Bytes32, id: EscrowId, amount: u64)
    requires Backed(c, b) && OrderAta(k, o.token) in b.tokens && EscrowAta(id, o.token) in b.tokens
    ensures TakeFromOrder(c, b, o, k, amount, EscrowAta(id, o.token)).Ok? <==>
      FillTakes(b, o, k, amount) <= TokensIn(b, OrderAta(k, o.token))
  {
    TransferEffect(c, b, OrderAta(k, o.token), EscrowAta(id, o.token), FillTakes(b, o, k, amount));
  }

  lemma FillOrderTakes(
    h: Hasher, c: Chain, s: State, id: EscrowId, taker: Bytes32, k: Bytes32, amount: u64,
    proof: Option<MerkleProof>, data: AuctionData)
    requires Backed(c, s.balances) && k in s.orders && OrderTerms(c, k, s.orders[k]) && s.orders[k].amount > 0
    requires OrderAta(k, s.orders[k].token) in s.balances.tokens
    requires EscrowAta(id, s.orders[k].token) in s.balances.tokens
    ensures var o := s.orders[k];
      FillOrder(h, c, s, id, taker, k, amount, proof, data).Ok? <==>
        && MayFill(h, o, s.now, amount, proof, data)
        && FillTakes(s.balances, o, k, amount) <= TokensIn(s.balances, OrderAta(k, o.token))
        && AmountFits(o.dstAmount, amount, o.amount, RateBump(s.now, data))
  {
    var o := s.orders[k];
    var ata, to := OrderAta(k, o.token), EscrowAta(id, o.token);
    CheckFillAccepts(h, o, s.now, amount, proof, data);
    DefinedExactly(o.dstAmount, amount, o.amount, s.now, data);
    TakingSucceeds(c, s.balances, o, k, id, amount);
    var taken := TakeFromOrder(c, s.balances, o, k, amount, to);
    var hashlock, dst := CheckFill(h, o, s.now, amount, proof, data),
      EscrowDstAmount(o.dstAmount, amount, o.amount, s.now, data);
    if hashlock.Ok? && taken.Ok? && dst.Ok? {
      TakenEffect(c, s.balances, taken.value, o, k, id, amount);
      RecordSucceeds(c, s.(balances := taken.value), k, amount, id,
                     NewEscrow(o, hashlock.value, taker, amount, dst.value, s.now));
    }
  }

  /** A fill takes the tokens of its amount; a closing fill takes what there is. */
  lemma FillTakesWhatThereIs(
    h: Hasher, c: Chain, s: State, rescued: set<Address>, taker: Bytes32, k: Bytes32, amount: u64,
    proof: Option<MerkleProof>, data: AuctionData)
    requires Solvent(c, s, rescued)
    ensures CreateEscrow(h, c, s, taker, k, amount, proof, data).Ok? <==>
      && taker in s.resolvers && k in s.orders
      && var o := s.orders[k];
         var id := EscrowId(k, if proof.Some? then proof.value.hashedSecret else o.hashlock, taker, amount);
      && id !in s.escrows
      && OrderAta(k, o.token) in s.balances.tokens
      && (amount == o.remainingAmount || amount <= s.balances.tokens[OrderAta(k, o.token)])
      && Dues(c, s.balances, EscrowPda(id), c.escrowRent, EscrowAta(id, o.token)) <= s.balances.Lamports(Key(taker))
      && MayFill(h, o, s.now, amount, proof, data)
      && o.amount > 0 && AmountFits(o.dstAmount, amount, o.amount, RateBump(s.now, data))
  {
    if k in s.orders && OrderAta(k, s.orders[k].token) in s.balances.tokens {
      var o := s.orders[k];
      var id := FillId(o, k, taker, amount, proof);
      assert OrderTerms(c, k, o);
      OpeningIsCharged(c, s.balances, Key(taker), EscrowPda(id), c.escrowRent, EscrowAta(id, o.token));
      var prepared := OpenEscrowAccounts(c, s.balances, taker, id, o.token);
      if prepared.Ok? {
        EscrowAccountsOpened(c, s.balances, prepared.value, taker, id, o.token);
        OpeningSparesOrder(c, s.balances, prepared.value, taker, id, k, o.token);
        FillOrderTakes(h, c, s.(balances := prepared.value), id, taker, k, amount, proof, data);
      }
    }
  }
}

/** The same of the destination program. */
module DestinationAnyState {
  import opened Wrappers
  import opened Numerals
  import opened Timelocks
  import opened Merkle
  import opened Accounts
  import opened Payouts
  import opened DestinationSpec
  import opened DestinationInvariant

  /** There is enough to pay the recipient: for a native asset its amount, and what of it
      leaves the escrow with the executor's share; for any other the share, and no tokens
      that cannot leave. */
  predicate CanPay(c: Chain, b: Balances, id: EscrowId, e: EscrowDst, executor: Bytes32) {
    var pda, ata := EscrowPda(id), EscrowAta(id, e.token);
    var funds, share := b.Lamports(ata) + b.Lamports(pda), If(executor != e.creator, e.safetyDeposit);
    if e.assetIsNative then e.amount <= funds && If(e.recipient != pda, e.amount) + share <= funds
    else share <= b.Lamports(pda) && (e.recipient != pda || e.token == c.nativeMint || TokensIn(b, ata) == 0)
  }

  /** What the payout paid: in lamports, or every token; to a recipient that is the escrow
      itself nothing, so that its creator gets it. */
  ghost predicate Paid(c: Chain, b: Balances, b': Balances, id: EscrowId, e: EscrowDst, executor: Bytes32) {
    var pda, ata := EscrowPda(id), EscrowAta(id, e.token);
    if e.assetIsNative || e.recipient == pda
    then PaidInLamports(b, b', pda, ata, If(e.assetIsNative, e.amount), e.recipient, e.safetyDeposit, Key(e.creator),
                        Key(executor))
    else PaidInTokens(c, b, b', pda, ata, RecipientAta(e), e.safetyDeposit, Key(e.creator), Key(executor))
  }

  lemma ClosedShare(
    b: Balances, closed: Balances, pda: Address, ata: Address, creator: Address, a: Address)
    requires ata != creator && pda != creator && pda != ata
    requires Shifted(b, closed, ata, creator, b.Lamports(ata))
    ensures closed.Lamports(pda) == b.Lamports(pda)
    ensures closed.Lamports(a) == If(a != ata, b.Lamports(a)) + If(a == creator, b.Lamports(ata))
  {
    var all := b.Lamports(ata);
    assert closed.Lamports(pda) + If(pda == ata, all) == b.Lamports(pda) + If(pda == creator, all);
    assert closed.Lamports(a) + If(a == ata, all) == b.Lamports(a) + If(a == creator, all);
  }

  lemma ClosedThenSplit(
    b: Balances, closed: Balances, b': Balances, pda: Address, ata: Address, deposit: nat, creator: Address,
    executor: Address)
    requires ata != pda && pda != creator && pda != executor && ata != creator && ata != executor
    requires closed.tokens == b.tokens - {ata} && Shifted(b, closed, ata, creator, b.Lamports(ata))
    requires DepositPaid(closed, b', pda, Reward(deposit, creator, executor), creator, executor)
    ensures PaidInLamports(b, b', pda, ata, 0, pda, deposit, creator, executor)
  {
    var reward := Reward(deposit, creator, executor);
    ClosedShare(b, closed, pda, ata, creator, pda);
    forall a
      ensures b'.Lamports(a) == If(a != pda && a != ata, b.Lamports(a)) + If(a == executor, reward)
                              + If(a == creator, b.Lamports(ata) + b.Lamports(pda) - reward)
    {
      ClosedShare(b, closed, pda, ata, creator, a);
      assert b'.Lamports(a) == If(a != pda, closed.Lamports(a)) + If(a == executor, reward)
                             + If(a == creator, closed.Lamports(pda) - reward);
    }
  }

  lemma SelfPaid(c: Chain, b: Balances, id: EscrowId, e: EscrowDst, executor: Bytes32)
    requires Backed(c, b) && EscrowAta(id, e.token) in b.tokens && !e.assetIsNative && e.recipient == EscrowPda(id)
    requires e.token == c.nativeMint || b.tokens[EscrowAta(id, e.token)] == 0
    ensures var r := PayRecipient(c, b, id, e, executor, true);
      && (r.Ok? <==> If(executor != e.creator, e.safetyDeposit) <= b.Lamports(EscrowPda(id)))
      && (r.Ok? ==> Paid(c, b, r.value, id, e, executor))
  {
    var pda, ata := EscrowPda(id), EscrowAta(id, e.token);
    var closed := CloseTokenAccount(c, b, ata, Key(e.creator)).value;
    CloseTokenEffect(c, b, ata, Key(e.creator));
    assert closed.Lamports(pda) + If(pda == ata, b.Lamports(ata))
      == b.Lamports(pda) + If(pda == Key(e.creator), b.Lamports(ata));
    DepositSplit(closed, pda, e.safetyDeposit, Key(e.creator), Key(executor));
    var r := PayRecipient(c, b, id, e, executor, true);
    if r.Ok? {
      ClosedThenSplit(b, closed, r.value, pda, ata, e.safetyDeposit, Key(e.creator), Key(executor));
    }
  }

  lemma PayRecipientTakes(c: Chain, b: Balances, id: EscrowId, e: EscrowDst, executor: Bytes32, given: bool)
    requires Backed(c, b) && EscrowTerms(c, id, e) && EscrowAta(id, e.token) in b.tokens
    requires given ==> RecipientAta(e) in b.tokens
    ensures var r := PayRecipient(c, b, id, e, executor, given);
      && (r.Ok? <==> (e.assetIsNative || given) && CanPay(c, b, id, e, executor))
      && (r.Ok? ==> Paid(c, b, r.value, id, e, executor))
  {
    var pda, ata := EscrowPda(id), EscrowAta(id, e.token);
    if e.assetIsNative {
      NativePayoutSplit(c, b, e.amount, e.safetyDeposit, pda, ata, e.recipient, Key(e.creator), Key(executor));
    } else if given && e.recipient != pda {
      TokenPayoutSplit(c, b, e.safetyDeposit, pda, ata, RecipientAta(e), Key(e.creator), Key(executor));
    } else if given && (e.token == c.nativeMint || b.tokens[ata] == 0) {
      SelfPaid(c, b, id, e, executor);
    }
  }

  lemma OpeningSparesEscrow(
    c: Chain, b: Balances, b': Balances, payer: Bytes32, id: EscrowId, e: EscrowDst, given: bool)
    requires Backed(c, b) && OpenRecipient(c, b, payer, e, given) == Ok(b') && EscrowAta(id, e.token) in b.tokens
    ensures Backed(c, b') && EscrowAta(id, e.token) in b'.tokens && (given ==> RecipientAta(e) in b'.tokens)
    ensures CanPay(c, b', id, e, payer) == CanPay(c, b, id, e, payer)
  {
    OpenRecipientKeeps(c, b, payer, e, given);
    OpenRecipientIsExact(c, b, payer, e, given);
    var pda, ata := EscrowPda(id), EscrowAta(id, e.token);
    if given {
      var to, dues := RecipientAta(e), TokenDues(c, b, RecipientAta(e));
      assert b'.Lamports(pda) + If(pda == Key(payer), dues) == b.Lamports(pda) + If(pda == to, dues);
      assert b'.Lamports(ata) + If(ata == Key(payer), dues) == b.Lamports(ata) + If(ata == to, dues);
    }
  }

  /** A withdrawal takes its window and secret, an account for the recipient unless the asset
      is native, and enough to pay. */
  lemma WithdrawTakes(
    h: Hasher, c: Chain, s: State, rescued: set<EscrowId>, id: EscrowId, executor: Bytes32, stage: Stage,
    secret: Bytes32, given: bool)
    requires Solvent(c, s, rescued)
    ensures var r := WithdrawFrom(h, c, s, id, executor, stage, secret, given);
      && (r.Ok? <==>
          && id in s.escrows
          && var e := s.escrows[id];
          && EscrowAta(id, e.token) in s.balances.tokens
          && StartedBy(e.timelocks, stage, s.now) && EndedBefore(e.timelocks, DstCancellation, s.now)
          && h(secret) == e.hashlock
          && CanOpenRecipient(c, s.balances, executor, e, given) && (e.assetIsNative || given)
          && CanPay(c, s.balances, id, e, executor))
      && (r.Ok? ==>
          var prepared := OpenRecipient(c, s.balances, executor, s.escrows[id], given);
          prepared.Ok? && Paid(c, prepared.value, r.value.balances, id, s.escrows[id], executor))
  {
    if id in s.escrows && EscrowAta(id, s.escrows[id].token) in s.balances.tokens {
      var e := s.escrows[id];
      assert EscrowTerms(c, id, e);
      OpenGate(h, e, s.now, stage, secret);
      OpenRecipientSucceeds(c, s.balances, executor, e, given);
      var prepared := OpenRecipient(c, s.balances, executor, e, given);
      if prepared.Ok? {
        OpeningSparesEscrow(c, s.balances, prepared.value, executor, id, e, given);
        PayRecipientTakes(c, prepared.value, id, e, executor, given);
      }
    }
  }

  /** Everything in the escrow's two accounts went to its creator. */
  ghost predicate AllReturned(c: Chain, b: Balances, b': Balances, id: EscrowId, e: EscrowDst) {
    var pda, ata, to := EscrowPda(id), EscrowAta(id, e.token), Key(e.creator);
    if e.assetIsNative then PaidInLamports(b, b', pda, ata, e.amount, to, e.safetyDeposit, to, to)
    else PaidInTokens(c, b, b', pda, ata, Wallet(e.creator, e.token), e.safetyDeposit, to, to)
  }

  lemma ReturnTakes(c: Chain, b: Balances, id: EscrowId, e: EscrowDst, given: bool)
    requires Backed(c, b) && EscrowTerms(c, id, e) && EscrowAta(id, e.token) in b.tokens
    requires GivenIsOpen(b, given, Wallet(e.creator, e.token))
    ensures var r := ReturnToCreator(c, b, id, e, given);
      && (r.Ok? <==>
          if e.assetIsNative then e.amount <= b.Lamports(EscrowAta(id, e.token)) + b.Lamports(EscrowPda(id)) else given)
      && (r.Ok? ==> AllReturned(c, b, r.value, id, e))
  {
    var pda, ata := EscrowPda(id), EscrowAta(id, e.token);
    if e.assetIsNative {
      NativePayoutSplit(c, b, e.amount, e.safetyDeposit, pda, ata, Key(e.creator), Key(e.creator), Key(e.creator));
    } else if given {
      TokenPayoutSplit(c, b, e.safetyDeposit, pda, ata, Wallet(e.creator, e.token), Key(e.creator), Key(e.creator));
    }
  }

  /** A cancellation takes its stage, the accounts and, for a native asset, its amount. */
  lemma CancelTakes(c: Chain, s: State, rescued: set<EscrowId>, id: EscrowId, given: bool)
    requires Solvent(c, s, rescued)
    ensures var r := Cancel(c, s, id, given);
      && (r.Ok? <==>
          && id in s.escrows
          && var e := s.escrows[id];
          && EscrowAta(id, e.token) in s.balances.tokens && GivenIsOpen(s.balances, given, Wallet(e.creator, e.token))
          && StartedBy(e.timelocks, DstCancellation, s.now)
          && if e.assetIsNative
             then e.amount <= s.balances.Lamports(EscrowAta(id, e.token)) + s.balances.Lamports(EscrowPda(id))
             else given)
      && (r.Ok? ==> AllReturned(c, s.balances, r.value.balances, id, s.escrows[id]))
  {
    if id in s.escrows && EscrowAta(id, s.escrows[id].token) in s.balances.tokens
       && GivenIsOpen(s.balances, given, Wallet(s.escrows[id].creator, s.escrows[id].token)) {
      assert EscrowTerms(c, id, s.escrows[id]);
      ReturnTakes(c, s.balances, id, s.escrows[id], given);
    }
  }
}
