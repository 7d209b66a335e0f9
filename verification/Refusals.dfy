/** With which error the source program's own checks refuse an instruction: each by the
    first of its conditions that fails. */
module SourceRefusals {
  import opened Wrappers
  import opened Bits
  import opened Numerals
  import opened Timelocks
  import opened Auction
  import opened Merkle
  import opened Encoding
  import opened Accounts
  import opened SourceSpec

  /** Filling, public execution, cancelling for others and rescuing from an order are
      refused to everyone but resolvers, whatever else holds. */
  lemma OutsidersAreRefused(
    h: Hasher, c: Chain, s: State, signer: Bytes32, k: Bytes32, id: EscrowId, p: OrderParams, amount: u64,
    proof: Option<MerkleProof>, data: AuctionData, secret: Bytes32, mint: Bytes32, given: bool)
    requires signer !in s.resolvers
    ensures CreateEscrow(h, c, s, signer, k, amount, proof, data) == Err(NotAuthorised)
    ensures PublicWithdraw(h, c, s, signer, id, secret) == Err(NotAuthorised)
    ensures PublicCancelEscrow(c, s, signer, id, given) == Err(NotAuthorised)
    ensures CancelOrderByResolver(c, s, signer, k, amount, given) == Err(NotAuthorised)
    ensures RescueFundsForOrder(h, c, s, signer, p, mint, amount) == Err(NotAuthorised)
  {
  }

  /** A new order whose accounts its creator can open is refused for a premium above what
      its token account then holds, and else for what is wrong with it. */
  lemma NewOrderRefused(h: Hasher, c: Chain, s: State, p: OrderParams, given: bool, k: Bytes32)
    requires k == OrderHash(h, p) && k !in s.orders && GivenIsOpen(s.balances, given, Wallet(p.maker, p.token))
    requires Dues(c, s.balances, OrderPda(k), c.orderRent, OrderAta(k, p.token)) <= s.balances.Lamports(Key(p.maker))
    ensures var r, ata := Create(h, c, s, p, given), OrderAta(k, p.token);
            var fee := p.maxCancellationPremium <= s.balances.Lamports(ata) + TokenDues(c, s.balances, ata);
            var parts := p.allowMultipleFills ==> PartsAmount(p.hashlock) > 1;
            var live, some := s.now < p.expirationTime, p.amount > 0 && p.safetyDeposit > 0;
            var small := p.safetyDeposit <= c.escrowRent;
      && (!fee ==> r == Err(InvalidCancellationFee))
      && (fee && !parts ==> r == Err(InvalidPartsAmount))
      && (fee && parts && !live ==> r == Err(OrderHasExpired))
      && (fee && parts && live && !some ==> r == Err(ZeroAmountOrDeposit))
      && (fee && parts && live && some && !small ==> r == Err(SafetyDepositTooLarge))
      && (fee && parts && live && some && small && p.assetIsNative && p.token != c.nativeMint ==>
            r == Err(InconsistentNativeTrait))
  {
    var ata := OrderAta(k, p.token);
    OpeningIsCharged(c, s.balances, Key(p.maker), OrderPda(k), c.orderRent, ata);
    var prepared := OpenOrderAccounts(c, s.balances, p.maker, k, p.token).value;
    assert prepared.Lamports(ata) + If(ata == Key(p.maker), Dues(c, s.balances, OrderPda(k), c.orderRent, ata))
        == s.balances.Lamports(ata) + If(ata == OrderPda(k), Short(s.balances, OrderPda(k), c.orderRent))
         + If(ata == ata, TokenDues(c, s.balances, ata));
  }

  /** A resolver's cancellation is refused before expiration, and else where no premium was
      offered, and else where the creator's token account is given for a native asset or
      missing for any other. */
  lemma ResolverCancellationRefused(
    c: Chain, s: State, resolver: Bytes32, k: Bytes32, rewardLimit: u64, given: bool)
    requires resolver in s.resolvers && k in s.orders && CancelAccountsOpen(s, k, given)
    ensures var r, o := CancelOrderByResolver(c, s, resolver, k, rewardLimit, given), s.orders[k];
            var expired, offered := o.expirationTime <= s.now, o.maxCancellationPremium > 0;
      && (!expired ==> r == Err(OrderNotExpired))
      && (expired && !offered ==> r == Err(CancelOrderByResolverIsForbidden))
      && (expired && offered && o.assetIsNative == given ==> r == Err(InconsistentNativeTrait))
  {
  }

  lemma OrderCancellationRefused(c: Chain, s: State, k: Bytes32, given: bool)
    requires k in s.orders && CancelAccountsOpen(s, k, given)
    ensures s.orders[k].assetIsNative == given ==> CancelOrder(c, s, k, given) == Err(InconsistentNativeTrait)
  {
  }

  /** Before its stage a refund is refused for the time. */
  lemma EarlyRefundRefused(c: Chain, s: State, id: EscrowId, payer: Bytes32, given: bool)
    requires id in s.escrows && payer in s.resolvers
    requires var e := s.escrows[id];
      EscrowAta(id, e.token) in s.balances.tokens && GivenIsOpen(s.balances, given, Wallet(e.maker, e.token))
    ensures var f := s.escrows[id].timelocks;
      && (EndedBefore(f, SrcCancellation, s.now) ==> CancelEscrow(c, s, id, given) == Err(InvalidTime))
      && (EndedBefore(f, SrcPublicCancellation, s.now) ==>
            PublicCancelEscrow(c, s, payer, id, given) == Err(InvalidTime))
  {
  }

  /** A rescue from something live is refused until its delay has passed. */
  lemma EarlyRescueRefused(
    h: Hasher, c: Chain, s: State, id: EscrowId, resolver: Bytes32, p: OrderParams, mint: Bytes32, amount: u64)
    requires resolver in s.resolvers
    ensures id in s.escrows && RescueStart(s.escrows[id].timelocks).Ok? ==>
      (RescueFundsForEscrow(c, s, id, mint, amount) == Err(InvalidRescueStart) <==>
        !CanRescue(s.escrows[id].timelocks, s.now))
    ensures OrderHash(h, p) in s.orders && RescueStart(s.orders[OrderHash(h, p)].timelocks).Ok? ==>
      (RescueFundsForOrder(h, c, s, resolver, p, mint, amount) == Err(InvalidRescueStart) <==>
        !CanRescue(s.orders[OrderHash(h, p)].timelocks, s.now))
  {
  }
}

/** The same of the destination program. */
module DestinationRefusals {
  import opened Wrappers
  import opened Bits
  import opened Numerals
  import opened Timelocks
  import opened Merkle
  import opened Accounts
  import opened DestinationSpec

  lemma OutsidersAreRefused(
    h: Hasher, c: Chain, s: State, signer: Bytes32, id: EscrowId, secret: Bytes32, given: bool)
    requires signer !in s.resolvers
    ensures PublicWithdraw(h, c, s, signer, id, secret, given) == Err(NotAuthorised)
  {
  }

  /** A new escrow whose accounts its creator can open is refused for a cancellation after
      the one announced for the source, and else for what is wrong with it. */
  lemma NewEscrowRefused(c: Chain, s: State, p: CreateParams, given: bool, id: EscrowId)
    requires id == EscrowId(p.orderHash, p.hashlock, p.creator, p.amount) && id !in s.escrows
    requires GivenIsOpen(s.balances, given, Wallet(p.creator, p.token))
    requires Dues(c, s.balances, EscrowPda(id), c.escrowRent, EscrowAta(id, p.token))
          <= s.balances.Lamports(Key(p.creator))
    ensures var r := Create(c, s, p, given);
            var start := s.now + p.timelocks[6];
            var timely, some := start <= p.srcCancellationTimestamp, p.amount > 0 && p.safetyDeposit > 0;
            var small := p.safetyDeposit <= c.escrowRent;
      && (start >= TWO32 ==> r == Err(ArithmeticOverflow))
      && (start < TWO32 && !timely ==> r == Err(InvalidCreationTime))
      && (start < TWO32 && timely && !some ==> r == Err(ZeroAmountOrDeposit))
      && (start < TWO32 && timely && some && !small ==> r == Err(SafetyDepositTooLarge))
      && (start < TWO32 && timely && some && small && p.assetIsNative && p.token != c.nativeMint ==>
            r == Err(InconsistentNativeTrait))
  {
    OpeningIsCharged(c, s.balances, Key(p.creator), EscrowPda(id), c.escrowRent, EscrowAta(id, p.token));
    assert StageStart(Redeploy(p.timelocks, s.now), DstCancellation)
        == if s.now + p.timelocks[6] < TWO32 then Ok(s.now + p.timelocks[6]) else Err(ArithmeticOverflow);
  }

  /** A wrong secret is refused as such inside the window only, and outside of it the time. */
  lemma WithdrawGateAnswers(h: Hasher, e: EscrowDst, now: u32, stage: Stage, secret: Bytes32)
    requires StageStart(e.timelocks, stage).Ok? && StageStart(e.timelocks, DstCancellation).Ok?
    ensures var r := WithdrawGate(h, e, now, stage, secret);
            var open := StartedBy(e.timelocks, stage, now) && EndedBefore(e.timelocks, DstCancellation, now);
      r == if !open then Err(InvalidTime) else if h(secret) != e.hashlock then Err(InvalidSecret) else Ok(())
  {
  }

  /** Before its stage a cancellation is refused for the time, and before its delay a rescue
      from a live escrow. */
  lemma EarlyCallsRefused(c: Chain, s: State, id: EscrowId, mint: Bytes32, amount: u64, given: bool)
    requires id in s.escrows && EscrowAta(id, s.escrows[id].token) in s.balances.tokens
    requires GivenIsOpen(s.balances, given, Wallet(s.escrows[id].creator, s.escrows[id].token))
    ensures EndedBefore(s.escrows[id].timelocks, DstCancellation, s.now) ==> Cancel(c, s, id, given) == Err(InvalidTime)
    ensures RescueStart(s.escrows[id].timelocks).Ok? ==>
      (RescueEscrow(c, s, id, mint, amount) == Err(InvalidRescueStart) <==> !CanRescue(s.escrows[id].timelocks, s.now))
  {
  }
}
