/** Exactly what each instruction of the source program moves, whichever accounts coincide. */
module SourceEffects {
  import opened Wrappers
  import opened Bits
  import opened Numerals
  import opened Timelocks
  import opened Auction
  import opened Merkle
  import opened Encoding
  import opened DstAmount
  import opened Accounts
  import opened Payouts
  import opened SourceSpec
  import opened SourceInvariant

  /** A deposit takes exactly the order's amount from its creator: tokens for tokens, or
      lamports that turn up as wrapped tokens together with any not yet synchronised. */
  ghost predicate Deposited(c: Chain, b: Balances, b': Balances, p: OrderParams, ata: Address) {
    var wallet := Wallet(p.maker, p.token);
    if p.assetIsNative then
      && c.tokenRent <= b.Lamports(ata) && b'.tokens == b.tokens[ata := b.Lamports(ata) + p.amount - c.tokenRent]
      && Shifted(b, b', Key(p.maker), ata, p.amount)
    else
      && p.amount <= TokensIn(b, wallet) && b'.tokens == Transferred(b, wallet, ata, p.amount)
      && Shifted(b, b', wallet, ata, If(p.token == c.nativeMint, p.amount))
  }

  lemma DepositIsExact(c: Chain, b: Balances, p: OrderParams, ata: Address, given: bool)
    requires Backed(c, b) && ata in b.tokens && ata.Ata? && ata.owner.OrderPda? && ata.mint == p.token
    requires p.amount > 0 && SourceSpec.Deposit(c, b, p, ata, given).Ok?
    requires p.assetIsNative ==> p.token == c.nativeMint
    ensures Deposited(c, b, SourceSpec.Deposit(c, b, p, ata, given).value, p, ata)
  {
    if p.assetIsNative {
      NativeDeposit(c, b, p.maker, ata, p.amount);
    } else {
      TransferEffect(c, b, Wallet(p.maker, p.token), ata, p.amount);
    }
  }

  lemma NativeDeposit(c: Chain, b: Balances, maker: Bytes32, ata: Address, amount: nat)
    requires Backed(c, b) && ata in b.tokens && IsNative(c, ata) && NativeTransfer(b, Key(maker), ata, amount).Ok?
    ensures var sent := NativeTransfer(b, Key(maker), ata, amount).value;
            var r := SyncNative(c, sent, ata);
      && r.Ok? && r.value.tokens == b.tokens[ata := b.Lamports(ata) + amount - c.tokenRent]
      && Shifted(b, r.value, Key(maker), ata, amount)
  {
    var sent := NativeTransfer(b, Key(maker), ata, amount).value;
    NativeTransferEffect(b, Key(maker), ata, amount);
    assert sent.Lamports(ata) + If(ata == Key(maker), amount) == b.Lamports(ata) + If(ata == ata, amount);
    forall a ensures sent.Lamports(a) + If(a == Key(maker), amount) == b.Lamports(a) + If(a == ata, amount) {
    }
  }

  lemma DepositSucceeds(c: Chain, b: Balances, p: OrderParams, ata: Address, given: bool)
    requires Backed(c, b) && ata in b.tokens && ata.Ata? && ata.owner.OrderPda? && ata.mint == p.token
    requires p.amount > 0 && (p.assetIsNative ==> p.token == c.nativeMint)
    ensures SourceSpec.Deposit(c, b, p, ata, given).Ok? <==>
      if p.assetIsNative then p.amount <= b.Lamports(Key(p.maker))
      else given && p.amount <= TokensIn(b, Wallet(p.maker, p.token))
  {
  }

  /** The creator can pay for the order's accounts and then for its amount. */
  predicate CanOffer(c: Chain, b: Balances, p: OrderParams, k: Bytes32, given: bool) {
    var dues := Dues(c, b, OrderPda(k), c.orderRent, OrderAta(k, p.token));
    && dues + If(p.assetIsNative, p.amount) <= b.Lamports(Key(p.maker))
    && (p.assetIsNative || (given && p.amount <= TokensIn(b, Wallet(p.maker, p.token))))
  }

  /** What an order must satisfy, whoever offers it. */
  predicate IsOffer(c: Chain, b: Balances, now: u32, p: OrderParams, k: Bytes32) {
    var ata := OrderAta(k, p.token);
    && p.maxCancellationPremium <= b.Lamports(ata) + TokenDues(c, b, ata)
    && (p.allowMultipleFills ==> 1 < PartsAmount(p.hashlock))
    && now < p.expirationTime
    && 0 < p.amount && 0 < p.safetyDeposit <= c.escrowRent
    && (p.assetIsNative ==> p.token == c.nativeMint)
  }

  /** A creation as a whole: its creator pays what the order's two accounts lack, and the
      order's amount goes into its token account. */
  lemma CreateEffect(
    h: Hasher, c: Chain, s: State, p: OrderParams, given: bool, k: Bytes32) returns (prepared: Balances)
    requires Backed(c, s.balances) && k == OrderHash(h, p) && Create(h, c, s, p, given).Ok?
    ensures Charged(c, s.balances, prepared, Key(p.maker), OrderPda(k), c.orderRent, OrderAta(k, p.token))
    ensures Deposited(c, prepared, Create(h, c, s, p, given).value.balances, p, OrderAta(k, p.token))
  {
    CreateSteps(h, c, s, p, k, given);
    NewOrderIsSound(c, s.now, p);
    prepared := OpenOrderAccounts(c, s.balances, p.maker, k, p.token).value;
    OpeningIsCharged(c, s.balances, Key(p.maker), OrderPda(k), c.orderRent, OrderAta(k, p.token));
    OpeningKeeps(c, s.balances, p.maker, OrderPda(k), c.orderRent, OrderAta(k, p.token));
    DepositIsExact(c, prepared, p, OrderAta(k, p.token), given);
  }

  lemma OfferIsPaid(c: Chain, b: Balances, p: OrderParams, k: Bytes32, given: bool)
    requires Backed(c, b) && p.amount > 0 && (p.assetIsNative ==> p.token == c.nativeMint)
    ensures var ata := OrderAta(k, p.token);
            var prepared := OpenOrderAccounts(c, b, p.maker, k, p.token);
      && (CanOffer(c, b, p, k, given) <==> prepared.Ok? && SourceSpec.Deposit(c, prepared.value, p, ata, given).Ok?)
      && (prepared.Ok? ==>
            prepared.value.Lamports(ata) == b.Lamports(ata) + TokenDues(c, b, ata))
  {
    var ata := OrderAta(k, p.token);
    OpeningIsCharged(c, b, Key(p.maker), OrderPda(k), c.orderRent, ata);
    var prepared := OpenOrderAccounts(c, b, p.maker, k, p.token);
    if prepared.Ok? {
      OpeningKeeps(c, b, p.maker, OrderPda(k), c.orderRent, ata);
      DepositSucceeds(c, prepared.value, p, ata, given);
    }
  }

  lemma CreatedIsOffered(h: Hasher, c: Chain, s: State, p: OrderParams, k: Bytes32, given: bool)
    requires Backed(c, s.balances) && Create(h, c, s, p, given).Ok? && k == OrderHash(h, p)
    ensures k !in s.orders && GivenIsOpen(s.balances, given, Wallet(p.maker, p.token))
    ensures IsOffer(c, s.balances, s.now, p, k) && CanOffer(c, s.balances, p, k, given)
  {
    CreateSteps(h, c, s, p, k, given);
    NewOrderIsSound(c, s.now, p);
    OfferIsPaid(c, s.balances, p, k, given);
  }

  lemma OfferedIsCreated(h: Hasher, c: Chain, s: State, p: OrderParams, k: Bytes32, given: bool)
    requires Backed(c, s.balances) && k == OrderHash(h, p) && k !in s.orders
    requires GivenIsOpen(s.balances, given, Wallet(p.maker, p.token))
    requires IsOffer(c, s.balances, s.now, p, k) && CanOffer(c, s.balances, p, k, given)
    ensures Create(h, c, s, p, given).Ok?
  {
    OfferIsPaid(c, s.balances, p, k, given);
  }

  /** An order is created exactly when it is new and sound and its creator can pay for it. */
  lemma CreateSucceeds(h: Hasher, c: Chain, s: State, p: OrderParams, given: bool)
    requires Backed(c, s.balances)
    ensures Create(h, c, s, p, given).Ok? <==>
      && OrderHash(h, p) !in s.orders
      && GivenIsOpen(s.balances, given, Wallet(p.maker, p.token))
      && IsOffer(c, s.balances, s.now, p, OrderHash(h, p))
      && CanOffer(c, s.balances, p, OrderHash(h, p), given)
  {
    var k := OrderHash(h, p);
    if Create(h, c, s, p, given).Ok? {
      CreatedIsOffered(h, c, s, p, k, given);
    } else if k !in s.orders && GivenIsOpen(s.balances, given, Wallet(p.maker, p.token))
           && IsOffer(c, s.balances, s.now, p, k) && CanOffer(c, s.balances, p, k, given) {
      OfferedIsCreated(h, c, s, p, k, given);
    }
  }

  // ----- Rescue -----

  /** A rescue from an escrow's address succeeds exactly when the delay has passed, if the
      escrow is live, and the tokens are there; it goes to the taker the address is made from. */
  lemma EscrowRescueGoesToTaker(c: Chain, s: State, id: EscrowId, mint: Bytes32, amount: u64)
    requires Backed(c, s.balances)
    ensures var r, ata, to := RescueFundsForEscrow(c, s, id, mint, amount), EscrowAta(id, mint),
      Wallet(id.creator, mint);
      && (r.Ok? <==>
          && (id in s.escrows ==> CanRescue(s.escrows[id].timelocks, s.now))
          && ata in s.balances.tokens && to in s.balances.tokens && amount <= s.balances.tokens[ata])
      && (r.Ok? ==> RescueMoved(c, s.balances, r.value.balances, ata, Key(id.creator), to, amount))
  {
    var start := EscrowRescueStart(s, id);
    if start.Ok? {
      RescueSucceeds(c, s.balances, s.now, start.value, EscrowAta(id, mint), Key(id.creator),
                     Wallet(id.creator, mint), amount);
      if RescueFundsForEscrow(c, s, id, mint, amount).Ok? {
        RescueIsExact(c, s.balances, s.now, start.value, EscrowAta(id, mint), Key(id.creator),
                      Wallet(id.creator, mint), amount);
      }
    }
  }

  /** Likewise for an order's address; it goes to the resolver who asks. */
  lemma OrderRescueGoesToResolver(
    h: Hasher, c: Chain, s: State, resolver: Bytes32, p: OrderParams, mint: Bytes32, amount: u64)
    requires Backed(c, s.balances)
    ensures var k := OrderHash(h, p);
            var r, ata, to := RescueFundsForOrder(h, c, s, resolver, p, mint, amount), OrderAta(k, mint),
              Wallet(resolver, mint);
      && (r.Ok? <==>
          && resolver in s.resolvers
          && (k in s.orders ==> CanRescue(s.orders[k].timelocks, s.now))
          && ata in s.balances.tokens && to in s.balances.tokens && amount <= s.balances.tokens[ata])
      && (r.Ok? ==> RescueMoved(c, s.balances, r.value.balances, ata, Key(resolver), to, amount))
  {
    var k := OrderHash(h, p);
    var start := OrderRescueStart(s, k);
    if start.Ok? {
      RescueSucceeds(c, s.balances, s.now, start.value, OrderAta(k, mint), Key(resolver), Wallet(resolver, mint),
                     amount);
      if RescueFundsForOrder(h, c, s, resolver, p, mint, amount).Ok? {
        RescueIsExact(c, s.balances, s.now, start.value, OrderAta(k, mint), Key(resolver), Wallet(resolver, mint),
                      amount);
      }
    }
  }

  // ----- Fills and escrows -----

  /** A fill takes its amount from the order, or on closing whatever the order holds, and the
      escrow receives all of it. */
  lemma FillMovesItsTokens(c: Chain, b: Balances, o: Order, orderHash: Bytes32, amount: u64, id: EscrowId)
    requires OrderTerms(c, orderHash, o) && OrderFunded(c, b, orderHash, o) && Backed(c, b)
    requires 0 < amount <= o.remainingAmount && EscrowAta(id, o.token) in b.tokens
    ensures var ata, to := OrderAta(orderHash, o.token), EscrowAta(id, o.token);
            var r := TakeFromOrder(c, b, o, orderHash, amount, to);
            var taken := if amount == o.remainingAmount then b.tokens[ata] else amount;
      && r.Ok? && amount <= taken
      && r.value.tokens == b.tokens[ata := b.tokens[ata] - taken][to := b.tokens[to] + taken]
  {
  }

  /** A withdrawal pays the taker every token, no less than the escrow's amount, and gives
      the deposit to an executor other than the taker. */
  ghost predicate TakerPaid(c: Chain, b: Balances, b': Balances, id: EscrowId, e: EscrowSrc, executor: Bytes32) {
    && e.amount <= TokensIn(b, EscrowAta(id, e.token))
    && PaidInTokens(c, b, b', EscrowPda(id), EscrowAta(id, e.token), Wallet(e.taker, e.token),
                    e.safetyDeposit, Key(e.taker), Key(executor))
  }

  lemma TakerIsPaid(c: Chain, b: Balances, id: EscrowId, e: EscrowSrc, executor: Bytes32)
    requires Backed(c, b) && EscrowTerms(c, id, e) && EscrowFunded(c, b, id, e)
    requires Wallet(e.taker, e.token) in b.tokens
    ensures var r := PayTaker(c, b, id, e, executor);
      r.Ok? && TakerPaid(c, b, r.value, id, e, executor)
  {
    TokenPayoutSplit(c, b, e.safetyDeposit, EscrowPda(id), EscrowAta(id, e.token),
                     Wallet(e.taker, e.token), Key(e.taker), Key(executor));
  }

  /** A refund pays the maker: for a native asset exactly the escrow's amount, in lamports;
      for tokens every token, no less than that amount. What is left, donated lamports
      included, goes to the taker. */
  ghost predicate MakerRefunded(c: Chain, b: Balances, b': Balances, id: EscrowId, e: EscrowSrc, executor: Bytes32) {
    var pda, ata := EscrowPda(id), EscrowAta(id, e.token);
    && e.amount <= TokensIn(b, ata)
    && if e.assetIsNative
       then PaidInLamports(b, b', pda, ata, e.amount, Key(e.maker), e.safetyDeposit, Key(e.taker), Key(executor))
       else PaidInTokens(c, b, b', pda, ata, Wallet(e.maker, e.token), e.safetyDeposit, Key(e.taker), Key(executor))
  }

  lemma MakerIsRefunded(c: Chain, b: Balances, id: EscrowId, e: EscrowSrc, executor: Bytes32, given: bool)
    requires Backed(c, b) && EscrowTerms(c, id, e) && EscrowFunded(c, b, id, e)
    requires e.assetIsNative || (given && Wallet(e.maker, e.token) in b.tokens)
    ensures var r := RefundMaker(c, b, id, e, executor, given);
      r.Ok? && MakerRefunded(c, b, r.value, id, e, executor)
  {
    if e.assetIsNative {
      NativePayoutSplit(c, b, e.amount, e.safetyDeposit, EscrowPda(id), EscrowAta(id, e.token),
                        Key(e.maker), Key(e.taker), Key(executor));
    } else {
      TokenPayoutSplit(c, b, e.safetyDeposit, EscrowPda(id), EscrowAta(id, e.token),
                       Wallet(e.maker, e.token), Key(e.taker), Key(executor));
    }
  }

  // ----- Cancelling orders -----

  /** The lamports that leave an order's token account with its returned tokens. */
  function LamportsReturned(c: Chain, b: Balances, o: Order, orderHash: Bytes32): nat {
    If(Wrapped(c, o), TokensIn(b, OrderAta(orderHash, o.token)))
  }

  /** The order's tokens went home, their lamports with them. */
  ghost predicate Returned(c: Chain, b: Balances, b': Balances, o: Order, orderHash: Bytes32) {
    var ata, to := OrderAta(orderHash, o.token), Wallet(o.creator, o.token);
    var along := LamportsReturned(c, b, o, orderHash);
    && ata in b.tokens && (o.assetIsNative || to in b.tokens)
    && along + If(o.token == c.nativeMint, c.tokenRent) <= b.Lamports(ata)
    && b'.tokens == (if o.assetIsNative then b.tokens else b.tokens[ata := 0][to := b.tokens[to] + b.tokens[ata]])
    && Shifted(b, b', ata, to, along)
  }

  lemma ReturnEffect(c: Chain, b: Balances, o: Order, orderHash: Bytes32)
    requires Backed(c, b) && OrderTerms(c, orderHash, o) && OrderAta(orderHash, o.token) in b.tokens
    requires o.assetIsNative || Wallet(o.creator, o.token) in b.tokens
    ensures var r := ReturnTokens(c, b, o, orderHash);
      r.Ok? && Returned(c, b, r.value, o, orderHash)
  {
    if !o.assetIsNative {
      var ata := OrderAta(orderHash, o.token);
      TransferEffect(c, b, ata, Wallet(o.creator, o.token), b.tokens[ata]);
    }
  }

  /** A token account's lamports went out, the reward to the resolver and the rest to the
      creator. */
  ghost predicate Forwarded(b: Balances, b': Balances, ata: Address, resolver: Address, reward: nat, creator: Address)
  {
    && reward <= b.Lamports(ata)
    && b'.tokens == b.tokens - {ata}
    && forall a :: b'.Lamports(a) == If(a != ata, b.Lamports(a)) + If(a == resolver, reward)
                                   + If(a == creator, b.Lamports(ata) - reward)
  }

  /** The closing of the token account through the resolver succeeds. */
  lemma ForwardSucceeds(c: Chain, b: Balances, ata: Address, resolver: Bytes32, creator: Bytes32, reward: nat)
    requires ata.Ata? && ata in b.tokens && (IsNative(c, ata) || b.tokens[ata] == 0) && reward <= b.Lamports(ata)
    ensures var closed := CloseTokenAccount(c, b, ata, Key(resolver));
      closed.Ok? && NativeTransfer(closed.value, Key(resolver), Key(creator), b.Lamports(ata) - reward).Ok?
  {
    var all := b.Lamports(ata);
    CloseTokenEffect(c, b, ata, Key(resolver));
    var closed := CloseTokenAccount(c, b, ata, Key(resolver)).value;
    assert closed.Lamports(Key(resolver)) + If(Key(resolver) == ata, all)
        == b.Lamports(Key(resolver)) + If(Key(resolver) == Key(resolver), all);
    NativeTransferEffect(closed, Key(resolver), Key(creator), all - reward);
  }

  lemma ForwardEffect(
    c: Chain, b: Balances, closed: Balances, paid: Balances, ata: Address, resolver: Bytes32, creator: Bytes32,
    reward: nat)
    requires ata.Ata? && ata in b.tokens && reward <= b.Lamports(ata)
    requires CloseTokenAccount(c, b, ata, Key(resolver)) == Ok(closed)
    requires NativeTransfer(closed, Key(resolver), Key(creator), b.Lamports(ata) - reward) == Ok(paid)
    ensures Forwarded(b, paid, ata, Key(resolver), reward, Key(creator))
  {
    CloseTokenEffect(c, b, ata, Key(resolver));
    NativeTransferEffect(closed, Key(resolver), Key(creator), b.Lamports(ata) - reward);
    SweptAndForwarded(b, closed, paid, ata, Key(resolver), reward, Key(creator));
  }

  lemma SweptAndForwarded(
    b: Balances, closed: Balances, paid: Balances, ata: Address, resolver: Address, reward: nat, creator: Address)
    requires reward <= b.Lamports(ata) && ata != resolver && paid.tokens == closed.tokens == b.tokens - {ata}
    requires Shifted(b, closed, ata, resolver, b.Lamports(ata))
    requires Shifted(closed, paid, resolver, creator, b.Lamports(ata) - reward)
    ensures Forwarded(b, paid, ata, resolver, reward, creator)
  {
    var all := b.Lamports(ata);
    forall a
      ensures paid.Lamports(a)
        == If(a != ata, b.Lamports(a)) + If(a == resolver, reward) + If(a == creator, all - reward)
    {
      assert closed.Lamports(a) + If(a == ata, all) == b.Lamports(a) + If(a == resolver, all);
      assert paid.Lamports(a) + If(a == resolver, all - reward) == closed.Lamports(a) + If(a == creator, all - reward);
    }
  }

  lemma CloseForwarded(
    b: Balances, paid: Balances, pda: Address, ata: Address, resolver: Address, reward: nat, creator: Address)
    requires Forwarded(b, paid, ata, resolver, reward, creator)
    requires pda != ata && pda != resolver && pda != creator
    ensures Settled(b, CloseAccount(paid, pda, creator), pda, ata, resolver, reward, creator)
  {
    MoveEffect(paid, pda, creator, paid.Lamports(pda));
  }

  /** Both accounts are emptied: the reward to the resolver, the rest to the creator. */
  ghost predicate Settled(
    b: Balances, b': Balances, pda: Address, ata: Address, resolver: Address, reward: nat, creator: Address)
  {
    && reward <= b.Lamports(ata)
    && b'.tokens == b.tokens - {ata}
    && SplitAmong(b, b', pda, ata, resolver, reward, creator, 0, creator, b.Lamports(ata) + b.Lamports(pda) - reward)
  }

  lemma SettleSucceeds(c: Chain, b: Balances, o: Order, orderHash: Bytes32, resolver: Bytes32, reward: nat)
    requires OrderAta(orderHash, o.token) in b.tokens
    requires o.token == c.nativeMint || b.tokens[OrderAta(orderHash, o.token)] == 0
    ensures SettleThroughResolver(c, b, o, orderHash, resolver, reward).Ok?
       <==> reward <= b.Lamports(OrderAta(orderHash, o.token))
  {
    if reward <= b.Lamports(OrderAta(orderHash, o.token)) {
      ForwardSucceeds(c, b, OrderAta(orderHash, o.token), resolver, o.creator, reward);
    }
  }

  lemma ForwardedIsSettled(
    c: Chain, b: Balances, closed: Balances, paid: Balances, pda: Address, ata: Address,
    resolver: Bytes32, creator: Bytes32, reward: nat)
    requires ata.Ata? && pda.OrderPda? && ata in b.tokens && reward <= b.Lamports(ata)
    requires CloseTokenAccount(c, b, ata, Key(resolver)) == Ok(closed)
    requires NativeTransfer(closed, Key(resolver), Key(creator), b.Lamports(ata) - reward) == Ok(paid)
    ensures Settled(b, CloseAccount(paid, pda, Key(creator)), pda, ata, Key(resolver), reward, Key(creator))
  {
    ForwardEffect(c, b, closed, paid, ata, resolver, creator, reward);
    CloseForwarded(b, paid, pda, ata, Key(resolver), reward, Key(creator));
  }

  /** Settling through the resolver: it keeps exactly the reward, whatever it had before, and
      the creator receives the rest of both accounts. */
  lemma SettleEffect(
    c: Chain, b: Balances, b': Balances, o: Order, orderHash: Bytes32, resolver: Bytes32, reward: nat)
    requires SettleThroughResolver(c, b, o, orderHash, resolver, reward) == Ok(b')
    ensures Settled(b, b', OrderPda(orderHash), OrderAta(orderHash, o.token), Key(resolver), reward, Key(o.creator))
  {
    var closed, paid := SettleSteps(c, b, o, orderHash, resolver, reward);
    ForwardedIsSettled(c, b, closed, paid, OrderPda(orderHash), OrderAta(orderHash, o.token), resolver, o.creator,
                       reward);
  }

  /** A shift out of an account that is then split is one more share of the split. */
  lemma ShiftThenSplit(
    b: Balances, b0: Balances, b': Balances, pda: Address, ata: Address, to: Address, along: nat,
    resolver: Address, reward: nat, creator: Address)
    requires pda != ata && to != ata && to != pda
    requires Shifted(b, b0, ata, to, along) && Settled(b0, b', pda, ata, resolver, reward, creator)
    ensures along + reward <= b.Lamports(ata)
    ensures SplitAmong(b, b', pda, ata, to, along, resolver, reward,
                       creator, b.Lamports(ata) + b.Lamports(pda) - along - reward)
  {
    assert b0.Lamports(ata) + along == b.Lamports(ata);
    assert b0.Lamports(pda) == b.Lamports(pda);
    forall a
      ensures b'.Lamports(a) == If(a != pda && a != ata, b.Lamports(a)) + If(a == to, along) + If(a == resolver, reward)
                              + If(a == creator, b.Lamports(ata) + b.Lamports(pda) - along - reward)
    {
      assert b0.Lamports(a) + If(a == ata, along) == b.Lamports(a) + If(a == to, along);
    }
  }

  /** Cancellation by a resolver succeeds exactly on an expired order that offers a premium,
      with the right accounts, when the premium's product fits and, for native tokens
      handled as tokens, the lamports left beside them cover the reward. For every other
      order they always do. */
  lemma CancelByResolverSucceeds(
    c: Chain, s: State, rescued: set<Address>, resolver: Bytes32, orderHash: Bytes32, rewardLimit: u64, given: bool)
    requires Solvent(c, s, rescued) && OrderPda(orderHash) !in rescued
    ensures CancelOrderByResolver(c, s, resolver, orderHash, rewardLimit, given).Ok? <==>
      && resolver in s.resolvers
      && orderHash in s.orders
      && var o := s.orders[orderHash];
      && GivenIsOpen(s.balances, given, Wallet(o.creator, o.token))
      && o.assetIsNative == !given
      && o.expirationTime <= s.now
      && 0 < o.maxCancellationPremium
      && PremiumFits(o, s.now)
      && (Wrapped(c, o) && ResolverReward(o, s.now, rewardLimit).Ok? ==>
            ResolverReward(o, s.now, rewardLimit).value + s.balances.tokens[OrderAta(orderHash, o.token)]
            <= s.balances.Lamports(OrderAta(orderHash, o.token)))
  {
    if orderHash in s.orders {
      var o := s.orders[orderHash];
      assert OrderTerms(c, orderHash, o) && OrderFunded(c, s.balances, orderHash, o);
      RewardDefined(o, s.now, rewardLimit);
      if CancelAccountsOpen(s, orderHash, given) && o.assetIsNative == !given
        && ResolverReward(o, s.now, rewardLimit).Ok? {
        ReturnEffect(c, s.balances, o, orderHash);
        RewardWithinPremium(o, s.now, rewardLimit);
        SettleSucceeds(c, ReturnTokens(c, s.balances, o, orderHash).value, o, orderHash, resolver,
                     ResolverReward(o, s.now, rewardLimit).value);
      }
    }
  }

  /** The premium's product fits 64 bits, which it can fail to do in the ramp alone. */
  predicate PremiumFits(o: Order, now: u32) {
    var from, max := o.expirationTime, o.maxCancellationPremium;
    from < now < from + o.cancellationAuctionDuration ==> (now - from) * max < 0x1_0000_0000_0000_0000
  }

  lemma RewardDefined(o: Order, now: u32, rewardLimit: u64)
    ensures ResolverReward(o, now, rewardLimit).Ok? <==> PremiumFits(o, now)
  {
    PremiumDefined(now, o.expirationTime, o.cancellationAuctionDuration, o.maxCancellationPremium);
  }

  lemma RewardWithinPremium(o: Order, now: u32, rewardLimit: u64)
    requires ResolverReward(o, now, rewardLimit).Ok?
    ensures ResolverReward(o, now, rewardLimit).value <= o.maxCancellationPremium
    ensures ResolverReward(o, now, rewardLimit).value <= rewardLimit
  {
    PremiumRises(now, now, o.expirationTime, o.cancellationAuctionDuration, o.maxCancellationPremium);
  }

  /** An order whose premium is at most the rent of its token account, and that rent below
      32 bits, can always be cancelled by a resolver once expired: nothing overflows. */
  lemma RentBoundedPremiumNeverBlocks(
    c: Chain, s: State, rescued: set<Address>, resolver: Bytes32, orderHash: Bytes32, rewardLimit: u64, given: bool)
    requires Solvent(c, s, rescued) && OrderPda(orderHash) !in rescued && orderHash in s.orders
    requires resolver in s.resolvers
    requires var o := s.orders[orderHash];
      && GivenIsOpen(s.balances, given, Wallet(o.creator, o.token)) && o.assetIsNative == !given
      && o.expirationTime <= s.now && 0 < o.maxCancellationPremium <= c.tokenRent < TWO32
    ensures CancelOrderByResolver(c, s, resolver, orderHash, rewardLimit, given).Ok?
  {
    var o := s.orders[orderHash];
    PremiumDefined(s.now, o.expirationTime, o.cancellationAuctionDuration, o.maxCancellationPremium);
    RewardWithinPremium(o, s.now, rewardLimit);
    CancelByResolverSucceeds(c, s, rescued, resolver, orderHash, rewardLimit, given);
  }

  /** So the lamports can fall short only where more tokens were put into the account than
      remain of the order: holding no more than that, nothing but the conditions a caller
      can see stands in the way. */
  lemma ExactTokensNeverBlock(
    c: Chain, s: State, rescued: set<Address>, resolver: Bytes32, orderHash: Bytes32, rewardLimit: u64, given: bool)
    requires Solvent(c, s, rescued) && OrderPda(orderHash) !in rescued && orderHash in s.orders
    requires TokensIn(s.balances, OrderAta(orderHash, s.orders[orderHash].token)) == s.orders[orderHash].remainingAmount
    ensures var o := s.orders[orderHash];
      CancelOrderByResolver(c, s, resolver, orderHash, rewardLimit, given).Ok? <==>
        && resolver in s.resolvers && GivenIsOpen(s.balances, given, Wallet(o.creator, o.token))
        && o.assetIsNative == !given && o.expirationTime <= s.now && 0 < o.maxCancellationPremium
        && PremiumFits(o, s.now)
  {
    var o := s.orders[orderHash];
    RewardDefined(o, s.now, rewardLimit);
    assert OrderTerms(c, orderHash, o) && OrderFunded(c, s.balances, orderHash, o);
    if ResolverReward(o, s.now, rewardLimit).Ok? {
      RewardWithinPremium(o, s.now, rewardLimit);
    }
    CancelByResolverSucceeds(c, s, rescued, resolver, orderHash, rewardLimit, given);
  }

  /** Native tokens handled as tokens are the exception: when everything in the order's token
      account but its rent is wrapped, a reward above the rent makes the cancellation fail. */
  lemma WrappedTokensCanBlock(
    c: Chain, s: State, rescued: set<Address>, resolver: Bytes32, orderHash: Bytes32, rewardLimit: u64, given: bool)
    requires Solvent(c, s, rescued) && OrderPda(orderHash) !in rescued && orderHash in s.orders
    requires var o := s.orders[orderHash];
      && Wrapped(c, o)
      && TokensIn(s.balances, OrderAta(orderHash, o.token)) + c.tokenRent
           == s.balances.Lamports(OrderAta(orderHash, o.token))
      && ResolverReward(o, s.now, rewardLimit).Ok? && c.tokenRent < ResolverReward(o, s.now, rewardLimit).value
    ensures CancelOrderByResolver(c, s, resolver, orderHash, rewardLimit, given).Err?
  {
    CancelByResolverSucceeds(c, s, rescued, resolver, orderHash, rewardLimit, given);
  }

  /** How a resolver's cancellation leaves the balances: every token and all lamports of the
      order's two accounts with the creator, but for exactly the reward. */
  ghost predicate SettledWithReward(
    c: Chain, b: Balances, b': Balances, o: Order, orderHash: Bytes32, resolver: Bytes32, reward: nat)
  {
    var pda, ata, to := OrderPda(orderHash), OrderAta(orderHash, o.token), Wallet(o.creator, o.token);
    var along := LamportsReturned(c, b, o, orderHash);
    && along + reward <= b.Lamports(ata)
    && b'.tokens == (if o.assetIsNative then b.tokens else b.tokens[to := TokensIn(b, to) + TokensIn(b, ata)]) - {ata}
    && SplitAmong(b, b', pda, ata, to, along, Key(resolver), reward,
                  Key(o.creator), b.Lamports(ata) + b.Lamports(pda) - along - reward)
  }

  lemma ReturnedThenSettled(
    b: Balances, b0: Balances, b': Balances, native: bool, ata: Address, to: Address)
    requires to != ata && ata in b.tokens && (native || to in b.tokens)
    requires b0.tokens == if native then b.tokens else b.tokens[ata := 0][to := b.tokens[to] + b.tokens[ata]]
    requires b'.tokens == b0.tokens - {ata}
    ensures b'.tokens == (if native then b.tokens else b.tokens[to := TokensIn(b, to) + TokensIn(b, ata)]) - {ata}
  {
  }

  lemma ReturnAndSettle(
    c: Chain, b: Balances, b0: Balances, b': Balances, o: Order, orderHash: Bytes32, resolver: Bytes32, reward: nat)
    requires Returned(c, b, b0, o, orderHash)
    requires Settled(b0, b', OrderPda(orderHash), OrderAta(orderHash, o.token), Key(resolver), reward, Key(o.creator))
    ensures SettledWithReward(c, b, b', o, orderHash, resolver, reward)
  {
    var pda, ata, to := OrderPda(orderHash), OrderAta(orderHash, o.token), Wallet(o.creator, o.token);
    ReturnedThenSettled(b, b0, b', o.assetIsNative, ata, to);
    ShiftThenSplit(b, b0, b', pda, ata, to, LamportsReturned(c, b, o, orderHash), Key(resolver), reward,
                   Key(o.creator));
  }

  /** Closing an order leaves its creator with everything in its two accounts. */
  lemma CloseEffect(c: Chain, b: Balances, o: Order, orderHash: Bytes32)
    requires OrderAta(orderHash, o.token) in b.tokens
    requires o.token == c.nativeMint || b.tokens[OrderAta(orderHash, o.token)] == 0
    ensures var r := CloseOrder(c, b, o, orderHash);
      && r.Ok?
      && Settled(b, r.value, OrderPda(orderHash), OrderAta(orderHash, o.token), Key(o.creator), 0, Key(o.creator))
  {
    var pda, ata := OrderPda(orderHash), OrderAta(orderHash, o.token);
    MoveEffect(b, ata, Key(o.creator), b.Lamports(ata));
    CloseForwarded(b, CloseTokenAccount(c, b, ata, Key(o.creator)).value, pda, ata, Key(o.creator), 0, Key(o.creator));
  }

  // ----- What a fill moves -----

  /** The tokens a fill takes: its amount, or on closing whatever the order holds. */
  function FillTakes(b: Balances, o: Order, orderHash: Bytes32, amount: u64): nat {
    if amount == o.remainingAmount then TokensIn(b, OrderAta(orderHash, o.token)) else amount
  }

  /** The tokens once the account `to` is open and holds what was taken. */
  function TokensMoved(c: Chain, b: Balances, ata: Address, to: Address, taken: nat): map<Address, nat>
    requires taken <= TokensIn(b, ata)
  {
    var before := Opened(c, b, to);
    before[ata := TokensIn(b, ata) - taken][to := (if to in before then before[to] else 0) + taken]
  }

  /** The taker has paid what the escrow's two accounts lack, the lamports of native tokens
      have gone along with them, and nobody else has gained or lost. */
  ghost predicate PaidAndMoved(
    c: Chain, b: Balances, b': Balances, taker: Address, pda: Address, ata: Address, to: Address, along: nat)
  {
    forall a ::
      b'.Lamports(a) + If(a == taker, Dues(c, b, pda, c.escrowRent, to)) + If(a == ata, along)
      == b.Lamports(a) + If(a == pda, Short(b, pda, c.escrowRent)) + If(a == to, TokenDues(c, b, to) + along)
  }

  lemma PaidThenMoved(
    c: Chain, b: Balances, b1: Balances, b2: Balances, taker: Address, pda: Address, ata: Address, to: Address,
    along: nat)
    requires Charged(c, b, b1, taker, pda, c.escrowRent, to) && Shifted(b1, b2, ata, to, along)
    ensures PaidAndMoved(c, b, b2, taker, pda, ata, to, along)
  {
    var dues := Dues(c, b, pda, c.escrowRent, to);
    forall a
      ensures b2.Lamports(a) + If(a == taker, dues) + If(a == ata, along)
           == b.Lamports(a) + If(a == pda, Short(b, pda, c.escrowRent)) + If(a == to, TokenDues(c, b, to) + along)
    {
      assert b1.Lamports(a) + If(a == taker, dues)
          == b.Lamports(a) + If(a == pda, Short(b, pda, c.escrowRent)) + If(a == to, TokenDues(c, b, to));
      assert b2.Lamports(a) + If(a == ata, along) == b1.Lamports(a) + If(a == to, along);
    }
  }

  /** A closing fill closes the order to its creator, and any other leaves the balances. */
  lemma RecordSettles(c: Chain, s: State, orderHash: Bytes32, amount: u64, id: EscrowId, e: EscrowSrc)
    requires orderHash in s.orders && FillAmountAllowed(s.orders[orderHash], amount)
    requires RecordFill(c, s, orderHash, amount, id, e).Ok?
    ensures var o, b, b' := s.orders[orderHash], s.balances, RecordFill(c, s, orderHash, amount, id, e).value.balances;
            var ata := OrderAta(orderHash, o.token);
      if !o.allowMultipleFills || amount == o.remainingAmount
      then ata in b.tokens && Settled(b, b', OrderPda(orderHash), ata, Key(o.creator), 0, Key(o.creator))
      else b' == b
  {
    var o := s.orders[orderHash];
    if Closes(o, amount) {
      CloseEffect(c, s.balances, o, orderHash);
    }
  }

  /** What a successful fill went through. */
  lemma FillSteps(
    h: Hasher, c: Chain, s: State, taker: Bytes32, k: Bytes32, amount: u64, proof: Option<MerkleProof>,
    data: AuctionData)
    returns (prepared: Balances, moved: Balances, due: u256)
    requires CreateEscrow(h, c, s, taker, k, amount, proof, data).Ok?
    ensures k in s.orders
    ensures var o := s.orders[k];
            var hashlock := GetEscrowHashlock(o.hashlock, proof);
            var id := FillId(o, k, taker, amount, proof);
      && OrderAta(k, o.token) in s.balances.tokens && id !in s.escrows && FillAmountAllowed(o, amount)
      && OpenEscrowAccounts(c, s.balances, taker, id, o.token) == Ok(prepared)
      && TakeFromOrder(c, prepared, o, k, amount, EscrowAta(id, o.token)) == Ok(moved)
      && EscrowDstAmount(o.dstAmount, amount, o.amount, s.now, data) == Ok(due)
      && RecordFill(c, s.(balances := moved), k, amount, id, NewEscrow(o, hashlock, taker, amount, due, s.now))
         == CreateEscrow(h, c, s, taker, k, amount, proof, data)
  {
    var o := s.orders[k];
    var id := FillId(o, k, taker, amount, proof);
    CheckFillAccepts(h, o, s.now, amount, proof, data);
    prepared := OpenEscrowAccounts(c, s.balances, taker, id, o.token).value;
    moved := TakeFromOrder(c, prepared, o, k, amount, EscrowAta(id, o.token)).value;
    due := EscrowDstAmount(o.dstAmount, amount, o.amount, s.now, data).value;
  }

  lemma OpeningSparesOrder(
    c: Chain, b: Balances, b': Balances, taker: Bytes32, id: EscrowId, k: Bytes32, token: Bytes32)
    requires Charged(c, b, b', Key(taker), EscrowPda(id), c.escrowRent, EscrowAta(id, token))
    ensures TokensIn(b', OrderAta(k, token)) == TokensIn(b, OrderAta(k, token))
    ensures OrderAta(k, token) in b.tokens ==> OrderAta(k, token) in b'.tokens
    ensures EscrowAta(id, token) in b'.tokens
  {
  }

  /** The taker paid what the escrow's two accounts lack, and the tokens went from the order
      to the escrow, native ones with their lamports. */
  ghost predicate FillMoved(
    c: Chain, b: Balances, moved: Balances, o: Order, k: Bytes32, taker: Bytes32, id: EscrowId, amount: u64)
  {
    var ata, to, taken := OrderAta(k, o.token), EscrowAta(id, o.token), FillTakes(b, o, k, amount);
    && taken <= TokensIn(b, ata) && moved.tokens == TokensMoved(c, b, ata, to, taken)
    && PaidAndMoved(c, b, moved, Key(taker), EscrowPda(id), ata, to, If(o.token == c.nativeMint, taken))
  }

  /** A closing fill has left the order's creator with every lamport of the order's two
      accounts, and any other has changed nothing. */
  ghost predicate FillClosed(moved: Balances, b': Balances, o: Order, k: Bytes32, amount: u64) {
    if !o.allowMultipleFills || amount == o.remainingAmount
    then Settled(moved, b', OrderPda(k), OrderAta(k, o.token), Key(o.creator), 0, Key(o.creator))
    else b' == moved
  }

  lemma EscrowAccountsOpened(c: Chain, b: Balances, prepared: Balances, taker: Bytes32, id: EscrowId, token: Bytes32)
    requires Backed(c, b) && OpenEscrowAccounts(c, b, taker, id, token) == Ok(prepared)
    ensures Charged(c, b, prepared, Key(taker), EscrowPda(id), c.escrowRent, EscrowAta(id, token))
    ensures Backed(c, prepared)
  {
    OpeningIsCharged(c, b, Key(taker), EscrowPda(id), c.escrowRent, EscrowAta(id, token));
    OpeningKeeps(c, b, taker, EscrowPda(id), c.escrowRent, EscrowAta(id, token));
  }

  lemma TakenEffect(c: Chain, b: Balances, moved: Balances, o: Order, k: Bytes32, id: EscrowId, amount: u64)
    requires Backed(c, b) && OrderAta(k, o.token) in b.tokens && EscrowAta(id, o.token) in b.tokens
    requires TakeFromOrder(c, b, o, k, amount, EscrowAta(id, o.token)) == Ok(moved)
    ensures var ata, to, taken := OrderAta(k, o.token), EscrowAta(id, o.token), FillTakes(b, o, k, amount);
      && taken <= TokensIn(b, ata) && moved.tokens == Transferred(b, ata, to, taken)
      && Shifted(b, moved, ata, to, If(o.token == c.nativeMint, taken))
  {
    TransferEffect(c, b, OrderAta(k, o.token), EscrowAta(id, o.token), FillTakes(b, o, k, amount));
  }

  lemma OpenedThenMoved(
    c: Chain, b: Balances, prepared: Balances, moved: Balances, ata: Address, to: Address, taken: nat)
    requires prepared.tokens == Opened(c, b, to) && taken <= TokensIn(b, ata)
    requires TokensIn(prepared, ata) == TokensIn(b, ata)
    requires moved.tokens == Transferred(prepared, ata, to, taken)
    ensures moved.tokens == TokensMoved(c, b, ata, to, taken)
  {
  }

  lemma StepsMoveFill(
    c: Chain, b: Balances, prepared: Balances, moved: Balances, o: Order, k: Bytes32, taker: Bytes32, id: EscrowId,
    amount: u64)
    requires Backed(c, b) && OrderAta(k, o.token) in b.tokens
    requires OpenEscrowAccounts(c, b, taker, id, o.token) == Ok(prepared)
    requires TakeFromOrder(c, prepared, o, k, amount, EscrowAta(id, o.token)) == Ok(moved)
    ensures FillMoved(c, b, moved, o, k, taker, id, amount)
  {
    var ata, to, taken := OrderAta(k, o.token), EscrowAta(id, o.token), FillTakes(b, o, k, amount);
    EscrowAccountsOpened(c, b, prepared, taker, id, o.token);
    OpeningSparesOrder(c, b, prepared, taker, id, k, o.token);
    TakenEffect(c, prepared, moved, o, k, id, amount);
    OpenedThenMoved(c, b, prepared, moved, ata, to, taken);
    PaidThenMoved(c, b, prepared, moved, Key(taker), EscrowPda(id), ata, to, If(o.token == c.nativeMint, taken));
  }

  /** A fill as a whole, whatever happened before: what it moves, to whom it closes the order,
      and the escrow it makes, which carries the order's terms. */
  lemma FillEffect(
    h: Hasher, c: Chain, s: State, taker: Bytes32, k: Bytes32, amount: u64, proof: Option<MerkleProof>,
    data: AuctionData,
    id: EscrowId) returns (moved: Balances, due: u256)
    requires Backed(c, s.balances) && CreateEscrow(h, c, s, taker, k, amount, proof, data).Ok?
    requires k in s.orders
    requires id == EscrowId(k, if proof.Some? then proof.value.hashedSecret else s.orders[k].hashlock, taker, amount)
    ensures var o, s' := s.orders[k], CreateEscrow(h, c, s, taker, k, amount, proof, data).value;
      && FillMoved(c, s.balances, moved, o, k, taker, id, amount) && FillClosed(moved, s'.balances, o, k, amount)
      && EscrowDstAmount(o.dstAmount, amount, o.amount, s.now, data) == Ok(due)
      && id !in s.escrows
      && s'.escrows == s.escrows[id := EscrowSrc(o.orderHash, id.hashlock, o.creator, taker, o.token, amount,
                                                o.safetyDeposit, o.timelocks[7 := s.now], o.assetIsNative, due)]
  {
    var o := s.orders[k];
    var prepared;
    prepared, moved, due := FillSteps(h, c, s, taker, k, amount, proof, data);
    StepsMoveFill(c, s.balances, prepared, moved, o, k, taker, id, amount);
    var e := NewEscrow(o, id.hashlock, taker, amount, due, s.now);
    RecordSettles(c, s.(balances := moved), k, amount, id, e);
    RecordStores(c, s.(balances := moved), k, amount, id, e);
  }

  lemma RecordStores(c: Chain, s: State, k: Bytes32, amount: u64, id: EscrowId, e: EscrowSrc)
    requires k in s.orders && FillAmountAllowed(s.orders[k], amount) && RecordFill(c, s, k, amount, id, e).Ok?
    ensures RecordFill(c, s, k, amount, id, e).value.escrows == s.escrows[id := e]
  {
  }

  /** A maker who cancels gets everything back: it is a settlement without a reward. */
  lemma CancellationReturnsAll(c: Chain, s: State, rescued: set<Address>, orderHash: Bytes32, given: bool)
    requires Solvent(c, s, rescued) && CancelOrder(c, s, orderHash, given).Ok?
    ensures SettledWithReward(
      c, s.balances, CancelOrder(c, s, orderHash, given).value.balances,
      s.orders[orderHash], orderHash, s.orders[orderHash].creator, 0)
  {
    var o := s.orders[orderHash];
    assert OrderTerms(c, orderHash, o);
    var b0 := ReturnTokens(c, s.balances, o, orderHash).value;
    ReturnEffect(c, s.balances, o, orderHash);
    CloseEffect(c, b0, o, orderHash);
    ReturnAndSettle(c, s.balances, b0, CloseOrder(c, b0, o, orderHash).value, o, orderHash, o.creator, 0);
  }

  lemma RewardIsCappedPremium(o: Order, now: u32, rewardLimit: u64)
    requires ResolverReward(o, now, rewardLimit).Ok?
    ensures var premium := CalculatePremium(
              now, o.expirationTime, o.cancellationAuctionDuration, o.maxCancellationPremium);
      premium.Ok? && ResolverReward(o, now, rewardLimit).value
        == (if premium.value <= rewardLimit then premium.value else rewardLimit)
  {
  }

  /** A resolver's net gain from cancelling an order is exactly its reward, the smaller of
      the premium of the moment and its limit; all else goes to the creator. */
  lemma ResolverEarnsThePremium(
    c: Chain, s: State, rescued: set<Address>, resolver: Bytes32, orderHash: Bytes32, rewardLimit: u64,
    given: bool) returns (reward: nat)
    requires Solvent(c, s, rescued) && CancelOrderByResolver(c, s, resolver, orderHash, rewardLimit, given).Ok?
    ensures var o := s.orders[orderHash];
            var premium := CalculatePremium(
              s.now, o.expirationTime, o.cancellationAuctionDuration, o.maxCancellationPremium);
            premium.Ok? && reward == if premium.value <= rewardLimit then premium.value else rewardLimit
    ensures SettledWithReward(
      c, s.balances, CancelOrderByResolver(c, s, resolver, orderHash, rewardLimit, given).value.balances,
      s.orders[orderHash], orderHash, resolver, reward)
  {
    var o := s.orders[orderHash];
    RewardIsCappedPremium(o, s.now, rewardLimit);
    reward := ResolverReward(o, s.now, rewardLimit).value;
    assert OrderTerms(c, orderHash, o);
    var b0 := ReturnTokens(c, s.balances, o, orderHash).value;
    ReturnEffect(c, s.balances, o, orderHash);
    var b' := SettleThroughResolver(c, b0, o, orderHash, resolver, reward).value;
    SettleEffect(c, b0, b', o, orderHash, resolver, reward);
    ReturnAndSettle(c, s.balances, b0, b', o, orderHash, resolver, reward);
  }
}
