/** What every step of the source program keeps: each open order and each live escrow is
    funded, no lamport or token is made or lost, and so no payout can fail for lack of
    funds. */
module SourceInvariant {
  import opened Wrappers
  import opened Bits
  import opened Numerals
  import opened Timelocks
  import opened Auction
  import opened Merkle
  import opened PartialFill
  import opened DstAmount
  import opened Encoding
  import opened Accounts
  import opened Payouts
  import opened SourceSpec

  // ----- The invariant -----

  predicate OrderTerms(c: Chain, orderHash: Bytes32, o: Order) {
    && o.orderHash == orderHash
    && 0 < o.remainingAmount <= o.amount
    && 0 < o.safetyDeposit <= c.escrowRent
    && (o.assetIsNative ==> o.token == c.nativeMint)
    && (if o.allowMultipleFills then PartsAmount(o.hashlock) > 1 else o.remainingAmount == o.amount)
  }

  /** The order's tokens are there, and so are the lamports for its cancellation premium,
      beside those that native tokens stand for. */
  predicate OrderFunded(c: Chain, b: Balances, orderHash: Bytes32, o: Order) {
    var ata := OrderAta(orderHash, o.token);
    && ata in b.tokens
    && o.remainingAmount <= b.tokens[ata]
    && o.maxCancellationPremium + If(o.token == c.nativeMint, o.remainingAmount) <= b.Lamports(ata)
  }

  /** Native tokens handled as ordinary tokens. */
  predicate Wrapped(c: Chain, o: Order) {
    o.token == c.nativeMint && !o.assetIsNative
  }

  predicate EscrowTerms(c: Chain, id: EscrowId, e: EscrowSrc) {
    && id == EscrowId(e.orderHash, e.hashlock, e.taker, e.amount)
    && 0 < e.amount
    && 0 < e.safetyDeposit <= c.escrowRent
    && (e.assetIsNative ==> e.token == c.nativeMint)
  }

  predicate EscrowFunded(c: Chain, b: Balances, id: EscrowId, e: EscrowSrc) {
    var ata := EscrowAta(id, e.token);
    && ata in b.tokens
    && e.amount <= b.tokens[ata]
    && c.escrowRent <= b.Lamports(EscrowPda(id))
  }

  /** The orders are sound, and funded unless they were rescued. */
  ghost predicate OrdersFunded(c: Chain, b: Balances, orders: map<Bytes32, Order>, rescued: set<Address>) {
    forall k :: k in orders ==>
      OrderTerms(c, k, orders[k]) && (OrderPda(k) !in rescued ==> OrderFunded(c, b, k, orders[k]))
  }

  ghost predicate EscrowsFunded(c: Chain, b: Balances, escrows: map<EscrowId, EscrowSrc>, rescued: set<Address>) {
    forall id :: id in escrows ==>
      EscrowTerms(c, id, escrows[id]) && (EscrowPda(id) !in rescued ==> EscrowFunded(c, b, id, escrows[id]))
  }

  /** Whatever was not rescued is there. `rescued` holds the addresses of the orders and
      escrows that a rescue took from, and of the escrows filled from such orders since. */
  ghost predicate Solvent(c: Chain, s: State, rescued: set<Address>) {
    && Backed(c, s.balances)
    && OrdersFunded(c, s.balances, s.orders, rescued)
    && EscrowsFunded(c, s.balances, s.escrows, rescued)
  }

  // ----- Frames -----

  /** Orders and escrows whose accounts are not excepted stay funded. */
  lemma FundedFrame(
    c: Chain, b: Balances, b': Balances, except: set<Address>,
    orders: map<Bytes32, Order>, escrows: map<EscrowId, EscrowSrc>, rescued: set<Address>)
    requires Grows(b, b', except)
    requires OrdersFunded(c, b, orders, rescued) && EscrowsFunded(c, b, escrows, rescued)
    requires forall k :: k in orders && OrderPda(k) !in rescued ==> OrderAta(k, orders[k].token) !in except
    requires forall id :: id in escrows && EscrowPda(id) !in rescued ==>
               EscrowAta(id, escrows[id].token) !in except && EscrowPda(id) !in except
    ensures OrdersFunded(c, b', orders, rescued) && EscrowsFunded(c, b', escrows, rescued)
  {
    forall k | k in orders && OrderPda(k) !in rescued ensures OrderFunded(c, b', k, orders[k]) {
      assert NotBelow(b, b', OrderAta(k, orders[k].token));
    }
    forall id | id in escrows && EscrowPda(id) !in rescued ensures EscrowFunded(c, b', id, escrows[id]) {
      assert NotBelow(b, b', EscrowAta(id, escrows[id].token));
      assert NotBelow(b, b', EscrowPda(id));
    }
  }

  lemma AddOrder(c: Chain, b: Balances, orders: map<Bytes32, Order>, rescued: set<Address>, k: Bytes32, o: Order)
    requires OrdersFunded(c, b, orders - {k}, rescued) && OrderTerms(c, k, o)
    requires OrderPda(k) !in rescued ==> OrderFunded(c, b, k, o)
    ensures OrdersFunded(c, b, orders[k := o], rescued)
  {
    var rest := orders - {k};
    assert orders[k := o] == rest[k := o];
  }

  lemma AddEscrow(
    c: Chain, b: Balances, escrows: map<EscrowId, EscrowSrc>, rescued: set<Address>, id: EscrowId, e: EscrowSrc)
    requires EscrowsFunded(c, b, escrows, rescued) && EscrowTerms(c, id, e)
    requires EscrowPda(id) !in rescued ==> EscrowFunded(c, b, id, e)
    ensures EscrowsFunded(c, b, escrows[id := e], rescued)
  {
  }

  /** A step that debits one order's accounts and drops the order. */
  lemma DropOrder(c: Chain, s: State, rescued: set<Address>, b': Balances, orderHash: Bytes32, mint: Bytes32)
    requires Solvent(c, s, rescued) && Backed(c, b')
    requires Grows(s.balances, b', {OrderAta(orderHash, mint), OrderPda(orderHash)})
    ensures Solvent(c, s.(balances := b', orders := s.orders - {orderHash}), rescued)
  {
    FundedFrame(c, s.balances, b', {OrderAta(orderHash, mint), OrderPda(orderHash)},
                s.orders - {orderHash}, s.escrows, rescued);
  }

  /** A step that debits one escrow's accounts and drops the escrow. */
  lemma DropEscrow(c: Chain, s: State, rescued: set<Address>, b': Balances, id: EscrowId, mint: Bytes32)
    requires Solvent(c, s, rescued) && Backed(c, b')
    requires Grows(s.balances, b', {EscrowAta(id, mint), EscrowPda(id)})
    ensures Solvent(c, s.(balances := b', escrows := s.escrows - {id}), rescued)
  {
    FundedFrame(c, s.balances, b', {EscrowAta(id, mint), EscrowPda(id)}, s.orders, s.escrows - {id}, rescued);
  }

  // ----- Escrow payouts -----

  lemma PayTakerKeeps(c: Chain, b: Balances, id: EscrowId, e: EscrowSrc, executor: Bytes32)
    requires Backed(c, b) && PayTaker(c, b, id, e, executor).Ok?
    ensures var b' := PayTaker(c, b, id, e, executor).value;
      && Conserves(c, b, b') && Backed(c, b')
      && Grows(b, b', {EscrowAta(id, e.token), EscrowPda(id)})
  {
    var ata, to := EscrowAta(id, e.token), Wallet(e.taker, e.token);
    var paid := WithdrawAndCloseTokenAta(c, b, ata, to, Key(e.taker)).value;
    WithdrawKeeps(c, b, ata, to, Key(e.taker));
    DepositKeeps(c, paid, EscrowPda(id), e.safetyDeposit, Key(e.taker), Key(executor));
    GrowsTransitive(b, paid, PayTaker(c, b, id, e, executor).value, {ata}, {EscrowPda(id)});
    assert {ata} + {EscrowPda(id)} == {ata, EscrowPda(id)};
  }

  lemma RefundMakerKeeps(c: Chain, b: Balances, id: EscrowId, e: EscrowSrc, executor: Bytes32, given: bool)
    requires Backed(c, b) && RefundMaker(c, b, id, e, executor, given).Ok?
    ensures var b' := RefundMaker(c, b, id, e, executor, given).value;
      && Conserves(c, b, b') && Backed(c, b')
      && Grows(b, b', {EscrowAta(id, e.token), EscrowPda(id)})
  {
    var ata, to := EscrowAta(id, e.token), Optional(given, Wallet(e.maker, e.token));
    var paid := ProcessPayout(c, b, e.assetIsNative, e.amount, EscrowPda(id), ata, Key(e.maker), to,
                              Key(e.taker)).value;
    PayoutKeeps(c, b, e.assetIsNative, e.amount, EscrowPda(id), ata, Key(e.maker), to, Key(e.taker));
    DepositKeeps(c, paid, EscrowPda(id), e.safetyDeposit, Key(e.taker), Key(executor));
    GrowsTransitive(b, paid, RefundMaker(c, b, id, e, executor, given).value, {ata, EscrowPda(id)}, {EscrowPda(id)});
    assert {ata, EscrowPda(id)} + {EscrowPda(id)} == {ata, EscrowPda(id)};
  }

  lemma WithdrawKeepsSolvency(
    h: Hasher, c: Chain, s: State, rescued: set<Address>, id: EscrowId, executor: Bytes32, stage: Stage,
    secret: Bytes32)
    requires Solvent(c, s, rescued) && WithdrawFrom(h, c, s, id, executor, stage, secret).Ok?
    ensures var s' := WithdrawFrom(h, c, s, id, executor, stage, secret).value;
      Solvent(c, s', rescued) && Conserves(c, s.balances, s'.balances)
  {
    var e := s.escrows[id];
    PayTakerKeeps(c, s.balances, id, e, executor);
    DropEscrow(c, s, rescued, PayTaker(c, s.balances, id, e, executor).value, id, e.token);
  }

  lemma CancelKeepsSolvency(
    c: Chain, s: State, rescued: set<Address>, id: EscrowId, executor: Bytes32, stage: Stage, given: bool)
    requires Solvent(c, s, rescued) && CancelFrom(c, s, id, executor, stage, given).Ok?
    ensures var s' := CancelFrom(c, s, id, executor, stage, given).value;
      Solvent(c, s', rescued) && Conserves(c, s.balances, s'.balances)
  {
    var e := s.escrows[id];
    RefundMakerKeeps(c, s.balances, id, e, executor, given);
    DropEscrow(c, s, rescued, RefundMaker(c, s.balances, id, e, executor, given).value, id, e.token);
  }

  // ----- Orders -----

  lemma OpeningKeeps(c: Chain, b: Balances, payer: Bytes32, pda: Address, rent: nat, ata: Address)
    requires ata.Ata? && pda != Key(payer) && !pda.Ata? && Backed(c, b)
    requires FundRent(b, Key(payer), pda, rent).Ok?
    requires OpenTokenAccount(c, FundRent(b, Key(payer), pda, rent).value, Key(payer), ata).Ok?
    ensures var b' := OpenTokenAccount(c, FundRent(b, Key(payer), pda, rent).value, Key(payer), ata).value;
      && Conserves(c, b, b') && Grows(b, b', {}) && Backed(c, b')
      && ata in b'.tokens && (Guarded(pda) ==> rent <= b'.Lamports(pda))
  {
    var funded := FundRent(b, Key(payer), pda, rent).value;
    var b' := OpenTokenAccount(c, funded, Key(payer), ata).value;
    FundRentConserves(c, b, Key(payer), pda, rent);
    FundRentGrows(c, b, Key(payer), pda, rent);
    OpenTokenConserves(c, funded, Key(payer), ata);
    OpenTokenGrows(c, funded, Key(payer), ata);
    GrowsTransitive(b, funded, b', {}, {});
    assert Guarded(pda) ==> NotBelow(funded, b', pda);
  }

  lemma DepositEffect(c: Chain, b: Balances, p: OrderParams, ata: Address, given: bool)
    requires Backed(c, b) && ata in b.tokens && ata.Ata? && ata.owner.OrderPda? && ata.mint == p.token
    requires p.assetIsNative ==> p.token == c.nativeMint
    requires p.amount > 0 && SourceSpec.Deposit(c, b, p, ata, given).Ok?
    ensures var b' := SourceSpec.Deposit(c, b, p, ata, given).value;
      && Conserves(c, b, b') && Grows(b, b', {}) && Backed(c, b')
      && ata in b'.tokens && b.tokens[ata] + p.amount <= b'.tokens[ata]
      && b.Lamports(ata) + If(p.assetIsNative, p.amount) <= b'.Lamports(ata)
  {
    if p.assetIsNative {
      var sent := NativeTransfer(b, Key(p.maker), ata, p.amount).value;
      MoveConserves(c, b, Key(p.maker), ata, p.amount);
      MoveGrows(c, b, Key(p.maker), ata, p.amount);
      SyncConserves(c, sent, ata);
      SyncGrows(c, sent, ata);
      GrowsTransitive(b, sent, SyncNative(c, sent, ata).value, {}, {});
    } else {
      TokenTransferConserves(c, b, Wallet(p.maker, p.token), ata, p.amount);
      TokenTransferGrows(c, b, Wallet(p.maker, p.token), ata, p.amount);
    }
  }

  lemma OrderIsDeposited(
    c: Chain, b: Balances, prepared: Balances, b': Balances, p: OrderParams, k: Bytes32, given: bool)
    requires Backed(c, b) && p.amount > 0 && (p.assetIsNative ==> p.token == c.nativeMint)
    requires OpenOrderAccounts(c, b, p.maker, k, p.token) == Ok(prepared)
    requires p.maxCancellationPremium <= prepared.Lamports(OrderAta(k, p.token))
    requires SourceSpec.Deposit(c, prepared, p, OrderAta(k, p.token), given) == Ok(b')
    ensures Conserves(c, b, b') && Grows(b, b', {}) && Backed(c, b')
    ensures OrderFunded(c, b', k, NewOrder(p, k, 0))
  {
    OpeningKeeps(c, b, p.maker, OrderPda(k), c.orderRent, OrderAta(k, p.token));
    DepositEffect(c, prepared, p, OrderAta(k, p.token), given);
    GrowsTransitive(b, prepared, b', {}, {});
  }

  /** A new order is whole, whatever became of an earlier one with its address. */
  lemma PlaceOrder(c: Chain, s: State, rescued: set<Address>, b': Balances, k: Bytes32, o: Order)
    requires Solvent(c, s, rescued) && Grows(s.balances, b', {}) && Backed(c, b')
    requires k !in s.orders && OrderTerms(c, k, o) && OrderFunded(c, b', k, o)
    ensures Solvent(c, s.(balances := b', orders := s.orders[k := o]), rescued - {OrderPda(k)})
  {
    FundedFrame(c, s.balances, b', {}, s.orders, s.escrows, rescued);
    AddOrder(c, b', s.orders, rescued - {OrderPda(k)}, k, o);
  }

  /** What a successful creation went through, and the state it left. */
  lemma CreateSteps(h: Hasher, c: Chain, s: State, p: OrderParams, k: Bytes32, given: bool)
    requires Create(h, c, s, p, given).Ok? && k == OrderHash(h, p)
    ensures var prepared, ata := OpenOrderAccounts(c, s.balances, p.maker, k, p.token), OrderAta(k, p.token);
      && k !in s.orders && GivenIsOpen(s.balances, given, Wallet(p.maker, p.token))
      && prepared.Ok? && prepared.value.Lamports(ata) >= p.maxCancellationPremium
      && CheckNewOrder(c, s.now, p).Ok?
      && var deposited := SourceSpec.Deposit(c, prepared.value, p, ata, given);
      && deposited.Ok?
      && Create(h, c, s, p, given).value
         == s.(balances := deposited.value, orders := s.orders[k := NewOrder(p, k, s.now)])
  {
  }

  lemma NewOrderIsSound(c: Chain, now: u32, p: OrderParams)
    ensures CheckNewOrder(c, now, p).Ok? <==>
      && (p.allowMultipleFills ==> PartsAmount(p.hashlock) > 1) && now < p.expirationTime
      && 0 < p.amount && 0 < p.safetyDeposit <= c.escrowRent && (p.assetIsNative ==> p.token == c.nativeMint)
  {
  }

  lemma CreateKeepsSolvency(h: Hasher, c: Chain, s: State, rescued: set<Address>, p: OrderParams, given: bool)
    requires Solvent(c, s, rescued) && Create(h, c, s, p, given).Ok?
    ensures var s' := Create(h, c, s, p, given).value;
      && Solvent(c, s', rescued - {OrderPda(OrderHash(h, p))})
      && Conserves(c, s.balances, s'.balances)
  {
    var orderHash := OrderHash(h, p);
    CreateSteps(h, c, s, p, orderHash, given);
    NewOrderIsSound(c, s.now, p);
    var prepared := OpenOrderAccounts(c, s.balances, p.maker, orderHash, p.token).value;
    var b' := SourceSpec.Deposit(c, prepared, p, OrderAta(orderHash, p.token), given).value;
    OrderIsDeposited(c, s.balances, prepared, b', p, orderHash, given);
    PlaceOrder(c, s, rescued, b', orderHash, NewOrder(p, orderHash, s.now));
  }

  lemma CloseOrderKeeps(c: Chain, b: Balances, o: Order, orderHash: Bytes32)
    requires Backed(c, b) && CloseOrder(c, b, o, orderHash).Ok?
    ensures var b' := CloseOrder(c, b, o, orderHash).value;
      && Conserves(c, b, b') && Backed(c, b')
      && Grows(b, b', {OrderAta(orderHash, o.token), OrderPda(orderHash)})
  {
    var ata, pda := OrderAta(orderHash, o.token), OrderPda(orderHash);
    CloseTokenConserves(c, b, ata, Key(o.creator));
    CloseTokenGrows(c, b, ata, Key(o.creator));
    ClosingKeeps(c, b, CloseTokenAccount(c, b, ata, Key(o.creator)).value, ata, pda, Key(o.creator));
  }

  lemma ReturnTokensKeeps(c: Chain, b: Balances, o: Order, orderHash: Bytes32)
    requires Backed(c, b) && ReturnTokens(c, b, o, orderHash).Ok?
    ensures var b' := ReturnTokens(c, b, o, orderHash).value;
      && Conserves(c, b, b') && Backed(c, b')
      && Grows(b, b', {OrderAta(orderHash, o.token), OrderPda(orderHash)})
  {
    if !o.assetIsNative {
      var ata := OrderAta(orderHash, o.token);
      TokenTransferConserves(c, b, ata, Wallet(o.creator, o.token), TokensIn(b, ata));
      TokenTransferGrows(c, b, ata, Wallet(o.creator, o.token), TokensIn(b, ata));
    }
  }

  lemma CancelOrderKeepsSolvency(c: Chain, s: State, rescued: set<Address>, orderHash: Bytes32, given: bool)
    requires Solvent(c, s, rescued) && CancelOrder(c, s, orderHash, given).Ok?
    ensures var s' := CancelOrder(c, s, orderHash, given).value;
      Solvent(c, s', rescued) && Conserves(c, s.balances, s'.balances)
  {
    var o := s.orders[orderHash];
    var accounts := {OrderAta(orderHash, o.token), OrderPda(orderHash)};
    var returned := ReturnTokens(c, s.balances, o, orderHash).value;
    ReturnTokensKeeps(c, s.balances, o, orderHash);
    CloseOrderKeeps(c, returned, o, orderHash);
    var b' := CloseOrder(c, returned, o, orderHash).value;
    GrowsTransitive(s.balances, returned, b', accounts, accounts);
    assert accounts + accounts == accounts;
    DropOrder(c, s, rescued, b', orderHash, o.token);
  }

  lemma ForwardKeeps(
    c: Chain, b: Balances, closed: Balances, paid: Balances, ata: Address, resolver: Bytes32, creator: Bytes32,
    amount: nat)
    requires Backed(c, b) && CloseTokenAccount(c, b, ata, Key(resolver)) == Ok(closed)
    requires NativeTransfer(closed, Key(resolver), Key(creator), amount) == Ok(paid)
    ensures Conserves(c, b, paid) && Backed(c, paid) && Grows(b, paid, {ata})
  {
    CloseTokenConserves(c, b, ata, Key(resolver));
    CloseTokenGrows(c, b, ata, Key(resolver));
    if amount != 0 {
      MoveConserves(c, closed, Key(resolver), Key(creator), amount);
      MoveGrows(c, closed, Key(resolver), Key(creator), amount);
    }
    GrowsTransitive(b, closed, paid, {ata}, {});
    assert {ata} + {} == {ata};
  }

  lemma CloseAccountKeeps(c: Chain, b: Balances, pda: Address, to: Address)
    requires Backed(c, b) && !IsNative(c, pda)
    ensures var b' := CloseAccount(b, pda, to);
      Conserves(c, b, b') && Backed(c, b') && Grows(b, b', {pda})
  {
    MoveConserves(c, b, pda, to, b.Lamports(pda));
    MoveGrows(c, b, pda, to, b.Lamports(pda));
  }

  lemma ClosingKeeps(c: Chain, b: Balances, paid: Balances, ata: Address, pda: Address, to: Address)
    requires Conserves(c, b, paid) && Backed(c, paid) && Grows(b, paid, {ata}) && !IsNative(c, pda)
    ensures var b' := CloseAccount(paid, pda, to);
      Conserves(c, b, b') && Backed(c, b') && Grows(b, b', {ata, pda})
  {
    CloseAccountKeeps(c, paid, pda, to);
    GrowsTransitive(b, paid, CloseAccount(paid, pda, to), {ata}, {pda});
    assert {ata} + {pda} == {ata, pda};
  }

  /** The steps of a settlement that succeeded. */
  lemma SettleSteps(
    c: Chain, b: Balances, o: Order, orderHash: Bytes32, resolver: Bytes32, reward: nat)
    returns (closed: Balances, paid: Balances)
    requires SettleThroughResolver(c, b, o, orderHash, resolver, reward).Ok?
    ensures var ata := OrderAta(orderHash, o.token);
      && ata in b.tokens && reward <= b.Lamports(ata)
      && CloseTokenAccount(c, b, ata, Key(resolver)) == Ok(closed)
      && NativeTransfer(closed, Key(resolver), Key(o.creator), b.Lamports(ata) - reward) == Ok(paid)
      && SettleThroughResolver(c, b, o, orderHash, resolver, reward)
           == Ok(CloseAccount(paid, OrderPda(orderHash), Key(o.creator)))
  {
    var ata := OrderAta(orderHash, o.token);
    closed := CloseTokenAccount(c, b, ata, Key(resolver)).value;
    paid := NativeTransfer(closed, Key(resolver), Key(o.creator), b.Lamports(ata) - reward).value;
  }

  lemma SettleKeeps(c: Chain, b: Balances, o: Order, orderHash: Bytes32, resolver: Bytes32, reward: nat)
    requires Backed(c, b) && SettleThroughResolver(c, b, o, orderHash, resolver, reward).Ok?
    ensures var b' := SettleThroughResolver(c, b, o, orderHash, resolver, reward).value;
      && Conserves(c, b, b') && Backed(c, b')
      && Grows(b, b', {OrderAta(orderHash, o.token), OrderPda(orderHash)})
  {
    var ata, pda := OrderAta(orderHash, o.token), OrderPda(orderHash);
    var closed, paid := SettleSteps(c, b, o, orderHash, resolver, reward);
    ForwardKeeps(c, b, closed, paid, ata, resolver, o.creator, b.Lamports(ata) - reward);
    ClosingKeeps(c, b, paid, ata, pda, Key(o.creator));
  }

  lemma CancelByResolverKeepsSolvency(
    c: Chain, s: State, rescued: set<Address>, resolver: Bytes32, orderHash: Bytes32, rewardLimit: u64, given: bool)
    requires Solvent(c, s, rescued) && CancelOrderByResolver(c, s, resolver, orderHash, rewardLimit, given).Ok?
    ensures var s' := CancelOrderByResolver(c, s, resolver, orderHash, rewardLimit, given).value;
      Solvent(c, s', rescued) && Conserves(c, s.balances, s'.balances)
  {
    var o := s.orders[orderHash];
    var accounts := {OrderAta(orderHash, o.token), OrderPda(orderHash)};
    var returned := ReturnTokens(c, s.balances, o, orderHash).value;
    var reward := ResolverReward(o, s.now, rewardLimit).value;
    ReturnTokensKeeps(c, s.balances, o, orderHash);
    SettleKeeps(c, returned, o, orderHash, resolver, reward);
    var b' := SettleThroughResolver(c, returned, o, orderHash, resolver, reward).value;
    GrowsTransitive(s.balances, returned, b', accounts, accounts);
    assert accounts + accounts == accounts;
    DropOrder(c, s, rescued, b', orderHash, o.token);
  }

  // ----- Fills -----

  /** An accepted fill takes something and no more than what remains. */
  lemma FillTakesSomething(
    h: Hasher, c: Chain, orderHash: Bytes32, o: Order, now: u32, amount: u64, proof: Option<MerkleProof>,
    data: AuctionData)
    requires OrderTerms(c, orderHash, o) && CheckFill(h, o, now, amount, proof, data).Ok?
    ensures 0 < amount <= o.remainingAmount
    ensures CheckFill(h, o, now, amount, proof, data).value == GetEscrowHashlock(o.hashlock, proof)
    ensures !o.allowMultipleFills ==> amount == o.remainingAmount
    ensures o.allowMultipleFills ==> (
      && proof.Some? && Verifies(h, o.hashlock, proof.value)
      && Accepts(o.amount, PartsAmount(o.hashlock), o.remainingAmount, Fill(amount, proof.value.index)))
  {
  }

  /** Taking a fill's tokens debits the order alone. */
  lemma TakeKeeps(c: Chain, b: Balances, o: Order, orderHash: Bytes32, amount: u64, id: EscrowId)
    requires Backed(c, b) && TakeFromOrder(c, b, o, orderHash, amount, EscrowAta(id, o.token)).Ok?
    ensures var b' := TakeFromOrder(c, b, o, orderHash, amount, EscrowAta(id, o.token)).value;
      Conserves(c, b, b') && Backed(c, b') && Grows(b, b', {OrderAta(orderHash, o.token)})
  {
    var ata, to := OrderAta(orderHash, o.token), EscrowAta(id, o.token);
    var taken := if o.remainingAmount == amount then TokensIn(b, ata) else amount;
    TokenTransferConserves(c, b, ata, to, taken);
    TokenTransferGrows(c, b, ata, to, taken);
  }

  /** Taking a funded order's fill succeeds and leaves the rest of the order funded. */
  lemma TakeEffect(c: Chain, b: Balances, o: Order, orderHash: Bytes32, amount: u64, id: EscrowId)
    requires OrderTerms(c, orderHash, o) && OrderFunded(c, b, orderHash, o) && Backed(c, b)
    requires 0 < amount <= o.remainingAmount && EscrowAta(id, o.token) in b.tokens
    ensures TakeFromOrder(c, b, o, orderHash, amount, EscrowAta(id, o.token)).Ok?
    ensures var b' := TakeFromOrder(c, b, o, orderHash, amount, EscrowAta(id, o.token)).value;
      && EscrowAta(id, o.token) in b'.tokens && amount <= b'.tokens[EscrowAta(id, o.token)]
      && OrderAta(orderHash, o.token) in b'.tokens
      && (amount == o.remainingAmount ==> b'.tokens[OrderAta(orderHash, o.token)] == 0)
      && (amount < o.remainingAmount ==>
            OrderFunded(c, b', orderHash, o.(remainingAmount := o.remainingAmount - amount)))
  {
    var ata, to := OrderAta(orderHash, o.token), EscrowAta(id, o.token);
    var taken := if o.remainingAmount == amount then TokensIn(b, ata) else amount;
    assert TokenTransfer(c, b, ata, to, taken).Ok?;
  }

  /** What a fill leaves behind: the rest of the state untouched, the escrow funded, and
      the order funded for what remains of it, unless the order was rescued. */
  ghost predicate FundedAfterFill(
    c: Chain, s: State, rescued: set<Address>, b: Balances, orderHash: Bytes32, amount: u64, id: EscrowId, e: EscrowSrc)
    requires orderHash in s.orders && amount <= s.orders[orderHash].remainingAmount
  {
    var o := s.orders[orderHash];
    && Backed(c, b) && OrdersFunded(c, b, s.orders - {orderHash}, rescued)
    && EscrowsFunded(c, b, s.escrows[id := e], rescued)
    && (amount < o.remainingAmount && OrderPda(orderHash) !in rescued ==>
          OrderFunded(c, b, orderHash, o.(remainingAmount := o.remainingAmount - amount)))
  }

  /** An escrow starts as whole as the order it is filled from. */
  function AfterFill(rescued: set<Address>, orderHash: Bytes32, id: EscrowId): set<Address> {
    if OrderPda(orderHash) in rescued then rescued + {EscrowPda(id)} else rescued - {EscrowPda(id)}
  }

  lemma TakenIsFilled(
    c: Chain, s: State, rescued: set<Address>, b: Balances, orderHash: Bytes32, amount: u64, id: EscrowId, e: EscrowSrc)
    requires Solvent(c, s, rescued) && orderHash in s.orders && id !in s.escrows
    requires 0 < amount <= s.orders[orderHash].remainingAmount
    requires EscrowTerms(c, id, e)
    requires Backed(c, b) && Grows(s.balances, b, {OrderAta(orderHash, s.orders[orderHash].token)})
    requires var o := s.orders[orderHash];
      OrderPda(orderHash) !in rescued ==> (
      && EscrowFunded(c, b, id, e)
      && (amount < o.remainingAmount ==>
            OrderFunded(c, b, orderHash, o.(remainingAmount := o.remainingAmount - amount))))
    ensures FundedAfterFill(c, s, AfterFill(rescued, orderHash, id), b, orderHash, amount, id, e)
  {
    FundedFrame(c, s.balances, b, {OrderAta(orderHash, s.orders[orderHash].token)},
                s.orders - {orderHash}, s.escrows, rescued);
    AddEscrow(c, b, s.escrows, AfterFill(rescued, orderHash, id), id, e);
  }

  lemma ClosedOrderLeavesRest(
    c: Chain, b: Balances, orders: map<Bytes32, Order>, escrows: map<EscrowId, EscrowSrc>, rescued: set<Address>,
    o: Order, orderHash: Bytes32)
    requires Backed(c, b) && OrdersFunded(c, b, orders, rescued) && EscrowsFunded(c, b, escrows, rescued)
    requires orderHash !in orders && CloseOrder(c, b, o, orderHash).Ok?
    ensures var b' := CloseOrder(c, b, o, orderHash).value;
      && Conserves(c, b, b') && Backed(c, b')
      && OrdersFunded(c, b', orders, rescued) && EscrowsFunded(c, b', escrows, rescued)
  {
    CloseOrderKeeps(c, b, o, orderHash);
    FundedFrame(c, b, CloseOrder(c, b, o, orderHash).value, {OrderAta(orderHash, o.token), OrderPda(orderHash)},
                orders, escrows, rescued);
  }

  /** A recorded fill leaves the state solvent. */
  lemma RecordKeepsSolvency(
    c: Chain, s: State, rescued: set<Address>, b: Balances, orderHash: Bytes32, amount: u64, id: EscrowId, e: EscrowSrc)
    requires orderHash in s.orders && FillAmountAllowed(s.orders[orderHash], amount)
    requires 0 < amount <= s.orders[orderHash].remainingAmount && OrderTerms(c, orderHash, s.orders[orderHash])
    requires FundedAfterFill(c, s, rescued, b, orderHash, amount, id, e)
    requires RecordFill(c, s.(balances := b), orderHash, amount, id, e).Ok?
    ensures var s' := RecordFill(c, s.(balances := b), orderHash, amount, id, e).value;
      Solvent(c, s', rescued) && Conserves(c, b, s'.balances)
  {
    var o := s.orders[orderHash];
    if Closes(o, amount) {
      ClosedOrderLeavesRest(c, b, s.orders - {orderHash}, s.escrows[id := e], rescued, o, orderHash);
    } else {
      AddOrder(c, b, s.orders, rescued, orderHash, o.(remainingAmount := o.remainingAmount - amount));
    }
  }

  /** The escrow's accounts stand open, as the handler requires. */
  predicate EscrowAccountsOpen(c: Chain, b: Balances, id: EscrowId, token: Bytes32) {
    EscrowAta(id, token) in b.tokens && c.escrowRent <= b.Lamports(EscrowPda(id))
  }

  /** Taking a fill's tokens funds its escrow, if the order was whole. */
  lemma TakeFillsEscrow(
    c: Chain, s: State, rescued: set<Address>, b: Balances, orderHash: Bytes32, amount: u64, id: EscrowId, e: EscrowSrc)
    requires Solvent(c, s, rescued) && orderHash in s.orders && id !in s.escrows
    requires 0 < amount <= s.orders[orderHash].remainingAmount
    requires EscrowAccountsOpen(c, s.balances, id, s.orders[orderHash].token) && EscrowTerms(c, id, e)
    requires e.token == s.orders[orderHash].token && e.amount == amount
    requires TakeFromOrder(c, s.balances, s.orders[orderHash], orderHash, amount, EscrowAta(id, e.token)) == Ok(b)
    ensures FundedAfterFill(c, s, AfterFill(rescued, orderHash, id), b, orderHash, amount, id, e)
    ensures Conserves(c, s.balances, b)
  {
    var o := s.orders[orderHash];
    TakeKeeps(c, s.balances, o, orderHash, amount, id);
    if OrderPda(orderHash) !in rescued {
      TakeEffect(c, s.balances, o, orderHash, amount, id);
      assert NotBelow(s.balances, b, EscrowPda(id));
    }
    TakenIsFilled(c, s, rescued, b, orderHash, amount, id, e);
  }

  lemma FillOrderKeepsSolvency(
    h: Hasher, c: Chain, s: State, rescued: set<Address>, id: EscrowId, taker: Bytes32, orderHash: Bytes32, amount: u64,
    proof: Option<MerkleProof>, data: AuctionData)
    requires Solvent(c, s, rescued) && orderHash in s.orders && id !in s.escrows
    requires id == FillId(s.orders[orderHash], orderHash, taker, amount, proof)
    requires EscrowAccountsOpen(c, s.balances, id, s.orders[orderHash].token)
    requires FillOrder(h, c, s, id, taker, orderHash, amount, proof, data).Ok?
    ensures var s' := FillOrder(h, c, s, id, taker, orderHash, amount, proof, data).value;
      Solvent(c, s', AfterFill(rescued, orderHash, id)) && Conserves(c, s.balances, s'.balances)
  {
    var o := s.orders[orderHash];
    FillTakesSomething(h, c, orderHash, o, s.now, amount, proof, data);
    var taken := TakeFromOrder(c, s.balances, o, orderHash, amount, EscrowAta(id, o.token)).value;
    var dstAmount := EscrowDstAmount(o.dstAmount, amount, o.amount, s.now, data).value;
    var e := NewEscrow(o, GetEscrowHashlock(o.hashlock, proof), taker, amount, dstAmount, s.now);
    TakeFillsEscrow(c, s, rescued, taken, orderHash, amount, id, e);
    RecordKeepsSolvency(c, s, AfterFill(rescued, orderHash, id), taken, orderHash, amount, id, e);
  }

  lemma CreateEscrowKeepsSolvency(
    h: Hasher, c: Chain, s: State, rescued: set<Address>, taker: Bytes32, orderHash: Bytes32, amount: u64,
    proof: Option<MerkleProof>, data: AuctionData)
    requires Solvent(c, s, rescued) && CreateEscrow(h, c, s, taker, orderHash, amount, proof, data).Ok?
    ensures var s' := CreateEscrow(h, c, s, taker, orderHash, amount, proof, data).value;
            var id := FillId(s.orders[orderHash], orderHash, taker, amount, proof);
      Solvent(c, s', AfterFill(rescued, orderHash, id)) && Conserves(c, s.balances, s'.balances)
  {
    var o := s.orders[orderHash];
    var id := FillId(o, orderHash, taker, amount, proof);
    var prepared := OpenEscrowAccounts(c, s.balances, taker, id, o.token).value;
    OpeningKeeps(c, s.balances, taker, EscrowPda(id), c.escrowRent, EscrowAta(id, o.token));
    FundedFrame(c, s.balances, prepared, {}, s.orders, s.escrows, rescued);
    FillOrderKeepsSolvency(h, c, s.(balances := prepared), rescued, id, taker, orderHash, amount, proof, data);
  }

  // ----- Rescue -----

  /** The order or escrow whose live asset the instruction would take, if any. */
  function Takes(h: Hasher, s: State, ix: Instruction): set<Address> {
    match ix
    case IRescueForEscrow(id, mint, _) => if id in s.escrows && mint == s.escrows[id].token then {EscrowPda(id)} else {}
    case IRescueForOrder(_, p, mint, _) =>
      var k := OrderHash(h, p);
      if k in s.orders && mint == s.orders[k].token then {OrderPda(k)} else {}
    case _ => {}
  }

  /** The rescued addresses after a successful step. */
  function RescuedAfter(h: Hasher, s: State, rescued: set<Address>, ix: Instruction): set<Address> {
    match ix
    case ICreate(p, _) => rescued - {OrderPda(OrderHash(h, p))}
    case ICreateEscrow(taker, k, amount, proof, _) =>
      if k in s.orders then AfterFill(rescued, k, FillId(s.orders[k], k, taker, amount, proof)) else rescued
    case _ => rescued + Takes(h, s, ix)
  }

  lemma EscrowRescueWaits(c: Chain, s: State, id: EscrowId, mint: Bytes32, amount: u64)
    requires RescueFundsForEscrow(c, s, id, mint, amount).Ok? && id in s.escrows
    ensures DeployedAt(s.escrows[id].timelocks) + RESCUE_DELAY <= s.now
  {
  }

  lemma OrderRescueWaits(h: Hasher, c: Chain, s: State, resolver: Bytes32, p: OrderParams, mint: Bytes32, amount: u64)
    requires RescueFundsForOrder(h, c, s, resolver, p, mint, amount).Ok? && OrderHash(h, p) in s.orders
    ensures DeployedAt(s.orders[OrderHash(h, p)].timelocks) + RESCUE_DELAY <= s.now
  {
  }

  /** The gate: a live asset cannot be rescued before its deployment plus the delay. */
  lemma RescueWaits(h: Hasher, c: Chain, s: State, ix: Instruction)
    requires Apply(h, c, s, ix).Ok?
    ensures forall id :: EscrowPda(id) in Takes(h, s, ix) ==>
              id in s.escrows && DeployedAt(s.escrows[id].timelocks) + RESCUE_DELAY <= s.now
    ensures forall k :: OrderPda(k) in Takes(h, s, ix) ==>
              k in s.orders && DeployedAt(s.orders[k].timelocks) + RESCUE_DELAY <= s.now
  {
    if ix.IRescueForEscrow? && ix.id in s.escrows {
      EscrowRescueWaits(c, s, ix.id, ix.mint, ix.amount);
    } else if ix.IRescueForOrder? && OrderHash(h, ix.params) in s.orders {
      OrderRescueWaits(h, c, s, ix.resolver, ix.params, ix.mint, ix.amount);
    }
  }

  lemma EscrowRescueKeepsSolvency(c: Chain, s: State, rescued: set<Address>, id: EscrowId, mint: Bytes32, amount: u64)
    requires Solvent(c, s, rescued) && RescueFundsForEscrow(c, s, id, mint, amount).Ok?
    ensures var s' := RescueFundsForEscrow(c, s, id, mint, amount).value;
            var taken := if id in s.escrows && mint == s.escrows[id].token then {EscrowPda(id)} else {};
      Solvent(c, s', rescued + taken) && Conserves(c, s.balances, s'.balances)
  {
    var ata := EscrowAta(id, mint);
    var taken := if id in s.escrows && mint == s.escrows[id].token then {EscrowPda(id)} else {};
    RescueKeeps(c, s.balances, s.now, EscrowRescueStart(s, id).value, ata, Key(id.creator), Wallet(id.creator, mint),
                amount);
    FundedFrame(c, s.balances, RescueFundsForEscrow(c, s, id, mint, amount).value.balances, {ata},
                s.orders, s.escrows, rescued + taken);
  }

  lemma OrderRescueKeepsSolvency(
    h: Hasher, c: Chain, s: State, rescued: set<Address>, resolver: Bytes32, p: OrderParams, mint: Bytes32, amount: u64)
    requires Solvent(c, s, rescued) && RescueFundsForOrder(h, c, s, resolver, p, mint, amount).Ok?
    ensures var s' := RescueFundsForOrder(h, c, s, resolver, p, mint, amount).value;
            var k := OrderHash(h, p);
            var taken := if k in s.orders && mint == s.orders[k].token then {OrderPda(k)} else {};
      Solvent(c, s', rescued + taken) && Conserves(c, s.balances, s'.balances)
  {
    var k := OrderHash(h, p);
    var ata, b' := OrderAta(k, mint), RescueFundsForOrder(h, c, s, resolver, p, mint, amount).value.balances;
    var taken := if k in s.orders && mint == s.orders[k].token then {OrderPda(k)} else {};
    RescueKeeps(c, s.balances, s.now, OrderRescueStart(s, k).value, ata, Key(resolver), Wallet(resolver, mint), amount);
    FundedFrame(c, s.balances, b', {ata}, s.orders, s.escrows, rescued + taken);
  }

  // ----- Every step -----

  /** The steps that concern escrows. */
  lemma EscrowStepKeepsSolvency(h: Hasher, c: Chain, s: State, rescued: set<Address>, ix: Instruction)
    requires Solvent(c, s, rescued) && Apply(h, c, s, ix).Ok?
    requires ix.IWithdraw? || ix.IPublicWithdraw? || ix.ICancelEscrow? || ix.IPublicCancelEscrow?
    ensures Conserves(c, s.balances, Apply(h, c, s, ix).value.balances)
    ensures Solvent(c, Apply(h, c, s, ix).value, rescued)
  {
    match ix
    case IWithdraw(id, secret) => WithdrawKeepsSolvency(h, c, s, rescued, id, id.creator, SrcWithdrawal, secret);
    case IPublicWithdraw(payer, id, secret) =>
      WithdrawKeepsSolvency(h, c, s, rescued, id, payer, SrcPublicWithdrawal, secret);
    case ICancelEscrow(id, given) => CancelKeepsSolvency(c, s, rescued, id, id.creator, SrcCancellation, given);
    case IPublicCancelEscrow(payer, id, given) =>
      CancelKeepsSolvency(c, s, rescued, id, payer, SrcPublicCancellation, given);
  }

  /** The steps that cancel an order. */
  lemma OrderStepKeepsSolvency(h: Hasher, c: Chain, s: State, rescued: set<Address>, ix: Instruction)
    requires Solvent(c, s, rescued) && Apply(h, c, s, ix).Ok? && (ix.ICancelOrder? || ix.ICancelOrderByResolver?)
    ensures Conserves(c, s.balances, Apply(h, c, s, ix).value.balances)
    ensures Solvent(c, Apply(h, c, s, ix).value, rescued)
  {
    match ix
    case ICancelOrder(orderHash, given) => CancelOrderKeepsSolvency(c, s, rescued, orderHash, given);
    case ICancelOrderByResolver(resolver, orderHash, limit, given) =>
      CancelByResolverKeepsSolvency(c, s, rescued, resolver, orderHash, limit, given);
  }

  /** The steps that rescue. */
  lemma RescueStepKeepsSolvency(h: Hasher, c: Chain, s: State, rescued: set<Address>, ix: Instruction)
    requires Solvent(c, s, rescued) && Apply(h, c, s, ix).Ok? && (ix.IRescueForEscrow? || ix.IRescueForOrder?)
    ensures Conserves(c, s.balances, Apply(h, c, s, ix).value.balances)
    ensures Solvent(c, Apply(h, c, s, ix).value, rescued + Takes(h, s, ix))
  {
    match ix
    case IRescueForEscrow(id, mint, amount) => EscrowRescueKeepsSolvency(c, s, rescued, id, mint, amount);
    case IRescueForOrder(resolver, p, mint, amount) =>
      OrderRescueKeepsSolvency(h, c, s, rescued, resolver, p, mint, amount);
  }

  /** The steps that leave the rescued set as it is. */
  lemma PlainStepKeepsSolvency(h: Hasher, c: Chain, s: State, rescued: set<Address>, ix: Instruction)
    requires Solvent(c, s, rescued) && Apply(h, c, s, ix).Ok?
    requires !ix.ICreate? && !ix.ICreateEscrow? && !ix.IRescueForEscrow? && !ix.IRescueForOrder?
    ensures !ix.World? ==> Conserves(c, s.balances, Apply(h, c, s, ix).value.balances)
    ensures Solvent(c, Apply(h, c, s, ix).value, rescued)
  {
    if ix.ICancelOrder? || ix.ICancelOrderByResolver? {
      OrderStepKeepsSolvency(h, c, s, rescued, ix);
    } else if ix.World? {
      FundedFrame(c, s.balances, ix.balances, {}, s.orders, s.escrows, rescued);
    } else if !ix.Tick? {
      EscrowStepKeepsSolvency(h, c, s, rescued, ix);
    }
  }

  /** Every instruction of the program conserves lamports and tokens, and every step at all
      keeps funded whatever it does not rescue. */
  lemma StepKeepsSolvency(h: Hasher, c: Chain, s: State, rescued: set<Address>, ix: Instruction)
    requires Solvent(c, s, rescued) && Apply(h, c, s, ix).Ok?
    ensures !ix.World? ==> Conserves(c, s.balances, Apply(h, c, s, ix).value.balances)
    ensures Solvent(c, Apply(h, c, s, ix).value, RescuedAfter(h, s, rescued, ix))
  {
    if ix.ICreate? {
      CreateKeepsSolvency(h, c, s, rescued, ix.params, ix.given);
    } else if ix.ICreateEscrow? {
      CreateEscrowKeepsSolvency(h, c, s, rescued, ix.taker, ix.orderHash, ix.amount, ix.proof, ix.data);
    } else if ix.IRescueForEscrow? || ix.IRescueForOrder? {
      RescueStepKeepsSolvency(h, c, s, rescued, ix);
    } else {
      assert rescued + {} == rescued;
      PlainStepKeepsSolvency(h, c, s, rescued, ix);
    }
  }

  /** A transaction, taken or refused, keeps funded whatever it does not rescue. */
  lemma NextKeepsSolvency(h: Hasher, c: Chain, s: State, ix: Instruction)
    requires !ix.World?
    ensures forall rescued :: Solvent(c, s, rescued) ==>
      && Conserves(c, s.balances, Next(h, c, s, ix).balances)
      && Solvent(c, Next(h, c, s, ix), if Apply(h, c, s, ix).Ok? then RescuedAfter(h, s, rescued, ix) else rescued)
  {
    forall rescued | Solvent(c, s, rescued)
      ensures Conserves(c, s.balances, Next(h, c, s, ix).balances)
      ensures Solvent(c, Next(h, c, s, ix), if Apply(h, c, s, ix).Ok? then RescuedAfter(h, s, rescued, ix) else rescued)
    {
      if Apply(h, c, s, ix).Ok? {
        StepKeepsSolvency(h, c, s, rescued, ix);
      }
    }
  }

  // ----- Solvency makes payouts succeed -----

  /** The secret is the escrow's, its stage has started and its cancellation has not. */
  predicate CanWithdraw(h: Hasher, e: EscrowSrc, now: u32, stage: Stage, secret: Bytes32) {
    && StartedBy(e.timelocks, stage, now) && EndedBefore(e.timelocks, SrcCancellation, now)
    && h(secret) == e.hashlock
  }

  /** The gate opens for nothing else; a wrong secret is noticed in the window only, and
      outside of it the time is refused, unless it cannot be computed. */
  lemma WithdrawGateAnswers(h: Hasher, e: EscrowSrc, now: u32, stage: Stage, secret: Bytes32)
    ensures var r := WithdrawGate(h, e, now, stage, secret);
            var open := StartedBy(e.timelocks, stage, now) && EndedBefore(e.timelocks, SrcCancellation, now);
      && (r.Ok? <==> CanWithdraw(h, e, now, stage, secret))
      && (r == Err(InvalidSecret) <==> open && h(secret) != e.hashlock)
      && (StageStart(e.timelocks, stage).Ok? && StageStart(e.timelocks, SrcCancellation).Ok? ==>
            (r == Err(InvalidTime) <==> !open))
  {
  }

  lemma WithdrawFromSucceeds(
    h: Hasher, c: Chain, s: State, rescued: set<Address>, id: EscrowId, executor: Bytes32, stage: Stage,
    secret: Bytes32)
    requires Solvent(c, s, rescued) && EscrowPda(id) !in rescued
    ensures WithdrawFrom(h, c, s, id, executor, stage, secret).Ok? <==>
      && id in s.escrows
      && Wallet(s.escrows[id].taker, s.escrows[id].token) in s.balances.tokens
      && CanWithdraw(h, s.escrows[id], s.now, stage, secret)
  {
    if id in s.escrows {
      var e := s.escrows[id];
      assert EscrowTerms(c, id, e) && EscrowFunded(c, s.balances, id, e);
      WithdrawGateAnswers(h, e, s.now, stage, secret);
      TokenPayoutSplit(c, s.balances, e.safetyDeposit, EscrowPda(id), EscrowAta(id, e.token),
                       Wallet(e.taker, e.token), Key(e.taker), Key(executor));
    }
  }

  /** A live escrow's withdrawals succeed exactly in their windows, with the secret, and when
      the taker's token account exists, the public one only for a resolver: they never lack
      funds. */
  lemma WithdrawSucceeds(
    h: Hasher, c: Chain, s: State, rescued: set<Address>, id: EscrowId, payer: Bytes32, secret: Bytes32)
    requires Solvent(c, s, rescued) && EscrowPda(id) !in rescued
    ensures Withdraw(h, c, s, id, secret).Ok? <==>
      && id in s.escrows && Wallet(s.escrows[id].taker, s.escrows[id].token) in s.balances.tokens
      && CanWithdraw(h, s.escrows[id], s.now, SrcWithdrawal, secret)
    ensures PublicWithdraw(h, c, s, payer, id, secret).Ok? <==>
      && payer in s.resolvers
      && id in s.escrows && Wallet(s.escrows[id].taker, s.escrows[id].token) in s.balances.tokens
      && CanWithdraw(h, s.escrows[id], s.now, SrcPublicWithdrawal, secret)
  {
    WithdrawFromSucceeds(h, c, s, rescued, id, id.creator, SrcWithdrawal, secret);
    WithdrawFromSucceeds(h, c, s, rescued, id, payer, SrcPublicWithdrawal, secret);
  }

  lemma RefundSucceeds(c: Chain, b: Balances, id: EscrowId, e: EscrowSrc, executor: Bytes32, given: bool)
    requires Backed(c, b) && EscrowTerms(c, id, e) && EscrowFunded(c, b, id, e)
    requires GivenIsOpen(b, given, Wallet(e.maker, e.token))
    ensures RefundMaker(c, b, id, e, executor, given).Ok? <==> e.assetIsNative || given
  {
    var pda, ata := EscrowPda(id), EscrowAta(id, e.token);
    if e.assetIsNative {
      NativePayoutSplit(c, b, e.amount, e.safetyDeposit, pda, ata, Key(e.maker), Key(e.taker), Key(executor));
    } else if given {
      TokenPayoutSplit(c, b, e.safetyDeposit, pda, ata, Wallet(e.maker, e.token), Key(e.taker), Key(executor));
    }
  }

  /** The stage has started, and the maker's token account is given and open unless the
      asset is native. */
  predicate CanRefund(s: State, id: EscrowId, stage: Stage, given: bool) {
    && id in s.escrows
    && GivenIsOpen(s.balances, given, Wallet(s.escrows[id].maker, s.escrows[id].token))
    && (s.escrows[id].assetIsNative || given)
    && StartedBy(s.escrows[id].timelocks, stage, s.now)
  }

  lemma CancelFromSucceeds(
    c: Chain, s: State, rescued: set<Address>, id: EscrowId, executor: Bytes32, stage: Stage, given: bool)
    requires Solvent(c, s, rescued) && EscrowPda(id) !in rescued
    ensures CancelFrom(c, s, id, executor, stage, given).Ok? <==> CanRefund(s, id, stage, given)
  {
    if id in s.escrows {
      var e := s.escrows[id];
      assert EscrowTerms(c, id, e) && EscrowFunded(c, s.balances, id, e);
      if GivenIsOpen(s.balances, given, Wallet(e.maker, e.token)) {
        RefundSucceeds(c, s.balances, id, e, executor, given);
      }
    }
  }

  /** A live escrow's cancellations succeed exactly from their stages on, given the maker's
      token account unless the asset is native, the public one only for a resolver: they
      never lack funds. */
  lemma CancelSucceeds(c: Chain, s: State, rescued: set<Address>, id: EscrowId, payer: Bytes32, given: bool)
    requires Solvent(c, s, rescued) && EscrowPda(id) !in rescued
    ensures CancelEscrow(c, s, id, given).Ok? <==> CanRefund(s, id, SrcCancellation, given)
    ensures PublicCancelEscrow(c, s, payer, id, given).Ok? <==>
      payer in s.resolvers && CanRefund(s, id, SrcPublicCancellation, given)
  {
    CancelFromSucceeds(c, s, rescued, id, id.creator, SrcCancellation, given);
    CancelFromSucceeds(c, s, rescued, id, payer, SrcPublicCancellation, given);
  }

  /** The maker can cancel an open order at any time, given the right accounts. */
  lemma CancelOrderSucceeds(c: Chain, s: State, rescued: set<Address>, orderHash: Bytes32, given: bool)
    requires Solvent(c, s, rescued) && OrderPda(orderHash) !in rescued
    ensures CancelOrder(c, s, orderHash, given).Ok? <==>
      && orderHash in s.orders
      && GivenIsOpen(s.balances, given, Wallet(s.orders[orderHash].creator, s.orders[orderHash].token))
      && s.orders[orderHash].assetIsNative == !given
  {
    if orderHash in s.orders {
      assert OrderTerms(c, orderHash, s.orders[orderHash])
        && OrderFunded(c, s.balances, orderHash, s.orders[orderHash]);
    }
  }

  /** Once its tokens are taken, a fill is always recorded. */
  lemma RecordSucceeds(c: Chain, s: State, orderHash: Bytes32, amount: u64, id: EscrowId, e: EscrowSrc)
    requires orderHash in s.orders && FillAmountAllowed(s.orders[orderHash], amount)
    requires var o := s.orders[orderHash];
             var ata := OrderAta(orderHash, o.token);
      && ata in s.balances.tokens
      && (Closes(o, amount) ==> s.balances.tokens[ata] == 0)
    ensures RecordFill(c, s, orderHash, amount, id, e).Ok?
  {
  }

  /** What a fill must present: an order that has not expired and the auction it committed
      to; and, of an order open to several fills, the secret that the amount calls for, of
      any other all of it at once. */
  predicate MayFill(h: Hasher, o: Order, now: u32, amount: u64, proof: Option<MerkleProof>, data: AuctionData) {
    && now < o.expirationTime && h(EncodeAuction(data)) == o.dutchAuctionDataHash
    && if o.allowMultipleFills then
         && proof.Some? && Verifies(h, o.hashlock, proof.value)
         && Accepts(o.amount, PartsAmount(o.hashlock), o.remainingAmount, Fill(amount, proof.value.index))
       else proof.None? && amount == o.amount
  }

  /** The checks of a fill accept exactly that, and their result is the hashlock of the
      secret presented, or the order's own. */
  lemma CheckFillAccepts(h: Hasher, o: Order, now: u32, amount: u64, proof: Option<MerkleProof>, data: AuctionData)
    ensures var r := CheckFill(h, o, now, amount, proof, data);
      && (r.Ok? <==> MayFill(h, o, now, amount, proof, data))
      && (r.Ok? ==> r.value == if proof.Some? then proof.value.hashedSecret else o.hashlock)
  {
  }

  /** With what the others are refused: an amount out of range, and else an order that has
      expired, and else another auction, and else a proof that is missing or too many, and
      else a proof that does not fold to the root. */
  lemma CheckFillRefuses(h: Hasher, o: Order, now: u32, amount: u64, proof: Option<MerkleProof>, data: AuctionData)
    ensures var r := CheckFill(h, o, now, amount, proof, data);
            var fits := if o.allowMultipleFills then amount <= o.remainingAmount else amount == o.amount;
            var same := h(EncodeAuction(data)) == o.dutchAuctionDataHash;
      && (r == Err(InvalidAmount) <==> !fits)
      && (r == Err(OrderHasExpired) <==> fits && o.expirationTime <= now)
      && (r == Err(DutchAuctionDataHashMismatch) <==> fits && now < o.expirationTime && !same)
      && (r == Err(InconsistentMerkleProofTrait) <==>
            fits && now < o.expirationTime && same && proof.Some? != o.allowMultipleFills)
      && (r == Err(InvalidMerkleProof) <==>
            && fits && now < o.expirationTime && same && proof.Some? && o.allowMultipleFills
            && !Verifies(h, o.hashlock, proof.value))
  {
  }

  /** With the escrow's accounts open, a fill of a funded order succeeds exactly when its
      checks pass and its destination amount fits. */
  lemma FillOrderSucceeds(
    h: Hasher, c: Chain, s: State, id: EscrowId, taker: Bytes32, orderHash: Bytes32, amount: u64,
    proof: Option<MerkleProof>, data: AuctionData)
    requires Backed(c, s.balances) && orderHash in s.orders
    requires OrderTerms(c, orderHash, s.orders[orderHash])
    requires OrderFunded(c, s.balances, orderHash, s.orders[orderHash])
    requires EscrowAta(id, s.orders[orderHash].token) in s.balances.tokens && s.orders[orderHash].amount > 0
    ensures var o := s.orders[orderHash];
      FillOrder(h, c, s, id, taker, orderHash, amount, proof, data).Ok? <==>
        && MayFill(h, o, s.now, amount, proof, data)
        && AmountFits(o.dstAmount, amount, o.amount, RateBump(s.now, data))
  {
    var o := s.orders[orderHash];
    CheckFillAccepts(h, o, s.now, amount, proof, data);
    DefinedExactly(o.dstAmount, amount, o.amount, s.now, data);
    var hashlock := CheckFill(h, o, s.now, amount, proof, data);
    var dst := EscrowDstAmount(o.dstAmount, amount, o.amount, s.now, data);
    if hashlock.Ok? {
      FillTakesSomething(h, c, orderHash, o, s.now, amount, proof, data);
      TakeEffect(c, s.balances, o, orderHash, amount, id);
      var taken := TakeFromOrder(c, s.balances, o, orderHash, amount, EscrowAta(id, o.token)).value;
      if dst.Ok? {
        RecordSucceeds(c, s.(balances := taken), orderHash, amount, id,
                       NewEscrow(o, hashlock.value, taker, amount, dst.value, s.now));
      }
    }
  }

  /** A fill's tokens are always there: it succeeds exactly when its signer is a resolver
      who can pay for a new escrow's accounts, its checks pass, and the destination amount
      fits its width. */
  lemma FillSucceeds(
    h: Hasher, c: Chain, s: State, rescued: set<Address>, taker: Bytes32, orderHash: Bytes32, amount: u64,
    proof: Option<MerkleProof>, data: AuctionData)
    requires Solvent(c, s, rescued) && OrderPda(orderHash) !in rescued
    ensures CreateEscrow(h, c, s, taker, orderHash, amount, proof, data).Ok? <==>
      && taker in s.resolvers
      && orderHash in s.orders
      && var o := s.orders[orderHash];
         var hashlock := if proof.Some? then proof.value.hashedSecret else o.hashlock;
         var id := EscrowId(orderHash, hashlock, taker, amount);
      && id !in s.escrows
      && Dues(c, s.balances, EscrowPda(id), c.escrowRent, EscrowAta(id, o.token)) <= s.balances.Lamports(Key(taker))
      && MayFill(h, o, s.now, amount, proof, data)
      && o.amount > 0 && AmountFits(o.dstAmount, amount, o.amount, RateBump(s.now, data))
  {
    if orderHash in s.orders {
      var o := s.orders[orderHash];
      var id := FillId(o, orderHash, taker, amount, proof);
      assert OrderTerms(c, orderHash, o) && OrderFunded(c, s.balances, orderHash, o);
      OpeningIsCharged(c, s.balances, Key(taker), EscrowPda(id), c.escrowRent, EscrowAta(id, o.token));
      var prepared := OpenEscrowAccounts(c, s.balances, taker, id, o.token);
      if prepared.Ok? {
        OpeningKeeps(c, s.balances, taker, EscrowPda(id), c.escrowRent, EscrowAta(id, o.token));
        assert NotBelow(s.balances, prepared.value, OrderAta(orderHash, o.token));
        FillOrderSucceeds(h, c, s.(balances := prepared.value), id, taker, orderHash, amount, proof, data);
      }
    }
  }
}
