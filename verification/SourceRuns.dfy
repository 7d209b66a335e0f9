/** Runs of the source program from an empty state: any sequence of instructions, clock
    ticks and outside interference, in which a failed instruction changes nothing. */
module SourceRuns {
  import opened Wrappers
  import opened Bits
  import opened Numerals
  import opened Merkle
  import opened DstAmount
  import opened Encoding
  import opened Accounts
  import opened Auction
  import opened Timelocks
  import opened SourceSpec
  import opened SourceInvariant
  import opened Sequences

  predicate Genesis(s: State) {
    s.orders == map[] && s.escrows == map[]
  }

  ghost function Run(h: Hasher, c: Chain, s: State, ixs: seq<Instruction>): State {
    if ixs == [] then s else Next(h, c, Run(h, c, s, Front(ixs)), Last(ixs))
  }

  /** What has been rescued: the orders and escrows that a run's rescues took a live asset
      from, and the escrows filled from such orders since. */
  ghost function RescuedBy(h: Hasher, c: Chain, s: State, ixs: seq<Instruction>): set<Address> {
    if ixs == [] then {}
    else
      var before, rescued := Run(h, c, s, Front(ixs)), RescuedBy(h, c, s, Front(ixs));
      if Apply(h, c, before, Last(ixs)).Ok? then RescuedAfter(h, before, rescued, Last(ixs)) else rescued
  }

  lemma RunOfMore(h: Hasher, c: Chain, s: State, ixs: seq<Instruction>, ix: Instruction)
    ensures Run(h, c, s, ixs + [ix]) == Next(h, c, Run(h, c, s, ixs), ix)
    ensures RescuedBy(h, c, s, ixs + [ix])
         == var before, rescued := Run(h, c, s, ixs), RescuedBy(h, c, s, ixs);
            if Apply(h, c, before, ix).Ok? then RescuedAfter(h, before, rescued, ix) else rescued
  {
    assert Front(ixs + [ix]) == ixs;
  }

  lemma RunOfOne(h: Hasher, c: Chain, s: State, ix: Instruction)
    ensures Run(h, c, s, [ix]) == Next(h, c, s, ix)
    ensures RescuedBy(h, c, s, [ix]) == if Apply(h, c, s, ix).Ok? then RescuedAfter(h, s, {}, ix) else {}
  {
    RunOfMore(h, c, s, [], ix);
    assert [] + [ix] == [ix];
  }

  /** Solvency in every reachable state: whatever the instructions, their order and the
      donations, every order and escrow that was not rescued is funded. */
  lemma {:induction false} RunsStaySolvent(h: Hasher, c: Chain, s: State, ixs: seq<Instruction>)
    requires Genesis(s) && Backed(c, s.balances)
    ensures Solvent(c, Run(h, c, s, ixs), RescuedBy(h, c, s, ixs))
  {
    if ixs != [] {
      var before, rescued := Run(h, c, s, Front(ixs)), RescuedBy(h, c, s, Front(ixs));
      RunsStaySolvent(h, c, s, Front(ixs));
      if Apply(h, c, before, Last(ixs)).Ok? {
        StepKeepsSolvency(h, c, before, rescued, Last(ixs));
      }
    }
  }

  /** An escrow goes, and only it. */
  predicate Leaves(s: State, s': State, id: EscrowId) {
    id in s.escrows && s'.escrows == s.escrows - {id} && s'.orders == s.orders && s'.now == s.now
  }

  predicate OrderLeaves(s: State, s': State, k: Bytes32) {
    k in s.orders && s'.orders == s.orders - {k} && s'.escrows == s.escrows && s'.now == s.now
  }

  /** The token account is not open and holds no more than its rent. */
  predicate IsFresh(c: Chain, b: Balances, ata: Address) {
    ata !in b.tokens && b.Lamports(ata) <= c.tokenRent
  }

  predicate OrderCreated(h: Hasher, c: Chain, s: State, s': State, p: OrderParams) {
    var k := OrderHash(h, p);
    && k !in s.orders && s'.escrows == s.escrows && s'.now == s.now
    && s.now < p.expirationTime && p.amount > 0 && (p.allowMultipleFills ==> PartsAmount(p.hashlock) > 1)
    && (IsFresh(c, s.balances, OrderAta(k, p.token)) ==> p.maxCancellationPremium <= c.tokenRent)
    && k in s'.orders && s'.orders == s.orders[k := s'.orders[k]] && Carries(s'.orders[k], p, k, s.now)
  }

  /** A new order carries every parameter it was hashed from but the salt, all of it still
      unfilled and its windows counted from now. */
  predicate Carries(o: Order, p: OrderParams, k: Bytes32, now: u32) {
    && o.orderHash == k && o.hashlock == p.hashlock && o.creator == p.maker && o.token == p.token
    && o.amount == p.amount && o.remainingAmount == p.amount && o.safetyDeposit == p.safetyDeposit
    && Restarted(o.timelocks, p.timelocks, now)
    && o.expirationTime == p.expirationTime && o.assetIsNative == p.assetIsNative && o.dstAmount == p.dstAmount
    && o.dutchAuctionDataHash == p.dutchAuctionDataHash && o.maxCancellationPremium == p.maxCancellationPremium
    && o.cancellationAuctionDuration == p.cancellationAuctionDuration && o.allowMultipleFills == p.allowMultipleFills
  }

  predicate OrderFilled(
    h: Hasher, s: State, s': State, taker: Bytes32, k: Bytes32, amount: u64, proof: Option<MerkleProof>,
    data: AuctionData)
  {
    && k in s.orders && s'.now == s.now
    && var o := s.orders[k];
       var id := FillId(o, k, taker, amount, proof);
       var hashlock, dst := CheckFill(h, o, s.now, amount, proof, data),
         EscrowDstAmount(o.dstAmount, amount, o.amount, s.now, data);
    && id !in s.escrows && hashlock.Ok? && dst.Ok?
    && s'.escrows == s.escrows[id := NewEscrow(o, hashlock.value, taker, amount, dst.value, s.now)]
    && FillAmountAllowed(o, amount)
    && s'.orders == if Closes(o, amount) then s.orders - {k}
                    else s.orders[k := o.(remainingAmount := o.remainingAmount - amount)]
  }

  lemma NewOrderCarries(p: OrderParams, k: Bytes32, now: u32)
    ensures Carries(NewOrder(p, k, now), p, k, now)
  {
  }

  lemma CreateMoves(h: Hasher, c: Chain, s: State, p: OrderParams, given: bool)
    requires Create(h, c, s, p, given).Ok?
    ensures OrderCreated(h, c, s, Create(h, c, s, p, given).value, p)
  {
    CreateSteps(h, c, s, p, OrderHash(h, p), given);
    NewOrderIsSound(c, s.now, p);
    PremiumWithinRent(h, c, s, p, given);
    NewOrderCarries(p, OrderHash(h, p), s.now);
  }

  /** The premium of an order whose token account is new cannot exceed the account's rent. */
  lemma PremiumWithinRent(h: Hasher, c: Chain, s: State, p: OrderParams, given: bool)
    requires Create(h, c, s, p, given).Ok?
    ensures IsFresh(c, s.balances, OrderAta(OrderHash(h, p), p.token)) ==> p.maxCancellationPremium <= c.tokenRent
  {
    FreshAccountHoldsRent(c, s.balances, p.maker, OrderHash(h, p), p.token);
  }

  /** A token account opened for an order holds its rent and nothing else. */
  lemma FreshAccountHoldsRent(c: Chain, b: Balances, creator: Bytes32, k: Bytes32, token: Bytes32)
    ensures var r := OpenOrderAccounts(c, b, creator, k, token);
      IsFresh(c, b, OrderAta(k, token)) && r.Ok? ==> r.value.Lamports(OrderAta(k, token)) == c.tokenRent
  {
    OpeningIsCharged(c, b, Key(creator), OrderPda(k), c.orderRent, OrderAta(k, token));
  }

  lemma FillMoves(
    h: Hasher, c: Chain, s: State, taker: Bytes32, k: Bytes32, amount: u64, proof: Option<MerkleProof>,
    data: AuctionData)
    requires CreateEscrow(h, c, s, taker, k, amount, proof, data).Ok?
    ensures OrderFilled(h, s, CreateEscrow(h, c, s, taker, k, amount, proof, data).value, taker, k, amount, proof, data)
  {
    var o := s.orders[k];
    var id := FillId(o, k, taker, amount, proof);
    var prepared := OpenEscrowAccounts(c, s.balances, taker, id, o.token).value;
    FillOrderMoves(h, c, s.(balances := prepared), id, taker, k, amount, proof, data);
  }

  lemma FillOrderMoves(
    h: Hasher, c: Chain, s: State, id: EscrowId, taker: Bytes32, k: Bytes32, amount: u64,
    proof: Option<MerkleProof>, data: AuctionData)
    requires k in s.orders && FillOrder(h, c, s, id, taker, k, amount, proof, data).Ok?
    ensures var s' := FillOrder(h, c, s, id, taker, k, amount, proof, data).value;
            var o := s.orders[k];
            var hashlock := CheckFill(h, o, s.now, amount, proof, data);
            var dst := EscrowDstAmount(o.dstAmount, amount, o.amount, s.now, data);
      && hashlock.Ok? && dst.Ok? && FillAmountAllowed(o, amount) && s'.now == s.now
      && s'.escrows == s.escrows[id := NewEscrow(o, hashlock.value, taker, amount, dst.value, s.now)]
      && s'.orders == if Closes(o, amount) then s.orders - {k}
                      else s.orders[k := o.(remainingAmount := o.remainingAmount - amount)]
  {
    var o := s.orders[k];
    var hashlock := CheckFill(h, o, s.now, amount, proof, data).value;
    var taken := TakeFromOrder(c, s.balances, o, k, amount, EscrowAta(id, o.token)).value;
    var dst := EscrowDstAmount(o.dstAmount, amount, o.amount, s.now, data).value;
    RecordMoves(c, s.(balances := taken), k, amount, id, NewEscrow(o, hashlock, taker, amount, dst, s.now));
  }

  lemma RecordMoves(c: Chain, s: State, k: Bytes32, amount: u64, id: EscrowId, e: EscrowSrc)
    requires k in s.orders && FillAmountAllowed(s.orders[k], amount) && RecordFill(c, s, k, amount, id, e).Ok?
    ensures var s' := RecordFill(c, s, k, amount, id, e).value;
            var o := s.orders[k];
      && s'.now == s.now && s'.escrows == s.escrows[id := e]
      && s'.orders == if Closes(o, amount) then s.orders - {k}
                      else s.orders[k := o.(remainingAmount := o.remainingAmount - amount)]
  {
  }

  lemma WithdrawMoves(h: Hasher, c: Chain, s: State, id: EscrowId, executor: Bytes32, stage: Stage, secret: Bytes32)
    requires WithdrawFrom(h, c, s, id, executor, stage, secret).Ok?
    ensures Leaves(s, WithdrawFrom(h, c, s, id, executor, stage, secret).value, id)
    ensures WithdrawGate(h, s.escrows[id], s.now, stage, secret).Ok?
  {
  }

  lemma CancelMoves(c: Chain, s: State, id: EscrowId, executor: Bytes32, stage: Stage, given: bool)
    requires CancelFrom(c, s, id, executor, stage, given).Ok?
    ensures Leaves(s, CancelFrom(c, s, id, executor, stage, given).value, id)
    ensures After(s.escrows[id].timelocks, s.now, stage).Ok?
  {
  }

  lemma CancelOrderMoves(c: Chain, s: State, k: Bytes32, given: bool)
    requires CancelOrder(c, s, k, given).Ok?
    ensures OrderLeaves(s, CancelOrder(c, s, k, given).value, k)
  {
  }

  lemma CancelByResolverMoves(c: Chain, s: State, resolver: Bytes32, k: Bytes32, rewardLimit: u64, given: bool)
    requires CancelOrderByResolver(c, s, resolver, k, rewardLimit, given).Ok?
    ensures OrderLeaves(s, CancelOrderByResolver(c, s, resolver, k, rewardLimit, given).value, k)
  {
  }

  lemma EscrowRescueMoves(c: Chain, s: State, id: EscrowId, mint: Bytes32, amount: u64)
    requires RescueFundsForEscrow(c, s, id, mint, amount).Ok?
    ensures var s' := RescueFundsForEscrow(c, s, id, mint, amount).value;
      s'.now == s.now && s'.orders == s.orders && s'.escrows == s.escrows
  {
  }

  lemma OrderRescueMoves(
    h: Hasher, c: Chain, s: State, resolver: Bytes32, p: OrderParams, mint: Bytes32, amount: u64)
    requires RescueFundsForOrder(h, c, s, resolver, p, mint, amount).Ok?
    ensures var s' := RescueFundsForOrder(h, c, s, resolver, p, mint, amount).value;
      resolver in s.resolvers && s'.now == s.now && s'.orders == s.orders && s'.escrows == s.escrows
  {
  }

  /** Who signed a step, what it does to the stored orders and escrows, and the clock. */
  ghost predicate StoresMove(h: Hasher, c: Chain, s: State, s': State, ix: Instruction) {
    match ix
    case ICreate(p, _) => OrderCreated(h, c, s, s', p)
    case ICreateEscrow(taker, k, amount, proof, data) =>
      taker in s.resolvers && OrderFilled(h, s, s', taker, k, amount, proof, data)
    case IWithdraw(id, secret) => Leaves(s, s', id) && WithdrawGate(h, s.escrows[id], s.now, SrcWithdrawal, secret).Ok?
    case IPublicWithdraw(payer, id, secret) =>
      && payer in s.resolvers && Leaves(s, s', id)
      && WithdrawGate(h, s.escrows[id], s.now, SrcPublicWithdrawal, secret).Ok?
    case ICancelEscrow(id, _) => Leaves(s, s', id) && After(s.escrows[id].timelocks, s.now, SrcCancellation).Ok?
    case IPublicCancelEscrow(payer, id, _) =>
      && payer in s.resolvers && Leaves(s, s', id)
      && After(s.escrows[id].timelocks, s.now, SrcPublicCancellation).Ok?
    case ICancelOrder(k, _) => OrderLeaves(s, s', k)
    case ICancelOrderByResolver(resolver, k, _, _) => resolver in s.resolvers && OrderLeaves(s, s', k)
    case Tick(time) => s'.now == time >= s.now && s'.orders == s.orders && s'.escrows == s.escrows
    case IRescueForOrder(resolver, _, _, _) =>
      resolver in s.resolvers && s'.now == s.now && s'.orders == s.orders && s'.escrows == s.escrows
    case _ => s'.now == s.now && s'.orders == s.orders && s'.escrows == s.escrows
  }

  lemma EscrowStepMovesStores(h: Hasher, c: Chain, s: State, ix: Instruction)
    requires Apply(h, c, s, ix).Ok?
    requires ix.IWithdraw? || ix.IPublicWithdraw? || ix.ICancelEscrow? || ix.IPublicCancelEscrow?
    ensures StoresMove(h, c, s, Apply(h, c, s, ix).value, ix)
  {
    match ix
    case IWithdraw(id, secret) => WithdrawMoves(h, c, s, id, id.creator, SrcWithdrawal, secret);
    case IPublicWithdraw(payer, id, secret) => WithdrawMoves(h, c, s, id, payer, SrcPublicWithdrawal, secret);
    case ICancelEscrow(id, given) => CancelMoves(c, s, id, id.creator, SrcCancellation, given);
    case IPublicCancelEscrow(payer, id, given) => CancelMoves(c, s, id, payer, SrcPublicCancellation, given);
  }

  lemma OrderStepMovesStores(h: Hasher, c: Chain, s: State, ix: Instruction)
    requires Apply(h, c, s, ix).Ok?
    requires ix.ICreate? || ix.ICreateEscrow? || ix.ICancelOrder? || ix.ICancelOrderByResolver?
    ensures StoresMove(h, c, s, Apply(h, c, s, ix).value, ix)
  {
    match ix
    case ICreate(p, given) => CreateMoves(h, c, s, p, given);
    case ICreateEscrow(taker, k, amount, proof, data) => FillMoves(h, c, s, taker, k, amount, proof, data);
    case ICancelOrder(k, given) => CancelOrderMoves(c, s, k, given);
    case ICancelOrderByResolver(resolver, k, limit, given) => CancelByResolverMoves(c, s, resolver, k, limit, given);
  }

  lemma OtherStepMovesStores(h: Hasher, c: Chain, s: State, ix: Instruction)
    requires Apply(h, c, s, ix).Ok?
    requires ix.IRescueForEscrow? || ix.IRescueForOrder? || ix.World? || ix.Tick?
    ensures StoresMove(h, c, s, Apply(h, c, s, ix).value, ix)
  {
    match ix
    case IRescueForEscrow(id, mint, amount) => EscrowRescueMoves(c, s, id, mint, amount);
    case IRescueForOrder(resolver, p, mint, amount) => OrderRescueMoves(h, c, s, resolver, p, mint, amount);
    case _ =>
  }

  lemma StepMovesStores(h: Hasher, c: Chain, s: State, ix: Instruction)
    requires Apply(h, c, s, ix).Ok?
    ensures StoresMove(h, c, s, Apply(h, c, s, ix).value, ix)
  {
    if ix.IWithdraw? || ix.IPublicWithdraw? || ix.ICancelEscrow? || ix.IPublicCancelEscrow? {
      EscrowStepMovesStores(h, c, s, ix);
    } else if ix.ICreate? || ix.ICreateEscrow? || ix.ICancelOrder? || ix.ICancelOrderByResolver? {
      OrderStepMovesStores(h, c, s, ix);
    } else {
      OtherStepMovesStores(h, c, s, ix);
    }
  }

  // ----- Conservation -----

  /** A run without outside interference makes and loses no lamport and no token. */
  lemma {:induction false} RunsConserve(h: Hasher, c: Chain, s: State, ixs: seq<Instruction>)
    requires Genesis(s) && Backed(c, s.balances)
    requires forall i :: 0 <= i < |ixs| ==> !ixs[i].World?
    ensures Conserves(c, s.balances, Run(h, c, s, ixs).balances)
  {
    if ixs != [] {
      var before := Run(h, c, s, Front(ixs));
      RunsConserve(h, c, s, Front(ixs));
      if Apply(h, c, before, Last(ixs)).Ok? {
        RunsStaySolvent(h, c, s, Front(ixs));
        StepKeepsSolvency(h, c, before, RescuedBy(h, c, s, Front(ixs)), Last(ixs));
      }
    }
  }

  // ----- Rescue comes late -----

  /** A rescued order that is live has outlived its delay. */
  ghost predicate OrdersRescuedLate(s: State, rescued: set<Address>) {
    forall k :: k in s.orders && OrderPda(k) in rescued ==> DeployedAt(s.orders[k].timelocks) + RESCUE_DELAY <= s.now
  }

  /** Only creation adds an order, and nothing else touches an order's windows. */
  lemma OrdersKeepWindows(h: Hasher, c: Chain, s: State, s': State, ix: Instruction)
    requires StoresMove(h, c, s, s', ix)
    ensures s.now <= s'.now
    ensures forall k :: k in s'.orders && !(ix.ICreate? && k == OrderHash(h, ix.params)) ==>
              k in s.orders && s'.orders[k].timelocks == s.orders[k].timelocks
  {
  }

  /** Creation clears an order's address, and only a rescue adds it. */
  lemma OnlyRescueAdds(h: Hasher, s: State, rescued: set<Address>, ix: Instruction, k: Bytes32)
    requires OrderPda(k) in RescuedAfter(h, s, rescued, ix)
    ensures !(ix.ICreate? && k == OrderHash(h, ix.params))
    ensures OrderPda(k) in rescued || OrderPda(k) in Takes(h, s, ix)
  {
  }

  lemma StepRescuesOrdersLate(h: Hasher, c: Chain, s: State, s': State, rescued: set<Address>, ix: Instruction)
    requires Apply(h, c, s, ix) == Ok(s') && StoresMove(h, c, s, s', ix) && OrdersRescuedLate(s, rescued)
    ensures OrdersRescuedLate(s', RescuedAfter(h, s, rescued, ix))
  {
    RescueWaits(h, c, s, ix);
    OrdersKeepWindows(h, c, s, s', ix);
    forall k | k in s'.orders && OrderPda(k) in RescuedAfter(h, s, rescued, ix)
      ensures DeployedAt(s'.orders[k].timelocks) + RESCUE_DELAY <= s'.now
    {
      OnlyRescueAdds(h, s, rescued, ix, k);
    }
  }

  lemma {:induction false} RunsRescueOrdersLate(h: Hasher, c: Chain, s: State, ixs: seq<Instruction>)
    requires Genesis(s)
    ensures OrdersRescuedLate(Run(h, c, s, ixs), RescuedBy(h, c, s, ixs))
  {
    if ixs != [] {
      var before, rescued := Run(h, c, s, Front(ixs)), RescuedBy(h, c, s, Front(ixs));
      RunsRescueOrdersLate(h, c, s, Front(ixs));
      if Apply(h, c, before, Last(ixs)).Ok? {
        StepMovesStores(h, c, before, Last(ixs));
        StepRescuesOrdersLate(h, c, before, Run(h, c, s, ixs), rescued, Last(ixs));
      }
    }
  }

  /** An order is funded, over every run and with no assumption on it, until the rescue
      delay since its creation has passed. */
  lemma YoungOrdersAreFunded(h: Hasher, c: Chain, s: State, ixs: seq<Instruction>, k: Bytes32)
    requires Genesis(s) && Backed(c, s.balances) && k in Run(h, c, s, ixs).orders
    requires Run(h, c, s, ixs).now < DeployedAt(Run(h, c, s, ixs).orders[k].timelocks) + RESCUE_DELAY
    ensures OrderPda(k) !in RescuedBy(h, c, s, ixs)
    ensures OrderFunded(c, Run(h, c, s, ixs).balances, k, Run(h, c, s, ixs).orders[k])
  {
    RunsStaySolvent(h, c, s, ixs);
    RunsRescueOrdersLate(h, c, s, ixs);
  }
}
