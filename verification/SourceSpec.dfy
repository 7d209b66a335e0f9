/** The source program's state and what each of its instructions makes of it. */
module SourceSpec {
  import opened Wrappers
  import opened Bits
  import opened Numerals
  import opened Timelocks
  import opened Auction
  import opened Merkle
  import opened PartialFill
  import opened DstAmount
  import opened Encoding
  import opened Accounts
  import opened Payouts

  datatype Order = Order(
    orderHash: Bytes32,
    hashlock: Bytes32,
    creator: Bytes32,
    token: Bytes32,
    amount: u64,
    remainingAmount: u64,
    safetyDeposit: u64,
    timelocks: Fields,
    expirationTime: u32,
    assetIsNative: bool,
    dstAmount: u256,
    dutchAuctionDataHash: Bytes32,
    maxCancellationPremium: u64,
    cancellationAuctionDuration: u32,
    allowMultipleFills: bool)

  datatype EscrowSrc = EscrowSrc(
    orderHash: Bytes32,
    hashlock: Bytes32,
    maker: Bytes32,
    taker: Bytes32,
    token: Bytes32,
    amount: u64,
    safetyDeposit: u64,
    timelocks: Fields,
    assetIsNative: bool,
    dstAmount: u256)

  datatype State = State(
    balances: Balances,
    orders: map<Bytes32, Order>,
    escrows: map<EscrowId, EscrowSrc>,
    resolvers: set<Bytes32>,
    now: u32)

  // ----- Orders -----

  /** What `create` has done to the balances before its own checks begin. */
  function OpenOrderAccounts(c: Chain, b: Balances, creator: Bytes32, orderHash: Bytes32, token: Bytes32)
    : Result<Balances>
  {
    var funded :- FundRent(b, Key(creator), OrderPda(orderHash), c.orderRent);
    OpenTokenAccount(c, funded, Key(creator), OrderAta(orderHash, token))
  }

  /** Moves the offered amount from the creator into the order's token account. */
  function Deposit(c: Chain, b: Balances, p: OrderParams, ata: Address, given: bool): Result<Balances> {
    if p.assetIsNative then
      var sent :- NativeTransfer(b, Key(p.maker), ata, p.amount);
      SyncNative(c, sent, ata)
    else if !given then Err(MissingCreatorAta)
    else TokenTransfer(c, b, Wallet(p.maker, p.token), ata, p.amount)
  }

  function NewOrder(p: OrderParams, orderHash: Bytes32, now: u32): Order {
    Order(orderHash, p.hashlock, p.maker, p.token, p.amount, p.amount, p.safetyDeposit,
          Redeploy(p.timelocks, now), p.expirationTime, p.assetIsNative, p.dstAmount,
          p.dutchAuctionDataHash, p.maxCancellationPremium, p.cancellationAuctionDuration,
          p.allowMultipleFills)
  }

  /** What an order must satisfy by itself. */
  function CheckNewOrder(c: Chain, now: u32, p: OrderParams): Result<()> {
    if p.allowMultipleFills && PartsAmount(p.hashlock) <= 1 then Err(InvalidPartsAmount)
    else
      :- Require(now < p.expirationTime, OrderHasExpired);
      :- Require(p.amount != 0 && p.safetyDeposit != 0, ZeroAmountOrDeposit);
      :- Require(p.safetyDeposit <= c.escrowRent, SafetyDepositTooLarge);
      :- Require(p.token == c.nativeMint || !p.assetIsNative, InconsistentNativeTrait);
      Ok(())
  }

  function Create(h: Hasher, c: Chain, s: State, p: OrderParams, given: bool): Result<State> {
    var orderHash := OrderHash(h, p);
    var ata := OrderAta(orderHash, p.token);
    :- Require(GivenIsOpen(s.balances, given, Wallet(p.maker, p.token)), AccountNotInitialized);
    :- Require(orderHash !in s.orders, AccountAlreadyInUse);
    var prepared :- OpenOrderAccounts(c, s.balances, p.maker, orderHash, p.token);
    :- Require(prepared.Lamports(ata) >= p.maxCancellationPremium, InvalidCancellationFee);
    var _ :- CheckNewOrder(c, s.now, p);
    var deposited :- Deposit(c, prepared, p, ata, given);
    Ok(s.(balances := deposited, orders := s.orders[orderHash := NewOrder(p, orderHash, s.now)]))
  }

  // ----- Fills -----

  function GetEscrowHashlock(orderHashlock: Bytes32, proof: Option<MerkleProof>): Bytes32 {
    if proof.Some? then proof.value.hashedSecret else orderHashlock
  }

  /** The hashlock a fill commits its escrow to, after checking the fill's secret. */
  function FillHashlock(h: Hasher, o: Order, amount: u64, proof: Option<MerkleProof>): Result<Bytes32> {
    if proof.None? then Ok(o.hashlock)
    else
      :- Require(Verifies(h, o.hashlock, proof.value), InvalidMerkleProof);
      var valid :- IsValidPartialFill(amount, o.remainingAmount, o.amount, PartsAmount(o.hashlock), proof.value.index);
      :- Require(valid, InvalidPartialFill);
      Ok(proof.value.hashedSecret)
  }

  function FillId(o: Order, orderHash: Bytes32, taker: Bytes32, amount: u64, proof: Option<MerkleProof>): EscrowId {
    EscrowId(orderHash, GetEscrowHashlock(o.hashlock, proof), taker, amount)
  }

  predicate FillAmountAllowed(o: Order, amount: u64) {
    if o.allowMultipleFills then amount <= o.remainingAmount else amount == o.amount
  }

  /** The fill closes the order: a single fill always does. */
  predicate Closes(o: Order, amount: u64) {
    !o.allowMultipleFills || o.remainingAmount == amount
  }

  function OpenEscrowAccounts(c: Chain, b: Balances, taker: Bytes32, id: EscrowId, token: Bytes32): Result<Balances> {
    var funded :- FundRent(b, Key(taker), EscrowPda(id), c.escrowRent);
    OpenTokenAccount(c, funded, Key(taker), EscrowAta(id, token))
  }

  function NewEscrow(o: Order, hashlock: Bytes32, taker: Bytes32, amount: u64, dstAmount: u256, now: u32): EscrowSrc {
    EscrowSrc(o.orderHash, hashlock, o.creator, taker, o.token, amount, o.safetyDeposit,
              Redeploy(o.timelocks, now), o.assetIsNative, dstAmount)
  }

  /** The tokens and, on closing, the rent that a fill takes out of the order. */
  function TakeFromOrder(c: Chain, b: Balances, o: Order, orderHash: Bytes32, amount: u64, to: Address)
    : Result<Balances>
  {
    var ata := OrderAta(orderHash, o.token);
    var taken := if o.remainingAmount == amount then TokensIn(b, ata) else amount;
    TokenTransfer(c, b, ata, to, taken)
  }

  function CloseOrder(c: Chain, b: Balances, o: Order, orderHash: Bytes32): Result<Balances> {
    var closed :- CloseTokenAccount(c, b, OrderAta(orderHash, o.token), Key(o.creator));
    Ok(CloseAccount(closed, OrderPda(orderHash), Key(o.creator)))
  }

  /** The checks a fill must pass before anything moves; their result is its hashlock. */
  function CheckFill(
    h: Hasher, o: Order, now: u32, amount: u64, proof: Option<MerkleProof>, data: AuctionData): Result<Bytes32>
  {
    if !FillAmountAllowed(o, amount) then Err(InvalidAmount)
    else
      :- Require(now < o.expirationTime, OrderHasExpired);
      :- Require(h(EncodeAuction(data)) == o.dutchAuctionDataHash, DutchAuctionDataHashMismatch);
      :- Require(o.allowMultipleFills == proof.Some?, InconsistentMerkleProofTrait);
      FillHashlock(h, o, amount, proof)
  }

  /** Writes the new escrow and either closes the order or takes the fill off what remains. */
  function RecordFill(
    c: Chain, s: State, orderHash: Bytes32, amount: u64, id: EscrowId, e: EscrowSrc): Result<State>
    requires orderHash in s.orders && FillAmountAllowed(s.orders[orderHash], amount)
  {
    var o := s.orders[orderHash];
    var escrows := s.escrows[id := e];
    if Closes(o, amount) then
      var closed :- CloseOrder(c, s.balances, o, orderHash);
      Ok(s.(balances := closed, escrows := escrows, orders := s.orders - {orderHash}))
    else
      Ok(s.(escrows := escrows,
            orders := s.orders[orderHash := o.(remainingAmount := o.remainingAmount - amount)]))
  }

  /** The handler proper, once the escrow's accounts stand open. */
  function FillOrder(
    h: Hasher, c: Chain, s: State, id: EscrowId, taker: Bytes32, orderHash: Bytes32, amount: u64,
    proof: Option<MerkleProof>, data: AuctionData): Result<State>
    requires orderHash in s.orders
  {
    var o := s.orders[orderHash];
    var hashlock :- CheckFill(h, o, s.now, amount, proof, data);
    var taken :- TakeFromOrder(c, s.balances, o, orderHash, amount, EscrowAta(id, o.token));
    var dstAmount :- EscrowDstAmount(o.dstAmount, amount, o.amount, s.now, data);
    RecordFill(c, s.(balances := taken), orderHash, amount, id, NewEscrow(o, hashlock, taker, amount, dstAmount, s.now))
  }

  function CreateEscrow(
    h: Hasher, c: Chain, s: State, taker: Bytes32, orderHash: Bytes32, amount: u64,
    proof: Option<MerkleProof>, data: AuctionData): Result<State>
  {
    if taker !in s.resolvers then Err(NotAuthorised)
    else
      :- Require(orderHash in s.orders, AccountNotInitialized);
      var o := s.orders[orderHash];
      :- Require(OrderAta(orderHash, o.token) in s.balances.tokens, AccountNotInitialized);
      var id := FillId(o, orderHash, taker, amount, proof);
      :- Require(id !in s.escrows, AccountAlreadyInUse);
      var prepared :- OpenEscrowAccounts(c, s.balances, taker, id, o.token);
      FillOrder(h, c, s.(balances := prepared), id, taker, orderHash, amount, proof, data)
  }

  // ----- Escrows -----

  /** When and with what a withdrawal may happen. */
  function WithdrawGate(h: Hasher, e: EscrowSrc, now: u32, stage: Stage, secret: Bytes32): Result<()> {
    var _ :- After(e.timelocks, now, stage);
    var _ :- Before(e.timelocks, now, SrcCancellation);
    :- Require(h(secret) == e.hashlock, InvalidSecret);
    Ok(())
  }

  /** All tokens to the taker, the deposit to the executor, the rent to the taker. */
  function PayTaker(c: Chain, b: Balances, id: EscrowId, e: EscrowSrc, executor: Bytes32): Result<Balances> {
    var paid :- WithdrawAndCloseTokenAta(c, b, EscrowAta(id, e.token), Wallet(e.taker, e.token), Key(e.taker));
    PayDepositAndClose(paid, EscrowPda(id), e.safetyDeposit, Key(e.taker), Key(executor))
  }

  /** The asset back to the maker, the deposit to the executor, the rent to the taker. */
  function RefundMaker(c: Chain, b: Balances, id: EscrowId, e: EscrowSrc, executor: Bytes32, given: bool)
    : Result<Balances>
  {
    var paid :- ProcessPayout(c, b, e.assetIsNative, e.amount, EscrowPda(id), EscrowAta(id, e.token), Key(e.maker),
                              Optional(given, Wallet(e.maker, e.token)), Key(e.taker));
    PayDepositAndClose(paid, EscrowPda(id), e.safetyDeposit, Key(e.taker), Key(executor))
  }

  /** Withdrawal by or for the taker; `executor` earns the deposit. */
  function WithdrawFrom(
    h: Hasher, c: Chain, s: State, id: EscrowId, executor: Bytes32, stage: Stage, secret: Bytes32): Result<State>
  {
    if id !in s.escrows then Err(AccountNotInitialized)
    else
      var e := s.escrows[id];
      :- Require(EscrowAta(id, e.token) in s.balances.tokens && Wallet(e.taker, e.token) in s.balances.tokens,
                 AccountNotInitialized);
      var _ :- WithdrawGate(h, e, s.now, stage, secret);
      var paid :- PayTaker(c, s.balances, id, e, executor);
      Ok(s.(balances := paid, escrows := s.escrows - {id}))
  }

  /** Cancellation in favour of the maker; `executor` earns the deposit. */
  function CancelFrom(
    c: Chain, s: State, id: EscrowId, executor: Bytes32, stage: Stage, given: bool): Result<State>
  {
    if id !in s.escrows then Err(AccountNotInitialized)
    else
      var e := s.escrows[id];
      :- Require(EscrowAta(id, e.token) in s.balances.tokens
              && GivenIsOpen(s.balances, given, Wallet(e.maker, e.token)), AccountNotInitialized);
      var _ :- After(e.timelocks, s.now, stage);
      var paid :- RefundMaker(c, s.balances, id, e, executor, given);
      Ok(s.(balances := paid, escrows := s.escrows - {id}))
  }

  function Withdraw(h: Hasher, c: Chain, s: State, id: EscrowId, secret: Bytes32): Result<State> {
    WithdrawFrom(h, c, s, id, id.creator, SrcWithdrawal, secret)
  }

  function PublicWithdraw(h: Hasher, c: Chain, s: State, payer: Bytes32, id: EscrowId, secret: Bytes32): Result<State> {
    if payer !in s.resolvers then Err(NotAuthorised)
    else
      WithdrawFrom(h, c, s, id, payer, SrcPublicWithdrawal, secret)
  }

  function CancelEscrow(c: Chain, s: State, id: EscrowId, given: bool): Result<State> {
    CancelFrom(c, s, id, id.creator, SrcCancellation, given)
  }

  function PublicCancelEscrow(c: Chain, s: State, payer: Bytes32, id: EscrowId, given: bool): Result<State> {
    if payer !in s.resolvers then Err(NotAuthorised)
    else
      CancelFrom(c, s, id, payer, SrcPublicCancellation, given)
  }

  // ----- Cancelling orders -----

  /** The tokens of an order that is not native, back to its creator. */
  function ReturnTokens(c: Chain, b: Balances, o: Order, orderHash: Bytes32): Result<Balances> {
    var ata := OrderAta(orderHash, o.token);
    if o.assetIsNative then Ok(b)
    else TokenTransfer(c, b, ata, Wallet(o.creator, o.token), TokensIn(b, ata))
  }

  predicate CancelAccountsOpen(s: State, orderHash: Bytes32, given: bool)
    requires orderHash in s.orders
  {
    var o := s.orders[orderHash];
    && OrderAta(orderHash, o.token) in s.balances.tokens
    && GivenIsOpen(s.balances, given, Wallet(o.creator, o.token))
  }

  function CancelOrder(c: Chain, s: State, orderHash: Bytes32, given: bool): Result<State> {
    if orderHash !in s.orders then Err(AccountNotInitialized)
    else
      var o := s.orders[orderHash];
      :- Require(CancelAccountsOpen(s, orderHash, given), AccountNotInitialized);
      :- Require(o.assetIsNative == !given, InconsistentNativeTrait);
      var returned :- ReturnTokens(c, s.balances, o, orderHash);
      var closed :- CloseOrder(c, returned, o, orderHash);
      Ok(s.(balances := closed, orders := s.orders - {orderHash}))
  }

  /** What the resolver may keep: the premium of the moment, up to the limit it asked for. */
  function ResolverReward(o: Order, now: u32, rewardLimit: u64): Result<nat> {
    var premium :- CalculatePremium(now, o.expirationTime, o.cancellationAuctionDuration, o.maxCancellationPremium);
    Ok(if premium <= rewardLimit then premium else rewardLimit)
  }

  /** The token account's lamports pass through the resolver, who forwards all but the reward. */
  function SettleThroughResolver(c: Chain, b: Balances, o: Order, orderHash: Bytes32, resolver: Bytes32, reward: nat)
    : Result<Balances>
  {
    var ata := OrderAta(orderHash, o.token);
    :- Require(b.Lamports(ata) >= reward, ArithmeticOverflow);
    var closed :- CloseTokenAccount(c, b, ata, Key(resolver));
    var paid :- NativeTransfer(closed, Key(resolver), Key(o.creator), b.Lamports(ata) - reward);
    Ok(CloseAccount(paid, OrderPda(orderHash), Key(o.creator)))
  }

  function CancelOrderByResolver(
    c: Chain, s: State, resolver: Bytes32, orderHash: Bytes32, rewardLimit: u64, given: bool): Result<State>
  {
    if resolver !in s.resolvers then Err(NotAuthorised)
    else
      :- Require(orderHash in s.orders, AccountNotInitialized);
      var o := s.orders[orderHash];
      :- Require(CancelAccountsOpen(s, orderHash, given), AccountNotInitialized);
      :- Require(s.now >= o.expirationTime, OrderNotExpired);
      :- Require(o.maxCancellationPremium > 0, CancelOrderByResolverIsForbidden);
      :- Require(o.assetIsNative == !given, InconsistentNativeTrait);
      var returned :- ReturnTokens(c, s.balances, o, orderHash);
      var reward :- ResolverReward(o, s.now, rewardLimit);
      var settled :- SettleThroughResolver(c, returned, o, orderHash, resolver, reward);
      Ok(s.(balances := settled, orders := s.orders - {orderHash}))
  }

  // ----- Rescue -----

  /** While the account is live, rescue waits for its delay. */
  function EscrowRescueStart(s: State, id: EscrowId): Result<Option<u32>> {
    if id !in s.escrows then Ok(None)
    else
      var start :- RescueStart(s.escrows[id].timelocks);
      Ok(Some(start))
  }

  function OrderRescueStart(s: State, orderHash: Bytes32): Result<Option<u32>> {
    if orderHash !in s.orders then Ok(None)
    else
      var start :- RescueStart(s.orders[orderHash].timelocks);
      Ok(Some(start))
  }

  function RescueFundsForEscrow(c: Chain, s: State, id: EscrowId, mint: Bytes32, amount: u64): Result<State> {
    var start :- EscrowRescueStart(s, id);
    var b :- RescueFunds(c, s.balances, s.now, start, EscrowAta(id, mint), Key(id.creator),
                         Wallet(id.creator, mint), amount);
    Ok(s.(balances := b))
  }

  function RescueFundsForOrder(
    h: Hasher, c: Chain, s: State, resolver: Bytes32, p: OrderParams, mint: Bytes32, amount: u64): Result<State>
  {
    if resolver !in s.resolvers then Err(NotAuthorised)
    else
      var orderHash := OrderHash(h, p);
      var start :- OrderRescueStart(s, orderHash);
      var b :- RescueFunds(c, s.balances, s.now, start, OrderAta(orderHash, mint), Key(resolver),
                           Wallet(resolver, mint), amount);
      Ok(s.(balances := b))
  }

  // ----- Transitions -----

  /** The program's instructions with their signers, and two steps of the world around it:
      the clock advances, and anyone else changes the balances and resolvers. */
  datatype Instruction =
    | ICreate(params: OrderParams, given: bool)
    | ICreateEscrow(taker: Bytes32, orderHash: Bytes32, amount: u64, proof: Option<MerkleProof>, data: AuctionData)
    | IWithdraw(id: EscrowId, secret: Bytes32)
    | IPublicWithdraw(payer: Bytes32, id: EscrowId, secret: Bytes32)
    | ICancelEscrow(id: EscrowId, given: bool)
    | IPublicCancelEscrow(payer: Bytes32, id: EscrowId, given: bool)
    | ICancelOrder(orderHash: Bytes32, given: bool)
    | ICancelOrderByResolver(resolver: Bytes32, orderHash: Bytes32, rewardLimit: u64, given: bool)
    | IRescueForEscrow(id: EscrowId, mint: Bytes32, amount: u64)
    | IRescueForOrder(resolver: Bytes32, params: OrderParams, mint: Bytes32, amount: u64)
    | Tick(time: u32)
    | World(balances: Balances, resolvers: set<Bytes32>)

  ghost function Apply(h: Hasher, c: Chain, s: State, ix: Instruction): Result<State> {
    match ix
    case ICreate(p, given) => Create(h, c, s, p, given)
    case ICreateEscrow(taker, orderHash, amount, proof, data) =>
      CreateEscrow(h, c, s, taker, orderHash, amount, proof, data)
    case IWithdraw(id, secret) => Withdraw(h, c, s, id, secret)
    case IPublicWithdraw(payer, id, secret) => PublicWithdraw(h, c, s, payer, id, secret)
    case ICancelEscrow(id, given) => CancelEscrow(c, s, id, given)
    case IPublicCancelEscrow(payer, id, given) => PublicCancelEscrow(c, s, payer, id, given)
    case ICancelOrder(orderHash, given) => CancelOrder(c, s, orderHash, given)
    case ICancelOrderByResolver(resolver, orderHash, limit, given) =>
      CancelOrderByResolver(c, s, resolver, orderHash, limit, given)
    case IRescueForEscrow(id, mint, amount) => RescueFundsForEscrow(c, s, id, mint, amount)
    case IRescueForOrder(resolver, p, mint, amount) => RescueFundsForOrder(h, c, s, resolver, p, mint, amount)
    case Tick(time) => if s.now <= time then Ok(s.(now := time)) else Err(InvalidTime)
    case World(b, resolvers) =>
      if WorldMay(c, s.balances, b) then Ok(s.(balances := b, resolvers := resolvers)) else Err(NotAuthorised)
  }

  /** A failed instruction changes nothing. */
  ghost function Next(h: Hasher, c: Chain, s: State, ix: Instruction): State {
    var r := Apply(h, c, s, ix);
    if r.Ok? then r.value else s
  }
}
