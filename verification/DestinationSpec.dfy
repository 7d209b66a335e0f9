/** The destination program's state and what each of its instructions makes of it. */
module DestinationSpec {
  import opened Wrappers
  import opened Bits
  import opened Numerals
  import opened Timelocks
  import opened Merkle
  import opened Accounts
  import opened Payouts

  datatype EscrowDst = EscrowDst(
    orderHash: Bytes32,
    hashlock: Bytes32,
    creator: Bytes32,
    recipient: Address,
    token: Bytes32,
    assetIsNative: bool,
    amount: u64,
    safetyDeposit: u64,
    timelocks: Fields)

  datatype State = State(balances: Balances, escrows: map<EscrowId, EscrowDst>, resolvers: set<Bytes32>, now: u32)

  /** The arguments and accounts of `create`. */
  datatype CreateParams = CreateParams(
    orderHash: Bytes32,
    hashlock: Bytes32,
    creator: Bytes32,
    token: Bytes32,
    amount: u64,
    safetyDeposit: u64,
    recipient: Address,
    timelocks: Fields,
    srcCancellationTimestamp: u32,
    assetIsNative: bool)

  function CreatedId(p: CreateParams): EscrowId {
    EscrowId(p.orderHash, p.hashlock, p.creator, p.amount)
  }

  /** What `init` and `init_if_needed` do to the balances before the handler. */
  function OpenAccounts(c: Chain, b: Balances, p: CreateParams): Result<Balances> {
    var funded :- FundRent(b, Key(p.creator), EscrowPda(CreatedId(p)), c.escrowRent);
    OpenTokenAccount(c, funded, Key(p.creator), EscrowAta(CreatedId(p), p.token))
  }

  /** Native tokens go in as lamports and, unlike on the source side, are not wrapped. */
  function Deposit(c: Chain, b: Balances, p: CreateParams, given: bool): Result<Balances> {
    var ata := EscrowAta(CreatedId(p), p.token);
    if p.assetIsNative then NativeTransfer(b, Key(p.creator), ata, p.amount)
    else if !given then Err(MissingCreatorAta)
    else TokenTransfer(c, b, Wallet(p.creator, p.token), ata, p.amount)
  }

  function NewEscrow(p: CreateParams, now: u32): EscrowDst {
    EscrowDst(p.orderHash, p.hashlock, p.creator, p.recipient, p.token, p.assetIsNative, p.amount,
              p.safetyDeposit, Redeploy(p.timelocks, now))
  }

  function Create(c: Chain, s: State, p: CreateParams, given: bool): Result<State> {
    var id := CreatedId(p);
    :- Require(GivenIsOpen(s.balances, given, Wallet(p.creator, p.token)), AccountNotInitialized);
    :- Require(id !in s.escrows, AccountAlreadyInUse);
    var prepared :- OpenAccounts(c, s.balances, p);
    var cancellationStart :- StageStart(Redeploy(p.timelocks, s.now), DstCancellation);
    :- Require(cancellationStart <= p.srcCancellationTimestamp, InvalidCreationTime);
    :- Require(p.amount != 0 && p.safetyDeposit != 0, ZeroAmountOrDeposit);
    :- Require(p.safetyDeposit <= c.escrowRent, SafetyDepositTooLarge);
    :- Require(p.token == c.nativeMint || !p.assetIsNative, InconsistentNativeTrait);
    var deposited :- Deposit(c, prepared, p, given);
    Ok(s.(balances := deposited, escrows := s.escrows[id := NewEscrow(p, s.now)]))
  }

  function RecipientAta(e: EscrowDst): Address {
    Ata(e.recipient, e.token)
  }

  /** When and with what a withdrawal may happen. */
  function WithdrawGate(h: Hasher, e: EscrowDst, now: u32, stage: Stage, secret: Bytes32): Result<()> {
    var _ :- After(e.timelocks, now, stage);
    var _ :- Before(e.timelocks, now, DstCancellation);
    :- Require(h(secret) == e.hashlock, InvalidSecret);
    Ok(())
  }

  /** The asset to the recipient, the deposit to the executor, the rent to the creator. */
  function PayRecipient(c: Chain, b: Balances, id: EscrowId, e: EscrowDst, executor: Bytes32, given: bool)
    : Result<Balances>
  {
    var paid :- ProcessPayout(c, b, e.assetIsNative, e.amount, EscrowPda(id), EscrowAta(id, e.token), e.recipient,
                              Optional(given, RecipientAta(e)), Key(e.creator));
    PayDepositAndClose(paid, EscrowPda(id), e.safetyDeposit, Key(e.creator), Key(executor))
  }

  /** The asset, the deposit and the rent all back to the creator. */
  function ReturnToCreator(c: Chain, b: Balances, id: EscrowId, e: EscrowDst, given: bool): Result<Balances> {
    var paid :- ProcessPayout(c, b, e.assetIsNative, e.amount, EscrowPda(id), EscrowAta(id, e.token), Key(e.creator),
                              Optional(given, Wallet(e.creator, e.token)), Key(e.creator));
    Ok(CloseAccount(paid, EscrowPda(id), Key(e.creator)))
  }

  /** `init_if_needed` on the recipient's token account, when it is given. */
  function OpenRecipient(c: Chain, b: Balances, payer: Bytes32, e: EscrowDst, given: bool): Result<Balances> {
    if given then OpenTokenAccount(c, b, Key(payer), RecipientAta(e)) else Ok(b)
  }

  /** Withdrawal by or for the creator, who pays for whatever account is missing unless a
      resolver does; `executor` signs and earns the deposit. */
  function WithdrawFrom(
    h: Hasher, c: Chain, s: State, id: EscrowId, executor: Bytes32, stage: Stage, secret: Bytes32, given: bool)
    : Result<State>
  {
    if id !in s.escrows then Err(AccountNotInitialized)
    else
      var e := s.escrows[id];
      :- Require(EscrowAta(id, e.token) in s.balances.tokens, AccountNotInitialized);
      var prepared :- OpenRecipient(c, s.balances, executor, e, given);
      var _ :- WithdrawGate(h, e, s.now, stage, secret);
      var paid :- PayRecipient(c, prepared, id, e, executor, given);
      Ok(s.(balances := paid, escrows := s.escrows - {id}))
  }

  function Withdraw(h: Hasher, c: Chain, s: State, id: EscrowId, secret: Bytes32, given: bool): Result<State> {
    WithdrawFrom(h, c, s, id, id.creator, DstWithdrawal, secret, given)
  }

  function PublicWithdraw(
    h: Hasher, c: Chain, s: State, payer: Bytes32, id: EscrowId, secret: Bytes32, given: bool): Result<State>
  {
    if payer !in s.resolvers then Err(NotAuthorised)
    else
      WithdrawFrom(h, c, s, id, payer, DstPublicWithdrawal, secret, given)
  }

  function Cancel(c: Chain, s: State, id: EscrowId, given: bool): Result<State> {
    if id !in s.escrows then Err(AccountNotInitialized)
    else
      var e := s.escrows[id];
      :- Require(EscrowAta(id, e.token) in s.balances.tokens
              && GivenIsOpen(s.balances, given, Wallet(e.creator, e.token)), AccountNotInitialized);
      var _ :- After(e.timelocks, s.now, DstCancellation);
      var returned :- ReturnToCreator(c, s.balances, id, e, given);
      Ok(s.(balances := returned, escrows := s.escrows - {id}))
  }

  /** While the account is live, rescue waits for its delay. */
  function EscrowRescueStart(s: State, id: EscrowId): Result<Option<u32>> {
    if id !in s.escrows then Ok(None)
    else
      var start :- RescueStart(s.escrows[id].timelocks);
      Ok(Some(start))
  }

  function RescueEscrow(c: Chain, s: State, id: EscrowId, mint: Bytes32, amount: u64): Result<State> {
    var start :- EscrowRescueStart(s, id);
    var b :- RescueFunds(c, s.balances, s.now, start, EscrowAta(id, mint), Key(id.creator), Wallet(id.creator, mint),
                         amount);
    Ok(s.(balances := b))
  }

  // ----- Transitions -----

  datatype Instruction =
    | ICreate(params: CreateParams, given: bool)
    | IWithdraw(id: EscrowId, secret: Bytes32, given: bool)
    | IPublicWithdraw(payer: Bytes32, id: EscrowId, secret: Bytes32, given: bool)
    | ICancel(id: EscrowId, given: bool)
    | IRescue(id: EscrowId, mint: Bytes32, amount: u64)
    | Tick(time: u32)
    | World(balances: Balances, resolvers: set<Bytes32>)

  ghost function Apply(h: Hasher, c: Chain, s: State, ix: Instruction): Result<State> {
    match ix
    case ICreate(p, given) => Create(c, s, p, given)
    case IWithdraw(id, secret, given) => Withdraw(h, c, s, id, secret, given)
    case IPublicWithdraw(payer, id, secret, given) => PublicWithdraw(h, c, s, payer, id, secret, given)
    case ICancel(id, given) => Cancel(c, s, id, given)
    case IRescue(id, mint, amount) => RescueEscrow(c, s, id, mint, amount)
    case Tick(time) => if s.now <= time then Ok(s.(now := time)) else Err(InvalidTime)
    case World(b, resolvers) =>
      if WorldMay(c, s.balances, b) then Ok(s.(balances := b, resolvers := resolvers)) else Err(NotAuthorised)
  }

  /** A failed instruction changes nothing. */
  ghost function Next(h: Hasher, c: Chain, s: State, ix: Instruction): State {
    var r := Apply(h, c, s, ix);
    if r.Ok? then r.value else s
  }
}
