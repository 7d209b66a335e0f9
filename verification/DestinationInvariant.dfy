/** What every step and every run of the destination program keeps, and what each of its
    payouts pays. A native escrow holds its asset as lamports that are not wrapped, so it
    is funded by lamports; any other by tokens. */
module DestinationInvariant {
  import opened Bits
  import opened Numerals
  import opened Timelocks
  import opened Merkle
  import opened Accounts
  import opened Payouts
  import opened DestinationSpec

  predicate EscrowTerms(c: Chain, id: EscrowId, e: EscrowDst) {
    && id == EscrowId(e.orderHash, e.hashlock, e.creator, e.amount)
    && 0 < e.amount
    && 0 < e.safetyDeposit <= c.escrowRent
    && (e.assetIsNative ==> e.token == c.nativeMint)
  }

  predicate EscrowFunded(c: Chain, b: Balances, id: EscrowId, e: EscrowDst) {
    var ata := EscrowAta(id, e.token);
    && ata in b.tokens
    && (if e.assetIsNative then c.tokenRent + e.amount <= b.Lamports(ata) else e.amount <= b.tokens[ata])
    && c.escrowRent <= b.Lamports(EscrowPda(id))
  }

  ghost predicate EscrowsFunded(c: Chain, b: Balances, escrows: map<EscrowId, EscrowDst>, rescued: set<EscrowId>) {
    forall id :: id in escrows ==>
      EscrowTerms(c, id, escrows[id]) && (id !in rescued ==> EscrowFunded(c, b, id, escrows[id]))
  }

  /** Whatever was not rescued is there. `rescued` holds the escrows that a rescue took from. */
  ghost predicate Solvent(c: Chain, s: State, rescued: set<EscrowId>) {
    Backed(c, s.balances) && EscrowsFunded(c, s.balances, s.escrows, rescued)
  }

  lemma FundedFrame(
    c: Chain, b: Balances, b': Balances, except: set<Address>, escrows: map<EscrowId, EscrowDst>,
    rescued: set<EscrowId>)
    requires Grows(b, b', except) && EscrowsFunded(c, b, escrows, rescued)
    requires forall id :: id in escrows && id !in rescued ==>
               EscrowAta(id, escrows[id].token) !in except && EscrowPda(id) !in except
    ensures EscrowsFunded(c, b', escrows, rescued)
  {
    forall id | id in escrows && id !in rescued ensures EscrowFunded(c, b', id, escrows[id]) {
      assert NotBelow(b, b', EscrowAta(id, escrows[id].token));
      assert NotBelow(b, b', EscrowPda(id));
    }
  }

  // ----- Creation -----

  lemma OpeningKeeps(c: Chain, b: Balances, p: CreateParams)
    requires Backed(c, b) && OpenAccounts(c, b, p).Ok?
    ensures var b' := OpenAccounts(c, b, p).value;
      && Conserves(c, b, b') && Grows(b, b', {}) && Backed(c, b')
      && EscrowAta(CreatedId(p), p.token) in b'.tokens && c.escrowRent <= b'.Lamports(EscrowPda(CreatedId(p)))
  {
    var id := CreatedId(p);
    var ata := EscrowAta(id, p.token);
    var funded := FundRent(b, Key(p.creator), EscrowPda(id), c.escrowRent).value;
    FundRentConserves(c, b, Key(p.creator), EscrowPda(id), c.escrowRent);
    FundRentGrows(c, b, Key(p.creator), EscrowPda(id), c.escrowRent);
    OpenTokenConserves(c, funded, Key(p.creator), ata);
    OpenTokenGrows(c, funded, Key(p.creator), ata);
    var b' := OpenTokenAccount(c, funded, Key(p.creator), ata).value;
    GrowsTransitive(b, funded, b', {}, {});
    assert NotBelow(funded, b', EscrowPda(id));
  }

  lemma DepositFunds(c: Chain, b: Balances, p: CreateParams, given: bool)
    requires Backed(c, b) && EscrowAta(CreatedId(p), p.token) in b.tokens && p.amount > 0
    requires p.assetIsNative ==> p.token == c.nativeMint
    requires DestinationSpec.Deposit(c, b, p, given).Ok?
    ensures var b' := DestinationSpec.Deposit(c, b, p, given).value;
            var ata := EscrowAta(CreatedId(p), p.token);
      && Conserves(c, b, b') && Grows(b, b', {}) && Backed(c, b')
      && ata in b'.tokens
      && if p.assetIsNative then c.tokenRent + p.amount <= b'.Lamports(ata) else p.amount <= b'.tokens[ata]
  {
    var ata := EscrowAta(CreatedId(p), p.token);
    if p.assetIsNative {
      MoveConserves(c, b, Key(p.creator), ata, p.amount);
      MoveGrows(c, b, Key(p.creator), ata, p.amount);
    } else {
      TokenTransferConserves(c, b, Wallet(p.creator, p.token), ata, p.amount);
      TokenTransferGrows(c, b, Wallet(p.creator, p.token), ata, p.amount);
    }
  }

  /** A deposit takes exactly the amount from the creator: lamports that stay lamports, or
      tokens. */
  ghost predicate Deposited(c: Chain, b: Balances, b': Balances, p: CreateParams, ata: Address) {
    var from := if p.assetIsNative then Key(p.creator) else Wallet(p.creator, p.token);
    && (if p.assetIsNative then b'.tokens == b.tokens
        else p.amount <= TokensIn(b, from) && b'.tokens == Transferred(b, from, ata, p.amount))
    && Shifted(b, b', from, ata, If(p.assetIsNative || p.token == c.nativeMint, p.amount))
  }

  lemma DepositIsExact(c: Chain, b: Balances, p: CreateParams, given: bool)
    requires Backed(c, b) && EscrowAta(CreatedId(p), p.token) in b.tokens && p.amount > 0
    requires DestinationSpec.Deposit(c, b, p, given).Ok?
    ensures Deposited(c, b, DestinationSpec.Deposit(c, b, p, given).value, p, EscrowAta(CreatedId(p), p.token))
  {
    var ata := EscrowAta(CreatedId(p), p.token);
    if p.assetIsNative {
      MoveEffect(b, Key(p.creator), ata, p.amount);
    } else {
      TransferEffect(c, b, Wallet(p.creator, p.token), ata, p.amount);
    }
  }

  lemma CreateKeepsSolvency(c: Chain, s: State, rescued: set<EscrowId>, p: CreateParams, given: bool)
    requires Solvent(c, s, rescued) && Create(c, s, p, given).Ok?
    ensures var s' := Create(c, s, p, given).value;
      Solvent(c, s', rescued - {CreatedId(p)}) && Conserves(c, s.balances, s'.balances)
  {
    var id := CreatedId(p);
    var prepared := OpenAccounts(c, s.balances, p).value;
    OpeningKeeps(c, s.balances, p);
    DepositFunds(c, prepared, p, given);
    var b' := DestinationSpec.Deposit(c, prepared, p, given).value;
    GrowsTransitive(s.balances, prepared, b', {}, {});
    FundedFrame(c, s.balances, b', {}, s.escrows, rescued);
    assert NotBelow(prepared, b', EscrowPda(id));
  }

  lemma DepositSucceeds(c: Chain, b: Balances, p: CreateParams, given: bool)
    requires Backed(c, b) && EscrowAta(CreatedId(p), p.token) in b.tokens && p.amount > 0
    ensures DestinationSpec.Deposit(c, b, p, given).Ok? <==>
      if p.assetIsNative then p.amount <= b.Lamports(Key(p.creator))
      else given && p.amount <= TokensIn(b, Wallet(p.creator, p.token))
  {
  }

  /** The creator can pay for the escrow's accounts and then for its amount. */
  predicate CanLock(c: Chain, b: Balances, p: CreateParams, given: bool) {
    var dues := Dues(c, b, EscrowPda(CreatedId(p)), c.escrowRent, EscrowAta(CreatedId(p), p.token));
    && dues + If(p.assetIsNative, p.amount) <= b.Lamports(Key(p.creator))
    && (p.assetIsNative || (given && p.amount <= TokensIn(b, Wallet(p.creator, p.token))))
  }

  /** What an escrow must satisfy: above all, its cancellation starts no later than the
      announced one of the source. */
  predicate IsLock(c: Chain, now: u32, p: CreateParams) {
    && now + p.timelocks[DstCancellation.Index()] < TWO32
    && now + p.timelocks[DstCancellation.Index()] <= p.srcCancellationTimestamp
    && 0 < p.amount && 0 < p.safetyDeposit <= c.escrowRent
    && (p.assetIsNative ==> p.token == c.nativeMint)
  }

  lemma LockIsPaid(c: Chain, b: Balances, p: CreateParams, given: bool)
    requires Backed(c, b) && p.amount > 0
    ensures var prepared := OpenAccounts(c, b, p);
      CanLock(c, b, p, given) <==> prepared.Ok? && DestinationSpec.Deposit(c, prepared.value, p, given).Ok?
  {
    var id := CreatedId(p);
    OpeningIsCharged(c, b, Key(p.creator), EscrowPda(id), c.escrowRent, EscrowAta(id, p.token));
    var prepared := OpenAccounts(c, b, p);
    if prepared.Ok? {
      OpeningKeeps(c, b, p);
      DepositSucceeds(c, prepared.value, p, given);
    }
  }

  lemma CreatedIsLocked(c: Chain, s: State, p: CreateParams, given: bool)
    requires Backed(c, s.balances) && Create(c, s, p, given).Ok?
    ensures CreatedId(p) !in s.escrows && GivenIsOpen(s.balances, given, Wallet(p.creator, p.token))
    ensures IsLock(c, s.now, p) && CanLock(c, s.balances, p, given)
  {
    LockIsPaid(c, s.balances, p, given);
  }

  lemma LockedIsCreated(c: Chain, s: State, p: CreateParams, given: bool)
    requires Backed(c, s.balances) && CreatedId(p) !in s.escrows
    requires GivenIsOpen(s.balances, given, Wallet(p.creator, p.token))
    requires IsLock(c, s.now, p) && CanLock(c, s.balances, p, given)
    ensures Create(c, s, p, given).Ok?
  {
    LockIsPaid(c, s.balances, p, given);
  }

  /** An escrow is created exactly when it is new and sound and its creator can pay for it. */
  lemma CreateSucceeds(c: Chain, s: State, p: CreateParams, given: bool)
    requires Backed(c, s.balances)
    ensures Create(c, s, p, given).Ok? <==>
      && CreatedId(p) !in s.escrows
      && GivenIsOpen(s.balances, given, Wallet(p.creator, p.token))
      && IsLock(c, s.now, p)
      && CanLock(c, s.balances, p, given)
  {
    if Create(c, s, p, given).Ok? {
      CreatedIsLocked(c, s, p, given);
    } else if CreatedId(p) !in s.escrows && GivenIsOpen(s.balances, given, Wallet(p.creator, p.token))
           && IsLock(c, s.now, p) && CanLock(c, s.balances, p, given) {
      LockedIsCreated(c, s, p, given);
    }
  }

  lemma CreateSteps(c: Chain, s: State, p: CreateParams, given: bool)
    requires Create(c, s, p, given).Ok?
    ensures p.amount > 0 && CreatedId(p) !in s.escrows && CreatedId(p) in Create(c, s, p, given).value.escrows
    ensures var prepared := OpenAccounts(c, s.balances, p);
      && prepared.Ok?
      && var deposited := DestinationSpec.Deposit(c, prepared.value, p, given);
      && deposited.Ok? && Create(c, s, p, given).value.balances == deposited.value
  {
  }

  /** A creation as a whole: its creator pays what the escrow's two accounts lack, and the
      amount goes into the token account of the address made from the hashes, the creator
      and the amount. */
  lemma CreateEffect(c: Chain, s: State, p: CreateParams, given: bool, id: EscrowId) returns (prepared: Balances)
    requires Backed(c, s.balances) && Create(c, s, p, given).Ok?
    requires id == EscrowId(p.orderHash, p.hashlock, p.creator, p.amount)
    ensures id !in s.escrows && id in Create(c, s, p, given).value.escrows
    ensures Charged(c, s.balances, prepared, Key(p.creator), EscrowPda(id), c.escrowRent, EscrowAta(id, p.token))
    ensures Deposited(c, prepared, Create(c, s, p, given).value.balances, p, EscrowAta(id, p.token))
  {
    assert id == CreatedId(p);
    CreateSteps(c, s, p, given);
    prepared := OpenAccounts(c, s.balances, p).value;
    OpeningIsCharged(c, s.balances, Key(p.creator), EscrowPda(id), c.escrowRent, EscrowAta(id, p.token));
    OpeningKeeps(c, s.balances, p);
    DepositIsExact(c, prepared, p, given);
  }

  // ----- Payouts -----

  /** Opening the recipient's token account costs its payer what it lacks of its rent. */
  lemma OpenRecipientIsExact(c: Chain, b: Balances, payer: Bytes32, e: EscrowDst, given: bool)
    requires OpenRecipient(c, b, payer, e, given).Ok?
    ensures var b', ata := OpenRecipient(c, b, payer, e, given).value, Ata(e.recipient, e.token);
      if given then b'.tokens == Opened(c, b, ata) && Shifted(b, b', Key(payer), ata, TokenDues(c, b, ata))
      else b' == b
  {
    if given {
      OpenTokenEffect(c, b, Key(payer), Ata(e.recipient, e.token));
    }
  }

  lemma OpenRecipientKeeps(c: Chain, b: Balances, payer: Bytes32, e: EscrowDst, given: bool)
    requires Backed(c, b) && OpenRecipient(c, b, payer, e, given).Ok?
    ensures var b' := OpenRecipient(c, b, payer, e, given).value;
      && Conserves(c, b, b') && Grows(b, b', {}) && Backed(c, b') && b'.tokens.Keys >= b.tokens.Keys
      && (given ==> RecipientAta(e) in b'.tokens)
  {
    if given {
      OpenTokenConserves(c, b, Key(payer), RecipientAta(e));
      OpenTokenGrows(c, b, Key(payer), RecipientAta(e));
    }
  }

  lemma PayRecipientKeeps(c: Chain, b: Balances, id: EscrowId, e: EscrowDst, executor: Bytes32, given: bool)
    requires Backed(c, b) && PayRecipient(c, b, id, e, executor, given).Ok?
    ensures var b' := PayRecipient(c, b, id, e, executor, given).value;
      && Conserves(c, b, b') && Backed(c, b')
      && Grows(b, b', {EscrowAta(id, e.token), EscrowPda(id)})
  {
    var ata, to := EscrowAta(id, e.token), Optional(given, RecipientAta(e));
    var paid := ProcessPayout(c, b, e.assetIsNative, e.amount, EscrowPda(id), ata, e.recipient, to,
                              Key(e.creator)).value;
    PayoutKeeps(c, b, e.assetIsNative, e.amount, EscrowPda(id), ata, e.recipient, to, Key(e.creator));
    DepositKeeps(c, paid, EscrowPda(id), e.safetyDeposit, Key(e.creator), Key(executor));
    GrowsTransitive(b, paid, PayRecipient(c, b, id, e, executor, given).value, {ata, EscrowPda(id)}, {EscrowPda(id)});
    assert {ata, EscrowPda(id)} + {EscrowPda(id)} == {ata, EscrowPda(id)};
  }

  lemma ReturnKeeps(c: Chain, b: Balances, id: EscrowId, e: EscrowDst, given: bool)
    requires Backed(c, b) && ReturnToCreator(c, b, id, e, given).Ok?
    ensures var b' := ReturnToCreator(c, b, id, e, given).value;
      && Conserves(c, b, b') && Backed(c, b')
      && Grows(b, b', {EscrowAta(id, e.token), EscrowPda(id)})
  {
    var ata, to := EscrowAta(id, e.token), Optional(given, Wallet(e.creator, e.token));
    var paid := ProcessPayout(c, b, e.assetIsNative, e.amount, EscrowPda(id), ata, Key(e.creator), to,
                              Key(e.creator)).value;
    PayoutKeeps(c, b, e.assetIsNative, e.amount, EscrowPda(id), ata, Key(e.creator), to, Key(e.creator));
    DepositKeeps(c, paid, EscrowPda(id), e.safetyDeposit, Key(e.creator), Key(e.creator));
    GrowsTransitive(b, paid, ReturnToCreator(c, b, id, e, given).value, {ata, EscrowPda(id)}, {EscrowPda(id)});
    assert {ata, EscrowPda(id)} + {EscrowPda(id)} == {ata, EscrowPda(id)};
  }

  lemma DropEscrow(c: Chain, s: State, rescued: set<EscrowId>, b': Balances, id: EscrowId, mint: Bytes32)
    requires Solvent(c, s, rescued) && Backed(c, b')
    requires Grows(s.balances, b', {EscrowAta(id, mint), EscrowPda(id)})
    ensures Solvent(c, s.(balances := b', escrows := s.escrows - {id}), rescued)
  {
    FundedFrame(c, s.balances, b', {EscrowAta(id, mint), EscrowPda(id)}, s.escrows - {id}, rescued);
  }

  lemma WithdrawKeepsSolvency(
    h: Hasher, c: Chain, s: State, rescued: set<EscrowId>, id: EscrowId, executor: Bytes32, stage: Stage,
    secret: Bytes32, given: bool)
    requires Solvent(c, s, rescued) && WithdrawFrom(h, c, s, id, executor, stage, secret, given).Ok?
    ensures var s' := WithdrawFrom(h, c, s, id, executor, stage, secret, given).value;
      Solvent(c, s', rescued) && Conserves(c, s.balances, s'.balances)
  {
    var e := s.escrows[id];
    var prepared := OpenRecipient(c, s.balances, executor, e, given).value;
    var b' := PayRecipient(c, prepared, id, e, executor, given).value;
    OpenRecipientKeeps(c, s.balances, executor, e, given);
    PayRecipientKeeps(c, prepared, id, e, executor, given);
    GrowsTransitive(s.balances, prepared, b', {}, {EscrowAta(id, e.token), EscrowPda(id)});
    assert {} + {EscrowAta(id, e.token), EscrowPda(id)} == {EscrowAta(id, e.token), EscrowPda(id)};
    DropEscrow(c, s, rescued, b', id, e.token);
  }

  lemma CancelKeepsSolvency(c: Chain, s: State, rescued: set<EscrowId>, id: EscrowId, given: bool)
    requires Solvent(c, s, rescued) && Cancel(c, s, id, given).Ok?
    ensures var s' := Cancel(c, s, id, given).value;
      Solvent(c, s', rescued) && Conserves(c, s.balances, s'.balances)
  {
    ReturnKeeps(c, s.balances, id, s.escrows[id], given);
    DropEscrow(c, s, rescued, ReturnToCreator(c, s.balances, id, s.escrows[id], given).value, id, s.escrows[id].token);
  }

  // ----- Rescue -----

  /** The escrow whose live asset the instruction would take, if any. */
  function Takes(s: State, ix: Instruction): set<EscrowId> {
    match ix
    case IRescue(id, mint, _) => if id in s.escrows && mint == s.escrows[id].token then {id} else {}
    case _ => {}
  }

  /** The rescued escrows after a successful step; a new escrow is whole. */
  function RescuedAfter(s: State, rescued: set<EscrowId>, ix: Instruction): set<EscrowId> {
    match ix
    case ICreate(p, _) => rescued - {CreatedId(p)}
    case _ => rescued + Takes(s, ix)
  }

  /** The gate: a live asset cannot be rescued before its deployment plus the delay. */
  lemma RescueWaits(h: Hasher, c: Chain, s: State, ix: Instruction)
    requires Apply(h, c, s, ix).Ok?
    ensures forall id :: id in Takes(s, ix) ==>
              id in s.escrows && DeployedAt(s.escrows[id].timelocks) + RESCUE_DELAY <= s.now
  {
    match ix
    case IRescue(id, mint, amount) => assert EscrowRescueStart(s, id).Ok?;
    case _ =>
  }

  /** Rescue succeeds exactly when the delay has passed, if the escrow is live, and the tokens
      are there; it goes to the creator that the address is made from. */
  lemma RescueGoesToCreator(c: Chain, s: State, id: EscrowId, mint: Bytes32, amount: u64)
    requires Backed(c, s.balances)
    ensures var r, ata, to := RescueEscrow(c, s, id, mint, amount), EscrowAta(id, mint), Wallet(id.creator, mint);
      && (r.Ok? <==>
          && (id in s.escrows ==> CanRescue(s.escrows[id].timelocks, s.now))
          && ata in s.balances.tokens && to in s.balances.tokens && amount <= s.balances.tokens[ata])
      && (r.Ok? ==> RescueMoved(c, s.balances, r.value.balances, ata, Key(id.creator), to, amount))
  {
    var start := EscrowRescueStart(s, id);
    if start.Ok? {
      RescueSucceeds(c, s.balances, s.now, start.value, EscrowAta(id, mint), Key(id.creator),
                     Wallet(id.creator, mint), amount);
      if RescueEscrow(c, s, id, mint, amount).Ok? {
        RescueIsExact(c, s.balances, s.now, start.value, EscrowAta(id, mint), Key(id.creator),
                      Wallet(id.creator, mint), amount);
      }
    }
  }

  // ----- Every step -----

  /** Every instruction conserves lamports and tokens, and every step at all keeps funded
      whatever it does not rescue. */
  lemma StepKeepsSolvency(h: Hasher, c: Chain, s: State, rescued: set<EscrowId>, ix: Instruction)
    requires Solvent(c, s, rescued) && Apply(h, c, s, ix).Ok?
    ensures !ix.World? ==> Conserves(c, s.balances, Apply(h, c, s, ix).value.balances)
    ensures Solvent(c, Apply(h, c, s, ix).value, RescuedAfter(s, rescued, ix))
  {
    assert rescued + {} == rescued;
    match ix
    case ICreate(p, given) => CreateKeepsSolvency(c, s, rescued, p, given);
    case IWithdraw(id, secret, given) =>
      WithdrawKeepsSolvency(h, c, s, rescued, id, id.creator, DstWithdrawal, secret, given);
    case IPublicWithdraw(payer, id, secret, given) =>
      WithdrawKeepsSolvency(h, c, s, rescued, id, payer, DstPublicWithdrawal, secret, given);
    case ICancel(id, given) => CancelKeepsSolvency(c, s, rescued, id, given);
    case IRescue(id, mint, amount) =>
      var ata, b' := EscrowAta(id, mint), Apply(h, c, s, ix).value.balances;
      RescueKeeps(c, s.balances, s.now, EscrowRescueStart(s, id).value, ata, Key(id.creator),
                  Wallet(id.creator, mint), amount);
      FundedFrame(c, s.balances, b', {ata}, s.escrows, rescued + Takes(s, ix));
    case Tick(_) =>
    case World(b, _) => FundedFrame(c, s.balances, b, {}, s.escrows, rescued);
  }

  /** A transaction, taken or refused, keeps funded whatever it does not rescue. */
  lemma NextKeepsSolvency(h: Hasher, c: Chain, s: State, ix: Instruction)
    requires !ix.World?
    ensures forall rescued :: Solvent(c, s, rescued) ==>
      && Conserves(c, s.balances, Next(h, c, s, ix).balances)
      && Solvent(c, Next(h, c, s, ix), if Apply(h, c, s, ix).Ok? then RescuedAfter(s, rescued, ix) else rescued)
  {
    forall rescued | Solvent(c, s, rescued)
      ensures Conserves(c, s.balances, Next(h, c, s, ix).balances)
      ensures Solvent(c, Next(h, c, s, ix), if Apply(h, c, s, ix).Ok? then RescuedAfter(s, rescued, ix) else rescued)
    {
      if Apply(h, c, s, ix).Ok? {
        StepKeepsSolvency(h, c, s, rescued, ix);
      }
    }
  }

  // ----- Exact payouts -----

  /** A withdrawal: a native asset's exact amount to the recipient, in lamports, or every
      token, no less than the amount; the deposit to an executor other than the creator;
      everything else to the creator. What is addressed to the escrow itself ends with the
      creator. */
  ghost predicate RecipientPaid(c: Chain, b: Balances, b': Balances, id: EscrowId, e: EscrowDst, executor: Bytes32) {
    var pda, ata := EscrowPda(id), EscrowAta(id, e.token);
    if e.assetIsNative || e.recipient == pda
    then PaidInLamports(b, b', pda, ata, e.amount, e.recipient, e.safetyDeposit, Key(e.creator), Key(executor))
    else (
      && e.amount <= TokensIn(b, ata)
      && PaidInTokens(c, b, b', pda, ata, RecipientAta(e), e.safetyDeposit, Key(e.creator), Key(executor)))
  }

  /** An escrow that names itself as recipient can pay only native tokens: any others stay
      in the account that is to be closed. */
  lemma SelfRecipient(c: Chain, b: Balances, id: EscrowId, e: EscrowDst, executor: Bytes32)
    requires Backed(c, b) && EscrowTerms(c, id, e) && EscrowFunded(c, b, id, e)
    requires e.recipient == EscrowPda(id) && !e.assetIsNative
    ensures var r := PayRecipient(c, b, id, e, executor, true);
      && (r.Ok? <==> e.token == c.nativeMint)
      && (r.Ok? ==> RecipientPaid(c, b, r.value, id, e, executor))
  {
    var pda, ata := EscrowPda(id), EscrowAta(id, e.token);
    if e.token == c.nativeMint {
      var closed := CloseTokenAccount(c, b, ata, Key(e.creator)).value;
      MoveEffect(b, ata, Key(e.creator), b.Lamports(ata));
      DepositSplit(closed, pda, e.safetyDeposit, Key(e.creator), Key(executor));
    }
  }

  lemma RecipientIsPaid(c: Chain, b: Balances, id: EscrowId, e: EscrowDst, executor: Bytes32, given: bool)
    requires Backed(c, b) && EscrowTerms(c, id, e) && EscrowFunded(c, b, id, e)
    requires given ==> RecipientAta(e) in b.tokens
    ensures var r := PayRecipient(c, b, id, e, executor, given);
      && (r.Ok? <==> (e.assetIsNative || given) && (e.recipient != EscrowPda(id) || e.token == c.nativeMint))
      && (r.Ok? ==> RecipientPaid(c, b, r.value, id, e, executor))
  {
    var pda, ata := EscrowPda(id), EscrowAta(id, e.token);
    if e.assetIsNative {
      NativePayoutSplit(c, b, e.amount, e.safetyDeposit, pda, ata, e.recipient, Key(e.creator), Key(executor));
    } else if given {
      if e.recipient == pda {
        SelfRecipient(c, b, id, e, executor);
      } else {
        TokenPayoutSplit(c, b, e.safetyDeposit, pda, ata, RecipientAta(e), Key(e.creator), Key(executor));
      }
    }
  }

  /** A cancellation: everything to the creator, the tokens to its token account. */
  ghost predicate CreatorRefunded(c: Chain, b: Balances, b': Balances, id: EscrowId, e: EscrowDst) {
    var pda, ata := EscrowPda(id), EscrowAta(id, e.token);
    if e.assetIsNative
    then PaidInLamports(b, b', pda, ata, e.amount, Key(e.creator), e.safetyDeposit, Key(e.creator), Key(e.creator))
    else (
      && e.amount <= TokensIn(b, ata)
      && PaidInTokens(c, b, b', pda, ata, Wallet(e.creator, e.token), e.safetyDeposit, Key(e.creator), Key(e.creator)))
  }

  lemma CreatorIsRefunded(c: Chain, b: Balances, id: EscrowId, e: EscrowDst, given: bool)
    requires Backed(c, b) && EscrowTerms(c, id, e) && EscrowFunded(c, b, id, e)
    requires e.assetIsNative || (given && Wallet(e.creator, e.token) in b.tokens)
    ensures var r := ReturnToCreator(c, b, id, e, given);
      r.Ok? && CreatorRefunded(c, b, r.value, id, e)
  {
    var pda, ata := EscrowPda(id), EscrowAta(id, e.token);
    if e.assetIsNative {
      NativePayoutSplit(c, b, e.amount, e.safetyDeposit, pda, ata, Key(e.creator), Key(e.creator), Key(e.creator));
    } else {
      TokenPayoutSplit(c, b, e.safetyDeposit, pda, ata, Wallet(e.creator, e.token), Key(e.creator), Key(e.creator));
    }
  }

  // ----- Solvency makes payouts succeed -----

  lemma StaysFunded(c: Chain, b: Balances, b': Balances, id: EscrowId, e: EscrowDst)
    requires EscrowFunded(c, b, id, e) && Grows(b, b', {})
    ensures EscrowFunded(c, b', id, e)
  {
    assert NotBelow(b, b', EscrowAta(id, e.token)) && NotBelow(b, b', EscrowPda(id));
  }

  /** The executor can open the recipient's token account if it is given and missing. */
  predicate CanOpenRecipient(c: Chain, b: Balances, executor: Bytes32, e: EscrowDst, given: bool) {
    given ==> RecipientAta(e) in b.tokens || Short(b, RecipientAta(e), c.tokenRent) <= b.Lamports(Key(executor))
  }

  /** What a withdrawal takes: an open gate; a token account for the recipient, open or paid
      for, unless the asset is native; and a recipient other than the escrow itself, unless
      the tokens are native. */
  predicate CanWithdraw(
    h: Hasher, c: Chain, s: State, id: EscrowId, executor: Bytes32, stage: Stage, secret: Bytes32, given: bool)
  {
    && id in s.escrows
    && var e := s.escrows[id];
    && StartedBy(e.timelocks, stage, s.now) && EndedBefore(e.timelocks, DstCancellation, s.now)
    && h(secret) == e.hashlock
    && CanOpenRecipient(c, s.balances, executor, e, given)
    && (e.assetIsNative || given)
    && (e.recipient != EscrowPda(id) || e.token == c.nativeMint)
  }

  lemma OpenGate(h: Hasher, e: EscrowDst, now: u32, stage: Stage, secret: Bytes32)
    ensures WithdrawGate(h, e, now, stage, secret).Ok? <==>
      && StartedBy(e.timelocks, stage, now) && EndedBefore(e.timelocks, DstCancellation, now)
      && h(secret) == e.hashlock
  {
  }

  lemma OpenRecipientSucceeds(c: Chain, b: Balances, executor: Bytes32, e: EscrowDst, given: bool)
    ensures OpenRecipient(c, b, executor, e, given).Ok? <==> CanOpenRecipient(c, b, executor, e, given)
  {
  }

  lemma WithdrawFromSucceeds(
    h: Hasher, c: Chain, s: State, rescued: set<EscrowId>, id: EscrowId, executor: Bytes32, stage: Stage,
    secret: Bytes32, given: bool)
    requires Solvent(c, s, rescued) && id !in rescued
    ensures WithdrawFrom(h, c, s, id, executor, stage, secret, given).Ok?
       <==> CanWithdraw(h, c, s, id, executor, stage, secret, given)
  {
    if id in s.escrows {
      var e := s.escrows[id];
      assert EscrowTerms(c, id, e) && EscrowFunded(c, s.balances, id, e);
      OpenGate(h, e, s.now, stage, secret);
      OpenRecipientSucceeds(c, s.balances, executor, e, given);
      if CanOpenRecipient(c, s.balances, executor, e, given) {
        var prepared := OpenRecipient(c, s.balances, executor, e, given).value;
        OpenRecipientKeeps(c, s.balances, executor, e, given);
        StaysFunded(c, s.balances, prepared, id, e);
        RecipientIsPaid(c, prepared, id, e, executor, given);
      }
    }
  }

  /** Both withdrawals succeed exactly when they may, the public one in addition only for a
      resolver: they never lack funds. */
  lemma WithdrawSucceeds(
    h: Hasher, c: Chain, s: State, rescued: set<EscrowId>, id: EscrowId, payer: Bytes32, secret: Bytes32, given: bool)
    requires Solvent(c, s, rescued) && id !in rescued
    ensures Withdraw(h, c, s, id, secret, given).Ok? <==>
      CanWithdraw(h, c, s, id, id.creator, DstWithdrawal, secret, given)
    ensures PublicWithdraw(h, c, s, payer, id, secret, given).Ok? <==>
      payer in s.resolvers && CanWithdraw(h, c, s, id, payer, DstPublicWithdrawal, secret, given)
  {
    WithdrawFromSucceeds(h, c, s, rescued, id, id.creator, DstWithdrawal, secret, given);
    WithdrawFromSucceeds(h, c, s, rescued, id, payer, DstPublicWithdrawal, secret, given);
  }

  /** The creator's cancellation succeeds exactly from its stage on, given a token account
      unless the asset is native. */
  lemma CancelSucceeds(c: Chain, s: State, rescued: set<EscrowId>, id: EscrowId, given: bool)
    requires Solvent(c, s, rescued) && id !in rescued
    ensures Cancel(c, s, id, given).Ok? <==>
      && id in s.escrows
      && GivenIsOpen(s.balances, given, Wallet(s.escrows[id].creator, s.escrows[id].token))
      && (s.escrows[id].assetIsNative || given)
      && StartedBy(s.escrows[id].timelocks, DstCancellation, s.now)
  {
    if id in s.escrows {
      var e := s.escrows[id];
      assert EscrowTerms(c, id, e) && EscrowFunded(c, s.balances, id, e);
      if GivenIsOpen(s.balances, given, Wallet(e.creator, e.token)) && (e.assetIsNative || given) {
        CreatorIsRefunded(c, s.balances, id, e, given);
      }
    }
  }
}
