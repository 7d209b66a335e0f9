/** How an escrow pays out and closes: the effect on balances shared by both programs, and
    the exact split of every lamport and token that leaves it. */
module Payouts {
  import opened Wrappers
  import opened Bits
  import opened Accounts

  function TokensIn(b: Balances, a: Address): nat {
    if a in b.tokens then b.tokens[a] else 0
  }

  /** All tokens to `to`, then the emptied account's lamports to `rentRecipient`. */
  function WithdrawAndCloseTokenAta(c: Chain, b: Balances, ata: Address, to: Address, rentRecipient: Address)
    : Result<Balances>
  {
    var paid :- TokenTransfer(c, b, ata, to, TokensIn(b, ata));
    CloseTokenAccount(c, paid, ata, rentRecipient)
  }

  /** A native asset leaves as lamports through the escrow account, any other as tokens. */
  function ProcessPayout(
    c: Chain, b: Balances, assetIsNative: bool, amount: nat, escrow: Address, ata: Address,
    recipient: Address, recipientAta: Option<Address>, rentRecipient: Address): Result<Balances>
  {
    if assetIsNative then
      var closed :- CloseTokenAccount(c, b, ata, escrow);
      MoveLamports(closed, escrow, recipient, amount)
    else if recipientAta.None? then Err(MissingRecipientAta)
    else WithdrawAndCloseTokenAta(c, b, ata, recipientAta.value, rentRecipient)
  }

  /** The safety deposit to whoever executed the payout, when that is someone else, and the
      rest of the escrow account to the rent recipient. */
  function PayDepositAndClose(b: Balances, escrow: Address, deposit: nat, rentRecipient: Address, executor: Address)
    : Result<Balances>
  {
    if rentRecipient == executor then Ok(CloseAccount(b, escrow, rentRecipient))
    else
      var rewarded :- MoveLamports(b, escrow, executor, deposit);
      Ok(CloseAccount(rewarded, escrow, rentRecipient))
  }

  // ----- The split -----

  /** The executor's share: the deposit, unless the executor also receives the rent. */
  function Reward(deposit: nat, rentRecipient: Address, executor: Address): nat {
    if rentRecipient == executor then 0 else deposit
  }

  /** The two accounts are emptied, three shares are added, and nothing else changes: the
      three receivers may be the same account, or any other. */
  ghost predicate SplitAmong(
    b: Balances, b': Balances, emptied: Address, emptied': Address,
    to1: Address, share1: nat, to2: Address, share2: nat, to3: Address, share3: nat)
  {
    forall a :: b'.Lamports(a)
      == If(a != emptied && a != emptied', b.Lamports(a))
       + If(a == to1, share1) + If(a == to2, share2) + If(a == to3, share3)
  }

  // ----- Effects -----

  function Transferred(b: Balances, from: Address, to: Address, n: nat): map<Address, nat>
    requires n <= TokensIn(b, from)
  {
    b.tokens[from := TokensIn(b, from) - n][to := TokensIn(b, to) + n]
  }

  lemma TransferEffect(c: Chain, b: Balances, from: Address, to: Address, n: nat)
    requires Backed(c, b) && from.Ata? && from != to && from in b.tokens && to in b.tokens
    ensures var r := TokenTransfer(c, b, from, to, n);
            var along := If(IsNative(c, from), n);
      && (r.Ok? <==> n <= b.tokens[from])
      && (r.Ok? ==>
          && along <= b.Lamports(from)
          && r.value.tokens == Transferred(b, from, to, n)
          && Shifted(b, r.value, from, to, along))
  {
    if 0 < n <= b.tokens[from] && IsNative(c, from) {
      MoveEffect(b.WithTokens(from, b.tokens[from] - n).WithTokens(to, b.tokens[to] + n), from, to, n);
    }
  }

  lemma MoveShift(b: Balances, from: Address, to: Address, n: nat)
    ensures var r := MoveLamports(b, from, to, n);
      && (r.Ok? <==> n <= b.Lamports(from))
      && (r.Ok? ==> r.value.tokens == b.tokens && Shifted(b, r.value, from, to, n))
  {
    if from != to {
      MoveEffect(b, from, to, n);
    }
  }

  lemma NativeTransferEffect(b: Balances, from: Address, to: Address, n: nat)
    ensures var r := NativeTransfer(b, from, to, n);
      && (r.Ok? <==> n <= b.Lamports(from))
      && (r.Ok? ==> r.value.tokens == b.tokens && Shifted(b, r.value, from, to, n))
  {
    MoveShift(b, from, to, n);
  }

  lemma CloseTokenEffect(c: Chain, b: Balances, a: Address, to: Address)
    requires a in b.tokens && a != to
    ensures var r := CloseTokenAccount(c, b, a, to);
      && (r.Ok? <==> IsNative(c, a) || b.tokens[a] == 0)
      && (r.Ok? ==> r.value.tokens == b.tokens - {a} && Shifted(b, r.value, a, to, b.Lamports(a)))
  {
    MoveEffect(b, a, to, b.Lamports(a));
  }

  // ----- The split among three -----

  lemma DistinctExecutorSplit(b: Balances, escrow: Address, deposit: nat, rentRecipient: Address, executor: Address)
    requires escrow != rentRecipient && escrow != executor && rentRecipient != executor
    ensures var r := PayDepositAndClose(b, escrow, deposit, rentRecipient, executor);
            && (r.Ok? <==> deposit <= b.Lamports(escrow))
            && (r.Ok? ==>
                && r.value.tokens == b.tokens
                && forall a :: r.value.Lamports(a)
                     == if a == escrow then 0
                        else if a == executor then b.Lamports(a) + deposit
                        else if a == rentRecipient then b.Lamports(a) + b.Lamports(escrow) - deposit
                        else b.Lamports(a))
  {
    MoveEffect(b, escrow, executor, deposit);
    if deposit <= b.Lamports(escrow) {
      var rewarded := MoveLamports(b, escrow, executor, deposit).value;
      MoveEffect(rewarded, escrow, rentRecipient, rewarded.Lamports(escrow));
    }
  }

  /** The escrow account is emptied: the reward to the executor, the rest to the rent
      recipient. */
  ghost predicate DepositPaid(
    b: Balances, b': Balances, escrow: Address, reward: nat, rentRecipient: Address, executor: Address)
  {
    && reward <= b.Lamports(escrow) && b'.tokens == b.tokens
    && forall a :: b'.Lamports(a) == If(a != escrow, b.Lamports(a)) + If(a == executor, reward)
                                   + If(a == rentRecipient, b.Lamports(escrow) - reward)
  }

  lemma DepositSplit(b: Balances, escrow: Address, deposit: nat, rentRecipient: Address, executor: Address)
    requires escrow != rentRecipient && escrow != executor
    ensures var r := PayDepositAndClose(b, escrow, deposit, rentRecipient, executor);
            var reward := Reward(deposit, rentRecipient, executor);
      && (r.Ok? <==> reward <= b.Lamports(escrow))
      && (r.Ok? ==> DepositPaid(b, r.value, escrow, reward, rentRecipient, executor))
  {
    if rentRecipient == executor {
      MoveEffect(b, escrow, rentRecipient, b.Lamports(escrow));
    } else {
      DistinctExecutorSplit(b, escrow, deposit, rentRecipient, executor);
    }
  }

  /** A native payout. Whatever accounts coincide, the amount goes to the recipient, the
      deposit to a distinct executor and everything else to the rent recipient; a payment
      to the escrow account itself ends with the rent recipient. */
  ghost predicate PaidInLamports(
    b: Balances, b': Balances, escrow: Address, ata: Address, amount: nat, recipient: Address,
    deposit: nat, rentRecipient: Address, executor: Address)
  {
    var funds := b.Lamports(ata) + b.Lamports(escrow);
    var reward := Reward(deposit, rentRecipient, executor);
    var due := If(recipient != escrow, amount);
    && due + reward <= funds
    && b'.tokens == b.tokens - {ata}
    && SplitAmong(b, b', escrow, ata, recipient, due, executor, reward, rentRecipient, funds - due - reward)
  }

  /** Closing the token account into the escrow account, paying the recipient from there and
      then splitting what is left makes such a payout. */
  lemma NativePaid(
    b: Balances, closed: Balances, paid: Balances, b': Balances, escrow: Address, ata: Address, amount: nat,
    recipient: Address, deposit: nat, rentRecipient: Address, executor: Address)
    requires ata != escrow && escrow != rentRecipient && escrow != executor
    requires closed.tokens == b.tokens - {ata} && Shifted(b, closed, ata, escrow, b.Lamports(ata))
    requires paid.tokens == closed.tokens && Shifted(closed, paid, escrow, recipient, amount)
    requires DepositPaid(paid, b', escrow, Reward(deposit, rentRecipient, executor), rentRecipient, executor)
    ensures PaidInLamports(b, b', escrow, ata, amount, recipient, deposit, rentRecipient, executor)
  {
    var all, reward := b.Lamports(ata), Reward(deposit, rentRecipient, executor);
    var due := If(recipient != escrow, amount);
    assert closed.Lamports(escrow) + If(escrow == ata, all) == b.Lamports(escrow) + If(escrow == escrow, all);
    assert paid.Lamports(escrow) + If(escrow == escrow, amount)
      == closed.Lamports(escrow) + If(escrow == recipient, amount);
    forall a
      ensures b'.Lamports(a) == If(a != escrow && a != ata, b.Lamports(a)) + If(a == recipient, due)
        + If(a == executor, reward) + If(a == rentRecipient, all + b.Lamports(escrow) - due - reward)
    {
      assert closed.Lamports(a) + If(a == ata, all) == b.Lamports(a) + If(a == escrow, all);
      assert paid.Lamports(a) + If(a == escrow, amount) == closed.Lamports(a) + If(a == recipient, amount);
    }
  }

  lemma NativePayoutSteps(
    c: Chain, b: Balances, amount: nat, escrow: Address, ata: Address, recipient: Address, rentRecipient: Address)
    returns (closed: Balances)
    requires escrow.EscrowPda? && ata == Ata(escrow, c.nativeMint) && ata in b.tokens
    ensures closed.tokens == b.tokens - {ata} && Shifted(b, closed, ata, escrow, b.Lamports(ata))
    ensures closed.Lamports(escrow) == b.Lamports(ata) + b.Lamports(escrow)
    ensures ProcessPayout(c, b, true, amount, escrow, ata, recipient, None, rentRecipient)
         == MoveLamports(closed, escrow, recipient, amount)
  {
    CloseTokenEffect(c, b, ata, escrow);
    closed := CloseTokenAccount(c, b, ata, escrow).value;
    assert closed.Lamports(escrow) + If(escrow == ata, b.Lamports(ata))
        == b.Lamports(escrow) + If(escrow == escrow, b.Lamports(ata));
  }

  /** It fails only for lack of lamports. */
  lemma NativePayoutSplit(
    c: Chain, b: Balances, amount: nat, deposit: nat, escrow: Address, ata: Address,
    recipient: Address, rentRecipient: Address, executor: Address)
    requires escrow.EscrowPda? && ata == Ata(escrow, c.nativeMint) && ata in b.tokens
    requires rentRecipient.Key? && executor.Key?
    ensures var paid := ProcessPayout(c, b, true, amount, escrow, ata, recipient, None, rentRecipient);
            var funds := b.Lamports(ata) + b.Lamports(escrow);
      && (paid.Ok? <==> amount <= funds)
      && (paid.Ok? ==>
          var r := PayDepositAndClose(paid.value, escrow, deposit, rentRecipient, executor);
          && (r.Ok? <==> If(recipient != escrow, amount) + Reward(deposit, rentRecipient, executor) <= funds)
          && (r.Ok? ==> PaidInLamports(b, r.value, escrow, ata, amount, recipient, deposit, rentRecipient, executor)))
  {
    var closed := NativePayoutSteps(c, b, amount, escrow, ata, recipient, rentRecipient);
    MoveShift(closed, escrow, recipient, amount);
    if amount <= closed.Lamports(escrow) {
      var paid := MoveLamports(closed, escrow, recipient, amount).value;
      assert paid.Lamports(escrow) + If(escrow == escrow, amount)
          == closed.Lamports(escrow) + If(escrow == recipient, amount);
      DepositSplit(paid, escrow, deposit, rentRecipient, executor);
      var r := PayDepositAndClose(paid, escrow, deposit, rentRecipient, executor);
      if r.Ok? {
        NativePaid(b, closed, paid, r.value, escrow, ata, amount, recipient, deposit, rentRecipient, executor);
      }
    }
  }

  /** The token balances after all tokens of `ata` went to `to` and `ata` was closed. */
  function Emptied(b: Balances, ata: Address, to: Address): map<Address, nat> {
    (if TokensIn(b, ata) == 0 then b.tokens else b.tokens[to := TokensIn(b, to) + TokensIn(b, ata)]) - {ata}
  }

  /** Tokens left `ata` for `to`, and all other lamports of `ata` for the rent recipient. */
  ghost predicate WithdrawnTo(c: Chain, b: Balances, b': Balances, ata: Address, to: Address, rentRecipient: Address) {
    var along := If(IsNative(c, ata), TokensIn(b, ata));
    && along <= b.Lamports(ata)
    && b'.tokens == Emptied(b, ata, to)
    && forall a :: b'.Lamports(a) == If(a != ata, b.Lamports(a)) + If(a == to, along)
                                   + If(a == rentRecipient, b.Lamports(ata) - along)
  }

  lemma SweptAfterShift(
    b: Balances, paid: Balances, b': Balances, from: Address, to: Address, along: nat, sweeper: Address)
    requires from != to && from != sweeper
    requires Shifted(b, paid, from, to, along) && Shifted(paid, b', from, sweeper, paid.Lamports(from))
    ensures along <= b.Lamports(from)
    ensures forall a :: b'.Lamports(a) == If(a != from, b.Lamports(a)) + If(a == to, along)
                                        + If(a == sweeper, b.Lamports(from) - along)
  {
    var rest := paid.Lamports(from);
    assert rest + If(from == from, along) == b.Lamports(from) + If(from == to, along);
    forall a
      ensures b'.Lamports(a) == If(a != from, b.Lamports(a)) + If(a == to, along) + If(a == sweeper, rest)
    {
      assert paid.Lamports(a) + If(a == from, along) == b.Lamports(a) + If(a == to, along);
      assert b'.Lamports(a) + If(a == from, rest) == paid.Lamports(a) + If(a == sweeper, rest);
    }
  }

  lemma WithdrawSucceeds(c: Chain, b: Balances, ata: Address, to: Address, rentRecipient: Address)
    requires Backed(c, b) && ata in b.tokens && ata.Ata? && to != ata && rentRecipient.Key?
    ensures WithdrawAndCloseTokenAta(c, b, ata, to, rentRecipient).Ok? <==> to in b.tokens || b.tokens[ata] == 0
  {
    if to in b.tokens {
      TransferEffect(c, b, ata, to, b.tokens[ata]);
    }
  }

  lemma WithdrawEffect(
    c: Chain, b: Balances, paid: Balances, b': Balances, ata: Address, to: Address, rentRecipient: Address)
    requires Backed(c, b) && ata in b.tokens && ata.Ata? && to != ata && rentRecipient.Key?
    requires to in b.tokens || b.tokens[ata] == 0
    requires TokenTransfer(c, b, ata, to, b.tokens[ata]) == Ok(paid)
    requires CloseTokenAccount(c, paid, ata, rentRecipient) == Ok(b')
    ensures WithdrawnTo(c, b, b', ata, to, rentRecipient)
  {
    PaidOut(c, b, paid, ata, to);
    CloseTokenEffect(c, paid, ata, rentRecipient);
    SweptAfterShift(b, paid, b', ata, to, If(IsNative(c, ata), b.tokens[ata]), rentRecipient);
  }

  lemma PaidOut(c: Chain, b: Balances, paid: Balances, ata: Address, to: Address)
    requires Backed(c, b) && ata in b.tokens && ata.Ata? && to != ata && (to in b.tokens || b.tokens[ata] == 0)
    requires TokenTransfer(c, b, ata, to, b.tokens[ata]) == Ok(paid)
    ensures ata in paid.tokens && Emptied(b, ata, to) == paid.tokens - {ata}
    ensures Shifted(b, paid, ata, to, If(IsNative(c, ata), b.tokens[ata]))
  {
    if to in b.tokens {
      TransferEffect(c, b, ata, to, b.tokens[ata]);
    }
  }

  /** A token payout: every token in the account, donations included, to the recipient's
      token account (with their lamports if the mint is native), the deposit to a distinct
      executor, and all other lamports to the rent recipient. */
  ghost predicate PaidInTokens(
    c: Chain, b: Balances, b': Balances, escrow: Address, ata: Address, to: Address,
    deposit: nat, rentRecipient: Address, executor: Address)
  {
    var along := If(IsNative(c, ata), TokensIn(b, ata));
    var funds := b.Lamports(ata) + b.Lamports(escrow);
    var reward := Reward(deposit, rentRecipient, executor);
    && along + reward <= funds
    && b'.tokens == Emptied(b, ata, to)
    && SplitAmong(b, b', escrow, ata, to, along, executor, reward, rentRecipient, funds - along - reward)
  }

  lemma TokensPaid(
    c: Chain, b: Balances, closed: Balances, b': Balances, escrow: Address, ata: Address, to: Address,
    deposit: nat, rentRecipient: Address, executor: Address)
    requires to.Ata? && to != ata && escrow.EscrowPda? && rentRecipient.Key? && executor.Key? && ata.Ata?
    requires WithdrawnTo(c, b, closed, ata, to, rentRecipient)
    requires DepositPaid(closed, b', escrow, Reward(deposit, rentRecipient, executor), rentRecipient, executor)
    ensures PaidInTokens(c, b, b', escrow, ata, to, deposit, rentRecipient, executor)
  {
  }

  /** It fails only if the recipient's token account is missing while there are tokens to
      pay, or the escrow account lacks the deposit. */
  lemma TokenPayoutSplit(
    c: Chain, b: Balances, deposit: nat, escrow: Address, ata: Address,
    to: Address, rentRecipient: Address, executor: Address)
    requires Backed(c, b)
    requires escrow.EscrowPda? && ata.Ata? && ata.owner == escrow && ata in b.tokens
    requires to.Ata? && to.mint == ata.mint && to != ata
    requires rentRecipient.Key? && executor.Key?
    ensures var paid := WithdrawAndCloseTokenAta(c, b, ata, to, rentRecipient);
            && (paid.Ok? <==> to in b.tokens || b.tokens[ata] == 0)
            && (paid.Ok? ==>
                var r := PayDepositAndClose(paid.value, escrow, deposit, rentRecipient, executor);
                && (r.Ok? <==> Reward(deposit, rentRecipient, executor) <= b.Lamports(escrow))
                && (r.Ok? ==> PaidInTokens(c, b, r.value, escrow, ata, to, deposit, rentRecipient, executor)))
  {
    WithdrawSucceeds(c, b, ata, to, rentRecipient);
    if to in b.tokens || b.tokens[ata] == 0 {
      var moved := TokenTransfer(c, b, ata, to, b.tokens[ata]).value;
      var closed := CloseTokenAccount(c, moved, ata, rentRecipient).value;
      WithdrawEffect(c, b, moved, closed, ata, to, rentRecipient);
      DepositSplit(closed, escrow, deposit, rentRecipient, executor);
      var r := PayDepositAndClose(closed, escrow, deposit, rentRecipient, executor);
      if r.Ok? {
        TokensPaid(c, b, closed, r.value, escrow, ata, to, deposit, rentRecipient, executor);
      }
    }
  }

  // ----- What a payout keeps -----

  lemma WithdrawKeeps(c: Chain, b: Balances, ata: Address, to: Address, rentRecipient: Address)
    requires ata.Ata? && to.Ata? && ata.mint == to.mint
    requires WithdrawAndCloseTokenAta(c, b, ata, to, rentRecipient).Ok?
    ensures var b' := WithdrawAndCloseTokenAta(c, b, ata, to, rentRecipient).value;
      Conserves(c, b, b') && Grows(b, b', {ata}) && (Backed(c, b) ==> Backed(c, b'))
  {
    var paid := TokenTransfer(c, b, ata, to, TokensIn(b, ata)).value;
    TokenTransferConserves(c, b, ata, to, TokensIn(b, ata));
    TokenTransferGrows(c, b, ata, to, TokensIn(b, ata));
    CloseTokenConserves(c, paid, ata, rentRecipient);
    CloseTokenGrows(c, paid, ata, rentRecipient);
    GrowsTransitive(b, paid, CloseTokenAccount(c, paid, ata, rentRecipient).value, {ata}, {ata});
  }

  lemma PayoutKeeps(
    c: Chain, b: Balances, assetIsNative: bool, amount: nat, escrow: Address, ata: Address,
    recipient: Address, recipientAta: Option<Address>, rentRecipient: Address)
    requires escrow.EscrowPda? && ata.Ata?
    requires recipientAta.Some? ==> recipientAta.value.Ata? && recipientAta.value.mint == ata.mint
    requires ProcessPayout(c, b, assetIsNative, amount, escrow, ata, recipient, recipientAta, rentRecipient).Ok?
    ensures var b' := ProcessPayout(c, b, assetIsNative, amount, escrow, ata, recipient, recipientAta,
                                    rentRecipient).value;
      Conserves(c, b, b') && Grows(b, b', {ata, escrow}) && (Backed(c, b) ==> Backed(c, b'))
  {
    if assetIsNative {
      var closed := CloseTokenAccount(c, b, ata, escrow).value;
      CloseTokenConserves(c, b, ata, escrow);
      CloseTokenGrows(c, b, ata, escrow);
      MoveConserves(c, closed, escrow, recipient, amount);
      MoveGrows(c, closed, escrow, recipient, amount);
      GrowsTransitive(b, closed, MoveLamports(closed, escrow, recipient, amount).value, {ata}, {escrow});
      assert {ata} + {escrow} == {ata, escrow};
    } else {
      WithdrawKeeps(c, b, ata, recipientAta.value, rentRecipient);
    }
  }

  lemma DepositKeeps(c: Chain, b: Balances, escrow: Address, deposit: nat, rentRecipient: Address, executor: Address)
    requires !IsNative(c, escrow)
    requires PayDepositAndClose(b, escrow, deposit, rentRecipient, executor).Ok?
    ensures var b' := PayDepositAndClose(b, escrow, deposit, rentRecipient, executor).value;
      Conserves(c, b, b') && Grows(b, b', {escrow}) && (Backed(c, b) ==> Backed(c, b'))
  {
    if rentRecipient == executor {
      MoveConserves(c, b, escrow, rentRecipient, b.Lamports(escrow));
      MoveGrows(c, b, escrow, rentRecipient, b.Lamports(escrow));
    } else {
      var rewarded := MoveLamports(b, escrow, executor, deposit).value;
      MoveConserves(c, b, escrow, executor, deposit);
      MoveGrows(c, b, escrow, executor, deposit);
      MoveConserves(c, rewarded, escrow, rentRecipient, rewarded.Lamports(escrow));
      MoveGrows(c, rewarded, escrow, rentRecipient, rewarded.Lamports(escrow));
      GrowsTransitive(b, rewarded, CloseAccount(rewarded, escrow, rentRecipient), {escrow}, {escrow});
    }
  }

  // ----- Rescue -----

  /** The shared rescue instruction: gated by `start` while the account is live, then a
      plain transfer that closes the token account if it emptied it. */
  function RescueFunds(
    c: Chain, b: Balances, now: u32, start: Option<u32>, ata: Address, recipient: Address,
    recipientAta: Address, amount: u64): Result<Balances>
  {
    if start.Some? && now < start.value then Err(InvalidRescueStart)
    else if ata !in b.tokens || recipientAta !in b.tokens then Err(AccountNotInitialized)
    else
      var moved :- TokenTransfer(c, b, ata, recipientAta, amount);
      if amount == b.tokens[ata] then CloseTokenAccount(c, moved, ata, recipient) else Ok(moved)
  }

  /** A rescue moves exactly the amount asked for, whose lamports follow if the mint is
      native, and closes the account exactly when that empties it. */
  ghost predicate RescueMoved(
    c: Chain, b: Balances, b': Balances, ata: Address, recipient: Address, recipientAta: Address, amount: nat)
  {
    var along := If(IsNative(c, ata), amount);
    && amount <= TokensIn(b, ata) && along <= b.Lamports(ata)
    && var emptied := amount == TokensIn(b, ata);
       var rent := If(emptied, b.Lamports(ata) - along);
    && b'.tokens == Transferred(b, ata, recipientAta, amount) - (if emptied then {ata} else {})
    && forall a :: b'.Lamports(a) + If(a == ata, along + rent)
                == b.Lamports(a) + If(a == recipientAta, along) + If(a == recipient, rent)
  }

  lemma RescueLeavesRest(
    c: Chain, b: Balances, moved: Balances, ata: Address, recipient: Address, recipientAta: Address, amount: nat)
    requires ata != recipientAta && amount < TokensIn(b, ata) && If(IsNative(c, ata), amount) <= b.Lamports(ata)
    requires moved.tokens == Transferred(b, ata, recipientAta, amount)
    requires Shifted(b, moved, ata, recipientAta, If(IsNative(c, ata), amount))
    ensures RescueMoved(c, b, moved, ata, recipient, recipientAta, amount)
  {
  }

  lemma RescueEmpties(
    c: Chain, b: Balances, moved: Balances, b': Balances, ata: Address, recipient: Address, recipientAta: Address,
    amount: nat)
    requires ata != recipientAta && ata != recipient && amount == TokensIn(b, ata)
    requires moved.tokens == Transferred(b, ata, recipientAta, amount) && b'.tokens == moved.tokens - {ata}
    requires Shifted(b, moved, ata, recipientAta, If(IsNative(c, ata), amount))
    requires Shifted(moved, b', ata, recipient, moved.Lamports(ata))
    ensures RescueMoved(c, b, b', ata, recipient, recipientAta, amount)
  {
    SweptAfterShift(b, moved, b', ata, recipientAta, If(IsNative(c, ata), amount), recipient);
  }

  lemma RescueIsExact(
    c: Chain, b: Balances, now: u32, start: Option<u32>, ata: Address, recipient: Address,
    recipientAta: Address, amount: u64)
    requires Backed(c, b) && ata.Ata? && recipientAta.Ata? && ata != recipientAta && recipient.Key?
    requires RescueFunds(c, b, now, start, ata, recipient, recipientAta, amount).Ok?
    ensures RescueMoved(c, b, RescueFunds(c, b, now, start, ata, recipient, recipientAta, amount).value,
                        ata, recipient, recipientAta, amount)
  {
    TransferEffect(c, b, ata, recipientAta, amount);
    var moved := TokenTransfer(c, b, ata, recipientAta, amount).value;
    if amount == b.tokens[ata] {
      CloseTokenEffect(c, moved, ata, recipient);
      RescueEmpties(c, b, moved, CloseTokenAccount(c, moved, ata, recipient).value, ata, recipient, recipientAta,
                    amount);
    } else {
      RescueLeavesRest(c, b, moved, ata, recipient, recipientAta, amount);
    }
  }

  /** Rescue succeeds exactly when its time has come, both token accounts are open and the
      amount is there. */
  lemma RescueSucceeds(
    c: Chain, b: Balances, now: u32, start: Option<u32>, ata: Address, recipient: Address,
    recipientAta: Address, amount: u64)
    requires Backed(c, b) && ata.Ata? && recipientAta.Ata? && ata != recipientAta && recipient.Key?
    ensures RescueFunds(c, b, now, start, ata, recipient, recipientAta, amount).Ok? <==>
      && (start.Some? ==> start.value <= now)
      && ata in b.tokens && recipientAta in b.tokens && amount <= b.tokens[ata]
  {
    if ata in b.tokens && recipientAta in b.tokens {
      TransferEffect(c, b, ata, recipientAta, amount);
    }
  }

  lemma RescueKeeps(
    c: Chain, b: Balances, now: u32, start: Option<u32>, ata: Address, recipient: Address,
    recipientAta: Address, amount: u64)
    requires ata.Ata? && recipientAta.Ata? && ata.mint == recipientAta.mint
    requires RescueFunds(c, b, now, start, ata, recipient, recipientAta, amount).Ok?
    ensures var b' := RescueFunds(c, b, now, start, ata, recipient, recipientAta, amount).value;
      Conserves(c, b, b') && Grows(b, b', {ata}) && (Backed(c, b) ==> Backed(c, b'))
  {
    var moved := TokenTransfer(c, b, ata, recipientAta, amount).value;
    TokenTransferConserves(c, b, ata, recipientAta, amount);
    TokenTransferGrows(c, b, ata, recipientAta, amount);
    if amount == b.tokens[ata] {
      CloseTokenConserves(c, moved, ata, recipient);
      CloseTokenGrows(c, moved, ata, recipient);
      GrowsTransitive(b, moved, CloseTokenAccount(c, moved, ata, recipient).value, {ata}, {ata});
    }
  }
}
