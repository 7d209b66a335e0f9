/** Lamport and token balances as values, and the effect on them of every transfer,
    account creation and account closing that the programs request. */
module Accounts {
  import opened Wrappers
  import opened Bits
  import opened Numerals

  /** The seeds that make an escrow's address. */
  datatype EscrowId = EscrowId(orderHash: Bytes32, hashlock: Bytes32, creator: Bytes32, amount: u64)

  /** Addresses as terms: a key pair's public key, an account derived from a program's
      seeds, or an associated token account. Distinct terms are distinct addresses. */
  datatype Address =
    | Key(k: Bytes32)
    | OrderPda(orderHash: Bytes32)
    | EscrowPda(id: EscrowId)
    | Ata(owner: Address, mint: Bytes32)

  /** The native mint and the rent-exempt minimum of each kind of account. */
  datatype Chain = Chain(nativeMint: Bytes32, tokenRent: nat, orderRent: nat, escrowRent: nat)

  /** Lamports of every account, and tokens of every open associated token account. */
  datatype Balances = Balances(lamports: map<Address, nat>, tokens: map<Address, nat>) {
    function Lamports(a: Address): nat {
      if a in lamports then lamports[a] else 0
    }

    function WithLamports(a: Address, n: nat): Balances {
      this.(lamports := lamports[a := n])
    }

    function WithTokens(a: Address, n: nat): Balances {
      this.(tokens := tokens[a := n])
    }
  }

  predicate IsNative(c: Chain, a: Address) {
    a.Ata? && a.mint == c.nativeMint
  }

  // ----- The programs' token accounts -----

  function OrderAta(orderHash: Bytes32, mint: Bytes32): Address {
    Ata(OrderPda(orderHash), mint)
  }

  function EscrowAta(id: EscrowId, mint: Bytes32): Address {
    Ata(EscrowPda(id), mint)
  }

  function Wallet(owner: Bytes32, mint: Bytes32): Address {
    Ata(Key(owner), mint)
  }

  /** An optional token account is absent, or given and open. */
  predicate GivenIsOpen(b: Balances, given: bool, a: Address) {
    given ==> a in b.tokens
  }

  function Optional(given: bool, a: Address): Option<Address> {
    if given then Some(a) else None
  }

  // ----- Steps -----

  function SubLamports(b: Balances, a: Address, n: nat): Result<Balances> {
    if b.Lamports(a) < n then Err(InsufficientFunds) else Ok(b.WithLamports(a, b.Lamports(a) - n))
  }

  function AddLamports(b: Balances, a: Address, n: nat): Balances {
    b.WithLamports(a, b.Lamports(a) + n)
  }

  function MoveLamports(b: Balances, from: Address, to: Address, n: nat): Result<Balances> {
    var taken :- SubLamports(b, from, n);
    Ok(AddLamports(taken, to, n))
  }

  lemma MoveEffect(b: Balances, from: Address, to: Address, n: nat)
    requires from != to
    ensures MoveLamports(b, from, to, n).Ok? <==> n <= b.Lamports(from)
    ensures MoveLamports(b, from, to, n).Ok? ==>
      var b' := MoveLamports(b, from, to, n).value;
      && b'.tokens == b.tokens
      && forall a :: b'.Lamports(a) == if a == from then b.Lamports(a) - n
                                       else if a == to then b.Lamports(a) + n else b.Lamports(a)
  {
  }

  function If(condition: bool, n: nat): nat {
    if condition then n else 0
  }

  /** Lamports went from one account to another and nothing else changed. */
  ghost predicate Shifted(b: Balances, b': Balances, from: Address, to: Address, n: nat) {
    forall a :: b'.Lamports(a) + If(a == from, n) == b.Lamports(a) + If(a == to, n)
  }

  /** A transfer by the system program; a transfer of nothing is skipped. */
  function NativeTransfer(b: Balances, from: Address, to: Address, n: nat): Result<Balances> {
    if n == 0 then Ok(b) else MoveLamports(b, from, to, n)
  }

  /** A transfer by the token program, which moves native tokens' lamports along. */
  function TokenTransfer(c: Chain, b: Balances, from: Address, to: Address, n: nat): Result<Balances> {
    if n == 0 then Ok(b)
    else if from !in b.tokens || to !in b.tokens then Err(AccountNotInitialized)
    else if b.tokens[from] < n then Err(InsufficientFunds)
    else if from == to then Ok(b)
    else
      var moved := b.WithTokens(from, b.tokens[from] - n).WithTokens(to, b.tokens[to] + n);
      if IsNative(c, from) then MoveLamports(moved, from, to, n) else Ok(moved)
  }

  /** Recomputes a native token account's balance from its lamports. */
  function SyncNative(c: Chain, b: Balances, a: Address): Result<Balances> {
    if a !in b.tokens || !IsNative(c, a) then Err(AccountNotInitialized)
    else if b.Lamports(a) < c.tokenRent + b.tokens[a] then Err(InsufficientFunds)
    else Ok(b.WithTokens(a, b.Lamports(a) - c.tokenRent))
  }

  /** Closes a token account, which must be empty unless it is native. */
  function CloseTokenAccount(c: Chain, b: Balances, a: Address, to: Address): Result<Balances> {
    if a !in b.tokens || a == to then Err(AccountNotInitialized)
    else if !IsNative(c, a) && b.tokens[a] != 0 then Err(NonNativeHasBalance)
    else
      var swept :- MoveLamports(b, a, to, b.Lamports(a));
      Ok(swept.(tokens := swept.tokens - {a}))
  }

  /** Tops an address up to the rent-exempt minimum. */
  function FundRent(b: Balances, payer: Address, a: Address, rent: nat): Result<Balances> {
    if b.Lamports(a) >= rent then Ok(b) else MoveLamports(b, payer, a, rent - b.Lamports(a))
  }

  /** `init_if_needed` on an associated token account. */
  function OpenTokenAccount(c: Chain, b: Balances, payer: Address, a: Address): Result<Balances> {
    if a in b.tokens then Ok(b)
    else
      var funded :- FundRent(b, payer, a, c.tokenRent);
      Ok(funded.WithTokens(a, if IsNative(c, a) && funded.Lamports(a) >= c.tokenRent
                              then funded.Lamports(a) - c.tokenRent else 0))
  }

  /** Anchor's `close`: every lamport of the account goes to the destination. */
  function CloseAccount(b: Balances, a: Address, to: Address): (r: Balances)
    ensures MoveLamports(b, a, to, b.Lamports(a)) == Ok(r)
  {
    AddLamports(b.WithLamports(a, 0), to, b.Lamports(a))
  }

  /** What an account lacks of its rent. */
  function Short(b: Balances, a: Address, rent: nat): nat {
    if b.Lamports(a) < rent then rent - b.Lamports(a) else 0
  }

  lemma FundRentEffect(b: Balances, payer: Address, a: Address, rent: nat)
    requires payer != a
    ensures var r := FundRent(b, payer, a, rent);
      && (r.Ok? <==> Short(b, a, rent) <= b.Lamports(payer))
      && (r.Ok? ==> r.value.tokens == b.tokens && Shifted(b, r.value, payer, a, Short(b, a, rent)))
  {
    MoveEffect(b, payer, a, Short(b, a, rent));
  }

  /** What it takes to open a token account. */
  function TokenDues(c: Chain, b: Balances, ata: Address): nat {
    if ata in b.tokens then 0 else Short(b, ata, c.tokenRent)
  }

  /** The tokens once `ata` is open: a native account has what it holds beyond its rent. */
  function Opened(c: Chain, b: Balances, ata: Address): map<Address, nat> {
    if ata in b.tokens then b.tokens
    else b.tokens[ata := if IsNative(c, ata) && b.Lamports(ata) >= c.tokenRent then b.Lamports(ata) - c.tokenRent
                  else 0]
  }

  lemma OpenTokenEffect(c: Chain, b: Balances, payer: Address, ata: Address)
    requires payer != ata
    ensures var r, dues := OpenTokenAccount(c, b, payer, ata), TokenDues(c, b, ata);
      && (r.Ok? <==> dues <= b.Lamports(payer))
      && (r.Ok? ==> r.value.tokens == Opened(c, b, ata) && Shifted(b, r.value, payer, ata, dues))
  {
    FundRentEffect(b, payer, ata, c.tokenRent);
  }

  /** What it takes to open an account and its token account. */
  function Dues(c: Chain, b: Balances, pda: Address, rent: nat, ata: Address): nat {
    Short(b, pda, rent) + TokenDues(c, b, ata)
  }

  /** The payer has paid both accounts' dues and no one else has lost or gained. */
  ghost predicate Charged(
    c: Chain, b: Balances, b': Balances, payer: Address, pda: Address, rent: nat, ata: Address)
  {
    && b'.tokens == Opened(c, b, ata)
    && forall a :: b'.Lamports(a) + If(a == payer, Dues(c, b, pda, rent, ata))
                == b.Lamports(a) + If(a == pda, Short(b, pda, rent)) + If(a == ata, TokenDues(c, b, ata))
  }

  lemma TwoShifts(b: Balances, b1: Balances, b2: Balances, payer: Address, to1: Address, n1: nat, to2: Address, n2: nat)
    requires Shifted(b, b1, payer, to1, n1) && Shifted(b1, b2, payer, to2, n2)
    ensures forall a :: b2.Lamports(a) + If(a == payer, n1 + n2)
                     == b.Lamports(a) + If(a == to1, n1) + If(a == to2, n2)
  {
    forall a
      ensures b2.Lamports(a) + If(a == payer, n1 + n2) == b.Lamports(a) + If(a == to1, n1) + If(a == to2, n2)
    {
      assert b1.Lamports(a) + If(a == payer, n1) == b.Lamports(a) + If(a == to1, n1);
      assert b2.Lamports(a) + If(a == payer, n2) == b1.Lamports(a) + If(a == to2, n2);
    }
  }

  /** Opening an account and its token account costs its payer exactly what the two lack of
      their rents, fails exactly when the payer has not got that, and touches no one else. */
  lemma OpeningIsCharged(c: Chain, b: Balances, payer: Address, pda: Address, rent: nat, ata: Address)
    requires payer.Key? && !pda.Key? && !pda.Ata? && ata.Ata?
    ensures var funded := FundRent(b, payer, pda, rent);
      && (Dues(c, b, pda, rent, ata) <= b.Lamports(payer) <==>
            funded.Ok? && OpenTokenAccount(c, funded.value, payer, ata).Ok?)
      && (Dues(c, b, pda, rent, ata) <= b.Lamports(payer) ==>
            Charged(c, b, OpenTokenAccount(c, funded.value, payer, ata).value, payer, pda, rent, ata))
  {
    var funded := FundRent(b, payer, pda, rent);
    FundRentEffect(b, payer, pda, rent);
    if funded.Ok? {
      UntouchedByShift(c, b, funded.value, payer, pda, Short(b, pda, rent), ata);
      OpenTokenEffect(c, funded.value, payer, ata);
      var r := OpenTokenAccount(c, funded.value, payer, ata);
      if r.Ok? {
        TwoShifts(b, funded.value, r.value, payer, pda, Short(b, pda, rent), ata, TokenDues(c, b, ata));
      }
    }
  }

  lemma UntouchedByShift(c: Chain, b: Balances, b': Balances, from: Address, to: Address, n: nat, a: Address)
    requires Shifted(b, b', from, to, n) && b'.tokens == b.tokens && a != from && a != to && from != to
    ensures b'.Lamports(a) == b.Lamports(a) && b'.Lamports(from) == b.Lamports(from) - n
    ensures TokenDues(c, b', a) == TokenDues(c, b, a) && Opened(c, b', a) == Opened(c, b, a)
  {
    assert b'.Lamports(a) + If(a == from, n) == b.Lamports(a) + If(a == to, n);
    assert b'.Lamports(from) + If(from == from, n) == b.Lamports(from) + If(from == to, n);
  }

  // ----- Conservation -----

  /** Whether an account counts towards a total: all do, or those of one mint. */
  predicate Counts(a: Address, mint: Option<Bytes32>) {
    mint.None? || (a.Ata? && a.mint == mint.value)
  }

  ghost function Sum(m: map<Address, nat>, mint: Option<Bytes32>): nat {
    if m == map[] then 0
    else
      var a :| a in m;
      (if Counts(a, mint) then m[a] else 0) + Sum(m - {a}, mint)
  }

  lemma {:induction false} SumWithout(m: map<Address, nat>, mint: Option<Bytes32>, a: Address)
    requires a in m
    ensures Sum(m, mint) == (if Counts(a, mint) then m[a] else 0) + Sum(m - {a}, mint)
    decreases |m|
  {
    var first :| first in m && Sum(m, mint) == (if Counts(first, mint) then m[first] else 0) + Sum(m - {first}, mint);
    if first != a {
      SumWithout(m - {first}, mint, a);
      SumWithout(m - {a}, mint, first);
      assert m - {first} - {a} == m - {a} - {first};
    }
  }

  /** Writing one entry changes the total by the change of that entry. */
  lemma SumUpdate(m: map<Address, nat>, mint: Option<Bytes32>, a: Address, n: nat)
    ensures Sum(m[a := n], mint) + (if a in m && Counts(a, mint) then m[a] else 0)
         == Sum(m, mint) + (if Counts(a, mint) then n else 0)
  {
    SumWithout(m[a := n], mint, a);
    assert m[a := n] - {a} == m - {a};
    if a in m {
      SumWithout(m, mint, a);
    } else {
      assert m - {a} == m;
    }
  }

  ghost function TotalLamports(b: Balances): nat {
    Sum(b.lamports, None)
  }

  ghost function TotalTokens(b: Balances, mint: Bytes32): nat {
    Sum(b.tokens, Some(mint))
  }

  /** Lamports are conserved, and so are the tokens of every mint but the native one,
      whose tokens are lamports. */
  ghost predicate Conserves(c: Chain, b: Balances, b': Balances) {
    && TotalLamports(b') == TotalLamports(b)
    && forall mint :: mint != c.nativeMint ==> TotalTokens(b', mint) == TotalTokens(b, mint)
  }

  /** No single balance exceeds the conserved total. */
  lemma BalanceBelowTotal(b: Balances, a: Address)
    ensures b.Lamports(a) <= TotalLamports(b)
  {
    if a in b.lamports { SumWithout(b.lamports, None, a); }
  }

  lemma MoveConserves(c: Chain, b: Balances, from: Address, to: Address, n: nat)
    requires MoveLamports(b, from, to, n).Ok?
    ensures Conserves(c, b, MoveLamports(b, from, to, n).value)
  {
    var taken := SubLamports(b, from, n).value;
    SumUpdate(b.lamports, None, from, b.Lamports(from) - n);
    SumUpdate(taken.lamports, None, to, taken.Lamports(to) + n);
  }

  lemma TokenTransferConserves(c: Chain, b: Balances, from: Address, to: Address, n: nat)
    requires from.Ata? && to.Ata? && from.mint == to.mint
    requires TokenTransfer(c, b, from, to, n).Ok?
    ensures Conserves(c, b, TokenTransfer(c, b, from, to, n).value)
  {
    if n != 0 && from != to {
      var left := b.WithTokens(from, b.tokens[from] - n);
      var moved := left.WithTokens(to, b.tokens[to] + n);
      forall mint ensures TotalTokens(moved, mint) == TotalTokens(b, mint) {
        SumUpdate(b.tokens, Some(mint), from, b.tokens[from] - n);
        SumUpdate(left.tokens, Some(mint), to, left.tokens[to] + n);
      }
      if IsNative(c, from) {
        MoveConserves(c, moved, from, to, n);
      }
    }
  }

  lemma SyncConserves(c: Chain, b: Balances, a: Address)
    requires SyncNative(c, b, a).Ok?
    ensures Conserves(c, b, SyncNative(c, b, a).value)
  {
    forall mint | mint != c.nativeMint
      ensures TotalTokens(SyncNative(c, b, a).value, mint) == TotalTokens(b, mint)
    {
      SumUpdate(b.tokens, Some(mint), a, b.Lamports(a) - c.tokenRent);
    }
  }

  lemma CloseTokenConserves(c: Chain, b: Balances, a: Address, to: Address)
    requires CloseTokenAccount(c, b, a, to).Ok?
    ensures Conserves(c, b, CloseTokenAccount(c, b, a, to).value)
  {
    MoveConserves(c, b, a, to, b.Lamports(a));
    forall mint | mint != c.nativeMint
      ensures TotalTokens(CloseTokenAccount(c, b, a, to).value, mint) == TotalTokens(b, mint)
    {
      SumWithout(b.tokens, Some(mint), a);
    }
  }

  lemma FundRentConserves(c: Chain, b: Balances, payer: Address, a: Address, rent: nat)
    requires FundRent(b, payer, a, rent).Ok?
    ensures Conserves(c, b, FundRent(b, payer, a, rent).value)
  {
    if b.Lamports(a) < rent { MoveConserves(c, b, payer, a, rent - b.Lamports(a)); }
  }

  lemma OpenTokenConserves(c: Chain, b: Balances, payer: Address, a: Address)
    requires a.Ata? && OpenTokenAccount(c, b, payer, a).Ok?
    ensures Conserves(c, b, OpenTokenAccount(c, b, payer, a).value)
  {
    if a !in b.tokens {
      FundRentConserves(c, b, payer, a, c.tokenRent);
      var funded := FundRent(b, payer, a, c.tokenRent).value;
      forall mint | mint != c.nativeMint
        ensures TotalTokens(OpenTokenAccount(c, b, payer, a).value, mint) == TotalTokens(b, mint)
      {
        SumUpdate(funded.tokens, Some(mint), a, OpenTokenAccount(c, b, payer, a).value.tokens[a]);
      }
    }
  }

  // ----- What the programs guard -----

  /** The accounts that only the programs can debit: their own and their token accounts. */
  predicate Guarded(a: Address) {
    a.OrderPda? || a.EscrowPda? || (a.Ata? && !a.owner.Key?)
  }

  predicate NotBelow(b: Balances, b': Balances, a: Address) {
    && b.Lamports(a) <= b'.Lamports(a)
    && (a in b.tokens ==> a in b'.tokens && b.tokens[a] <= b'.tokens[a])
  }

  /** No guarded account outside `except` has lost anything. */
  ghost predicate Grows(b: Balances, b': Balances, except: set<Address>) {
    forall a :: Guarded(a) && a !in except ==> NotBelow(b, b', a)
  }

  /** Every native token account holds the lamports of its tokens and its rent. */
  ghost predicate Backed(c: Chain, b: Balances) {
    forall a :: a in b.tokens && IsNative(c, a) ==> c.tokenRent + b.tokens[a] <= b.Lamports(a)
  }

  /** Outsiders may donate to the programs' accounts and do as they like with their own,
      but they cannot debit a guarded account or unback a native one. */
  ghost predicate WorldMay(c: Chain, b: Balances, b': Balances) {
    Grows(b, b', {}) && (Backed(c, b) ==> Backed(c, b'))
  }

  lemma GrowsTransitive(b: Balances, b': Balances, b'': Balances, except: set<Address>, except': set<Address>)
    requires Grows(b, b', except) && Grows(b', b'', except')
    ensures Grows(b, b'', except + except')
  {
    forall a | Guarded(a) && a !in except + except' ensures NotBelow(b, b'', a) {
      assert NotBelow(b, b', a) && NotBelow(b', b'', a);
    }
  }

  lemma MoveGrows(c: Chain, b: Balances, from: Address, to: Address, n: nat)
    requires MoveLamports(b, from, to, n).Ok?
    ensures var b' := MoveLamports(b, from, to, n).value;
      && Grows(b, b', {from})
      && (!Guarded(from) ==> Grows(b, b', {}))
      && (Backed(c, b) && !IsNative(c, from) ==> Backed(c, b'))
  {
  }

  lemma TokenTransferGrows(c: Chain, b: Balances, from: Address, to: Address, n: nat)
    requires from.Ata? && to.Ata? && from.mint == to.mint
    requires TokenTransfer(c, b, from, to, n).Ok?
    ensures var b' := TokenTransfer(c, b, from, to, n).value;
      && Grows(b, b', {from})
      && (!Guarded(from) ==> Grows(b, b', {}))
      && (Backed(c, b) ==> Backed(c, b'))
  {
  }

  lemma SyncGrows(c: Chain, b: Balances, a: Address)
    requires SyncNative(c, b, a).Ok?
    ensures Grows(b, SyncNative(c, b, a).value, {})
    ensures Backed(c, b) ==> Backed(c, SyncNative(c, b, a).value)
  {
  }

  lemma CloseTokenGrows(c: Chain, b: Balances, a: Address, to: Address)
    requires CloseTokenAccount(c, b, a, to).Ok?
    ensures Grows(b, CloseTokenAccount(c, b, a, to).value, {a})
    ensures Backed(c, b) ==> Backed(c, CloseTokenAccount(c, b, a, to).value)
  {
  }

  lemma FundRentGrows(c: Chain, b: Balances, payer: Address, a: Address, rent: nat)
    requires payer.Key? && FundRent(b, payer, a, rent).Ok?
    ensures var b' := FundRent(b, payer, a, rent).value;
      && Grows(b, b', {})
      && (Backed(c, b) ==> Backed(c, b'))
      && b'.tokens == b.tokens
      && (a != payer ==> b'.Lamports(a) == (if b.Lamports(a) >= rent then b.Lamports(a) else rent))
  {
  }

  lemma OpenTokenGrows(c: Chain, b: Balances, payer: Address, a: Address)
    requires payer.Key? && a.Ata? && OpenTokenAccount(c, b, payer, a).Ok?
    ensures var b' := OpenTokenAccount(c, b, payer, a).value;
      && Grows(b, b', {})
      && (Backed(c, b) ==> Backed(c, b'))
      && a in b'.tokens && b'.tokens.Keys == b.tokens.Keys + {a}
  {
  }
}
