/** What every run guarantees about an order: how often and by whom it can be filled, that
    no secret opens two of its escrows, and what the destination chain owes its maker. */
module OrderProperties {
  import opened Wrappers
  import opened Bits
  import opened Numerals
  import opened Auction
  import opened Timelocks
  import opened Merkle
  import opened MerkleProofs
  import opened PartialFill
  import opened DstAmount
  import opened Encoding
  import opened Accounts
  import opened Payouts
  import opened SourceSpec
  import opened SourceInvariant
  import opened SourceEffects
  import opened SourceRuns
  import opened Sequences
  import opened OrderBook

  // ----- Accounting -----

  /** No order has more fills than units, nor more than one for each of its secrets. */
  lemma FillsAreBounded(h: Hasher, c: Chain, s: State, ixs: seq<Instruction>, k: Bytes32)
    requires Genesis(s) && Backed(c, s.balances) && Book(h, c, s, ixs, k).Some?
    ensures var b := Book(h, c, s, ixs, k).value;
      && |b.fills| <= b.order.amount
      && |b.fills| <= if b.order.allowMultipleFills then PartsAmount(b.order.hashlock) + 1 else 1
  {
    var b := Book(h, c, s, ixs, k).value;
    BookIsKept(h, c, s, ixs, k);
    if b.order.allowMultipleFills {
      FillCountBound(b.order.amount, PartsAmount(b.order.hashlock), Fills(b.fills));
    }
  }

  // ----- The stateless check -----

  /** An order open to several fills, reached by a run, with its history. */
  ghost predicate OpenInRun(
    h: Hasher, c: Chain, s: State, ixs: seq<Instruction>, k: Bytes32, o: Order, parts: u64, fills: seq<Fill>)
  {
    var s' := Run(h, c, s, ixs);
    && Genesis(s) && Backed(c, s.balances)
    && k in s'.orders && s'.orders[k] == o && o.allowMultipleFills && parts == PartsAmount(o.hashlock)
    && Book(h, c, s, ixs, k).Some? && fills == Fills(Book(h, c, s, ixs, k).value.fills)
  }

  lemma OpenOrderRun(
    h: Hasher, c: Chain, s: State, ixs: seq<Instruction>, k: Bytes32, o: Order, parts: u64, fills: seq<Fill>)
    requires OpenInRun(h, c, s, ixs, k, o, parts, fills)
    ensures OpenRun(o.amount, parts, fills, o.remainingAmount)
  {
    BookIsKept(h, c, s, ixs, k);
  }

  /** In every reachable open order, the index recomputed from what remains is the one its
      last fill used, and the check that keeps no record answers as one that does. */
  lemma RecomputationIsRecord(
    h: Hasher, c: Chain, s: State, ixs: seq<Instruction>, k: Bytes32, o: Order, parts: u64, fills: seq<Fill>,
    fill: Fill)
    requires OpenInRun(h, c, s, ixs, k, o, parts, fills) && fill.amount <= o.remainingAmount <= o.amount
    ensures RecomputesRecord(o.amount, parts, fills, o.remainingAmount, fill)
  {
    OpenOrderRun(h, c, s, ixs, k, o, parts, fills);
    OpenRunsRecompute(o.amount, parts, fills, o.remainingAmount, fill);
  }

  /** Every reachable open order can be closed by taking its remainder, unless the product
      of its size and its parts overflows; and while it has two units to a part, every
      secret beyond the last used one but the closing one can be used next. */
  lemma OpenOrdersCanProgress(
    h: Hasher, c: Chain, s: State, ixs: seq<Instruction>, k: Bytes32, o: Order, parts: u64, fills: seq<Fill>)
    returns (index: u64)
    requires OpenInRun(h, c, s, ixs, k, o, parts, fills) && ProductFits(o.amount, parts)
    ensures CanProgress(o.amount, parts, fills, o.remainingAmount, index)
  {
    OpenOrderRun(h, c, s, ixs, k, o, parts, fills);
    index := OpenRunsProgress(o.amount, parts, fills, o.remainingAmount);
  }

  /** All that is left to decide once a fill's checks pass: its signer is a resolver who can
      pay for the new escrow, there is none like it, and its destination amount fits. */
  predicate CanReceive(
    c: Chain, s: State, k: Bytes32, o: Order, hashlock: Bytes32, resolver: Bytes32, amount: u64, data: AuctionData)
  {
    var id := EscrowId(k, hashlock, resolver, amount);
    && resolver in s.resolvers && id !in s.escrows
    && Dues(c, s.balances, EscrowPda(id), c.escrowRent, EscrowAta(id, o.token)) <= s.balances.Lamports(Key(resolver))
    && o.amount > 0 && AmountFits(o.dstAmount, amount, o.amount, RateBump(s.now, data))
  }

  /** An order that a run left stored and unexpired and that nobody rescued, and its auction. */
  ghost predicate Fillable(
    h: Hasher, c: Chain, s: State, ixs: seq<Instruction>, k: Bytes32, o: Order, data: AuctionData)
  {
    var s' := Run(h, c, s, ixs);
    && Genesis(s) && Backed(c, s.balances) && k in s'.orders && s'.orders[k] == o
    && OrderPda(k) !in RescuedBy(h, c, s, ixs)
    && s'.now < o.expirationTime && h(EncodeAuction(data)) == o.dutchAuctionDataHash
  }

  /** The order commits to one leaf for each index up to its number of parts. */
  ghost predicate CommitsToParts(h: Hasher, o: Order, parts: u64, leaves: seq<Leaf>) {
    && |leaves| == parts + 1 && (forall i :: 0 <= i <= parts ==> leaves[i].index == i)
    && o.hashlock == PrepareHashlock(Root(h, HashLeaves(h, leaves)), parts)
  }

  /** Presenting the leaf that an amount calls for passes a fill's checks from end to end. */
  lemma HonestFillSucceeds(
    h: Hasher, c: Chain, s: State, ixs: seq<Instruction>, k: Bytes32, o: Order, parts: u64, leaves: seq<Leaf>,
    resolver: Bytes32, data: AuctionData, amount: u64, index: u64) returns (proof: MerkleProof)
    requires Fillable(h, c, s, ixs, k, o, data) && o.allowMultipleFills && parts == PartsAmount(o.hashlock)
    requires CommitsToParts(h, o, parts, leaves) && index <= parts
    requires Accepts(o.amount, parts, o.remainingAmount, Fill(amount, index))
    ensures proof.Claim() == leaves[index]
    ensures CreateEscrow(h, c, Run(h, c, s, ixs), resolver, k, amount, Some(proof), data).Ok? <==>
      CanReceive(c, Run(h, c, s, ixs), k, o, leaves[index].hashedSecret, resolver, amount, data)
  {
    proof := MerkleProof(Proof(h, HashLeaves(h, leaves), index), index, leaves[index].hashedSecret);
    HonestProofVerifies(h, leaves, index, parts);
    RunsStaySolvent(h, c, s, ixs);
    FillSucceeds(h, c, Run(h, c, s, ixs), RescuedBy(h, c, s, ixs), resolver, k, amount, Some(proof), data);
  }

  /** And closing it works from end to end: a resolver with the leaves that the order commits
      to has a proof with which, in every reachable state before expiration, the program
      accepts the remainder. */
  lemma OpenOrdersCanBeClosed(
    h: Hasher, c: Chain, s: State, ixs: seq<Instruction>, k: Bytes32, o: Order, parts: u64, fills: seq<Fill>,
    leaves: seq<Leaf>, resolver: Bytes32, data: AuctionData) returns (proof: MerkleProof)
    requires OpenInRun(h, c, s, ixs, k, o, parts, fills) && ProductFits(o.amount, parts)
    requires Fillable(h, c, s, ixs, k, o, data) && CommitsToParts(h, o, parts, leaves)
    ensures proof.Claim() in leaves
    ensures CreateEscrow(h, c, Run(h, c, s, ixs), resolver, k, o.remainingAmount, Some(proof), data).Ok? <==>
      CanReceive(c, Run(h, c, s, ixs), k, o, proof.hashedSecret, resolver, o.remainingAmount, data)
  {
    var index := OpenOrdersCanProgress(h, c, s, ixs, k, o, parts, fills);
    proof := HonestFillSucceeds(h, c, s, ixs, k, o, parts, leaves, resolver, data, o.remainingAmount, index);
  }

  /** So does continuing it: with two units to a part, every secret beyond the last used one
      but the closing one has an amount and a proof that fill the order and leave it open. */
  lemma OpenOrdersCanBeContinued(
    h: Hasher, c: Chain, s: State, ixs: seq<Instruction>, k: Bytes32, o: Order, parts: u64, fills: seq<Fill>,
    leaves: seq<Leaf>, resolver: Bytes32, data: AuctionData, i: u64) returns (amount: u64, proof: MerkleProof)
    requires OpenInRun(h, c, s, ixs, k, o, parts, fills) && ProductFits(o.amount, parts) && 2 * parts <= o.amount
    requires Fillable(h, c, s, ixs, k, o, data) && CommitsToParts(h, o, parts, leaves)
    requires i < parts && forall j :: 0 <= j < |fills| ==> fills[j].index < i
    ensures amount < o.remainingAmount && proof.Claim() == leaves[i]
    ensures CreateEscrow(h, c, Run(h, c, s, ixs), resolver, k, amount, Some(proof), data).Ok? <==>
      CanReceive(c, Run(h, c, s, ixs), k, o, leaves[i].hashedSecret, resolver, amount, data)
  {
    var index := OpenOrdersCanProgress(h, c, s, ixs, k, o, parts, fills);
    assert CanUse(o.amount, parts, o.remainingAmount, i);
    amount :| amount < o.remainingAmount && Accepts(o.amount, parts, o.remainingAmount, Fill(amount, i));
    proof := HonestFillSucceeds(h, c, s, ixs, k, o, parts, leaves, resolver, data, amount, i);
  }

  /** An order for a single fill takes its whole amount, without a proof, and nothing else. */
  lemma SingleOrdersCanBeFilled(
    h: Hasher, c: Chain, s: State, ixs: seq<Instruction>, k: Bytes32, o: Order, resolver: Bytes32, amount: u64,
    proof: Option<MerkleProof>, data: AuctionData)
    requires Fillable(h, c, s, ixs, k, o, data) && !o.allowMultipleFills
    ensures CreateEscrow(h, c, Run(h, c, s, ixs), resolver, k, amount, proof, data).Ok? <==>
      amount == o.amount && proof.None? && CanReceive(c, Run(h, c, s, ixs), k, o, o.hashlock, resolver, amount, data)
  {
    RunsStaySolvent(h, c, s, ixs);
    FillSucceeds(h, c, Run(h, c, s, ixs), RescuedBy(h, c, s, ixs), resolver, k, amount, proof, data);
  }

  // ----- One secret per fill -----

  /** Everything hashed in checking a series of fills. */
  ghost function PresentedInputs(h: Hasher, records: seq<FillRecord>): set<seq<byte>> {
    if records == [] then {}
    else
      var claimed := if Last(records).proof.Some? then ClaimInputs(h, Last(records).proof.value) else {};
      PresentedInputs(h, Front(records)) + claimed
  }

  lemma {:induction false} PresentedIncludes(h: Hasher, records: seq<FillRecord>, i: nat)
    requires i < |records| && records[i].proof.Some?
    ensures ClaimInputs(h, records[i].proof.value) <= PresentedInputs(h, records)
    decreases |records|
  {
    if i < |records| - 1 {
      PresentedIncludes(h, Front(records), i);
    }
  }

  /** The order's hashlock commits to these leaves, whose secrets all differ. */
  ghost predicate CommitsTo(h: Hasher, o: Order, leaves: seq<Leaf>) {
    && |leaves| > 1
    && o.hashlock == PrepareHashlock(Root(h, HashLeaves(h, leaves)), PartsAmount(o.hashlock))
    && forall i, j :: 0 <= i < j < |leaves| ==> leaves[i].hashedSecret != leaves[j].hashedSecret
  }

  lemma FillIsCommitted(h: Hasher, b: History, leaves: seq<Leaf>, i: nat)
    requires i < |b.fills| && b.fills[i].proof.Some? && Faithful(h, b.order, b.fills[i])
    requires CommitsTo(h, b.order, leaves)
    requires CollisionFree(h, CommitmentInputs(h, leaves) + PresentedInputs(h, b.fills))
    ensures b.fills[i].proof.value.Claim() in leaves
  {
    PresentedIncludes(h, b.fills, i);
    Soundness(h, leaves, PartsAmount(b.order.hashlock), b.fills[i].proof.value);
  }

  /** One secret per fill: over any run, two fills of an order have different hashlocks, so
      no secret that opens one escrow of the order opens another. Assumed are that the order
      commits to leaves with distinct secrets and that the hash shows no collision among the
      inputs of that commitment and of the proofs presented. */
  lemma NoSecretOpensTwo(
    h: Hasher, c: Chain, s: State, ixs: seq<Instruction>, k: Bytes32, leaves: seq<Leaf>, i: nat, j: nat,
    secret: Bytes32)
    requires Genesis(s) && Backed(c, s.balances) && Book(h, c, s, ixs, k).Some?
    requires var b := Book(h, c, s, ixs, k).value;
      && i < j < |b.fills| && CommitsTo(h, b.order, leaves)
      && CollisionFree(h, CommitmentInputs(h, leaves) + PresentedInputs(h, b.fills))
    ensures var b := Book(h, c, s, ixs, k).value;
      && b.fills[i].proof.Some? && b.fills[j].proof.Some?
      && b.fills[i].proof.value.index < b.fills[j].proof.value.index
      && b.fills[i].escrow.hashlock != b.fills[j].escrow.hashlock
      && !(h(secret) == b.fills[i].escrow.hashlock && h(secret) == b.fills[j].escrow.hashlock)
  {
    var b := Book(h, c, s, ixs, k).value;
    BookIsKept(h, c, s, ixs, k);
    assert Faithful(h, b.order, b.fills[i]) && Faithful(h, b.order, b.fills[j]);
    IndicesIncrease(b.order.amount, PartsAmount(b.order.hashlock), Fills(b.fills), i, j);
    FillIsCommitted(h, b, leaves, i);
    FillIsCommitted(h, b, leaves, j);
    DistinctLeaves(leaves, b.fills[i].proof.value.Claim(), b.fills[j].proof.value.Claim());
  }

  lemma DistinctLeaves(leaves: seq<Leaf>, a: Leaf, b: Leaf)
    requires forall i, j :: 0 <= i < j < |leaves| ==> leaves[i].hashedSecret != leaves[j].hashedSecret
    requires a in leaves && b in leaves && a.index != b.index
    ensures a.hashedSecret != b.hashedSecret
  {
    var i, j :| 0 <= i < |leaves| && 0 <= j < |leaves| && leaves[i] == a && leaves[j] == b;
    if j < i {
      assert leaves[j].hashedSecret != leaves[i].hashedSecret;
    }
  }

  // ----- One life of an order -----

  /** The step creates order `k`. */
  ghost predicate CreatesOrder(h: Hasher, c: Chain, s: State, ix: Instruction, k: Bytes32) {
    ix.ICreate? && OrderHash(h, ix.params) == k && Apply(h, c, s, ix).Ok?
  }

  /** How often a run has created order `k`. Its hash can be used again once it is closed,
      and its secrets with it. */
  ghost function Creations(h: Hasher, c: Chain, s: State, ixs: seq<Instruction>, k: Bytes32): nat {
    if ixs == [] then 0
    else
      Creations(h, c, s, Front(ixs), k)
      + if CreatesOrder(h, c, Run(h, c, s, Front(ixs)), Last(ixs), k) then 1 else 0
  }

  function Escrows(records: seq<FillRecord>): (e: seq<EscrowSrc>)
    ensures |e| == |records| && forall i :: 0 <= i < |e| ==> e[i] == records[i].escrow
  {
    seq(|records|, i requires 0 <= i < |records| => records[i].escrow)
  }

  /** Every stored escrow of order `k` is one of the fills in its history. */
  ghost predicate AllRecorded(s: State, k: Bytes32, book: Option<History>) {
    forall id :: id in s.escrows && id.orderHash == k ==> book.Some? && s.escrows[id] in Escrows(book.value.fills)
  }

  lemma FillIsRecorded(s: State, s': State, k: Bytes32, b: History, id: EscrowId, r: FillRecord)
    requires AllRecorded(s, k, Some(b)) && s'.escrows == s.escrows[id := r.escrow]
    ensures AllRecorded(s', k, Some(b.(fills := b.fills + [r])))
  {
    var all := Escrows(b.fills + [r]);
    assert all == Escrows(b.fills) + [r.escrow];
    assert all[|b.fills|] == r.escrow;
  }

  /** The step fills order `k`. */
  predicate FillsOrder(ix: Instruction, k: Bytes32) {
    ix.ICreateEscrow? && ix.orderHash == k
  }

  lemma OthersAddNoEscrow(h: Hasher, c: Chain, s: State, s': State, ix: Instruction, k: Bytes32)
    requires StoresMove(h, c, s, s', ix) && !FillsOrder(ix, k)
    ensures forall id :: id in s'.escrows && id.orderHash == k ==> id in s.escrows && s'.escrows[id] == s.escrows[id]
  {
  }

  lemma StepKeepsRecorded(h: Hasher, c: Chain, s: State, s': State, ix: Instruction, k: Bytes32, book: Option<History>)
    requires StoresMove(h, c, s, s', ix) && AllRecorded(s, k, book) && (k in s.orders ==> book.Some?)
    requires ix.ICreate? && OrderHash(h, ix.params) == k ==> book.None?
    ensures AllRecorded(s', k, Noted(h, c, s, s', ix, k, book))
  {
    if FillsOrder(ix, k) {
      var id := FillId(s.orders[k], k, ix.taker, ix.amount, ix.proof);
      FillIsRecorded(s, s', k, book.value, id, FillRecord(s'.escrows[id], s.now, ix.proof, ix.data));
    } else {
      OthersAddNoEscrow(h, c, s, s', ix, k);
    }
  }

  lemma {:induction false} RunsRecordAll(h: Hasher, c: Chain, s: State, ixs: seq<Instruction>, k: Bytes32)
    requires Genesis(s) && Backed(c, s.balances) && Creations(h, c, s, ixs, k) <= 1
    ensures AllRecorded(Run(h, c, s, ixs), k, Book(h, c, s, ixs, k))
    ensures Creations(h, c, s, ixs, k) == 0 ==> Book(h, c, s, ixs, k).None?
  {
    if ixs != [] {
      var before := Run(h, c, s, Front(ixs));
      RunsRecordAll(h, c, s, Front(ixs), k);
      BookIsKept(h, c, s, Front(ixs), k);
      if Apply(h, c, before, Last(ixs)).Ok? {
        StepMovesStores(h, c, before, Last(ixs));
        StepKeepsRecorded(h, c, before, Run(h, c, s, ixs), Last(ixs), k, Book(h, c, s, Front(ixs), k));
      }
    }
  }

  /** The identity of the escrow that a fill made. */
  function IdOf(e: EscrowSrc): EscrowId {
    EscrowId(e.orderHash, e.hashlock, e.taker, e.amount)
  }

  /** The fill that made a stored escrow. */
  lemma FillOf(h: Hasher, c: Chain, s: State, ixs: seq<Instruction>, k: Bytes32, b: History, id: EscrowId)
    returns (i: nat)
    requires Genesis(s) && Backed(c, s.balances) && Creations(h, c, s, ixs, k) <= 1
    requires Book(h, c, s, ixs, k) == Some(b) && id in Run(h, c, s, ixs).escrows && id.orderHash == k
    ensures i < |b.fills| && IdOf(b.fills[i].escrow) == id
  {
    RunsRecordAll(h, c, s, ixs, k);
    RunsStaySolvent(h, c, s, ixs);
    i :| 0 <= i < |b.fills| && Escrows(b.fills)[i] == Run(h, c, s, ixs).escrows[id];
  }

  /** The history's fills have distinct hashlocks if its order's secrets are committed to. */
  ghost predicate OwnSecrets(b: History) {
    forall i, j :: 0 <= i < j < |b.fills| ==> b.fills[i].escrow.hashlock != b.fills[j].escrow.hashlock
  }

  lemma FillsHaveOwnSecrets(
    h: Hasher, c: Chain, s: State, ixs: seq<Instruction>, k: Bytes32, b: History, leaves: seq<Leaf>)
    requires Genesis(s) && Backed(c, s.balances) && Book(h, c, s, ixs, k) == Some(b) && CommitsTo(h, b.order, leaves)
    requires CollisionFree(h, CommitmentInputs(h, leaves) + PresentedInputs(h, b.fills))
    ensures OwnSecrets(b)
  {
    forall i, j | 0 <= i < j < |b.fills| ensures b.fills[i].escrow.hashlock != b.fills[j].escrow.hashlock {
      NoSecretOpensTwo(h, c, s, ixs, k, leaves, i, j, b.fills[i].escrow.hashlock);
    }
  }

  lemma OwnSecretsTellIds(b: History, i: nat, j: nat)
    requires OwnSecrets(b) && i < |b.fills| && j < |b.fills| && IdOf(b.fills[i].escrow) != IdOf(b.fills[j].escrow)
    ensures IdOf(b.fills[i].escrow).hashlock != IdOf(b.fills[j].escrow).hashlock
  {
  }

  /** So wherever a run has created the order no more than once, no two of its stored escrows
      share a hashlock. */
  lemma StoredEscrowsHaveOwnSecrets(
    h: Hasher, c: Chain, s: State, ixs: seq<Instruction>, k: Bytes32, b: History, leaves: seq<Leaf>,
    id: EscrowId, id': EscrowId)
    requires Genesis(s) && Backed(c, s.balances) && Creations(h, c, s, ixs, k) <= 1
    requires Book(h, c, s, ixs, k) == Some(b) && CommitsTo(h, b.order, leaves)
    requires CollisionFree(h, CommitmentInputs(h, leaves) + PresentedInputs(h, b.fills))
    requires id in Run(h, c, s, ixs).escrows && id' in Run(h, c, s, ixs).escrows
    requires id != id' && id.orderHash == id'.orderHash == k
    ensures id.hashlock != id'.hashlock
    ensures Run(h, c, s, ixs).escrows[id].hashlock == id.hashlock
  {
    RunsStaySolvent(h, c, s, ixs);
    FillsHaveOwnSecrets(h, c, s, ixs, k, b, leaves);
    var i := FillOf(h, c, s, ixs, k, b, id);
    var j := FillOf(h, c, s, ixs, k, b, id');
    OwnSecretsTellIds(b, i, j);
  }

  // ----- Several lives of an order -----

  /** The parameters hashed in creating order `k`, once or again. */
  ghost function CreatedInputs(h: Hasher, c: Chain, s: State, ixs: seq<Instruction>, k: Bytes32): set<seq<byte>> {
    if ixs == [] then {}
    else
      CreatedInputs(h, c, s, Front(ixs), k)
      + if CreatesOrder(h, c, Run(h, c, s, Front(ixs)), Last(ixs), k) then {EncodeOrder(Last(ixs).params)} else {}
  }

  /** Within one life the terms stay and the fills only grow. */
  predicate Continues(b: History, book: Option<History>) {
    book.Some? && book.value.order == b.order && b.fills <= book.value.fills
  }

  lemma StepContinuesBook(h: Hasher, c: Chain, s: State, ixs: seq<Instruction>, ix: Instruction, k: Bytes32, b: History)
    requires Book(h, c, s, ixs, k) == Some(b) && !CreatesOrder(h, c, Run(h, c, s, ixs), ix, k)
    ensures Continues(b, Book(h, c, s, ixs + [ix], k))
  {
    assert Front(ixs + [ix]) == ixs;
  }

  lemma StepCreations(h: Hasher, c: Chain, s: State, ixs: seq<Instruction>, ix: Instruction, k: Bytes32)
    ensures var created := CreatesOrder(h, c, Run(h, c, s, ixs), ix, k);
      && Creations(h, c, s, ixs + [ix], k) == Creations(h, c, s, ixs, k) + (if created then 1 else 0)
      && CreatedInputs(h, c, s, ixs + [ix], k)
           == CreatedInputs(h, c, s, ixs, k) + (if created then {EncodeOrder(ix.params)} else {})
  {
    assert Front(ixs + [ix]) == ixs;
  }

  lemma {:induction false} LifeContinues(
    h: Hasher, c: Chain, s: State, ixs: seq<Instruction>, more: seq<Instruction>, k: Bytes32, b: History)
    requires Book(h, c, s, ixs, k) == Some(b)
    ensures Creations(h, c, s, ixs, k) <= Creations(h, c, s, ixs + more, k)
    ensures CreatedInputs(h, c, s, ixs, k) <= CreatedInputs(h, c, s, ixs + more, k)
    ensures Creations(h, c, s, ixs, k) == Creations(h, c, s, ixs + more, k) ==>
              Continues(b, Book(h, c, s, ixs + more, k))
    decreases |more|
  {
    if more == [] {
      assert ixs + more == ixs;
    } else {
      var earlier := ixs + Front(more);
      assert ixs + more == earlier + [Last(more)];
      LifeContinues(h, c, s, ixs, Front(more), k, b);
      StepCreations(h, c, s, earlier, Last(more), k);
      if Creations(h, c, s, ixs, k) == Creations(h, c, s, ixs + more, k) {
        StepContinuesBook(h, c, s, earlier, Last(more), k, Book(h, c, s, earlier, k).value);
      }
    }
  }

  /** What an order commits its secrets with. */
  predicate HasTerms(o: Order, p: OrderParams) {
    o.hashlock == p.hashlock && o.allowMultipleFills == p.allowMultipleFills
  }

  lemma NotedTerms(h: Hasher, c: Chain, s: State, s': State, ix: Instruction, k: Bytes32, book: Option<History>)
    requires StoresMove(h, c, s, s', ix) && Noted(h, c, s, s', ix, k, book).Some?
    ensures var b := Noted(h, c, s, s', ix, k, book).value;
      if ix.ICreate? && OrderHash(h, ix.params) == k then HasTerms(b.order, ix.params)
      else book.Some? && b.order == book.value.order
  {
  }

  /** The parameters that the latest life of an order was created with. */
  lemma {:induction false} LifeTerms(h: Hasher, c: Chain, s: State, ixs: seq<Instruction>, k: Bytes32)
    returns (p: OrderParams)
    requires Book(h, c, s, ixs, k).Some?
    ensures EncodeOrder(p) in CreatedInputs(h, c, s, ixs, k) && OrderHash(h, p) == k
    ensures HasTerms(Book(h, c, s, ixs, k).value.order, p)
  {
    var before, ix := Run(h, c, s, Front(ixs)), Last(ixs);
    StepCreations(h, c, s, Front(ixs), ix, k);
    assert ixs == Front(ixs) + [ix];
    if Apply(h, c, before, ix).Ok? {
      StepMovesStores(h, c, before, ix);
      NotedTerms(h, c, before, Run(h, c, s, ixs), ix, k, Book(h, c, s, Front(ixs), k));
    }
    if CreatesOrder(h, c, before, ix, k) {
      p := ix.params;
    } else {
      p := LifeTerms(h, c, s, Front(ixs), k);
    }
  }

  /** All lives of an order share its hashlock, unless the hash collides on their parameters. */
  lemma LivesShareHashlock(
    h: Hasher, c: Chain, s: State, ixs: seq<Instruction>, more: seq<Instruction>, k: Bytes32, b: History, b': History)
    requires Book(h, c, s, ixs, k) == Some(b) && Book(h, c, s, ixs + more, k) == Some(b')
    requires CollisionFree(h, CreatedInputs(h, c, s, ixs + more, k))
    ensures b.order.hashlock == b'.order.hashlock && b.order.allowMultipleFills == b'.order.allowMultipleFills
  {
    var p := LifeTerms(h, c, s, ixs, k);
    var p' := LifeTerms(h, c, s, ixs + more, k);
    LifeContinues(h, c, s, ixs, more, k, b);
    OrderIdentity(h, p, p');
  }

  lemma FewerInputs(h: Hasher, inputs: set<seq<byte>>, fewer: set<seq<byte>>)
    requires CollisionFree(h, inputs) && fewer <= inputs
    ensures CollisionFree(h, fewer)
  {
  }

  /** The fill claims a committed leaf, and its escrow's hashlock is that leaf's. */
  ghost predicate ClaimsLeaf(r: FillRecord, leaves: seq<Leaf>) {
    r.proof.Some? && r.proof.value.Claim() in leaves && r.escrow.hashlock == r.proof.value.hashedSecret
  }

  lemma FillClaimsLeaf(
    h: Hasher, c: Chain, s: State, ixs: seq<Instruction>, k: Bytes32, b: History, leaves: seq<Leaf>, i: nat)
    requires Genesis(s) && Backed(c, s.balances) && Book(h, c, s, ixs, k) == Some(b) && i < |b.fills|
    requires b.order.allowMultipleFills && CommitsTo(h, b.order, leaves)
    requires CollisionFree(h, CommitmentInputs(h, leaves) + PresentedInputs(h, b.fills))
    ensures ClaimsLeaf(b.fills[i], leaves)
  {
    BookIsKept(h, c, s, ixs, k);
    assert Faithful(h, b.order, b.fills[i]);
    FillIsCommitted(h, b, leaves, i);
  }

  lemma SameSecretSameLeaf(leaves: seq<Leaf>, r: FillRecord, r': FillRecord)
    requires forall i, j :: 0 <= i < j < |leaves| ==> leaves[i].hashedSecret != leaves[j].hashedSecret
    requires ClaimsLeaf(r, leaves) && ClaimsLeaf(r', leaves)
    ensures r.escrow.hashlock == r'.escrow.hashlock <==> r.proof.value.Claim() == r'.proof.value.Claim()
  {
    var a, a' := r.proof.value.Claim(), r'.proof.value.Claim();
    if a.index != a'.index {
      DistinctLeaves(leaves, a, a');
    }
  }

  /** Across all lives of an order, however often it was closed and created again: two fills
      share a hashlock exactly when they claim the same committed leaf; and within one life
      exactly when they are the same fill. */
  lemma SecretsAcrossLives(
    h: Hasher, c: Chain, s: State, ixs: seq<Instruction>, more: seq<Instruction>, k: Bytes32, b: History, b': History,
    leaves: seq<Leaf>, i: nat, j: nat)
    requires Genesis(s) && Backed(c, s.balances)
    requires Book(h, c, s, ixs, k) == Some(b) && Book(h, c, s, ixs + more, k) == Some(b')
    requires i < |b.fills| && j < |b'.fills| && b.order.allowMultipleFills && CommitsTo(h, b.order, leaves)
    requires CollisionFree(h, CommitmentInputs(h, leaves) + PresentedInputs(h, b.fills) + PresentedInputs(h, b'.fills))
    requires CollisionFree(h, CreatedInputs(h, c, s, ixs + more, k))
    ensures ClaimsLeaf(b.fills[i], leaves) && ClaimsLeaf(b'.fills[j], leaves)
    ensures b.fills[i].escrow.hashlock == b'.fills[j].escrow.hashlock
       <==> b.fills[i].proof.value.Claim() == b'.fills[j].proof.value.Claim()
    ensures Creations(h, c, s, ixs, k) == Creations(h, c, s, ixs + more, k) ==>
              (b.fills[i].escrow.hashlock == b'.fills[j].escrow.hashlock <==> i == j)
  {
    var inputs := CommitmentInputs(h, leaves) + PresentedInputs(h, b.fills) + PresentedInputs(h, b'.fills);
    FewerInputs(h, inputs, CommitmentInputs(h, leaves) + PresentedInputs(h, b.fills));
    FewerInputs(h, inputs, CommitmentInputs(h, leaves) + PresentedInputs(h, b'.fills));
    LivesShareHashlock(h, c, s, ixs, more, k, b, b');
    FillClaimsLeaf(h, c, s, ixs, k, b, leaves, i);
    FillClaimsLeaf(h, c, s, ixs + more, k, b', leaves, j);
    SameSecretSameLeaf(leaves, b.fills[i], b'.fills[j]);
    if Creations(h, c, s, ixs, k) == Creations(h, c, s, ixs + more, k) {
      LifeContinues(h, c, s, ixs, more, k, b);
      FillsHaveOwnSecrets(h, c, s, ixs + more, k, b', leaves);
      assert b.fills[i] == b'.fills[i];
    }
  }

  // ----- What the maker receives -----

  /** Every fill of an order follows the same auction, unless the hash collides on two. */
  lemma OneAuctionPerOrder(h: Hasher, c: Chain, s: State, ixs: seq<Instruction>, k: Bytes32, i: nat, j: nat)
    requires Genesis(s) && Backed(c, s.balances) && Book(h, c, s, ixs, k).Some?
    requires var fills := Book(h, c, s, ixs, k).value.fills;
      && i < |fills| && j < |fills|
      && CollisionFree(h, {EncodeAuction(fills[i].data), EncodeAuction(fills[j].data)})
    ensures var fills := Book(h, c, s, ixs, k).value.fills;
      fills[i].data == fills[j].data
  {
    var b := Book(h, c, s, ixs, k).value;
    BookIsKept(h, c, s, ixs, k);
    assert Faithful(h, b.order, b.fills[i]) && Faithful(h, b.order, b.fills[j]);
    AuctionCommitment(h, b.fills[i].data, b.fills[j].data);
  }

  function AsPart(r: FillRecord): Part {
    Part(r.escrow.amount, r.at, r.data)
  }

  function Parts(records: seq<FillRecord>): (p: seq<Part>)
    ensures |p| == |records| && forall i :: 0 <= i < |p| ==> p[i] == AsPart(records[i])
  {
    seq(|records|, i requires 0 <= i < |records| => AsPart(records[i]))
  }

  /** What the escrows of an order's fills owe on the destination chain together. */
  function Owed(records: seq<FillRecord>): nat {
    if records == [] then 0 else Owed(Front(records)) + Last(records).escrow.dstAmount
  }

  lemma {:induction false} OwedIsShares(h: Hasher, o: Order, records: seq<FillRecord>)
    requires forall i :: 0 <= i < |records| ==> Faithful(h, o, records[i])
    ensures AllDefined(o.dstAmount, o.amount, Parts(records))
    ensures Shares(o.dstAmount, o.amount, Parts(records)) == Owed(records)
    ensures Amounts(Parts(records)) == Taken(records)
  {
    if records != [] {
      OwedIsShares(h, o, Front(records));
      assert Faithful(h, o, Last(records));
      assert Front(Parts(records)) == Parts(Front(records));
      assert Front(Fills(records)) == Fills(Front(records));
    }
  }

  /** Splitting never costs the maker: when a run has filled an order completely, by however
      many fills, its escrows owe at least the order's destination amount. */
  lemma FilledOrdersArePaidInFull(h: Hasher, c: Chain, s: State, ixs: seq<Instruction>, k: Bytes32)
    requires Genesis(s) && Backed(c, s.balances) && Book(h, c, s, ixs, k).Some?
    requires var b := Book(h, c, s, ixs, k).value; Taken(b.fills) == b.order.amount
    ensures var b := Book(h, c, s, ixs, k).value;
      && k !in Run(h, c, s, ixs).orders
      && b.order.dstAmount <= Owed(b.fills)
      && AllDefined(b.order.dstAmount, b.order.amount, Parts(b.fills))
      && b.order.dstAmount <= SharesBefore(b.order.dstAmount, b.order.amount, Parts(b.fills))
                           <= b.order.dstAmount + |b.fills| - 1
  {
    var b := Book(h, c, s, ixs, k).value;
    BookIsKept(h, c, s, ixs, k);
    OwedIsShares(h, b.order, b.fills);
    SplittingNeverCosts(b.order.dstAmount, b.order.amount, Parts(b.fills));
  }

  /** The windows of every fill's escrow are the order's stage offsets counted from the
      fill's own time, whatever time the order was created. */
  lemma WindowsStartAtTheFill(h: Hasher, c: Chain, s: State, ixs: seq<Instruction>, k: Bytes32, i: nat, stage: Stage)
    requires Genesis(s) && Backed(c, s.balances) && Book(h, c, s, ixs, k).Some?
    requires i < |Book(h, c, s, ixs, k).value.fills|
    ensures var b := Book(h, c, s, ixs, k).value;
      && DeployedAt(b.fills[i].escrow.timelocks) == b.fills[i].at
      && StageStart(b.fills[i].escrow.timelocks, stage) == CheckedAdd(b.fills[i].at, b.order.timelocks[stage.Index()])
  {
    var b := Book(h, c, s, ixs, k).value;
    BookIsKept(h, c, s, ixs, k);
    assert Faithful(h, b.order, b.fills[i]);
  }

  // ----- What a resolver can rely on -----

  /** An order whose token account was opened for it can be cancelled by a resolver in every
      reachable state after its expiration, unless it was rescued: its premium is within the
      account's rent, and for a rent below 32 bits nothing overflows. */
  lemma OwnAccountNeverBlocks(
    h: Hasher, c: Chain, s: State, ixs: seq<Instruction>, k: Bytes32, resolver: Bytes32, rewardLimit: u64, given: bool)
    requires Genesis(s) && Backed(c, s.balances) && c.tokenRent < TWO32
    requires Book(h, c, s, ixs, k).Some? && Book(h, c, s, ixs, k).value.ownAccount
    requires OrderPda(k) !in RescuedBy(h, c, s, ixs) && k in Run(h, c, s, ixs).orders
    requires var s' := Run(h, c, s, ixs);
             var o := s'.orders[k];
      && resolver in s'.resolvers && GivenIsOpen(s'.balances, given, Wallet(o.creator, o.token))
      && o.assetIsNative == !given && o.expirationTime <= s'.now && 0 < o.maxCancellationPremium
    ensures CancelOrderByResolver(c, Run(h, c, s, ixs), resolver, k, rewardLimit, given).Ok?
  {
    BookIsKept(h, c, s, ixs, k);
    RunsStaySolvent(h, c, s, ixs);
    RentBoundedPremiumNeverBlocks(c, Run(h, c, s, ixs), RescuedBy(h, c, s, ixs), resolver, k, rewardLimit, given);
  }

  /** An offer of one native token handled as a token, with a premium of one lamport more
      than the rent of a token account. */
  function DearOffer(c: Chain, maker: Bytes32): OrderParams
    requires c.tokenRent + 1 < TWO64
  {
    OrderParams(ZERO32, maker, c.nativeMint, 1, 1, [0, 0, 0, 0, 0, 0, 0, 0], 1, false, 0, ZERO32,
                c.tokenRent + 1, 0, false, 0)
  }

  /** Somebody has opened the token account of that offer and wrapped one lamport in it. */
  function WrappedBefore(c: Chain, k: Bytes32, maker: Bytes32, resolver: Bytes32): State {
    var ata, wallet := OrderAta(k, c.nativeMint), Wallet(maker, c.nativeMint);
    State(Balances(map[ata := c.tokenRent + 1, wallet := c.tokenRent + 1, Key(maker) := c.orderRent],
                   map[ata := 1, wallet := 1]),
          map[], map[], {resolver}, 0)
  }

  lemma DearOfferIsPayable(c: Chain, k: Bytes32, maker: Bytes32, resolver: Bytes32)
    requires c.tokenRent + 1 < TWO64 && 0 < c.escrowRent
    ensures var s, p := WrappedBefore(c, k, maker, resolver), DearOffer(c, maker);
      && Backed(c, s.balances) && GivenIsOpen(s.balances, true, Wallet(maker, c.nativeMint))
      && IsOffer(c, s.balances, 0, p, k) && CanOffer(c, s.balances, p, k, true)
  {
  }

  /** Its deposit adds a second wrapped lamport to the first. */
  lemma DearDeposit(c: Chain, k: Bytes32, maker: Bytes32, resolver: Bytes32, prepared: Balances, b': Balances)
    requires c.tokenRent + 1 < TWO64 && 0 < c.escrowRent
    requires var b := WrappedBefore(c, k, maker, resolver).balances;
      && prepared.tokens == b.tokens && prepared.Lamports(OrderAta(k, c.nativeMint)) == c.tokenRent + 1
      && prepared.Lamports(Wallet(maker, c.nativeMint)) == c.tokenRent + 1
    requires SourceSpec.Deposit(c, prepared, DearOffer(c, maker), OrderAta(k, c.nativeMint), true) == Ok(b')
    ensures b'.Lamports(OrderAta(k, c.nativeMint)) == c.tokenRent + 2 && TokensIn(b', OrderAta(k, c.nativeMint)) == 2
    ensures Wallet(maker, c.nativeMint) in b'.tokens
  {
  }

  lemma DearOfferIsCreated(h: Hasher, c: Chain, k: Bytes32, maker: Bytes32, resolver: Bytes32)
    requires c.tokenRent + 1 < TWO64 && 0 < c.escrowRent && k == OrderHash(h, DearOffer(c, maker))
    ensures var r := Create(h, c, WrappedBefore(c, k, maker, resolver), DearOffer(c, maker), true);
            var ata := OrderAta(k, c.nativeMint);
      && r.Ok? && r.value.resolvers == {resolver} && r.value.orders == map[k := NewOrder(DearOffer(c, maker), k, 0)]
      && r.value.balances.Lamports(ata) == c.tokenRent + 2 && TokensIn(r.value.balances, ata) == 2
      && Wallet(maker, c.nativeMint) in r.value.balances.tokens
  {
    var s, p := WrappedBefore(c, k, maker, resolver), DearOffer(c, maker);
    DearOfferIsPayable(c, k, maker, resolver);
    CreateSucceeds(h, c, s, p, true);
    CreateSteps(h, c, s, p, k, true);
    OpeningIsCharged(c, s.balances, Key(maker), OrderPda(k), c.orderRent, OrderAta(k, c.nativeMint));
    var prepared := OpenOrderAccounts(c, s.balances, maker, k, c.nativeMint).value;
    ChargeSparesOpenAccounts(c, s.balances, prepared, Key(maker), OrderPda(k), c.orderRent,
                             OrderAta(k, c.nativeMint), Wallet(maker, c.nativeMint));
    DearDeposit(c, k, maker, resolver, prepared, Create(h, c, s, p, true).value.balances);
  }

  lemma ChargeSparesOpenAccounts(
    c: Chain, b: Balances, b': Balances, payer: Address, pda: Address, rent: nat, ata: Address, other: Address)
    requires Charged(c, b, b', payer, pda, rent, ata) && ata in b.tokens
    requires ata != payer && ata != pda && other != payer && other != pda && other != ata
    ensures b'.tokens == b.tokens && b'.Lamports(ata) == b.Lamports(ata) && b'.Lamports(other) == b.Lamports(other)
  {
    assert b'.Lamports(ata) + If(ata == payer, Dues(c, b, pda, rent, ata))
        == b.Lamports(ata) + If(ata == pda, Short(b, pda, rent)) + If(ata == ata, TokenDues(c, b, ata));
    assert b'.Lamports(other) + If(other == payer, Dues(c, b, pda, rent, ata))
        == b.Lamports(other) + If(other == pda, Short(b, pda, rent)) + If(other == ata, TokenDues(c, b, ata));
  }

  lemma CreationStep(h: Hasher, c: Chain, s: State, p: OrderParams, given: bool)
    requires Create(h, c, s, p, given).Ok?
    ensures Apply(h, c, s, ICreate(p, given)) == Create(h, c, s, p, given)
    ensures RescuedAfter(h, s, {}, ICreate(p, given)) == {}
  {
  }

  lemma TickStep(h: Hasher, c: Chain, s: State, at: u32)
    requires s.now <= at
    ensures Apply(h, c, s, Tick(at)) == Ok(s.(now := at)) && RescuedAfter(h, s, {}, Tick(at)) == {}
  {
  }

  /** The run that creates an order and waits. */
  lemma CreatedThenLater(h: Hasher, c: Chain, s: State, p: OrderParams, given: bool, at: u32)
    requires Genesis(s) && Create(h, c, s, p, given).Ok? && s.now <= at
    ensures Run(h, c, s, [ICreate(p, given), Tick(at)]) == Create(h, c, s, p, given).value.(now := at)
    ensures RescuedBy(h, c, s, [ICreate(p, given), Tick(at)]) == {}
  {
    var created := Create(h, c, s, p, given).value;
    CreateSteps(h, c, s, p, OrderHash(h, p), given);
    CreationStep(h, c, s, p, given);
    TickStep(h, c, created, at);
    RunOfOne(h, c, s, ICreate(p, given));
    RunOfMore(h, c, s, [ICreate(p, given)], Tick(at));
    assert [ICreate(p, given)] + [Tick(at)] == [ICreate(p, given), Tick(at)];
  }

  /** An input on which a resolver cannot cancel an expired order that was never touched:
      its account was opened and its tokens wrapped before the order was created. */
  lemma WrappedTokensBlock(h: Hasher, c: Chain, maker: Bytes32, resolver: Bytes32)
    returns (s: State, ixs: seq<Instruction>, k: Bytes32)
    requires c.tokenRent + 1 < TWO64 && 0 < c.escrowRent
    ensures Genesis(s) && Backed(c, s.balances)
    ensures IsBlocked(c, Run(h, c, s, ixs), RescuedBy(h, c, s, ixs), resolver, k)
  {
    var p := DearOffer(c, maker);
    k := OrderHash(h, p);
    s, ixs := WrappedBefore(c, k, maker, resolver), [ICreate(p, true), Tick(2)];
    DearOfferIsPayable(c, k, maker, resolver);
    DearOfferIsCreated(h, c, k, maker, resolver);
    CreatedThenLater(h, c, s, p, true, 2);
    RunsStaySolvent(h, c, s, ixs);
    LateDearOfferIsBlocked(c, Run(h, c, s, ixs), {}, resolver, k, maker);
  }

  /** An expired order that nobody rescued and that offers a premium cannot be cancelled by
      a resolver who has every account for it and asks for the whole premium. */
  predicate IsBlocked(c: Chain, s: State, rescued: set<Address>, resolver: Bytes32, k: Bytes32) {
    && k in s.orders && OrderPda(k) !in rescued && resolver in s.resolvers
    && var o := s.orders[k];
    && Wallet(o.creator, o.token) in s.balances.tokens && !o.assetIsNative
    && o.expirationTime <= s.now && 0 < o.maxCancellationPremium
    && ResolverReward(o, s.now, o.maxCancellationPremium).Ok?
    && CancelOrderByResolver(c, s, resolver, k, o.maxCancellationPremium, true).Err?
  }

  lemma LateDearOfferIsBlocked(
    c: Chain, s: State, rescued: set<Address>, resolver: Bytes32, k: Bytes32, maker: Bytes32)
    requires c.tokenRent + 1 < TWO64 && Solvent(c, s, rescued) && OrderPda(k) !in rescued
    requires k in s.orders && s.orders[k] == NewOrder(DearOffer(c, maker), k, 0)
    requires s.now == 2 && resolver in s.resolvers
    requires s.balances.Lamports(OrderAta(k, c.nativeMint)) == c.tokenRent + 2
    requires TokensIn(s.balances, OrderAta(k, c.nativeMint)) == 2 && Wallet(maker, c.nativeMint) in s.balances.tokens
    ensures IsBlocked(c, s, rescued, resolver, k)
  {
    WrappedTokensCanBlock(c, s, rescued, resolver, k, c.tokenRent + 1, true);
  }
}
