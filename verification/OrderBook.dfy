/** The record the program does not keep: for an order, the terms it was created with and
    every fill it accepted. Over every run the little that is stored agrees with it. */
module OrderBook {
  import opened Wrappers
  import opened Bits
  import opened Numerals
  import opened Auction
  import opened Timelocks
  import opened Merkle
  import opened PartialFill
  import opened DstAmount
  import opened Encoding
  import opened Accounts
  import opened SourceSpec
  import opened SourceInvariant
  import opened SourceRuns
  import opened Sequences

  /** An accepted fill: the escrow it made, when, and what its taker presented. */
  datatype FillRecord = FillRecord(escrow: EscrowSrc, at: u32, proof: Option<MerkleProof>, data: AuctionData)

  /** `ownAccount` says that the order's token account was opened for it. */
  datatype History = History(order: Order, fills: seq<FillRecord>, cancelled: bool, ownAccount: bool)

  /** The history of order `k` after a step, from the history before it. */
  ghost function Noted(
    h: Hasher, c: Chain, s: State, s': State, ix: Instruction, k: Bytes32, book: Option<History>): Option<History>
  {
    match ix
    case ICreate(p, _) =>
      if OrderHash(h, p) == k && k in s'.orders then
        Some(History(s'.orders[k], [], false, IsFresh(c, s.balances, OrderAta(k, p.token))))
      else book
    case ICreateEscrow(taker, k', amount, proof, data) =>
      if k' == k && k in s.orders && book.Some? && FillId(s.orders[k], k, taker, amount, proof) in s'.escrows then
        var made := s'.escrows[FillId(s.orders[k], k, taker, amount, proof)];
        Some(book.value.(fills := book.value.fills + [FillRecord(made, s.now, proof, data)]))
      else book
    case ICancelOrder(k', _) => if k' == k && book.Some? then Some(book.value.(cancelled := true)) else book
    case ICancelOrderByResolver(_, k', _, _) =>
      if k' == k && book.Some? then Some(book.value.(cancelled := true)) else book
    case _ => book
  }

  /** The history of order `k` over a run, restarted whenever the order is created. */
  ghost function Book(h: Hasher, c: Chain, s: State, ixs: seq<Instruction>, k: Bytes32): Option<History> {
    if ixs == [] then None
    else
      var before, book := Run(h, c, s, Front(ixs)), Book(h, c, s, Front(ixs), k);
      var r := Apply(h, c, before, Last(ixs));
      if r.Ok? then Noted(h, c, before, r.value, Last(ixs), k, book) else book
  }

  function AsFill(r: FillRecord): Fill {
    Fill(r.escrow.amount, if r.proof.Some? then r.proof.value.index else 0)
  }

  function Fills(records: seq<FillRecord>): (f: seq<Fill>)
    ensures |f| == |records| && forall i :: 0 <= i < |f| ==> f[i] == AsFill(records[i])
  {
    seq(|records|, i requires 0 <= i < |records| => AsFill(records[i]))
  }

  /** Units of the order that its fills have taken. */
  function Taken(records: seq<FillRecord>): nat {
    Filled(Fills(records))
  }

  lemma FillsAppend(records: seq<FillRecord>, r: FillRecord)
    ensures Fills(records + [r]) == Fills(records) + [AsFill(r)]
    ensures Taken(records + [r]) == Taken(records) + r.escrow.amount
  {
    var more := Fills(records + [r]);
    assert more == Fills(records) + [AsFill(r)];
    assert more[..|more| - 1] == Fills(records);
  }

  /** The fill met every condition the order put on it, and its escrow carries the order's
      terms, its own hashlock and destination amount, and windows that start with it. */
  predicate Faithful(h: Hasher, o: Order, r: FillRecord) {
    && 0 < r.escrow.amount <= o.amount
    && r.at < o.expirationTime
    && h(EncodeAuction(r.data)) == o.dutchAuctionDataHash
    && o.allowMultipleFills == r.proof.Some?
    && (r.proof.Some? ==> Verifies(h, o.hashlock, r.proof.value))
    && EscrowDstAmount(o.dstAmount, r.escrow.amount, o.amount, r.at, r.data) == Ok(r.escrow.dstAmount)
    && r.escrow.hashlock == (if r.proof.Some? then r.proof.value.hashedSecret else o.hashlock)
    && r.escrow.orderHash == o.orderHash && r.escrow.maker == o.creator && r.escrow.token == o.token
    && r.escrow.safetyDeposit == o.safetyDeposit && r.escrow.assetIsNative == o.assetIsNative
    && Restarted(r.escrow.timelocks, o.timelocks, r.at)
  }

  predicate Accurate(h: Hasher, c: Chain, k: Bytes32, b: History) {
    && (b.ownAccount ==> b.order.maxCancellationPremium <= c.tokenRent)
    && b.order.orderHash == k
    && DeployedAt(b.order.timelocks) < b.order.expirationTime
    && b.order.amount == b.order.remainingAmount > 0
    && Taken(b.fills) <= b.order.amount
    && (b.cancelled ==> Taken(b.fills) < b.order.amount)
    && (forall i :: 0 <= i < |b.fills| ==> Faithful(h, b.order, b.fills[i]))
    && (if b.order.allowMultipleFills then PartsAmount(b.order.hashlock) > 1 && RunsValid(b.order, b.fills)
        else |b.fills| <= 1 && (b.fills != [] ==> Taken(b.fills) == b.order.amount))
  }

  /** The fills were accepted one after another. */
  predicate RunsValid(o: Order, records: seq<FillRecord>) {
    ValidRun(o.amount, PartsAmount(o.hashlock), Fills(records))
  }

  predicate IsOpen(b: History) {
    !b.cancelled && Taken(b.fills) < b.order.amount
  }

  /** The stored order is the history's order less what its fills took, and it is stored
      exactly as long as something remains and it is not cancelled. */
  predicate Kept(h: Hasher, c: Chain, s: State, k: Bytes32, book: Option<History>) {
    && (k in s.orders <==> book.Some? && IsOpen(book.value))
    && (book.Some? ==> Accurate(h, c, k, book.value))
    && (k in s.orders ==>
          s.orders[k] == book.value.order.(remainingAmount := book.value.order.amount - Taken(book.value.fills)))
  }

  // ----- What a fill does to the history -----

  lemma RunExtends(order: u64, parts: u64, fills: seq<Fill>, fill: Fill)
    requires ValidRun(order, parts, fills) && Filled(fills) < order
    requires Accepts(order, parts, order - Filled(fills), fill)
    ensures ValidRun(order, parts, fills + [fill])
  {
    var more := fills + [fill];
    assert more[..|more| - 1] == fills;
  }

  lemma AllFaithful(h: Hasher, o: Order, records: seq<FillRecord>, r: FillRecord)
    requires (forall i :: 0 <= i < |records| ==> Faithful(h, o, records[i])) && Faithful(h, o, r)
    ensures forall i :: 0 <= i < |records + [r]| ==> Faithful(h, o, (records + [r])[i])
  {
  }

  lemma RecordsExtend(o: Order, records: seq<FillRecord>, r: FillRecord, parts: u64, fills: seq<Fill>, fill: Fill)
    requires parts == PartsAmount(o.hashlock) && fills == Fills(records) && fill == AsFill(r)
    requires ValidRun(o.amount, parts, fills + [fill])
    ensures RunsValid(o, records + [r])
  {
    FillsAppend(records, r);
  }

  /** An accepted fill extends an accurate history of an order open to several. */
  lemma ExtendMulti(h: Hasher, c: Chain, k: Bytes32, b: History, r: FillRecord)
    requires Accurate(h, c, k, b) && IsOpen(b) && Faithful(h, b.order, r) && b.order.allowMultipleFills
    requires r.escrow.amount <= b.order.amount - Taken(b.fills) && RunsValid(b.order, b.fills + [r])
    ensures Accurate(h, c, k, b.(fills := b.fills + [r]))
  {
    FillsAppend(b.fills, r);
    AllFaithful(h, b.order, b.fills, r);
  }

  /** The one fill of any other order takes all of it. */
  lemma ExtendSingle(h: Hasher, c: Chain, k: Bytes32, b: History, r: FillRecord)
    requires Accurate(h, c, k, b) && IsOpen(b) && Faithful(h, b.order, r) && !b.order.allowMultipleFills
    requires r.escrow.amount == b.order.amount - Taken(b.fills)
    ensures Accurate(h, c, k, b.(fills := b.fills + [r]))
  {
    FillsAppend(b.fills, r);
    AllFaithful(h, b.order, b.fills, r);
  }

  /** What is stored of the order after a fill. */
  predicate Took(s: State, s': State, k: Bytes32, amount: u64) {
    && k in s.orders && amount <= s.orders[k].remainingAmount
    && var o := s.orders[k];
    if amount == o.remainingAmount then k !in s'.orders
    else k in s'.orders && s'.orders[k] == o.(remainingAmount := o.remainingAmount - amount)
  }

  /** What a fill is to its order, without the checks that led to it. */
  lemma FillSummary(
    h: Hasher, c: Chain, s: State, s': State, k: Bytes32, order: Order,
    taker: Bytes32, amount: u64, proof: Option<MerkleProof>, data: AuctionData)
    requires OrderFilled(h, s, s', taker, k, amount, proof, data) && OrderTerms(c, k, s.orders[k])
    requires s.orders[k] == order.(remainingAmount := s.orders[k].remainingAmount)
    ensures var r := FillRecord(s'.escrows[FillId(s.orders[k], k, taker, amount, proof)], s.now, proof, data);
            var o := s.orders[k];
      && Took(s, s', k, amount) && Faithful(h, order, r) && r.escrow.amount == amount > 0
      && if o.allowMultipleFills then Accepts(o.amount, PartsAmount(o.hashlock), o.remainingAmount, AsFill(r))
         else amount == o.remainingAmount
  {
    FillTakesSomething(h, c, k, s.orders[k], s.now, amount, proof, data);
  }

  lemma FillIsStored(h: Hasher, c: Chain, s: State, s': State, k: Bytes32, b: History, r: FillRecord)
    requires Kept(h, c, s, k, Some(b)) && Took(s, s', k, r.escrow.amount) && r.escrow.amount > 0
    requires Accurate(h, c, k, b.(fills := b.fills + [r]))
    ensures Kept(h, c, s', k, Some(b.(fills := b.fills + [r])))
  {
    FillsAppend(b.fills, r);
  }

  lemma AcceptedFillFits(o: Order, b: History, r: FillRecord)
    requires o == b.order.(remainingAmount := o.remainingAmount) && RunsValid(b.order, b.fills)
    requires Taken(b.fills) + o.remainingAmount == o.amount && o.remainingAmount > 0
    requires Accepts(o.amount, PartsAmount(o.hashlock), o.remainingAmount, AsFill(r))
    ensures RunsValid(b.order, b.fills + [r])
  {
    RecordFollows(b.order, b.fills, r, o.amount, PartsAmount(o.hashlock), o.remainingAmount, Fills(b.fills), AsFill(r));
  }

  lemma RecordFollows(
    o: Order, records: seq<FillRecord>, r: FillRecord,
    order: u64, parts: u64, remaining: u64, fills: seq<Fill>, fill: Fill)
    requires order == o.amount && parts == PartsAmount(o.hashlock) && fills == Fills(records) && fill == AsFill(r)
    requires RunsValid(o, records) && Filled(fills) + remaining == order && remaining > 0
    requires Accepts(order, parts, remaining, fill)
    ensures RunsValid(o, records + [r])
  {
    RunExtends(order, parts, fills, fill);
    RecordsExtend(o, records, r, parts, fills, fill);
  }

  lemma FillKeepsBook(
    h: Hasher, c: Chain, s: State, s': State, k: Bytes32, book: History,
    taker: Bytes32, amount: u64, proof: Option<MerkleProof>, data: AuctionData)
    requires Kept(h, c, s, k, Some(book)) && OrderFilled(h, s, s', taker, k, amount, proof, data)
    requires OrderTerms(c, k, s.orders[k])
    ensures var r := FillRecord(s'.escrows[FillId(s.orders[k], k, taker, amount, proof)], s.now, proof, data);
      Kept(h, c, s', k, Some(book.(fills := book.fills + [r])))
  {
    var r := FillRecord(s'.escrows[FillId(s.orders[k], k, taker, amount, proof)], s.now, proof, data);
    FillSummary(h, c, s, s', k, book.order, taker, amount, proof, data);
    if book.order.allowMultipleFills {
      AcceptedFillFits(s.orders[k], book, r);
    }
    RecordFits(h, c, s, k, book, r);
    FillIsStored(h, c, s, s', k, book, r);
  }

  lemma RecordFits(h: Hasher, c: Chain, s: State, k: Bytes32, b: History, r: FillRecord)
    requires Kept(h, c, s, k, Some(b)) && k in s.orders && Faithful(h, b.order, r)
    requires r.escrow.amount <= s.orders[k].remainingAmount
    requires if b.order.allowMultipleFills then RunsValid(b.order, b.fills + [r])
             else r.escrow.amount == s.orders[k].remainingAmount
    ensures Accurate(h, c, k, b.(fills := b.fills + [r]))
  {
    if b.order.allowMultipleFills {
      ExtendMulti(h, c, k, b, r);
    } else {
      ExtendSingle(h, c, k, b, r);
    }
  }

  lemma CreateKeepsBook(h: Hasher, c: Chain, s: State, s': State, p: OrderParams, k: Bytes32)
    requires OrderCreated(h, c, s, s', p) && OrderHash(h, p) == k
    ensures Kept(h, c, s', k, Some(History(s'.orders[k], [], false, IsFresh(c, s.balances, OrderAta(k, p.token)))))
  {
    assert Fills([]) == [];
  }

  lemma CancelKeepsBook(h: Hasher, c: Chain, s: State, s': State, k: Bytes32, book: Option<History>)
    requires OrderLeaves(s, s', k) && Kept(h, c, s, k, book)
    ensures book.Some? && Kept(h, c, s', k, Some(book.value.(cancelled := true)))
  {
  }

  lemma UntouchedKeepsBook(h: Hasher, c: Chain, s: State, s': State, k: Bytes32, book: Option<History>)
    requires Kept(h, c, s, k, book) && (k in s.orders <==> k in s'.orders)
    requires k in s.orders ==> s'.orders[k] == s.orders[k]
    ensures Kept(h, c, s', k, book)
  {
  }

  /** The step creates, fills or cancels order `k`. */
  predicate Concerns(h: Hasher, ix: Instruction, k: Bytes32) {
    match ix
    case ICreate(p, _) => OrderHash(h, p) == k
    case ICreateEscrow(_, k', _, _, _) => k' == k
    case ICancelOrder(k', _) => k' == k
    case ICancelOrderByResolver(_, k', _, _) => k' == k
    case _ => false
  }

  lemma OthersLeaveOrder(h: Hasher, c: Chain, s: State, s': State, ix: Instruction, k: Bytes32)
    requires StoresMove(h, c, s, s', ix) && !Concerns(h, ix, k)
    ensures k in s.orders <==> k in s'.orders
    ensures k in s.orders ==> s'.orders[k] == s.orders[k]
  {
  }

  lemma StepKeepsBook(h: Hasher, c: Chain, s: State, s': State, ix: Instruction, k: Bytes32, book: Option<History>)
    requires StoresMove(h, c, s, s', ix) && Kept(h, c, s, k, book)
    requires k in s.orders ==> OrderTerms(c, k, s.orders[k])
    ensures Kept(h, c, s', k, Noted(h, c, s, s', ix, k, book))
  {
    if Concerns(h, ix, k) {
      match ix
      case ICreate(p, _) => CreateKeepsBook(h, c, s, s', p, k);
      case ICreateEscrow(taker, _, amount, proof, data) =>
        FillKeepsBook(h, c, s, s', k, book.value, taker, amount, proof, data);
      case _ => CancelKeepsBook(h, c, s, s', k, book);
    } else {
      OthersLeaveOrder(h, c, s, s', ix, k);
      UntouchedKeepsBook(h, c, s, s', k, book);
    }
  }

  /** Order accounting, in every reachable state: what is stored agrees with the history. */
  lemma {:induction false} BookIsKept(h: Hasher, c: Chain, s: State, ixs: seq<Instruction>, k: Bytes32)
    requires Genesis(s) && Backed(c, s.balances)
    ensures Kept(h, c, Run(h, c, s, ixs), k, Book(h, c, s, ixs, k))
  {
    if ixs != [] {
      var before := Run(h, c, s, Front(ixs));
      BookIsKept(h, c, s, Front(ixs), k);
      RunsStaySolvent(h, c, s, Front(ixs));
      if Apply(h, c, before, Last(ixs)).Ok? {
        StepMovesStores(h, c, before, Last(ixs));
        StepKeepsBook(h, c, before, Run(h, c, s, ixs), Last(ixs), k, Book(h, c, s, Front(ixs), k));
      }
    }
  }
}
