/** What happens to one escrow of the source program over a run: it is opened, and then it
    is closed once, in favour of its taker or of its maker. */
module EscrowLog {
  import opened Wrappers
  import opened Bits
  import opened Numerals
  import opened Timelocks
  import opened Merkle
  import opened Accounts
  import opened SourceSpec
  import opened SourceInvariant
  import opened SourceEffects
  import opened SourceRuns
  import opened Sequences

  datatype Event =
    | Opened(escrow: EscrowSrc, order: Order, at: u32)
    | Paid(stage: Stage, secret: Bytes32, at: u32)
    | Refunded(stage: Stage, at: u32)

  /** The log of escrow `id` after a step, from the log before it. */
  ghost function Logged(s: State, s': State, ix: Instruction, id: EscrowId, log: seq<Event>): seq<Event> {
    match ix
    case ICreateEscrow(_, k, _, _, _) =>
      if id !in s.escrows && id in s'.escrows && k in s.orders then log + [Opened(s'.escrows[id], s.orders[k], s.now)]
      else log
    case IWithdraw(id', secret) => if id' == id then log + [Paid(SrcWithdrawal, secret, s.now)] else log
    case IPublicWithdraw(_, id', secret) => if id' == id then log + [Paid(SrcPublicWithdrawal, secret, s.now)] else log
    case ICancelEscrow(id', _) => if id' == id then log + [Refunded(SrcCancellation, s.now)] else log
    case IPublicCancelEscrow(_, id', _) => if id' == id then log + [Refunded(SrcPublicCancellation, s.now)] else log
    case _ => log
  }

  ghost function Log(h: Hasher, c: Chain, s: State, ixs: seq<Instruction>, id: EscrowId): seq<Event> {
    if ixs == [] then []
    else
      var before, log := Run(h, c, s, Front(ixs)), Log(h, c, s, Front(ixs), id);
      var r := Apply(h, c, before, Last(ixs));
      if r.Ok? then Logged(before, r.value, Last(ixs), id, log) else log
  }

  /** The closing happened in its window: a payment with the secret, in its withdrawal stage
      and before cancellation; a refund in its cancellation stage. */
  predicate Closes(h: Hasher, e: EscrowSrc, event: Event) {
    match event
    case Opened(_, _, _) => false
    case Paid(stage, secret, at) =>
      && (stage == SrcWithdrawal || stage == SrcPublicWithdrawal)
      && h(secret) == e.hashlock && StartedBy(e.timelocks, stage, at) && EndedBefore(e.timelocks, SrcCancellation, at)
    case Refunded(stage, at) =>
      (stage == SrcCancellation || stage == SrcPublicCancellation) && StartedBy(e.timelocks, stage, at)
  }

  predicate IsLive(log: seq<Event>) {
    log != [] && Last(log).Opened?
  }

  predicate Follows(h: Hasher, log: seq<Event>, i: nat)
    requires i < |log|
  {
    && (i > 0 ==> log[i - 1].at <= log[i].at)
    && if log[i].Opened? then (i > 0 ==> !log[i - 1].Opened?) && DeployedAt(log[i].escrow.timelocks) == log[i].at
       else i > 0 && log[i - 1].Opened? && Closes(h, log[i - 1].escrow, log[i])
  }

  /** Openings and closings alternate, each closing answers the opening before it, and
      time does not run back. */
  predicate WellFormed(h: Hasher, log: seq<Event>) {
    forall i :: 0 <= i < |log| ==> Follows(h, log, i)
  }

  lemma Append(h: Hasher, log: seq<Event>, event: Event)
    requires WellFormed(h, log) && Follows(h, log + [event], |log|)
    ensures WellFormed(h, log + [event])
  {
    forall i | 0 <= i < |log + [event]| ensures Follows(h, log + [event], i) {
      assert i < |log| ==> Follows(h, log, i);
    }
  }

  lemma FrontIsWellFormed(h: Hasher, log: seq<Event>)
    requires WellFormed(h, log) && log != []
    ensures WellFormed(h, Front(log))
  {
    forall i | 0 <= i < |log| - 1 ensures Follows(h, Front(log), i) {
      assert Follows(h, log, i);
    }
  }

  /** An escrow is stored exactly while its log ends with the opening of that escrow. */
  predicate LogKept(h: Hasher, s: State, id: EscrowId, log: seq<Event>) {
    && WellFormed(h, log)
    && (log != [] ==> Last(log).at <= s.now)
    && (id in s.escrows <==> IsLive(log))
    && (id in s.escrows ==> Last(log).escrow == s.escrows[id])
  }

  lemma OpeningKeepsLog(h: Hasher, s: State, s': State, id: EscrowId, order: Order, log: seq<Event>)
    requires LogKept(h, s, id, log) && id !in s.escrows && id in s'.escrows && s'.now == s.now
    requires DeployedAt(s'.escrows[id].timelocks) == s.now
    ensures LogKept(h, s', id, log + [Opened(s'.escrows[id], order, s.now)])
  {
    Append(h, log, Opened(s'.escrows[id], order, s.now));
  }

  lemma ClosingKeepsLog(h: Hasher, s: State, s': State, id: EscrowId, log: seq<Event>, event: Event)
    requires LogKept(h, s, id, log) && Leaves(s, s', id)
    requires event.at == s.now && Closes(h, s.escrows[id], event)
    ensures LogKept(h, s', id, log + [event])
  {
    Append(h, log, event);
  }

  /** The step would close escrow `id`. */
  predicate ClosesEscrow(ix: Instruction, id: EscrowId) {
    match ix
    case IWithdraw(id', _) => id' == id
    case IPublicWithdraw(_, id', _) => id' == id
    case ICancelEscrow(id', _) => id' == id
    case IPublicCancelEscrow(_, id', _) => id' == id
    case _ => false
  }

  lemma OthersLeaveEscrow(h: Hasher, c: Chain, s: State, s': State, ix: Instruction, id: EscrowId)
    requires StoresMove(h, c, s, s', ix) && !ClosesEscrow(ix, id)
    ensures id in s.escrows ==> id in s'.escrows && s'.escrows[id] == s.escrows[id]
    ensures s.now <= s'.now
    ensures id !in s.escrows && id in s'.escrows ==>
      ix.ICreateEscrow? && ix.orderHash in s.orders && s'.now == s.now && DeployedAt(s'.escrows[id].timelocks) == s.now
  {
  }

  lemma ClosingStepKeepsLog(h: Hasher, c: Chain, s: State, s': State, ix: Instruction, id: EscrowId, log: seq<Event>)
    requires StoresMove(h, c, s, s', ix) && LogKept(h, s, id, log) && ClosesEscrow(ix, id)
    ensures LogKept(h, s', id, Logged(s, s', ix, id, log))
  {
    match ix
    case IWithdraw(_, secret) => ClosingKeepsLog(h, s, s', id, log, Paid(SrcWithdrawal, secret, s.now));
    case IPublicWithdraw(_, _, secret) => ClosingKeepsLog(h, s, s', id, log, Paid(SrcPublicWithdrawal, secret, s.now));
    case ICancelEscrow(_, _) => ClosingKeepsLog(h, s, s', id, log, Refunded(SrcCancellation, s.now));
    case IPublicCancelEscrow(_, _, _) => ClosingKeepsLog(h, s, s', id, log, Refunded(SrcPublicCancellation, s.now));
  }

  lemma StepKeepsLog(h: Hasher, c: Chain, s: State, s': State, ix: Instruction, id: EscrowId, log: seq<Event>)
    requires StoresMove(h, c, s, s', ix) && LogKept(h, s, id, log)
    ensures LogKept(h, s', id, Logged(s, s', ix, id, log))
  {
    if ClosesEscrow(ix, id) {
      ClosingStepKeepsLog(h, c, s, s', ix, id, log);
    } else {
      OthersLeaveEscrow(h, c, s, s', ix, id);
      if id !in s.escrows && id in s'.escrows {
        OpeningKeepsLog(h, s, s', id, s.orders[ix.orderHash], log);
      }
    }
  }

  lemma {:induction false} LogIsKept(h: Hasher, c: Chain, s: State, ixs: seq<Instruction>, id: EscrowId)
    requires Genesis(s)
    ensures LogKept(h, Run(h, c, s, ixs), id, Log(h, c, s, ixs, id))
  {
    if ixs != [] {
      var before := Run(h, c, s, Front(ixs));
      LogIsKept(h, c, s, Front(ixs), id);
      if Apply(h, c, before, Last(ixs)).Ok? {
        StepMovesStores(h, c, before, Last(ixs));
        StepKeepsLog(h, c, before, Run(h, c, s, ixs), Last(ixs), id, Log(h, c, s, Front(ixs), id));
      }
    }
  }

  lemma LogExtends(h: Hasher, c: Chain, s: State, ixs: seq<Instruction>, ix: Instruction, id: EscrowId)
    ensures Log(h, c, s, ixs, id) <= Log(h, c, s, ixs + [ix], id)
  {
    assert Front(ixs + [ix]) == ixs;
  }

  // ----- Exactly one outcome -----

  function Count(log: seq<Event>, openings: bool): nat {
    if log == [] then 0 else Count(Front(log), openings) + if Last(log).Opened? == openings then 1 else 0
  }

  lemma {:induction false} ClosingsMatchOpenings(h: Hasher, log: seq<Event>)
    requires WellFormed(h, log)
    ensures Count(log, true) == Count(log, false) + if IsLive(log) then 1 else 0
  {
    if log != [] {
      FrontIsWellFormed(h, log);
      ClosingsMatchOpenings(h, Front(log));
      assert Follows(h, log, |log| - 1);
    }
  }

  /** A payment did not precede the withdrawal stage and a refund not the cancellation
      stage, whichever instruction made it. */
  predicate InOrder(f: Fields, event: Event) {
    && (event.Paid? ==> StartedBy(f, SrcWithdrawal, event.at))
    && (event.Refunded? ==> StartedBy(f, SrcCancellation, event.at))
  }

  /** Public stages that follow the private ones, which the programs do not enforce, keep
      every closing in order. */
  lemma OrderedStagesKeepOrder(h: Hasher, e: EscrowSrc, event: Event)
    requires Closes(h, e, event)
    ensures event.Paid? && e.timelocks[SrcWithdrawal.Index()] <= e.timelocks[SrcPublicWithdrawal.Index()] ==>
      InOrder(e.timelocks, event)
    ensures event.Refunded? && e.timelocks[SrcCancellation.Index()] <= e.timelocks[SrcPublicCancellation.Index()] ==>
      InOrder(e.timelocks, event)
  {
  }

  /** Exactly one outcome, over every run: each opening of an escrow is followed by at most
      one closing before the next opening, in its window; and the escrow is stored exactly
      as long as there has been none. */
  lemma EachOpeningClosesOnce(h: Hasher, c: Chain, s: State, ixs: seq<Instruction>, id: EscrowId, i: nat)
    requires Genesis(s) && i < |Log(h, c, s, ixs, id)| && Log(h, c, s, ixs, id)[i].Opened?
    ensures var log := Log(h, c, s, ixs, id);
      && (id in Run(h, c, s, ixs).escrows <==> IsLive(log))
      && Count(log, true) == Count(log, false) + (if IsLive(log) then 1 else 0)
      && (i + 1 < |log| ==> Closes(h, log[i].escrow, log[i + 1]) && log[i].at <= log[i + 1].at)
      && (i + 2 < |log| ==> log[i + 2].Opened?)
  {
    var log := Log(h, c, s, ixs, id);
    LogIsKept(h, c, s, ixs, id);
    ClosingsMatchOpenings(h, log);
    if i + 1 < |log| {
      assert Follows(h, log, i + 1) && (i + 2 < |log| ==> Follows(h, log, i + 2));
    }
  }

  /** What the order of the cancellation stages is worth: public cancellation waits for
      private cancellation exactly when it does not start before it. */
  lemma RefundsWaitExactlyWhenOrdered(c: Chain, s: State, rescued: set<Address>, id: EscrowId, payer: Bytes32)
    requires Solvent(c, s, rescued) && id in s.escrows && EscrowPda(id) !in rescued && payer in s.resolvers
    requires var e := s.escrows[id]; e.assetIsNative || Wallet(e.maker, e.token) in s.balances.tokens
    ensures var f := s.escrows[id].timelocks;
      (forall at: u32, given: bool :: PublicCancelEscrow(c, s.(now := at), payer, id, given).Ok? ==>
         StartedBy(f, SrcCancellation, at))
      <==>
      f[SrcCancellation.Index()] <= f[SrcPublicCancellation.Index()] || StageStart(f, SrcPublicCancellation).Err?
  {
    var e := s.escrows[id];
    var start := StageStart(e.timelocks, SrcPublicCancellation);
    forall at: u32, given: bool
      ensures PublicCancelEscrow(c, s.(now := at), payer, id, given).Ok? ==>
        StartedBy(e.timelocks, SrcPublicCancellation, at)
    {
      CancelFromSucceeds(c, s.(now := at), rescued, id, payer, SrcPublicCancellation, given);
    }
    if start.Ok? {
      CancelFromSucceeds(c, s.(now := start.value), rescued, id, payer, SrcPublicCancellation, !e.assetIsNative);
      assert PublicCancelEscrow(c, s.(now := start.value), payer, id, !e.assetIsNative).Ok?;
    }
  }

  /** The same of the withdrawal stages: public withdrawal waits for private withdrawal
      exactly when it does not start before it or has no time at all. */
  lemma PaymentsWaitExactlyWhenOrdered(
    h: Hasher, c: Chain, s: State, rescued: set<Address>, id: EscrowId, payer: Bytes32, secret: Bytes32)
    requires Solvent(c, s, rescued) && id in s.escrows && EscrowPda(id) !in rescued && payer in s.resolvers
    requires var e := s.escrows[id]; Wallet(e.taker, e.token) in s.balances.tokens && h(secret) == e.hashlock
    ensures var f := s.escrows[id].timelocks;
      (forall at: u32 :: PublicWithdraw(h, c, s.(now := at), payer, id, secret).Ok? ==> StartedBy(f, SrcWithdrawal, at))
      <==>
      || f[SrcWithdrawal.Index()] <= f[SrcPublicWithdrawal.Index()]
      || f[SrcCancellation.Index()] <= f[SrcPublicWithdrawal.Index()]
      || StageStart(f, SrcPublicWithdrawal).Err? || StageStart(f, SrcCancellation).Err?
  {
    var e := s.escrows[id];
    var start := StageStart(e.timelocks, SrcPublicWithdrawal);
    forall at: u32
      ensures PublicWithdraw(h, c, s.(now := at), payer, id, secret).Ok? ==>
        StartedBy(e.timelocks, SrcPublicWithdrawal, at) && EndedBefore(e.timelocks, SrcCancellation, at)
    {
      WithdrawFromSucceeds(h, c, s.(now := at), rescued, id, payer, SrcPublicWithdrawal, secret);
    }
    if start.Ok? && EndedBefore(e.timelocks, SrcCancellation, start.value) {
      WithdrawFromSucceeds(h, c, s.(now := start.value), rescued, id, payer, SrcPublicWithdrawal, secret);
      assert PublicWithdraw(h, c, s.(now := start.value), payer, id, secret).Ok?;
    }
  }

  // ----- Where the principal goes -----

  /** The step closes the escrow and its principal leaves: to the taker or to the maker. */
  ghost predicate PaysOut(c: Chain, s: State, s': State, ix: Instruction, id: EscrowId)
    requires id in s.escrows
  {
    var e, b, b' := s.escrows[id], s.balances, s'.balances;
    match ix
    case IWithdraw(id', _) => id' == id && TakerPaid(c, b, b', id, e, id.creator)
    case IPublicWithdraw(payer, id', _) => id' == id && TakerPaid(c, b, b', id, e, payer)
    case ICancelEscrow(id', _) => id' == id && MakerRefunded(c, b, b', id, e, id.creator)
    case IPublicCancelEscrow(payer, id', _) => id' == id && MakerRefunded(c, b, b', id, e, payer)
    case _ => false
  }

  lemma WithdrawalPays(
    h: Hasher, c: Chain, s: State, rescued: set<Address>, id: EscrowId, executor: Bytes32, stage: Stage,
    secret: Bytes32)
    requires Solvent(c, s, rescued) && EscrowPda(id) !in rescued
    requires WithdrawFrom(h, c, s, id, executor, stage, secret).Ok?
    ensures TakerPaid(c, s.balances, WithdrawFrom(h, c, s, id, executor, stage, secret).value.balances, id,
                      s.escrows[id], executor)
  {
    TakerIsPaid(c, s.balances, id, s.escrows[id], executor);
  }

  lemma CancellationPays(
    c: Chain, s: State, rescued: set<Address>, id: EscrowId, executor: Bytes32, stage: Stage, given: bool)
    requires Solvent(c, s, rescued) && EscrowPda(id) !in rescued && CancelFrom(c, s, id, executor, stage, given).Ok?
    ensures MakerRefunded(c, s.balances, CancelFrom(c, s, id, executor, stage, given).value.balances, id,
                          s.escrows[id], executor)
  {
    CancelFromSucceeds(c, s, rescued, id, executor, stage, given);
    MakerIsRefunded(c, s.balances, id, s.escrows[id], executor, given);
  }

  lemma ClosingRemoves(h: Hasher, c: Chain, s: State, s': State, ix: Instruction, id: EscrowId)
    requires StoresMove(h, c, s, s', ix) && ClosesEscrow(ix, id)
    ensures id !in s'.escrows
  {
  }

  lemma ClosingPays(h: Hasher, c: Chain, s: State, rescued: set<Address>, ix: Instruction, id: EscrowId)
    requires Solvent(c, s, rescued) && EscrowPda(id) !in rescued && Apply(h, c, s, ix).Ok?
    requires ClosesEscrow(ix, id) && id in s.escrows
    ensures PaysOut(c, s, Apply(h, c, s, ix).value, ix, id)
  {
    match ix
    case IWithdraw(_, secret) => WithdrawalPays(h, c, s, rescued, id, id.creator, SrcWithdrawal, secret);
    case IPublicWithdraw(payer, _, secret) => WithdrawalPays(h, c, s, rescued, id, payer, SrcPublicWithdrawal, secret);
    case ICancelEscrow(_, given) => CancellationPays(c, s, rescued, id, id.creator, SrcCancellation, given);
    case IPublicCancelEscrow(payer, _, given) =>
      CancellationPays(c, s, rescued, id, payer, SrcPublicCancellation, given);
  }

  /** A step that does not take from escrow `id` leaves it out of the rescued set. */
  lemma StaysUnrescued(h: Hasher, s: State, rescued: set<Address>, ix: Instruction, id: EscrowId)
    requires EscrowPda(id) !in rescued && EscrowPda(id) !in Takes(h, s, ix) && id in s.escrows
    requires ix.ICreateEscrow? && ix.orderHash in s.orders ==>
      FillId(s.orders[ix.orderHash], ix.orderHash, ix.taker, ix.amount, ix.proof) !in s.escrows
    ensures EscrowPda(id) !in RescuedAfter(h, s, rescued, ix)
  {
  }

  lemma OthersKeepPrincipal(
    h: Hasher, c: Chain, s: State, s': State, rescued: set<Address>, ix: Instruction, id: EscrowId)
    requires Solvent(c, s, rescued) && id in s.escrows && id in s'.escrows && Apply(h, c, s, ix) == Ok(s')
    requires EscrowPda(id) !in rescued && EscrowPda(id) !in Takes(h, s, ix) && StoresMove(h, c, s, s', ix)
    ensures EscrowFunded(c, s'.balances, id, s'.escrows[id])
  {
    StaysUnrescued(h, s, rescued, ix, id);
    StepKeepsSolvency(h, c, s, rescued, ix);
  }

  /** No step short of a rescue takes anything from a live escrow's principal but the one
      that closes it, and that one pays it out whole. */
  lemma PrincipalLeavesOnce(h: Hasher, c: Chain, s: State, rescued: set<Address>, ix: Instruction, id: EscrowId)
    requires Solvent(c, s, rescued) && id in s.escrows && Apply(h, c, s, ix).Ok?
    requires EscrowPda(id) !in rescued && EscrowPda(id) !in Takes(h, s, ix)
    ensures var s' := Apply(h, c, s, ix).value;
      if id in s'.escrows then s'.escrows[id] == s.escrows[id] && EscrowFunded(c, s'.balances, id, s'.escrows[id])
      else PaysOut(c, s, s', ix, id)
  {
    var s' := Apply(h, c, s, ix).value;
    StepMovesStores(h, c, s, ix);
    if ClosesEscrow(ix, id) {
      ClosingRemoves(h, c, s, s', ix, id);
      ClosingPays(h, c, s, rescued, ix, id);
    } else {
      OthersLeaveEscrow(h, c, s, s', ix, id);
      OthersKeepPrincipal(h, c, s, s', rescued, ix, id);
    }
  }

  // ----- Rescue comes late -----

  /** The escrow was filled before its order could be rescued, and cannot be rescued yet. */
  predicate IsYoung(event: Event, now: u32)
    requires event.Opened?
  {
    && event.at < DeployedAt(event.order.timelocks) + RESCUE_DELAY
    && now < DeployedAt(event.escrow.timelocks) + RESCUE_DELAY
  }

  /** A rescued escrow that is live is not young. */
  ghost predicate RescuedLate(s: State, id: EscrowId, log: seq<Event>, rescued: set<Address>) {
    IsLive(log) && EscrowPda(id) in rescued ==> !IsYoung(Last(log), s.now)
  }

  lemma OpeningRescuesLate(
    h: Hasher, c: Chain, s: State, s': State, ix: Instruction, id: EscrowId, log: seq<Event>, rescued: set<Address>)
    requires StoresMove(h, c, s, s', ix) && OrdersRescuedLate(s, rescued) && ix.ICreateEscrow?
    requires id !in s.escrows && id in s'.escrows
    ensures RescuedLate(s', id, Logged(s, s', ix, id, log), RescuedAfter(h, s, rescued, ix))
  {
  }

  lemma StayingRescuesLate(
    h: Hasher, c: Chain, s: State, s': State, ix: Instruction, id: EscrowId, log: seq<Event>, rescued: set<Address>)
    requires Apply(h, c, s, ix) == Ok(s') && StoresMove(h, c, s, s', ix) && !ClosesEscrow(ix, id)
    requires LogKept(h, s, id, log) && RescuedLate(s, id, log, rescued) && id in s.escrows
    ensures RescuedLate(s', id, log, RescuedAfter(h, s, rescued, ix))
  {
    OthersLeaveEscrow(h, c, s, s', ix, id);
    if EscrowPda(id) in Takes(h, s, ix) {
      RescueWaits(h, c, s, ix);
    } else if EscrowPda(id) !in rescued {
      StaysUnrescued(h, s, rescued, ix, id);
    }
  }

  lemma ClosingEndsLog(s: State, s': State, ix: Instruction, id: EscrowId, log: seq<Event>)
    requires ClosesEscrow(ix, id)
    ensures !IsLive(Logged(s, s', ix, id, log))
  {
  }

  lemma OthersLeaveLog(s: State, s': State, ix: Instruction, id: EscrowId, log: seq<Event>)
    requires !ClosesEscrow(ix, id) && (id in s.escrows || id !in s'.escrows)
    ensures Logged(s, s', ix, id, log) == log
  {
  }

  lemma StepRescuesLate(
    h: Hasher, c: Chain, s: State, s': State, ix: Instruction, id: EscrowId, log: seq<Event>, rescued: set<Address>)
    requires Apply(h, c, s, ix) == Ok(s') && StoresMove(h, c, s, s', ix)
    requires LogKept(h, s, id, log) && OrdersRescuedLate(s, rescued) && RescuedLate(s, id, log, rescued)
    ensures RescuedLate(s', id, Logged(s, s', ix, id, log), RescuedAfter(h, s, rescued, ix))
  {
    if ClosesEscrow(ix, id) {
      ClosingEndsLog(s, s', ix, id, log);
    } else {
      OthersLeaveEscrow(h, c, s, s', ix, id);
      if id !in s.escrows && id in s'.escrows {
        OpeningRescuesLate(h, c, s, s', ix, id, log, rescued);
      } else {
        OthersLeaveLog(s, s', ix, id, log);
        if id in s.escrows { StayingRescuesLate(h, c, s, s', ix, id, log, rescued); }
      }
    }
  }

  lemma {:induction false} RunsRescueLate(h: Hasher, c: Chain, s: State, ixs: seq<Instruction>, id: EscrowId)
    requires Genesis(s)
    ensures RescuedLate(Run(h, c, s, ixs), id, Log(h, c, s, ixs, id), RescuedBy(h, c, s, ixs))
  {
    if ixs != [] {
      var before := Run(h, c, s, Front(ixs));
      RunsRescueLate(h, c, s, Front(ixs), id);
      RunsRescueOrdersLate(h, c, s, Front(ixs));
      LogIsKept(h, c, s, Front(ixs), id);
      if Apply(h, c, before, Last(ixs)).Ok? {
        StepMovesStores(h, c, before, Last(ixs));
        StepRescuesLate(h, c, before, Run(h, c, s, ixs), Last(ixs), id, Log(h, c, s, Front(ixs), id),
                        RescuedBy(h, c, s, Front(ixs)));
      }
    }
  }

  /** An escrow filled within its order's rescue delay is funded, over every run and with no
      assumption on it, until its own rescue delay has passed. */
  lemma YoungEscrowsAreFunded(h: Hasher, c: Chain, s: State, ixs: seq<Instruction>, id: EscrowId)
    requires Genesis(s) && Backed(c, s.balances)
    requires IsLive(Log(h, c, s, ixs, id)) && IsYoung(Last(Log(h, c, s, ixs, id)), Run(h, c, s, ixs).now)
    ensures EscrowPda(id) !in RescuedBy(h, c, s, ixs)
    ensures id in Run(h, c, s, ixs).escrows
    ensures EscrowFunded(c, Run(h, c, s, ixs).balances, id, Run(h, c, s, ixs).escrows[id])
  {
    RunsStaySolvent(h, c, s, ixs);
    LogIsKept(h, c, s, ixs, id);
    RunsRescueLate(h, c, s, ixs, id);
  }

  /** Over every run, each step leaves such an escrow whole or pays all of it out. */
  lemma YoungPrincipalLeavesOnce(h: Hasher, c: Chain, s: State, ixs: seq<Instruction>, id: EscrowId, ix: Instruction)
    requires Genesis(s) && Backed(c, s.balances)
    requires IsLive(Log(h, c, s, ixs, id)) && IsYoung(Last(Log(h, c, s, ixs, id)), Run(h, c, s, ixs).now)
    requires Apply(h, c, Run(h, c, s, ixs), ix).Ok?
    ensures var before, after := Run(h, c, s, ixs), Apply(h, c, Run(h, c, s, ixs), ix).value;
      && id in before.escrows
      && if id in after.escrows
         then after.escrows[id] == before.escrows[id] && EscrowFunded(c, after.balances, id, after.escrows[id])
         else PaysOut(c, before, after, ix, id)
  {
    var before := Run(h, c, s, ixs);
    RunsStaySolvent(h, c, s, ixs);
    LogIsKept(h, c, s, ixs, id);
    YoungEscrowsAreFunded(h, c, s, ixs, id);
    RescueWaits(h, c, before, ix);
    PrincipalLeavesOnce(h, c, before, RescuedBy(h, c, s, ixs), ix, id);
  }
}
