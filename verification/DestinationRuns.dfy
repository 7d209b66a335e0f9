/** Runs of the destination program from an empty state, and what they make of one escrow:
    it is opened, and then closed once, for its recipient or for its creator. */
module DestinationRuns {
  import opened Bits
  import opened Numerals
  import opened Timelocks
  import opened Merkle
  import opened Accounts
  import opened DestinationSpec
  import opened DestinationInvariant
  import opened Sequences

  ghost function Run(h: Hasher, c: Chain, s: State, ixs: seq<Instruction>): State {
    if ixs == [] then s else Next(h, c, Run(h, c, s, Front(ixs)), Last(ixs))
  }

  /** The escrows that a run's rescues took a live asset from. */
  ghost function RescuedBy(h: Hasher, c: Chain, s: State, ixs: seq<Instruction>): set<EscrowId> {
    if ixs == [] then {}
    else
      var before, rescued := Run(h, c, s, Front(ixs)), RescuedBy(h, c, s, Front(ixs));
      if Apply(h, c, before, Last(ixs)).Ok? then RescuedAfter(before, rescued, Last(ixs)) else rescued
  }

  /** Solvency in every reachable state: every escrow that was not rescued is funded. */
  lemma {:induction false} RunsStaySolvent(h: Hasher, c: Chain, s: State, ixs: seq<Instruction>)
    requires s.escrows == map[] && Backed(c, s.balances)
    ensures Solvent(c, Run(h, c, s, ixs), RescuedBy(h, c, s, ixs))
  {
    if ixs != [] {
      var before, rescued := Run(h, c, s, Front(ixs)), RescuedBy(h, c, s, Front(ixs));
      RunsStaySolvent(h, c, s, Front(ixs));
      if Apply(h, c, before, Last(ixs)).Ok? {
        StepKeepsSolvency(h, c, before, rescued, Last(ixs));
      }
    }
  }

  /** A run without outside interference makes and loses no lamport and no token. */
  lemma {:induction false} RunsConserve(h: Hasher, c: Chain, s: State, ixs: seq<Instruction>)
    requires s.escrows == map[] && Backed(c, s.balances)
    requires forall i :: 0 <= i < |ixs| ==> !ixs[i].World?
    ensures Conserves(c, s.balances, Run(h, c, s, ixs).balances)
  {
    if ixs != [] {
      var before := Run(h, c, s, Front(ixs));
      RunsConserve(h, c, s, Front(ixs));
      if Apply(h, c, before, Last(ixs)).Ok? {
        RunsStaySolvent(h, c, s, Front(ixs));
        StepKeepsSolvency(h, c, before, RescuedBy(h, c, s, Front(ixs)), Last(ixs));
      }
    }
  }

  // ----- The log of an escrow -----

  datatype Event =
    | Opened(escrow: EscrowDst, params: CreateParams, at: u32)
    | Paid(stage: Stage, secret: Bytes32, at: u32)
    | Refunded(at: u32)

  /** The log of escrow `id` after a successful step, from the log before it. */
  function Logged(s: State, s': State, ix: Instruction, id: EscrowId, log: seq<Event>): seq<Event> {
    match ix
    case ICreate(p, _) =>
      if CreatedId(p) == id && id in s'.escrows then log + [Opened(s'.escrows[id], p, s.now)] else log
    case IWithdraw(id', secret, _) => if id' == id then log + [Paid(DstWithdrawal, secret, s.now)] else log
    case IPublicWithdraw(_, id', secret, _) =>
      if id' == id then log + [Paid(DstPublicWithdrawal, secret, s.now)] else log
    case ICancel(id', _) => if id' == id then log + [Refunded(s.now)] else log
    case _ => log
  }

  ghost function Log(h: Hasher, c: Chain, s: State, ixs: seq<Instruction>, id: EscrowId): seq<Event> {
    if ixs == [] then []
    else
      var before, log := Run(h, c, s, Front(ixs)), Log(h, c, s, Front(ixs), id);
      var r := Apply(h, c, before, Last(ixs));
      if r.Ok? then Logged(before, r.value, Last(ixs), id, log) else log
  }

  /** A payment with the secret, from its stage on and before cancellation, or a refund from
      cancellation on: the destination's one cancellation stage keeps them apart. */
  predicate Closes(h: Hasher, e: EscrowDst, event: Event) {
    match event
    case Opened(_, _, _) => false
    case Paid(stage, secret, at) =>
      && (stage == DstWithdrawal || stage == DstPublicWithdrawal)
      && h(secret) == e.hashlock && StartedBy(e.timelocks, stage, at) && EndedBefore(e.timelocks, DstCancellation, at)
    case Refunded(at) => StartedBy(e.timelocks, DstCancellation, at)
  }

  /** An opened escrow carries its parameters, counts its windows from its own time and ends
      them before the cancellation time announced for the source. */
  predicate Opens(event: Event) {
    && event.Opened?
    && var e, p := event.escrow, event.params;
    && e.orderHash == p.orderHash && e.hashlock == p.hashlock && e.creator == p.creator && e.recipient == p.recipient
    && e.token == p.token && e.assetIsNative == p.assetIsNative && e.amount == p.amount
    && e.safetyDeposit == p.safetyDeposit && Restarted(e.timelocks, p.timelocks, event.at)
    && StageStart(e.timelocks, DstCancellation).Ok?
    && StageStart(e.timelocks, DstCancellation).value <= p.srcCancellationTimestamp
  }

  predicate IsLive(log: seq<Event>) {
    log != [] && Last(log).Opened?
  }

  predicate Follows(h: Hasher, log: seq<Event>, i: nat)
    requires i < |log|
  {
    && (i > 0 ==> log[i - 1].at <= log[i].at)
    && if log[i].Opened? then Opens(log[i]) && (i > 0 ==> !log[i - 1].Opened?)
       else i > 0 && log[i - 1].Opened? && Closes(h, log[i - 1].escrow, log[i])
  }

  /** Each opening has at most one closing, in its window, before the next opening. */
  predicate WellFormed(h: Hasher, log: seq<Event>) {
    forall i :: 0 <= i < |log| ==> Follows(h, log, i)
  }

  predicate LogKept(h: Hasher, s: State, id: EscrowId, log: seq<Event>) {
    && WellFormed(h, log)
    && (log != [] ==> Last(log).at <= s.now)
    && (id in s.escrows <==> IsLive(log))
    && (id in s.escrows ==> Last(log).escrow == s.escrows[id])
  }

  lemma Append(h: Hasher, log: seq<Event>, event: Event)
    requires WellFormed(h, log) && Follows(h, log + [event], |log|)
    ensures WellFormed(h, log + [event])
  {
    forall i | 0 <= i < |log + [event]| ensures Follows(h, log + [event], i) {
      assert i < |log| ==> Follows(h, log, i);
    }
  }

  predicate Leaves(s: State, s': State, id: EscrowId) {
    id in s.escrows && s'.escrows == s.escrows - {id} && s'.now == s.now
  }

  lemma WithdrawMoves(
    h: Hasher, c: Chain, s: State, id: EscrowId, executor: Bytes32, stage: Stage, secret: Bytes32, given: bool)
    requires WithdrawFrom(h, c, s, id, executor, stage, secret, given).Ok?
    ensures Leaves(s, WithdrawFrom(h, c, s, id, executor, stage, secret, given).value, id)
    ensures WithdrawGate(h, s.escrows[id], s.now, stage, secret).Ok?
  {
  }

  lemma CreateMoves(c: Chain, s: State, p: CreateParams, given: bool)
    requires Create(c, s, p, given).Ok?
    ensures var s' := Create(c, s, p, given).value;
      && CreatedId(p) !in s.escrows && s'.now == s.now
      && CreatedId(p) in s'.escrows && s'.escrows == s.escrows[CreatedId(p) := s'.escrows[CreatedId(p)]]
      && Opens(Opened(s'.escrows[CreatedId(p)], p, s.now))
  {
  }

  lemma CancelMoves(c: Chain, s: State, id: EscrowId, given: bool)
    requires Cancel(c, s, id, given).Ok?
    ensures Leaves(s, Cancel(c, s, id, given).value, id) && After(s.escrows[id].timelocks, s.now, DstCancellation).Ok?
  {
  }

  lemma ClosingKeepsLog(h: Hasher, s: State, s': State, id: EscrowId, id': EscrowId, log: seq<Event>, event: Event)
    requires LogKept(h, s, id, log) && Leaves(s, s', id')
    requires event.at == s.now && Closes(h, s.escrows[id'], event)
    ensures LogKept(h, s', id, if id' == id then log + [event] else log)
  {
    if id' == id {
      Append(h, log, event);
    }
  }

  lemma StepKeepsLog(h: Hasher, c: Chain, s: State, ix: Instruction, id: EscrowId, log: seq<Event>)
    requires Apply(h, c, s, ix).Ok? && LogKept(h, s, id, log)
    ensures LogKept(h, Apply(h, c, s, ix).value, id, Logged(s, Apply(h, c, s, ix).value, ix, id, log))
  {
    var s' := Apply(h, c, s, ix).value;
    match ix
    case ICreate(p, given) =>
      CreateMoves(c, s, p, given);
      if CreatedId(p) == id {
        Append(h, log, Opened(s'.escrows[id], p, s.now));
      }
    case IWithdraw(id', secret, given) =>
      WithdrawMoves(h, c, s, id', id'.creator, DstWithdrawal, secret, given);
      ClosingKeepsLog(h, s, s', id, id', log, Paid(DstWithdrawal, secret, s.now));
    case IPublicWithdraw(payer, id', secret, given) =>
      WithdrawMoves(h, c, s, id', payer, DstPublicWithdrawal, secret, given);
      ClosingKeepsLog(h, s, s', id, id', log, Paid(DstPublicWithdrawal, secret, s.now));
    case ICancel(id', given) =>
      CancelMoves(c, s, id', given);
      ClosingKeepsLog(h, s, s', id, id', log, Refunded(s.now));
    case _ =>
  }

  /** Exactly one outcome for each opening, over every run. */
  lemma {:induction false} LogIsKept(h: Hasher, c: Chain, s: State, ixs: seq<Instruction>, id: EscrowId)
    requires s.escrows == map[]
    ensures LogKept(h, Run(h, c, s, ixs), id, Log(h, c, s, ixs, id))
  {
    if ixs != [] {
      LogIsKept(h, c, s, Front(ixs), id);
      var before := Run(h, c, s, Front(ixs));
      if Apply(h, c, before, Last(ixs)).Ok? {
        StepKeepsLog(h, c, before, Last(ixs), id, Log(h, c, s, Front(ixs), id));
      }
    }
  }

  /** Whenever an escrow can be withdrawn, it was opened, the secret is its own, and the
      cancellation time announced for the source has not come. */
  lemma WithdrawableIsEarly(h: Hasher, s: State, log: seq<Event>, id: EscrowId, stage: Stage, secret: Bytes32)
    requires LogKept(h, s, id, log) && id in s.escrows && WithdrawGate(h, s.escrows[id], s.now, stage, secret).Ok?
    ensures IsLive(log) && h(secret) == Last(log).escrow.hashlock && s.now < Last(log).params.srcCancellationTimestamp
  {
    assert Follows(h, log, |log| - 1);
  }

  // ----- Where the asset goes -----

  /** The step closes the escrow and its asset leaves: to the recipient, once its token
      account is open, or to the creator. */
  ghost predicate PaysOut(c: Chain, s: State, s': State, ix: Instruction, id: EscrowId)
    requires id in s.escrows
  {
    var e, b, b' := s.escrows[id], s.balances, s'.balances;
    match ix
    case IWithdraw(id', _, given) =>
      && id' == id && OpenRecipient(c, b, id.creator, e, given).Ok?
      && RecipientPaid(c, OpenRecipient(c, b, id.creator, e, given).value, b', id, e, id.creator)
    case IPublicWithdraw(payer, id', _, given) =>
      && id' == id && OpenRecipient(c, b, payer, e, given).Ok?
      && RecipientPaid(c, OpenRecipient(c, b, payer, e, given).value, b', id, e, payer)
    case ICancel(id', _) => id' == id && CreatorRefunded(c, b, b', id, e)
    case _ => false
  }

  lemma WithdrawalPays(
    h: Hasher, c: Chain, s: State, rescued: set<EscrowId>, id: EscrowId, executor: Bytes32, stage: Stage,
    secret: Bytes32, given: bool)
    requires Solvent(c, s, rescued) && id !in rescued
    requires WithdrawFrom(h, c, s, id, executor, stage, secret, given).Ok?
    ensures OpenRecipient(c, s.balances, executor, s.escrows[id], given).Ok?
    ensures RecipientPaid(
      c, OpenRecipient(c, s.balances, executor, s.escrows[id], given).value,
      WithdrawFrom(h, c, s, id, executor, stage, secret, given).value.balances, id, s.escrows[id], executor)
  {
    var e := s.escrows[id];
    OpenRecipientKeeps(c, s.balances, executor, e, given);
    var prepared := OpenRecipient(c, s.balances, executor, e, given).value;
    StaysFunded(c, s.balances, prepared, id, e);
    RecipientIsPaid(c, prepared, id, e, executor, given);
  }

  lemma RefundPays(c: Chain, s: State, rescued: set<EscrowId>, id: EscrowId, given: bool)
    requires Solvent(c, s, rescued) && id !in rescued && Cancel(c, s, id, given).Ok?
    ensures CreatorRefunded(c, s.balances, Cancel(c, s, id, given).value.balances, id, s.escrows[id])
  {
    CancelSucceeds(c, s, rescued, id, given);
    CreatorIsRefunded(c, s.balances, id, s.escrows[id], given);
  }

  /** The step would close escrow `id`. */
  predicate ClosesEscrow(ix: Instruction, id: EscrowId) {
    match ix
    case IWithdraw(id', _, _) => id' == id
    case IPublicWithdraw(_, id', _, _) => id' == id
    case ICancel(id', _) => id' == id
    case _ => false
  }

  lemma OthersLeaveEscrow(h: Hasher, c: Chain, s: State, ix: Instruction, id: EscrowId)
    requires Apply(h, c, s, ix).Ok? && id in s.escrows && !ClosesEscrow(ix, id)
    ensures var s' := Apply(h, c, s, ix).value; id in s'.escrows && s'.escrows[id] == s.escrows[id]
  {
    match ix
    case ICreate(p, given) => CreateMoves(c, s, p, given);
    case IWithdraw(id', secret, given) => WithdrawMoves(h, c, s, id', id'.creator, DstWithdrawal, secret, given);
    case IPublicWithdraw(payer, id', secret, given) =>
      WithdrawMoves(h, c, s, id', payer, DstPublicWithdrawal, secret, given);
    case ICancel(id', given) => CancelMoves(c, s, id', given);
    case _ =>
  }

  lemma ClosingPays(h: Hasher, c: Chain, s: State, rescued: set<EscrowId>, ix: Instruction, id: EscrowId)
    requires Solvent(c, s, rescued) && id in s.escrows && id !in rescued && Apply(h, c, s, ix).Ok?
    requires ClosesEscrow(ix, id)
    ensures PaysOut(c, s, Apply(h, c, s, ix).value, ix, id) && id !in Apply(h, c, s, ix).value.escrows
  {
    match ix
    case IWithdraw(_, secret, given) =>
      WithdrawMoves(h, c, s, id, id.creator, DstWithdrawal, secret, given);
      WithdrawalPays(h, c, s, rescued, id, id.creator, DstWithdrawal, secret, given);
    case IPublicWithdraw(payer, _, secret, given) =>
      WithdrawMoves(h, c, s, id, payer, DstPublicWithdrawal, secret, given);
      WithdrawalPays(h, c, s, rescued, id, payer, DstPublicWithdrawal, secret, given);
    case ICancel(_, given) =>
      CancelMoves(c, s, id, given);
      RefundPays(c, s, rescued, id, given);
  }

  /** No step short of a rescue takes anything from a live escrow's asset but the one that
      closes it, and that one pays it out whole. */
  lemma AssetLeavesOnce(h: Hasher, c: Chain, s: State, rescued: set<EscrowId>, ix: Instruction, id: EscrowId)
    requires Solvent(c, s, rescued) && id in s.escrows && Apply(h, c, s, ix).Ok?
    requires id !in rescued && id !in Takes(s, ix)
    ensures var s' := Apply(h, c, s, ix).value;
      if id in s'.escrows then s'.escrows[id] == s.escrows[id] && EscrowFunded(c, s'.balances, id, s'.escrows[id])
      else PaysOut(c, s, s', ix, id)
  {
    if ClosesEscrow(ix, id) {
      ClosingPays(h, c, s, rescued, ix, id);
    } else {
      OthersLeaveEscrow(h, c, s, ix, id);
      StepKeepsSolvency(h, c, s, rescued, ix);
    }
  }

  // ----- Rescue comes late -----

  /** A rescued escrow that is live has outlived its delay. */
  ghost predicate RescuedLate(s: State, rescued: set<EscrowId>) {
    forall id :: id in s.escrows && id in rescued ==> DeployedAt(s.escrows[id].timelocks) + RESCUE_DELAY <= s.now
  }

  lemma StepRescuesLate(h: Hasher, c: Chain, s: State, rescued: set<EscrowId>, ix: Instruction)
    requires Apply(h, c, s, ix).Ok? && RescuedLate(s, rescued)
    ensures RescuedLate(Apply(h, c, s, ix).value, RescuedAfter(s, rescued, ix))
  {
    RescueWaits(h, c, s, ix);
    match ix
    case ICreate(p, given) => CreateMoves(c, s, p, given);
    case IWithdraw(id, secret, given) => WithdrawMoves(h, c, s, id, id.creator, DstWithdrawal, secret, given);
    case IPublicWithdraw(payer, id, secret, given) =>
      WithdrawMoves(h, c, s, id, payer, DstPublicWithdrawal, secret, given);
    case ICancel(id, given) => CancelMoves(c, s, id, given);
    case _ =>
  }

  lemma {:induction false} RunsRescueLate(h: Hasher, c: Chain, s: State, ixs: seq<Instruction>)
    requires s.escrows == map[]
    ensures RescuedLate(Run(h, c, s, ixs), RescuedBy(h, c, s, ixs))
  {
    if ixs != [] {
      RunsRescueLate(h, c, s, Front(ixs));
      if Apply(h, c, Run(h, c, s, Front(ixs)), Last(ixs)).Ok? {
        StepRescuesLate(h, c, Run(h, c, s, Front(ixs)), RescuedBy(h, c, s, Front(ixs)), Last(ixs));
      }
    }
  }

  /** An escrow is funded, over every run and with no assumption on it, until its rescue
      delay has passed; and each step until then leaves it whole or pays all of it out. */
  lemma YoungEscrowsAreFunded(h: Hasher, c: Chain, s: State, ixs: seq<Instruction>, id: EscrowId, ix: Instruction)
    requires s.escrows == map[] && Backed(c, s.balances) && id in Run(h, c, s, ixs).escrows
    requires Run(h, c, s, ixs).now < DeployedAt(Run(h, c, s, ixs).escrows[id].timelocks) + RESCUE_DELAY
    ensures EscrowFunded(c, Run(h, c, s, ixs).balances, id, Run(h, c, s, ixs).escrows[id])
    ensures var before, r := Run(h, c, s, ixs), Apply(h, c, Run(h, c, s, ixs), ix);
      r.Ok? ==>
        if id in r.value.escrows
        then r.value.escrows[id] == before.escrows[id] && EscrowFunded(c, r.value.balances, id, before.escrows[id])
        else PaysOut(c, before, r.value, ix, id)
  {
    var before, rescued := Run(h, c, s, ixs), RescuedBy(h, c, s, ixs);
    RunsStaySolvent(h, c, s, ixs);
    RunsRescueLate(h, c, s, ixs);
    if Apply(h, c, before, ix).Ok? {
      RescueWaits(h, c, before, ix);
      AssetLeavesOnce(h, c, before, rescued, ix, id);
    }
  }
}
