/** Both programs at once, each on its own chain, interleaved in any order under one clock.
    Whoever is paid on the destination reveals the secret in time for the source escrow. */
module CrossChain {
  import opened Wrappers
  import opened Bits
  import opened Numerals
  import opened Timelocks
  import opened Merkle
  import opened Accounts
  import opened Sequences
  import S = SourceSpec
  import SI = SourceInvariant
  import SR = SourceRuns
  import SL = EscrowLog
  import D = DestinationSpec
  import DR = DestinationRuns

  datatype Chains = Chains(h: Hasher, src: Chain, dst: Chain)

  datatype World = World(src: S.State, dst: D.State)

  datatype Step =
    | OnSource(six: S.Instruction)
    | OnDestination(dix: D.Instruction)
    | Clock(time: u32)

  /** One step of the two chains; neither chain's clock moves by itself. */
  ghost function Next(k: Chains, w: World, step: Step): World {
    match step
    case OnSource(ix) => if ix.Tick? then w else w.(src := S.Next(k.h, k.src, w.src, ix))
    case OnDestination(ix) => if ix.Tick? then w else w.(dst := D.Next(k.h, k.dst, w.dst, ix))
    case Clock(t) => World(S.Next(k.h, k.src, w.src, S.Tick(t)), D.Next(k.h, k.dst, w.dst, D.Tick(t)))
  }

  ghost function Run(k: Chains, w: World, steps: seq<Step>): World {
    if steps == [] then w else Next(k, Run(k, w, Front(steps)), Last(steps))
  }

  predicate Genesis(k: Chains, w: World) {
    SR.Genesis(w.src) && w.dst.escrows == map[] && w.src.now == w.dst.now
  }

  // ----- What each chain sees -----

  function SourceOf(step: Step): seq<S.Instruction> {
    match step
    case OnSource(ix) => if ix.Tick? then [] else [ix]
    case OnDestination(_) => []
    case Clock(t) => [S.Tick(t)]
  }

  function DestinationOf(step: Step): seq<D.Instruction> {
    match step
    case OnSource(_) => []
    case OnDestination(ix) => if ix.Tick? then [] else [ix]
    case Clock(t) => [D.Tick(t)]
  }

  function SourcePart(steps: seq<Step>): seq<S.Instruction> {
    if steps == [] then [] else SourcePart(Front(steps)) + SourceOf(Last(steps))
  }

  function DestinationPart(steps: seq<Step>): seq<D.Instruction> {
    if steps == [] then [] else DestinationPart(Front(steps)) + DestinationOf(Last(steps))
  }

  /** Each chain of an interleaved run has run on its own, and the clocks agree. */
  lemma {:induction false} EachChainRunsAlone(k: Chains, w: World, steps: seq<Step>)
    requires w.src.now == w.dst.now
    ensures Run(k, w, steps).src == SR.Run(k.h, k.src, w.src, SourcePart(steps))
    ensures Run(k, w, steps).dst == DR.Run(k.h, k.dst, w.dst, DestinationPart(steps))
    ensures Run(k, w, steps).src.now == Run(k, w, steps).dst.now
  {
    if steps != [] {
      EachChainRunsAlone(k, w, Front(steps));
      var before := Run(k, w, Front(steps));
      SourceStep(k, w, SourcePart(Front(steps)), before, Last(steps));
      DestinationStep(k, w, DestinationPart(Front(steps)), before, Last(steps));
      ClocksAgree(k, before, Last(steps));
    }
  }

  lemma SourceStep(k: Chains, w: World, ixs: seq<S.Instruction>, before: World, step: Step)
    requires before.src == SR.Run(k.h, k.src, w.src, ixs)
    ensures SR.Run(k.h, k.src, w.src, ixs + SourceOf(step)) == Next(k, before, step).src
  {
    if SourceOf(step) == [] {
      assert ixs + SourceOf(step) == ixs;
    } else {
      assert Front(ixs + SourceOf(step)) == ixs;
    }
  }

  lemma DestinationStep(k: Chains, w: World, ixs: seq<D.Instruction>, before: World, step: Step)
    requires before.dst == DR.Run(k.h, k.dst, w.dst, ixs)
    ensures DR.Run(k.h, k.dst, w.dst, ixs + DestinationOf(step)) == Next(k, before, step).dst
  {
    if DestinationOf(step) == [] {
      assert ixs + DestinationOf(step) == ixs;
    } else {
      assert Front(ixs + DestinationOf(step)) == ixs;
    }
  }

  lemma ClocksAgree(k: Chains, w: World, step: Step)
    requires w.src.now == w.dst.now
    ensures Next(k, w, step).src.now == Next(k, w, step).dst.now
  {
    match step
    case OnSource(ix) =>
      if !ix.Tick? && S.Apply(k.h, k.src, w.src, ix).Ok? { SR.StepMovesStores(k.h, k.src, w.src, ix); }
    case OnDestination(ix) =>
      if !ix.Tick? && D.Apply(k.h, k.dst, w.dst, ix).Ok? { DestinationClock(k, w.dst, ix); }
    case Clock(_) =>
  }

  lemma DestinationClock(k: Chains, s: D.State, ix: D.Instruction)
    requires !ix.Tick? && D.Apply(k.h, k.dst, s, ix).Ok?
    ensures D.Apply(k.h, k.dst, s, ix).value.now == s.now
  {
    match ix
    case ICreate(p, given) => DR.CreateMoves(k.dst, s, p, given);
    case IWithdraw(id, secret, given) => DR.WithdrawMoves(k.h, k.dst, s, id, id.creator, DstWithdrawal, secret, given);
    case IPublicWithdraw(payer, id, secret, given) =>
      DR.WithdrawMoves(k.h, k.dst, s, id, payer, DstPublicWithdrawal, secret, given);
    case ICancel(id, given) => DR.CancelMoves(k.dst, s, id, given);
    case _ =>
  }

  // ----- Cross-chain safety -----

  ghost function SourceLog(k: Chains, w: World, steps: seq<Step>, id: EscrowId): seq<SL.Event> {
    SL.Log(k.h, k.src, w.src, SourcePart(steps), id)
  }

  ghost function DestinationLog(k: Chains, w: World, steps: seq<Step>, id: EscrowId): seq<DR.Event> {
    DR.Log(k.h, k.dst, w.dst, DestinationPart(steps), id)
  }

  /** Step `dix` withdraws destination escrow `id` with the secret. */
  predicate Withdraws(dix: D.Instruction, id: EscrowId, secret: Bytes32) {
    || (dix.IWithdraw? && dix.id == id && dix.secret == secret)
    || (dix.IPublicWithdraw? && dix.id == id && dix.secret == secret)
  }

  /** The two escrows belong together: one hashlock, the cancellation time announced on the
      destination is the source escrow's own, and that does not come after public
      cancellation. The programs check none of this. */
  predicate Matched(src: S.EscrowSrc, dst: DR.Event) {
    && dst.Opened? && dst.escrow.hashlock == src.hashlock
    && StageStart(src.timelocks, SrcCancellation) == Ok(dst.params.srcCancellationTimestamp)
    && src.timelocks[SrcCancellation.Index()] <= src.timelocks[SrcPublicCancellation.Index()]
  }

  /** The last opening in a source log, and what followed it. */
  predicate LastOpening(log: seq<SL.Event>, i: nat) {
    i < |log| && log[i].Opened? && (i == |log| - 1 || (i == |log| - 2 && !log[i + 1].Opened?))
  }

  /** A successful withdrawal reveals a secret of the escrow's hashlock, and happens before
      the source's cancellation. */
  lemma WithdrawalIsEarly(k: Chains, w: World, steps: seq<Step>, dix: D.Instruction, id: EscrowId, secret: Bytes32)
    requires Genesis(k, w) && Withdraws(dix, id, secret)
    requires D.Apply(k.h, k.dst, Run(k, w, steps).dst, dix).Ok?
    ensures var log := DestinationLog(k, w, steps, id);
      && DR.IsLive(log) && k.h(secret) == Last(log).escrow.hashlock
      && Run(k, w, steps).dst.now < Last(log).params.srcCancellationTimestamp
  {
    var s, log := Run(k, w, steps).dst, DestinationLog(k, w, steps, id);
    EachChainRunsAlone(k, w, steps);
    DR.LogIsKept(k.h, k.dst, w.dst, DestinationPart(steps), id);
    var stage := if dix.IWithdraw? then DstWithdrawal else DstPublicWithdrawal;
    var executor := if dix.IWithdraw? then id.creator else dix.payer;
    DR.WithdrawMoves(k.h, k.dst, s, id, executor, stage, secret, dix.given);
    DR.WithdrawableIsEarly(k.h, s, log, id, stage, secret);
  }

  /** Until the source's cancellation no refund can have followed the opening. */
  lemma NotRefundedBeforeCancellation(k: Chains, w: World, steps: seq<Step>, id: EscrowId, i: nat)
    requires Genesis(k, w) && i < |SourceLog(k, w, steps, id)| && SourceLog(k, w, steps, id)[i].Opened?
    requires var f := SourceLog(k, w, steps, id)[i].escrow.timelocks;
      && EndedBefore(f, SrcCancellation, Run(k, w, steps).src.now)
      && f[SrcCancellation.Index()] <= f[SrcPublicCancellation.Index()]
    ensures var log := SourceLog(k, w, steps, id);
      && (id in Run(k, w, steps).src.escrows <==> SL.IsLive(log))
      && (i + 1 < |log| ==> log[i + 1].Paid?)
      && (i == |log| - 1 ==> id in Run(k, w, steps).src.escrows && Run(k, w, steps).src.escrows[id] == log[i].escrow)
  {
    var log := SourceLog(k, w, steps, id);
    EachChainRunsAlone(k, w, steps);
    SL.LogIsKept(k.h, k.src, w.src, SourcePart(steps), id);
    EarlyClosingIsPayment(k.h, log, i, Run(k, w, steps).src.now);
  }

  lemma EarlyClosingIsPayment(h: Hasher, log: seq<SL.Event>, i: nat, now: u32)
    requires SL.WellFormed(h, log) && i < |log| && log[i].Opened? && Last(log).at <= now
    requires EndedBefore(log[i].escrow.timelocks, SrcCancellation, now)
    requires log[i].escrow.timelocks[SrcCancellation.Index()] <= log[i].escrow.timelocks[SrcPublicCancellation.Index()]
    ensures i + 1 < |log| ==> log[i + 1].Paid?
  {
    if i + 1 < |log| {
      assert SL.Follows(h, log, i + 1);
      TimesRise(h, log, i + 1);
    }
  }

  lemma {:induction false} TimesRise(h: Hasher, log: seq<SL.Event>, i: nat)
    requires SL.WellFormed(h, log) && i < |log|
    ensures log[i].at <= Last(log).at
    decreases |log| - i
  {
    if i < |log| - 1 {
      TimesRise(h, log, i + 1);
      assert SL.Follows(h, log, i + 1);
    }
  }

  /** Cross-chain safety: whenever, in any interleaving, a destination withdrawal succeeds,
      the matching source escrow has not been refunded: it is live or its taker was paid. */
  lemma WithdrawalPrecedesRefund(
    k: Chains, w: World, steps: seq<Step>, dix: D.Instruction, did: EscrowId, secret: Bytes32, sid: EscrowId, i: nat)
    requires Genesis(k, w) && Withdraws(dix, did, secret)
    requires D.Apply(k.h, k.dst, Run(k, w, steps).dst, dix).Ok?
    requires var log, dlog := SourceLog(k, w, steps, sid), DestinationLog(k, w, steps, did);
      LastOpening(log, i) && dlog != [] && Matched(log[i].escrow, Last(dlog))
    ensures var log, src := SourceLog(k, w, steps, sid), Run(k, w, steps).src;
      && k.h(secret) == log[i].escrow.hashlock
      && EndedBefore(log[i].escrow.timelocks, SrcCancellation, src.now)
      && ((sid in src.escrows && src.escrows[sid] == log[i].escrow) || (i + 1 < |log| && log[i + 1].Paid?))
  {
    WithdrawalIsEarly(k, w, steps, dix, did, secret);
    EachChainRunsAlone(k, w, steps);
    NotRefundedBeforeCancellation(k, w, steps, sid, i);
  }

  lemma StepGrowsLog(k: Chains, w: World, steps: seq<Step>, step: Step, id: EscrowId)
    ensures SourceLog(k, w, steps, id) <= SourceLog(k, w, steps + [step], id)
  {
    var ixs := SourcePart(steps);
    assert Front(steps + [step]) == steps;
    if SourceOf(step) == [] {
      assert SourcePart(steps + [step]) == ixs;
    } else {
      SL.LogExtends(k.h, k.src, w.src, ixs, SourceOf(step)[0], id);
      assert SourcePart(steps + [step]) == ixs + [SourceOf(step)[0]];
    }
  }

  lemma PrefixTransitive(a: seq<SL.Event>, b: seq<SL.Event>, c: seq<SL.Event>)
    requires a <= b <= c
    ensures a <= c
  {
  }

  /** A log only grows. */
  lemma {:induction false} LogGrows(k: Chains, w: World, steps: seq<Step>, more: seq<Step>, id: EscrowId)
    ensures SourceLog(k, w, steps, id) <= SourceLog(k, w, steps + more, id)
    decreases |more|
  {
    if more == [] {
      assert steps + more == steps;
    } else {
      var earlier := steps + Front(more);
      assert steps + more == earlier + [Last(more)];
      LogGrows(k, w, steps, Front(more), id);
      StepGrowsLog(k, w, earlier, Last(more), id);
      PrefixTransitive(SourceLog(k, w, steps, id), SourceLog(k, w, earlier, id), SourceLog(k, w, steps + more, id));
    }
  }

  /** A live escrow that was not rescued can be withdrawn with its secret within its window. */
  lemma LiveIsUsable(k: Chains, s: S.State, ixs: seq<S.Instruction>, sid: EscrowId, secret: Bytes32)
    requires SR.Genesis(s) && Backed(k.src, s.balances) && SL.IsLive(SL.Log(k.h, k.src, s, ixs, sid))
    requires EscrowPda(sid) !in SR.RescuedBy(k.h, k.src, s, ixs)
    requires Claimable(SR.Run(k.h, k.src, s, ixs), Last(SL.Log(k.h, k.src, s, ixs, sid)).escrow)
    requires k.h(secret) == Last(SL.Log(k.h, k.src, s, ixs, sid)).escrow.hashlock
    ensures S.Withdraw(k.h, k.src, SR.Run(k.h, k.src, s, ixs), sid, secret).Ok?
  {
    var src, rescued := SR.Run(k.h, k.src, s, ixs), SR.RescuedBy(k.h, k.src, s, ixs);
    SL.LogIsKept(k.h, k.src, s, ixs, sid);
    SR.RunsStaySolvent(k.h, k.src, s, ixs);
    SI.WithdrawFromSucceeds(k.h, k.src, src, rescued, sid, sid.creator, SrcWithdrawal, secret);
  }

  /** The source's withdrawal window is open, and so is the taker's token account. */
  predicate Claimable(src: S.State, e: S.EscrowSrc) {
    && StartedBy(e.timelocks, SrcWithdrawal, src.now) && EndedBefore(e.timelocks, SrcCancellation, src.now)
    && Wallet(e.taker, e.token) in src.balances.tokens
  }

  /** Some rescue has taken from escrow `sid`, or from its order before it was filled. */
  ghost predicate Rescued(k: Chains, w: World, steps: seq<Step>, sid: EscrowId) {
    EscrowPda(sid) in SR.RescuedBy(k.h, k.src, w.src, SourcePart(steps))
  }

  /** The taker of the `i`-th opening was paid; or the escrow is live, and its taker can be
      paid with the secret unless it was rescued. */
  ghost predicate Served(k: Chains, w: World, steps: seq<Step>, sid: EscrowId, i: nat, secret: Bytes32) {
    var log, src := SourceLog(k, w, steps, sid), Run(k, w, steps).src;
    || (i + 1 < |log| && log[i + 1].Paid?)
    || (i + 1 == |log| && sid in src.escrows
        && (Rescued(k, w, steps, sid) || S.Withdraw(k.h, k.src, src, sid, secret).Ok?))
  }

  /** So the secret serves the taker of an escrow within its window, or has served it. */
  lemma SecretIsUsable(k: Chains, w: World, steps: seq<Step>, sid: EscrowId, i: nat, secret: Bytes32)
    requires Genesis(k, w) && Backed(k.src, w.src.balances)
    requires i < |SourceLog(k, w, steps, sid)| && SourceLog(k, w, steps, sid)[i].Opened?
    requires Claimable(Run(k, w, steps).src, SourceLog(k, w, steps, sid)[i].escrow)
    requires var e := SourceLog(k, w, steps, sid)[i].escrow;
      k.h(secret) == e.hashlock && e.timelocks[SrcCancellation.Index()] <= e.timelocks[SrcPublicCancellation.Index()]
    ensures Served(k, w, steps, sid, i, secret)
  {
    NotRefundedBeforeCancellation(k, w, steps, sid, i);
    if i == |SourceLog(k, w, steps, sid)| - 1 && !Rescued(k, w, steps, sid) {
      EachChainRunsAlone(k, w, steps);
      LiveIsUsable(k, w.src, SourcePart(steps), sid, secret);
    }
  }

  /** And the secret it revealed serves the taker: whatever else happens after a destination
      withdrawal, at every later moment inside the source's withdrawal window the source
      escrow has been paid to its taker or, unless a rescue took from it, can be withdrawn
      with that secret. */
  lemma RevealedSecretStaysUsable(
    k: Chains, w: World, steps: seq<Step>, dix: D.Instruction, did: EscrowId, secret: Bytes32, sid: EscrowId, i: nat,
    more: seq<Step>)
    requires Genesis(k, w) && Backed(k.src, w.src.balances) && Withdraws(dix, did, secret)
    requires D.Apply(k.h, k.dst, Run(k, w, steps).dst, dix).Ok?
    requires var log, dlog := SourceLog(k, w, steps, sid), DestinationLog(k, w, steps, did);
      && LastOpening(log, i) && dlog != [] && Matched(log[i].escrow, Last(dlog))
      && Claimable(Run(k, w, steps + more).src, log[i].escrow)
    ensures SourceLog(k, w, steps, sid) <= SourceLog(k, w, steps + more, sid)
    ensures Served(k, w, steps + more, sid, i, secret)
  {
    WithdrawalIsEarly(k, w, steps, dix, did, secret);
    LogGrows(k, w, steps, more, sid);
    SecretIsUsable(k, w, steps + more, sid, i, secret);
  }

  lemma YoungIsUnrescued(k: Chains, w: World, steps: seq<Step>, sid: EscrowId)
    requires Genesis(k, w) && Backed(k.src, w.src.balances)
    requires SL.IsLive(SourceLog(k, w, steps, sid))
    requires SL.IsYoung(Last(SourceLog(k, w, steps, sid)), Run(k, w, steps).src.now)
    ensures !Rescued(k, w, steps, sid)
  {
    EachChainRunsAlone(k, w, steps);
    SL.YoungEscrowsAreFunded(k.h, k.src, w.src, SourcePart(steps), sid);
  }

  /** In particular while the escrow is young, when no rescue can have taken from it. */
  lemma YoungSecretStaysUsable(
    k: Chains, w: World, steps: seq<Step>, dix: D.Instruction, did: EscrowId, secret: Bytes32, sid: EscrowId, i: nat,
    more: seq<Step>)
    requires Genesis(k, w) && Backed(k.src, w.src.balances) && Withdraws(dix, did, secret)
    requires D.Apply(k.h, k.dst, Run(k, w, steps).dst, dix).Ok?
    requires var log, dlog := SourceLog(k, w, steps, sid), DestinationLog(k, w, steps, did);
      && LastOpening(log, i) && dlog != [] && Matched(log[i].escrow, Last(dlog))
      && Claimable(Run(k, w, steps + more).src, log[i].escrow) && SL.IsYoung(log[i], Run(k, w, steps + more).src.now)
    ensures var log, src := SourceLog(k, w, steps + more, sid), Run(k, w, steps + more).src;
      (i + 1 < |log| && log[i + 1].Paid?) || S.Withdraw(k.h, k.src, src, sid, secret).Ok?
  {
    RevealedSecretStaysUsable(k, w, steps, dix, did, secret, sid, i, more);
    if i + 1 == |SourceLog(k, w, steps + more, sid)| {
      YoungIsUnrescued(k, w, steps + more, sid);
    }
  }
}
