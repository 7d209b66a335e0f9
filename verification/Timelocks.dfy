/** The packed timelock word: eight 32-bit fields in one 256-bit integer, and the
    proof that shifting and masking the word is the same as keeping eight fields. */
module Timelocks {
  import opened Wrappers
  import opened Arithmetic
  import opened Bits
  import opened Numerals

  const RESCUE_DELAY: u32 := 691200
  const DEPLOYED_AT_OFFSET: nat := 224
  const STAGE_BIT_SIZE: nat := 32
  const DEPLOYED_AT_MASK_LIMBS: seq<nat> := [0, 0, 0, 0xffff_ffff_0000_0000]

  datatype Stage =
    | SrcWithdrawal
    | SrcPublicWithdrawal
    | SrcCancellation
    | SrcPublicCancellation
    | DstWithdrawal
    | DstPublicWithdrawal
    | DstCancellation
  {
    function Index(): (i: nat)
      ensures i < 7
    {
      match this
      case SrcWithdrawal => 0
      case SrcPublicWithdrawal => 1
      case SrcCancellation => 2
      case SrcPublicCancellation => 3
      case DstWithdrawal => 4
      case DstPublicWithdrawal => 5
      case DstCancellation => 6
    }
  }

  /** The meaning of the word: seven stage offsets and the deployment time. */
  type Fields = f: seq<u32> | |f| == 8 witness seq(8, _ => 0)

  function CheckedAdd(a: u32, b: u32): Result<u32> {
    if a + b < 0x1_0000_0000 then Ok(a + b) else Err(ArithmeticOverflow)
  }

  function DeployedAt(f: Fields): u32 {
    f[7]
  }

  function Redeploy(f: Fields, now: u32): Fields {
    f[7 := now]
  }

  function StageStart(f: Fields, stage: Stage): Result<u32> {
    CheckedAdd(f[7], f[stage.Index()])
  }

  function RescueStart(f: Fields): Result<u32> {
    CheckedAdd(f[7], RESCUE_DELAY)
  }

  /** The stage has started. */
  function After(f: Fields, now: u32, stage: Stage): Result<()> {
    var start :- StageStart(f, stage);
    if now >= start then Ok(()) else Err(InvalidTime)
  }

  /** The stage has not started. */
  function Before(f: Fields, now: u32, stage: Stage): Result<()> {
    var start :- StageStart(f, stage);
    if now < start then Ok(()) else Err(InvalidTime)
  }

  /** The same stage offsets, counted from `now`. */
  predicate Restarted(f: Fields, g: Fields, now: u32) {
    DeployedAt(f) == now && forall stage: Stage :: f[stage.Index()] == g[stage.Index()]
  }

  /** The delay since deployment has passed. */
  predicate CanRescue(f: Fields, now: u32) {
    DeployedAt(f) + RESCUE_DELAY <= now
  }

  predicate StartedBy(f: Fields, stage: Stage, at: u32) {
    StageStart(f, stage).Ok? && StageStart(f, stage).value <= at
  }

  predicate EndedBefore(f: Fields, stage: Stage, at: u32) {
    StageStart(f, stage).Ok? && at < StageStart(f, stage).value
  }

  // ----- The word, as the program computes with it -----

  function Limbs(w: u256): (l: seq<nat>)
    ensures |l| == 4 && AreDigits(l, TWO64)
  {
    Digits(w, TWO64, 4)
  }

  function FromLimbs(l: seq<nat>): (w: u256)
    requires |l| == 4 && AreDigits(l, TWO64)
  {
    FromDigitsBound(l, TWO64);
    WordSizes();
    FromDigits(l, TWO64)
  }

  /** `U256::as_u32`, which panics above 32 bits: the precondition is that it does not. */
  function AsU32(w: nat): u32
    requires w < TWO32
  {
    w
  }

  function DeployedAtMask(): (m: nat)
    ensures m < Pow2(256)
  {
    FromLimbs(DEPLOYED_AT_MASK_LIMBS)
  }

  function WordSetDeployedAt(w: u256, value: u32): (r: u256) {
    SetDeployedAtArithmetic(w, value);
    Or(And(w, Not(DeployedAtMask(), 256)), Shl(value, DEPLOYED_AT_OFFSET))
  }

  function WordDeployedAt(w: u256): u32 {
    TopFieldFits(w);
    AsU32(Shr(w, DEPLOYED_AT_OFFSET))
  }

  function WordGet(w: u256, stage: Stage): Result<u32> {
    var shift := stage.Index() * STAGE_BIT_SIZE;
    AndOnesIsMod(Shr(w, shift), 32);
    Pow2Values();
    var delta := AsU32(And(Shr(w, shift), 0xffff_ffff));
    CheckedAdd(WordDeployedAt(w), delta)
  }

  function WordRescueStart(w: u256): Result<u32> {
    CheckedAdd(WordDeployedAt(w), RESCUE_DELAY)
  }

  // ----- The word refines its fields -----

  function Unpack(w: u256): Fields {
    Digits(w, TWO32, 8)
  }

  function Pack(f: Fields): u256 {
    FromDigitsBound(f, TWO32);
    WordSizes();
    FromDigits(f, TWO32)
  }

  lemma WordSizes()
    ensures Power(TWO32, 8) == Power(TWO64, 4) == Pow2(256)
    ensures Power(TWO32, 7) == Pow2(224)
    ensures Pow2(256) == TWO32 * Pow2(224)
  {
    Pow2Values();
    PowerOfPow2(32, 7);
    PowerOfPow2(32, 8);
    PowerOfPow2(64, 4);
    Pow2Add(32, 224);
  }

  lemma TopFieldFits(w: u256)
    ensures Shr(w, DEPLOYED_AT_OFFSET) == w / Pow2(224) < TWO32
  {
    ShrIsDiv(w, 224);
    WordSizes();
    QuotientFits(w, Pow2(224), TWO32);
  }

  lemma MaskValue()
    ensures DeployedAtMask() == TWO64 * (TWO64 * (TWO64 * 0xffff_ffff_0000_0000))
  {
    var top := 0xffff_ffff_0000_0000;
    assert FromDigits([top], TWO64) == top;
    assert DEPLOYED_AT_MASK_LIMBS[1..][1..][1..] == [top];
  }

  lemma MaskWeights()
    ensures Pow2(192) == TWO64 * (TWO64 * TWO64)
    ensures Pow2(224) == TWO32 * Pow2(192) && Pow2(256) == TWO32 * (TWO32 * Pow2(192))
  {
    Pow2Values();
    Pow2Add(64, 64);
    Pow2Add(64, 128);
    Pow2Add(32, 192);
    Pow2Add(32, 224);
  }

  lemma ComplementOfTop(q: nat, p: nat, d: nat, top: nat, mask: nat, all: nat)
    requires p == q * (q * q) && mask == q * (q * (q * top)) && top == d * (d - 1) && all == d * (d * p)
    ensures all - mask == d * p
  {
    assert mask == p * top;
    assert p * top == d * (d * p) - d * p;
  }

  /** Clearing the mask's bits keeps the 224 lowest. */
  lemma MaskComplement()
    ensures Not(DeployedAtMask(), 256) == Pow2(224) - 1
  {
    MaskValue();
    MaskWeights();
    ComplementOfTop(TWO64, Pow2(192), TWO32, 0xffff_ffff_0000_0000, DeployedAtMask(), Pow2(256));
  }

  /** The mask and shift of `set_deployed_at` replace the top field and stay in range. */
  lemma SetDeployedAtArithmetic(w: u256, value: u32)
    ensures Or(And(w, Not(DeployedAtMask(), 256)), Shl(value, DEPLOYED_AT_OFFSET)) < Pow2(256)
    ensures Digits(Or(And(w, Not(DeployedAtMask(), 256)), Shl(value, DEPLOYED_AT_OFFSET)), TWO32, 8)
         == Unpack(w)[7 := value]
  {
    MaskComplement();
    WordSizes();
    ReplaceTopField(w, value, Not(DeployedAtMask(), 256), DEPLOYED_AT_OFFSET, 7);
  }

  lemma ReplaceTopField(w: nat, value: u32, keep: nat, offset: nat, top: nat)
    requires Power(TWO32, top) == Pow2(offset) && keep == Pow2(offset) - 1
    requires w < Power(TWO32, top + 1)
    ensures Or(And(w, keep), Shl(value, offset)) < Power(TWO32, top + 1)
    ensures Digits(Or(And(w, keep), Shl(value, offset)), TWO32, top + 1)
         == Digits(w, TWO32, top + 1)[top := value]
  {
    ReplaceAbove(w, value, offset);
    TopDigitReplaced(w, value, TWO32, top);
  }

  /** Packing and unpacking undo each other, so the word is exactly its fields. */
  lemma PackingRoundTrips(w: u256, f: Fields)
    ensures Pack(Unpack(w)) == w
    ensures Unpack(Pack(f)) == f
  {
    WordSizes();
    FromDigitsOfDigits(w, TWO32, 8);
    DigitsOfFromDigits(f, TWO32);
  }

  /** The stored limb form loses nothing either. */
  lemma LimbsRoundTrip(w: u256, l: seq<nat>)
    requires |l| == 4 && AreDigits(l, TWO64)
    ensures FromLimbs(Limbs(w)) == w
    ensures Limbs(FromLimbs(l)) == l
  {
    WordSizes();
    FromDigitsOfDigits(w, TWO64, 4);
    DigitsOfFromDigits(l, TWO64);
  }

  /** Setting the deployment time changes the top field and no other. */
  lemma SetDeployedAtIsRedeploy(w: u256, value: u32)
    ensures Unpack(WordSetDeployedAt(w, value)) == Redeploy(Unpack(w), value)
  {
    SetDeployedAtArithmetic(w, value);
  }

  /** Only the last deployment time survives. */
  lemma LastDeploymentWins(w: u256, first: u32, last: u32)
    ensures WordSetDeployedAt(WordSetDeployedAt(w, first), last) == WordSetDeployedAt(w, last)
  {
    var v := WordSetDeployedAt(w, first);
    SetDeployedAtIsRedeploy(w, first);
    SetDeployedAtIsRedeploy(v, last);
    SetDeployedAtIsRedeploy(w, last);
    assert Unpack(WordSetDeployedAt(v, last)) == Unpack(WordSetDeployedAt(w, last));
    PackingRoundTrips(WordSetDeployedAt(v, last), Unpack(w));
    PackingRoundTrips(WordSetDeployedAt(w, last), Unpack(w));
  }

  lemma FieldIsShiftedMask(w: u256, i: nat)
    requires i < 8
    ensures Unpack(w)[i] == And(Shr(w, i * STAGE_BIT_SIZE), 0xffff_ffff)
  {
    Pow2Values();
    DigitAt(w, TWO32, 8, i);
    PowerOfPow2(32, i);
    ShrIsDiv(w, i * 32);
    AndOnesIsMod(Shr(w, i * 32), 32);
  }

  lemma TopFieldIsDeployedAt(w: u256)
    ensures WordDeployedAt(w) == Unpack(w)[7]
  {
    FieldIsShiftedMask(w, 7);
    TopFieldFits(w);
    Pow2Values();
    var top := Shr(w, 7 * STAGE_BIT_SIZE);
    AndOnesIsMod(top, 32);
    DivUnique(top, TWO32, 0, top);
  }

  /** Reading a stage from the word adds that stage's field to the deployment time,
      or reports that the sum does not fit. */
  lemma WordReadsItsFields(w: u256, stage: Stage)
    ensures WordDeployedAt(w) == DeployedAt(Unpack(w))
    ensures WordGet(w, stage) == StageStart(Unpack(w), stage)
    ensures WordRescueStart(w) == RescueStart(Unpack(w))
  {
    FieldIsShiftedMask(w, stage.Index());
    TopFieldIsDeployedAt(w);
  }

  /** A word redeployed at `now` has each of its windows shifted to `now`. */
  lemma WindowsFollowDeployment(w: u256, now: u32, stage: Stage)
    ensures WordGet(WordSetDeployedAt(w, now), stage)
         == CheckedAdd(now, Unpack(w)[stage.Index()])
  {
    SetDeployedAtIsRedeploy(w, now);
    WordReadsItsFields(WordSetDeployedAt(w, now), stage);
  }

  // ----- Which field is which -----

  /** The sum, or an overflow if it has more than 32 bits. */
  predicate IsSum(r: Result<u32>, a: nat, b: nat) {
    r == if a + b < 0x1_0000_0000 then Ok(a + b) else Err(ArithmeticOverflow)
  }

  /** The source's four stages come first, then the destination's three, then the time of
      deployment, which all of them and the eight days of the rescue delay count from. */
  lemma StagesInOrder(f: Fields)
    ensures DeployedAt(f) == f[7]
    ensures IsSum(StageStart(f, SrcWithdrawal), f[7], f[0])
    ensures IsSum(StageStart(f, SrcPublicWithdrawal), f[7], f[1])
    ensures IsSum(StageStart(f, SrcCancellation), f[7], f[2])
    ensures IsSum(StageStart(f, SrcPublicCancellation), f[7], f[3])
    ensures IsSum(StageStart(f, DstWithdrawal), f[7], f[4])
    ensures IsSum(StageStart(f, DstPublicWithdrawal), f[7], f[5])
    ensures IsSum(StageStart(f, DstCancellation), f[7], f[6])
    ensures IsSum(RescueStart(f), f[7], 8 * 24 * 60 * 60)
  {
  }

  /** How far up in the word a stage's offset lies. */
  function BitsBelow(stage: Stage): nat {
    match stage
    case SrcWithdrawal => 0
    case SrcPublicWithdrawal => 32
    case SrcCancellation => 64
    case SrcPublicCancellation => 96
    case DstWithdrawal => 128
    case DstPublicWithdrawal => 160
    case DstCancellation => 192
  }

  lemma WordField(w: u256, i: nat, bits: nat)
    requires i < 8 && bits == i * 32
    ensures w / Pow2(bits) % 0x1_0000_0000 == Unpack(w)[i]
  {
    FieldIsShiftedMask(w, i);
    var shifted := Shr(w, bits);
    ShrIsDiv(w, bits);
    AndOnesIsMod(shifted, 32);
    Pow2Values();
  }

  /** The same on the word: a stage starts at the time of deployment, the topmost 32 bits,
      plus the 32 bits that lie so far up. */
  lemma WordStagesInOrder(w: u256, stage: Stage)
    ensures 0 <= w / Pow2(224) && WordDeployedAt(w) == w / Pow2(224)
    ensures 0 <= w / Pow2(BitsBelow(stage)) % 0x1_0000_0000
    ensures IsSum(WordGet(w, stage), w / Pow2(224), w / Pow2(BitsBelow(stage)) % 0x1_0000_0000)
    ensures IsSum(WordRescueStart(w), w / Pow2(224), 8 * 24 * 60 * 60)
  {
    TopFieldFits(w);
    WordReadsItsFields(w, stage);
    StagesInOrder(Unpack(w));
    WordField(w, stage.Index(), BitsBelow(stage));
  }
}
