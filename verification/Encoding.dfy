/** The byte strings that the program hashes: the fourteen parameters that identify an order
    and the auction data it commits to. Neither encoding loses anything. */
module Encoding {
  import opened Wrappers
  import opened Bits
  import opened Numerals
  import opened Packed24
  import opened Timelocks
  import opened Auction
  import opened Merkle

  // ----- Concatenations of fixed-width chunks -----

  function Concat(chunks: seq<seq<byte>>): seq<byte> {
    if chunks == [] then [] else chunks[0] + Concat(chunks[1..])
  }

  function Widths(chunks: seq<seq<byte>>): (w: seq<nat>)
    ensures |w| == |chunks|
  {
    seq(|chunks|, i requires 0 <= i < |chunks| => |chunks[i]|)
  }

  function Total(widths: seq<nat>): nat {
    if widths == [] then 0 else widths[0] + Total(widths[1..])
  }

  function Split(b: seq<byte>, widths: seq<nat>): (chunks: seq<seq<byte>>)
    requires |b| == Total(widths)
    ensures |chunks| == |widths|
    ensures forall i :: 0 <= i < |widths| ==> |chunks[i]| == widths[i]
    decreases |widths|, |b|
  {
    if widths == [] then []
    else [b[..widths[0]]] + Split(b[widths[0]..], widths[1..])
  }

  lemma WidthsFirst(first: seq<byte>, rest: seq<seq<byte>>)
    ensures Widths([first] + rest) == [|first|] + Widths(rest)
  {
  }

  lemma SplitFirst(first: seq<byte>, b: seq<byte>, widths: seq<nat>)
    requires |b| == Total(widths)
    ensures |first + b| == Total([|first|] + widths)
    ensures Split(first + b, [|first|] + widths) == [first] + Split(b, widths)
  {
    var all := [|first|] + widths;
    assert all[0] == |first| && all[1..] == widths;
    assert (first + b)[..|first|] == first && (first + b)[|first|..] == b;
  }

  lemma {:induction false} SplitOfConcat(chunks: seq<seq<byte>>)
    ensures |Concat(chunks)| == Total(Widths(chunks))
    ensures Split(Concat(chunks), Widths(chunks)) == chunks
    decreases |chunks|
  {
    if chunks != [] {
      var first, rest := chunks[0], chunks[1..];
      SplitOfConcat(rest);
      WidthsFirst(first, rest);
      SplitFirst(first, Concat(rest), Widths(rest));
      assert chunks == [first] + rest;
    }
  }

  lemma {:induction false} ConcatOfSplit(b: seq<byte>, widths: seq<nat>)
    requires |b| == Total(widths)
    ensures Concat(Split(b, widths)) == b
    ensures Widths(Split(b, widths)) == widths
    decreases |widths|
  {
    if widths != [] {
      var chunks := Split(b, widths);
      assert chunks[1..] == Split(b[widths[0]..], widths[1..]);
      ConcatOfSplit(b[widths[0]..], widths[1..]);
      assert b[..widths[0]] + b[widths[0]..] == b;
    }
  }

  // ----- Scalars -----

  lemma ScalarSizes()
    ensures Power(0x100, 2) == 0x1_0000
    ensures Power(0x100, 4) == 0x1_0000_0000
    ensures Power(0x100, 8) == 0x1_0000_0000_0000_0000
  {
    Pow2Values();
    PowerOfPow2(8, 2);
    PowerOfPow2(8, 4);
    PowerOfPow2(8, 8);
  }

  function EncodeBool(v: bool): (b: seq<byte>)
    ensures |b| == 1
  {
    if v then [1] else [0]
  }

  function EncodeU64(n: u64): (b: seq<byte>)
    ensures |b| == 8
  {
    BigEndian(n, 8)
  }

  function DecodeU64(b: seq<byte>): u64
    requires |b| == 8
  {
    ScalarSizes();
    BigEndianSurjective(b);
    FromBigEndian(b)
  }

  lemma U64RoundTrip(n: u64)
    ensures DecodeU64(EncodeU64(n)) == n
  {
    ScalarSizes();
    BigEndianRoundTrip(n, 8);
  }

  lemma U64Surjective(b: seq<byte>)
    requires |b| == 8
    ensures EncodeU64(DecodeU64(b)) == b
  {
    BigEndianSurjective(b);
  }

  function EncodeU32(n: u32): (b: seq<byte>)
    ensures |b| == 4
  {
    BigEndian(n, 4)
  }

  function DecodeU32(b: seq<byte>): u32
    requires |b| == 4
  {
    ScalarSizes();
    BigEndianSurjective(b);
    FromBigEndian(b)
  }

  lemma U32RoundTrip(n: u32)
    ensures DecodeU32(EncodeU32(n)) == n
  {
    ScalarSizes();
    BigEndianRoundTrip(n, 4);
  }

  lemma U32Surjective(b: seq<byte>)
    requires |b| == 4
    ensures EncodeU32(DecodeU32(b)) == b
  {
    BigEndianSurjective(b);
  }

  /** Borsh writes the four limbs of a 256-bit word in order, each little-endian. */
  function EncodeWord(w: u256): (b: seq<byte>)
    ensures |b| == 32
  {
    EncodeLimbs(Limbs(w))
  }

  function EncodeLimbs(l: seq<nat>): (b: seq<byte>)
    ensures |b| == 8 * |l|
  {
    if l == [] then [] else LittleEndian(l[0], 8) + EncodeLimbs(l[1..])
  }

  function DecodeLimbs(b: seq<byte>, n: nat): (l: seq<nat>)
    requires |b| == 8 * n
    ensures |l| == n && AreDigits(l, TWO64)
    decreases n, |b|
  {
    if n == 0 then [] else
      ScalarSizes();
      LittleEndianSurjective(b[..8]);
      [FromLittleEndian(b[..8])] + DecodeLimbs(b[8..], n - 1)
  }

  function DecodeWord(b: seq<byte>): u256
    requires |b| == 32
  {
    FromLimbs(DecodeLimbs(b, 4))
  }

  lemma {:induction false} LimbsCodec(l: seq<nat>)
    requires AreDigits(l, TWO64)
    ensures DecodeLimbs(EncodeLimbs(l), |l|) == l
    decreases |l|
  {
    if l != [] {
      var b := EncodeLimbs(l);
      assert b[..8] == LittleEndian(l[0], 8) && b[8..] == EncodeLimbs(l[1..]);
      ScalarSizes();
      LittleEndianRoundTrip(l[0], 8);
      LimbsCodec(l[1..]);
    }
  }

  lemma {:induction false} LimbsDecodec(b: seq<byte>, n: nat)
    requires |b| == 8 * n
    ensures EncodeLimbs(DecodeLimbs(b, n)) == b
    decreases n
  {
    if n > 0 {
      LittleEndianSurjective(b[..8]);
      LimbsDecodec(b[8..], n - 1);
      assert DecodeLimbs(b, n)[1..] == DecodeLimbs(b[8..], n - 1);
      assert b == b[..8] + b[8..];
    }
  }

  lemma WordRoundTrip(w: u256)
    ensures DecodeWord(EncodeWord(w)) == w
  {
    LimbsCodec(Limbs(w));
    LimbsRoundTrip(w, Limbs(w));
  }

  lemma WordSurjective(b: seq<byte>)
    requires |b| == 32
    ensures EncodeWord(DecodeWord(b)) == b
  {
    LimbsDecodec(b, 4);
    LimbsRoundTrip(0, DecodeLimbs(b, 4));
  }

  // ----- The identity of an order -----

  datatype OrderParams = OrderParams(
    hashlock: Bytes32,
    maker: Bytes32,
    token: Bytes32,
    amount: u64,
    safetyDeposit: u64,
    timelocks: Fields,
    expirationTime: u32,
    assetIsNative: bool,
    dstAmount: u256,
    dutchAuctionDataHash: Bytes32,
    maxCancellationPremium: u64,
    cancellationAuctionDuration: u32,
    allowMultipleFills: bool,
    salt: u64)

  const ORDER_WIDTHS: seq<nat> := [32, 32, 32, 8, 8, 32, 4, 1, 32, 32, 8, 4, 1, 8]

  function OrderChunks(p: OrderParams): (chunks: seq<seq<byte>>)
    ensures IsOrderChunks(chunks)
  {
    [ p.hashlock,
      p.maker,
      p.token,
      EncodeU64(p.amount),
      EncodeU64(p.safetyDeposit),
      EncodeWord(Pack(p.timelocks)),
      EncodeU32(p.expirationTime),
      EncodeBool(p.assetIsNative),
      EncodeWord(p.dstAmount),
      p.dutchAuctionDataHash,
      EncodeU64(p.maxCancellationPremium),
      EncodeU32(p.cancellationAuctionDuration),
      EncodeBool(p.allowMultipleFills),
      EncodeU64(p.salt) ]
  }

  function EncodeOrder(p: OrderParams): seq<byte> {
    Concat(OrderChunks(p))
  }

  function OrderHash(h: Hasher, p: OrderParams): Bytes32 {
    h(EncodeOrder(p))
  }

  predicate IsOrderChunks(c: seq<seq<byte>>) {
    && |c| == 14
    && |c[0]| == |c[1]| == |c[2]| == |c[5]| == |c[8]| == |c[9]| == 32
    && |c[3]| == |c[4]| == |c[10]| == |c[13]| == 8
    && |c[6]| == |c[11]| == 4
    && |c[7]| == |c[12]| == 1
  }

  lemma OrderChunkWidths(c: seq<seq<byte>>)
    requires IsOrderChunks(c)
    ensures Widths(c) == ORDER_WIDTHS
  {
  }

  lemma OrderWidthChunks(c: seq<seq<byte>>)
    requires Widths(c) == ORDER_WIDTHS
    ensures IsOrderChunks(c)
  {
    assert forall i :: 0 <= i < |c| ==> |c[i]| == Widths(c)[i];
  }

  lemma OrderSplits(b: seq<byte>)
    requires |b| == Total(ORDER_WIDTHS)
    ensures IsOrderChunks(Split(b, ORDER_WIDTHS))
    ensures Concat(Split(b, ORDER_WIDTHS)) == b
  {
    ConcatOfSplit(b, ORDER_WIDTHS);
    OrderWidthChunks(Split(b, ORDER_WIDTHS));
  }

  /** Reads the parameters back; a byte that is no truth value is refused. */
  function DecodeChunks(c: seq<seq<byte>>): Option<OrderParams>
    requires IsOrderChunks(c)
  {
    if c[7][0] > 1 || c[12][0] > 1 then None
    else Some(OrderParams(
      c[0], c[1], c[2], DecodeU64(c[3]), DecodeU64(c[4]), Unpack(DecodeWord(c[5])), DecodeU32(c[6]),
      c[7][0] == 1, DecodeWord(c[8]), c[9], DecodeU64(c[10]), DecodeU32(c[11]), c[12][0] == 1, DecodeU64(c[13])))
  }

  function DecodeOrder(b: seq<byte>): Option<OrderParams> {
    if |b| != Total(ORDER_WIDTHS) then None
    else
      OrderSplits(b);
      DecodeChunks(Split(b, ORDER_WIDTHS))
  }

  lemma ChunksRoundTrip(p: OrderParams)
    ensures DecodeChunks(OrderChunks(p)) == Some(p)
  {
    U64RoundTrip(p.amount);
    U64RoundTrip(p.safetyDeposit);
    U64RoundTrip(p.maxCancellationPremium);
    U64RoundTrip(p.salt);
    U32RoundTrip(p.expirationTime);
    U32RoundTrip(p.cancellationAuctionDuration);
    WordRoundTrip(Pack(p.timelocks));
    WordRoundTrip(p.dstAmount);
    PackingRoundTrips(0, p.timelocks);
  }

  /** The decoder undoes the encoder for all parameters. */
  lemma OrderRoundTrip(p: OrderParams)
    ensures DecodeOrder(EncodeOrder(p)) == Some(p)
  {
    OrderChunkWidths(OrderChunks(p));
    SplitOfConcat(OrderChunks(p));
    ChunksRoundTrip(p);
  }

  lemma LongsAreCanonical(c: seq<seq<byte>>)
    requires IsOrderChunks(c) && DecodeChunks(c).Some?
    ensures var p := DecodeChunks(c).value;
      && EncodeU64(p.amount) == c[3] && EncodeU64(p.safetyDeposit) == c[4]
      && EncodeU64(p.maxCancellationPremium) == c[10] && EncodeU64(p.salt) == c[13]
  {
    U64Surjective(c[3]);
    U64Surjective(c[4]);
    U64Surjective(c[10]);
    U64Surjective(c[13]);
  }

  lemma ShortsAreCanonical(c: seq<seq<byte>>)
    requires IsOrderChunks(c) && DecodeChunks(c).Some?
    ensures var p := DecodeChunks(c).value;
      EncodeU32(p.expirationTime) == c[6] && EncodeU32(p.cancellationAuctionDuration) == c[11]
  {
    U32Surjective(c[6]);
    U32Surjective(c[11]);
  }

  lemma WordsAreCanonical(c: seq<seq<byte>>)
    requires IsOrderChunks(c) && DecodeChunks(c).Some?
    ensures var p := DecodeChunks(c).value;
      EncodeWord(Pack(p.timelocks)) == c[5] && EncodeWord(p.dstAmount) == c[8]
  {
    WordSurjective(c[5]);
    WordSurjective(c[8]);
    PackingRoundTrips(DecodeWord(c[5]), Unpack(DecodeWord(c[5])));
  }

  lemma FlagsAreCanonical(c: seq<seq<byte>>)
    requires IsOrderChunks(c) && DecodeChunks(c).Some?
    ensures var p := DecodeChunks(c).value;
      EncodeBool(p.assetIsNative) == c[7] && EncodeBool(p.allowMultipleFills) == c[12]
  {
  }

  lemma FourteenChunks(c: seq<seq<byte>>)
    requires |c| == 14
    ensures c == [c[0], c[1], c[2], c[3], c[4], c[5], c[6], c[7], c[8], c[9], c[10], c[11], c[12], c[13]]
  {
  }

  lemma AssembleChunks(p: OrderParams, c: seq<seq<byte>>)
    requires IsOrderChunks(c)
    requires p.hashlock == c[0] && p.maker == c[1] && p.token == c[2] && p.dutchAuctionDataHash == c[9]
    requires EncodeU64(p.amount) == c[3] && EncodeU64(p.safetyDeposit) == c[4]
    requires EncodeU64(p.maxCancellationPremium) == c[10] && EncodeU64(p.salt) == c[13]
    requires EncodeU32(p.expirationTime) == c[6] && EncodeU32(p.cancellationAuctionDuration) == c[11]
    requires EncodeWord(Pack(p.timelocks)) == c[5] && EncodeWord(p.dstAmount) == c[8]
    requires EncodeBool(p.assetIsNative) == c[7] && EncodeBool(p.allowMultipleFills) == c[12]
    ensures OrderChunks(p) == c
  {
    FourteenChunks(c);
  }

  lemma ChunksAreCanonical(c: seq<seq<byte>>)
    requires IsOrderChunks(c) && DecodeChunks(c).Some?
    ensures OrderChunks(DecodeChunks(c).value) == c
  {
    LongsAreCanonical(c);
    ShortsAreCanonical(c);
    WordsAreCanonical(c);
    FlagsAreCanonical(c);
    AssembleChunks(DecodeChunks(c).value, c);
  }

  /** The encoder undoes the decoder on every string it accepts, so no two strings mean
      the same order either. */
  lemma OrderStringsAreCanonical(b: seq<byte>)
    requires DecodeOrder(b).Some?
    ensures EncodeOrder(DecodeOrder(b).value) == b
  {
    OrderSplits(b);
    ChunksAreCanonical(Split(b, ORDER_WIDTHS));
  }

  // ----- Where each parameter stands -----

  predicate HoldsBytes(b: seq<byte>, at: nat, bytes: seq<byte>) {
    at + |bytes| <= |b| && b[at..at + |bytes|] == bytes
  }

  /** The `width` bytes at `at` are the number `n`, its most significant byte first. */
  predicate HoldsBigEndian(b: seq<byte>, at: nat, width: nat, n: nat) {
    at + width <= |b| && FromBigEndian(b[at..at + width]) == n
  }

  /** The same with the least significant byte first. */
  predicate HoldsLittleEndian(b: seq<byte>, at: nat, width: nat, n: nat) {
    at + width <= |b| && FromLittleEndian(b[at..at + width]) == n
  }

  /** Numbers are written most significant byte first, the two 256-bit words the other way
      round, and everything follows upon what is before it. */
  predicate OrderLaidOut(b: seq<byte>, p: OrderParams) {
    && |b| == 234
    && HoldsBytes(b, 0, p.hashlock) && HoldsBytes(b, 32, p.maker) && HoldsBytes(b, 64, p.token)
    && HoldsBigEndian(b, 96, 8, p.amount) && HoldsBigEndian(b, 104, 8, p.safetyDeposit)
    && HoldsLittleEndian(b, 112, 32, Pack(p.timelocks)) && HoldsBigEndian(b, 144, 4, p.expirationTime)
    && HoldsBytes(b, 148, [if p.assetIsNative then 1 else 0])
    && HoldsLittleEndian(b, 149, 32, p.dstAmount) && HoldsBytes(b, 181, p.dutchAuctionDataHash)
    && HoldsBigEndian(b, 213, 8, p.maxCancellationPremium)
    && HoldsBigEndian(b, 221, 4, p.cancellationAuctionDuration)
    && HoldsBytes(b, 225, [if p.allowMultipleFills then 1 else 0])
    && HoldsBigEndian(b, 226, 8, p.salt)
  }

  lemma TotalStep(w: seq<nat>, i: nat)
    requires i < |w|
    ensures Total(w[..i + 1]) == Total(w[..i]) + w[i]
    decreases i
  {
    if i > 0 {
      assert w[..i + 1][1..] == w[1..][..i] && w[..i][1..] == w[1..][..i - 1];
      TotalStep(w[1..], i - 1);
    }
  }

  /** Chunk `i` of a concatenation stands after all chunks before it. */
  lemma {:induction false} ChunkStands(chunks: seq<seq<byte>>, w: seq<nat>, i: nat)
    requires |chunks| == |w| && i < |w| && forall j :: 0 <= j < |w| ==> |chunks[j]| == w[j]
    ensures HoldsBytes(Concat(chunks), Total(w[..i]), chunks[i])
    decreases i
  {
    if i > 0 {
      var all, rest, first, at := Concat(chunks), Concat(chunks[1..]), |chunks[0]|, Total(w[1..][..i - 1]);
      assert w[..i][0] == first && w[..i][1..] == w[1..][..i - 1];
      ChunkStands(chunks[1..], w[1..], i - 1);
      assert all[first + at..first + at + |chunks[i]|] == rest[at..at + |chunks[i]|];
    }
  }

  lemma {:induction false} ConcatLength(chunks: seq<seq<byte>>, w: seq<nat>)
    requires |chunks| == |w| && forall j :: 0 <= j < |w| ==> |chunks[j]| == w[j]
    ensures |Concat(chunks)| == Total(w)
    decreases |chunks|
  {
    if chunks != [] {
      ConcatLength(chunks[1..], w[1..]);
    }
  }

  predicate OrderWidths(w: seq<nat>) {
    && |w| == 14
    && w[0] == w[1] == w[2] == w[5] == w[8] == w[9] == 32
    && w[3] == w[4] == w[10] == w[13] == 8 && w[6] == w[11] == 4 && w[7] == w[12] == 1
  }

  lemma FirstOffsets(w: seq<nat>)
    requires OrderWidths(w)
    ensures Total(w[..0]) == 0 && Total(w[..1]) == 32 && Total(w[..2]) == 64 && Total(w[..3]) == 96
    ensures Total(w[..4]) == 104 && Total(w[..5]) == 112 && Total(w[..6]) == 144 && Total(w[..7]) == 148
  {
    TotalStep(w, 0);
    TotalStep(w, 1);
    TotalStep(w, 2);
    TotalStep(w, 3);
    TotalStep(w, 4);
    TotalStep(w, 5);
    TotalStep(w, 6);
  }

  lemma LastOffsets(w: seq<nat>)
    requires OrderWidths(w) && Total(w[..7]) == 148
    ensures Total(w[..8]) == 149 && Total(w[..9]) == 181 && Total(w[..10]) == 213 && Total(w[..11]) == 221
    ensures Total(w[..12]) == 225 && Total(w[..13]) == 226 && Total(w) == 234
  {
    TotalStep(w, 7);
    TotalStep(w, 8);
    TotalStep(w, 9);
    TotalStep(w, 10);
    TotalStep(w, 11);
    TotalStep(w, 12);
    TotalStep(w, 13);
    assert w[..14] == w;
  }

  /** The fourteen chunks at their places. */
  lemma OrderChunksStand(c: seq<seq<byte>>, w: seq<nat>, b: seq<byte>)
    requires IsOrderChunks(c) && OrderWidths(w) && b == Concat(c)
    ensures |b| == 234
    ensures HoldsBytes(b, 0, c[0]) && HoldsBytes(b, 32, c[1]) && HoldsBytes(b, 64, c[2]) && HoldsBytes(b, 96, c[3])
    ensures HoldsBytes(b, 104, c[4]) && HoldsBytes(b, 112, c[5]) && HoldsBytes(b, 144, c[6])
    ensures HoldsBytes(b, 148, c[7]) && HoldsBytes(b, 149, c[8]) && HoldsBytes(b, 181, c[9])
    ensures HoldsBytes(b, 213, c[10]) && HoldsBytes(b, 221, c[11]) && HoldsBytes(b, 225, c[12])
    ensures HoldsBytes(b, 226, c[13])
  {
    FirstOffsets(w);
    LastOffsets(w);
    ConcatLength(c, w);
    forall i | 0 <= i < 14 ensures HoldsBytes(b, Total(w[..i]), c[i]) {
      ChunkStands(c, w, i);
    }
  }

  lemma HoldsU64(b: seq<byte>, at: nat, n: u64)
    requires HoldsBytes(b, at, EncodeU64(n))
    ensures HoldsBigEndian(b, at, 8, n)
  {
    U64RoundTrip(n);
  }

  lemma HoldsU32(b: seq<byte>, at: nat, n: u32)
    requires HoldsBytes(b, at, EncodeU32(n))
    ensures HoldsBigEndian(b, at, 4, n)
  {
    U32RoundTrip(n);
  }

  lemma {:induction false} LimbsAreLittleEndian(l: seq<nat>)
    requires AreDigits(l, TWO64)
    ensures FromLittleEndian(EncodeLimbs(l)) == FromDigits(l, TWO64)
    decreases |l|
  {
    if l != [] {
      LimbsAreLittleEndian(l[1..]);
      ScalarSizes();
      LittleEndianRoundTrip(l[0], 8);
      LittleEndianAppend(LittleEndian(l[0], 8), EncodeLimbs(l[1..]));
    }
  }

  lemma HoldsWord(b: seq<byte>, at: nat, w: u256)
    requires HoldsBytes(b, at, EncodeWord(w))
    ensures HoldsLittleEndian(b, at, 32, w)
  {
    LimbsAreLittleEndian(Limbs(w));
    LimbsRoundTrip(w, Limbs(w));
  }

  lemma NumbersStand(b: seq<byte>, p: OrderParams, c: seq<seq<byte>>)
    requires IsOrderChunks(c) && c == OrderChunks(p)
    requires HoldsBytes(b, 96, c[3]) && HoldsBytes(b, 104, c[4]) && HoldsBytes(b, 112, c[5]) && HoldsBytes(b, 144, c[6])
    requires HoldsBytes(b, 149, c[8]) && HoldsBytes(b, 213, c[10]) && HoldsBytes(b, 221, c[11])
    requires HoldsBytes(b, 226, c[13])
    ensures HoldsBigEndian(b, 96, 8, p.amount) && HoldsBigEndian(b, 104, 8, p.safetyDeposit)
    ensures HoldsLittleEndian(b, 112, 32, Pack(p.timelocks)) && HoldsBigEndian(b, 144, 4, p.expirationTime)
    ensures HoldsLittleEndian(b, 149, 32, p.dstAmount) && HoldsBigEndian(b, 213, 8, p.maxCancellationPremium)
    ensures HoldsBigEndian(b, 221, 4, p.cancellationAuctionDuration) && HoldsBigEndian(b, 226, 8, p.salt)
  {
    HoldsU64(b, 96, p.amount);
    HoldsU64(b, 104, p.safetyDeposit);
    HoldsWord(b, 112, Pack(p.timelocks));
    HoldsU32(b, 144, p.expirationTime);
    HoldsWord(b, 149, p.dstAmount);
    HoldsU64(b, 213, p.maxCancellationPremium);
    HoldsU32(b, 221, p.cancellationAuctionDuration);
    HoldsU64(b, 226, p.salt);
  }

  /** The bytes hashed into an order's identity, place by place. */
  lemma OrderLayout(p: OrderParams)
    ensures OrderLaidOut(EncodeOrder(p), p)
  {
    var c, b := OrderChunks(p), EncodeOrder(p);
    OrderChunksStand(c, ORDER_WIDTHS, b);
    NumbersStand(b, p, c);
  }

  /** Orders with one hash are one order, unless the hash collides on the two encodings. */
  lemma OrderIdentity(h: Hasher, p: OrderParams, q: OrderParams)
    requires OrderHash(h, p) == OrderHash(h, q)
    requires h(EncodeOrder(p)) == h(EncodeOrder(q)) ==> EncodeOrder(p) == EncodeOrder(q)
    ensures p == q
  {
    OrderRoundTrip(p);
    OrderRoundTrip(q);
  }

  // ----- The auction an order commits to -----

  function EncodePoints(points: seq<PointAndTimeDelta>): (b: seq<byte>)
    ensures |b| == 5 * |points|
  {
    if points == [] then []
    else FromU32(points[0].rateBump).value + LittleEndian(points[0].timeDelta, 2) + EncodePoints(points[1..])
  }

  function EncodeAuction(data: AuctionData): seq<byte> {
    LittleEndian(data.startTime, 4) + LittleEndian(data.duration, 4) +
    FromU32(data.initialRateBump).value + LittleEndian(|data.pointsAndTimeDeltas|, 4) +
    EncodePoints(data.pointsAndTimeDeltas)
  }

  lemma PointInjective(p: PointAndTimeDelta, q: PointAndTimeDelta)
    requires FromU32(p.rateBump).value == FromU32(q.rateBump).value
    requires LittleEndian(p.timeDelta, 2) == LittleEndian(q.timeDelta, 2)
    ensures p == q
  {
    U24RoundTrips(p.rateBump, FromU32(p.rateBump).value);
    U24RoundTrips(q.rateBump, FromU32(q.rateBump).value);
    ScalarSizes();
    LittleEndianRoundTrip(p.timeDelta, 2);
    LittleEndianRoundTrip(q.timeDelta, 2);
  }

  lemma {:induction false} PointsInjective(a: seq<PointAndTimeDelta>, b: seq<PointAndTimeDelta>)
    requires EncodePoints(a) == EncodePoints(b)
    ensures a == b
    decreases |a|
  {
    assert |a| == |b|;
    if a != [] {
      var x, y := EncodePoints(a), EncodePoints(b);
      assert x[..3] == FromU32(a[0].rateBump).value && y[..3] == FromU32(b[0].rateBump).value;
      assert x[3..5] == LittleEndian(a[0].timeDelta, 2) && y[3..5] == LittleEndian(b[0].timeDelta, 2);
      assert x[5..] == EncodePoints(a[1..]) && y[5..] == EncodePoints(b[1..]);
      PointInjective(a[0], b[0]);
      PointsInjective(a[1..], b[1..]);
      assert a == [a[0]] + a[1..] && b == [b[0]] + b[1..];
    }
  }

  /** Start, duration, initial bump, number of points and then five bytes for each point; the
      bumps most significant byte first, all else the other way round. */
  predicate AuctionLaidOut(b: seq<byte>, data: AuctionData) {
    var points := data.pointsAndTimeDeltas;
    && |b| == 15 + 5 * |points|
    && HoldsLittleEndian(b, 0, 4, data.startTime) && HoldsLittleEndian(b, 4, 4, data.duration)
    && HoldsBigEndian(b, 8, 3, data.initialRateBump)
    && (|points| < TWO32 ==> HoldsLittleEndian(b, 11, 4, |points|))
    && forall i :: 0 <= i < |points| ==> PointLaidOut(b, 15 + 5 * i, points[i])
  }

  predicate PointLaidOut(b: seq<byte>, at: nat, point: PointAndTimeDelta) {
    HoldsBigEndian(b, at, 3, point.rateBump) && HoldsLittleEndian(b, at + 3, 2, point.timeDelta)
  }

  lemma BumpIsBigEndian(v: u24)
    ensures FromBigEndian(FromU32(v).value) == v
  {
    var b := FromU32(v).value;
    U24RoundTrips(v, b);
    BigEndianMeaning([], b[0]);
    BigEndianMeaning([b[0]], b[1]);
    BigEndianMeaning([b[0], b[1]], b[2]);
    assert [] + [b[0]] == [b[0]] && [b[0]] + [b[1]] == [b[0], b[1]] && [b[0], b[1]] + [b[2]] == b;
  }

  lemma {:induction false} PointsStand(points: seq<PointAndTimeDelta>, i: nat)
    requires i < |points|
    ensures PointLaidOut(EncodePoints(points), 5 * i, points[i])
    decreases |points|
  {
    var b, bump, delta := EncodePoints(points), FromU32(points[0].rateBump).value, LittleEndian(points[0].timeDelta, 2);
    var rest := EncodePoints(points[1..]);
    if i == 0 {
      assert b[0..3] == bump && b[3..5] == delta;
      BumpIsBigEndian(points[0].rateBump);
      ScalarSizes();
      LittleEndianRoundTrip(points[0].timeDelta, 2);
    } else {
      PointsStand(points[1..], i - 1);
      assert b[5 * i..5 * i + 3] == rest[5 * (i - 1)..5 * (i - 1) + 3];
      assert b[5 * i + 3..5 * i + 5] == rest[5 * (i - 1) + 3..5 * (i - 1) + 5];
    }
  }

  lemma PointMoves(head: seq<byte>, tail: seq<byte>, at: nat, point: PointAndTimeDelta)
    requires PointLaidOut(tail, at, point)
    ensures PointLaidOut(head + tail, |head| + at, point)
  {
    var b, from := head + tail, |head| + at;
    assert b[from..from + 3] == tail[at..at + 3];
    assert b[from + 3..from + 5] == tail[at + 3..at + 5];
  }

  lemma HeadStands(head: seq<byte>, data: AuctionData)
    requires head == LittleEndian(data.startTime, 4) + LittleEndian(data.duration, 4)
                   + FromU32(data.initialRateBump).value + LittleEndian(|data.pointsAndTimeDeltas|, 4)
    ensures HoldsLittleEndian(head, 0, 4, data.startTime) && HoldsLittleEndian(head, 4, 4, data.duration)
    ensures HoldsBigEndian(head, 8, 3, data.initialRateBump)
    ensures |data.pointsAndTimeDeltas| < TWO32 ==> HoldsLittleEndian(head, 11, 4, |data.pointsAndTimeDeltas|)
  {
    var n := |data.pointsAndTimeDeltas|;
    ScalarSizes();
    assert head[0..4] == LittleEndian(data.startTime, 4) && head[4..8] == LittleEndian(data.duration, 4);
    assert head[8..11] == FromU32(data.initialRateBump).value && head[11..15] == LittleEndian(n, 4);
    LittleEndianRoundTrip(data.startTime, 4);
    LittleEndianRoundTrip(data.duration, 4);
    BumpIsBigEndian(data.initialRateBump);
    if n < TWO32 {
      LittleEndianRoundTrip(n, 4);
    }
  }

  /** The bytes that an order commits its auction with, place by place. */
  lemma AuctionLayout(data: AuctionData)
    ensures AuctionLaidOut(EncodeAuction(data), data)
  {
    var points := data.pointsAndTimeDeltas;
    var head := LittleEndian(data.startTime, 4) + LittleEndian(data.duration, 4)
              + FromU32(data.initialRateBump).value + LittleEndian(|points|, 4);
    var b := head + EncodePoints(points);
    HeadStands(head, data);
    assert b[0..4] == head[0..4] && b[4..8] == head[4..8] && b[8..11] == head[8..11] && b[11..15] == head[11..15];
    forall i | 0 <= i < |points| ensures PointLaidOut(b, 15 + 5 * i, points[i]) {
      PointsStand(points, i);
      PointMoves(head, EncodePoints(points), 5 * i, points[i]);
    }
  }

  /** One commitment fixes the auction: two data sets with one hash are equal, unless the
      hash collides on their encodings. */
  lemma AuctionCommitment(h: Hasher, a: AuctionData, b: AuctionData)
    requires h(EncodeAuction(a)) == h(EncodeAuction(b)) ==> EncodeAuction(a) == EncodeAuction(b)
    requires h(EncodeAuction(a)) == h(EncodeAuction(b))
    ensures a == b
  {
    var x, y := EncodeAuction(a), EncodeAuction(b);
    assert x[..4] == LittleEndian(a.startTime, 4) && y[..4] == LittleEndian(b.startTime, 4);
    assert x[4..8] == LittleEndian(a.duration, 4) && y[4..8] == LittleEndian(b.duration, 4);
    assert x[8..11] == FromU32(a.initialRateBump).value && y[8..11] == FromU32(b.initialRateBump).value;
    assert x[15..] == EncodePoints(a.pointsAndTimeDeltas) && y[15..] == EncodePoints(b.pointsAndTimeDeltas);
    ScalarSizes();
    LittleEndianRoundTrip(a.startTime, 4);
    LittleEndianRoundTrip(b.startTime, 4);
    LittleEndianRoundTrip(a.duration, 4);
    LittleEndianRoundTrip(b.duration, 4);
    U24RoundTrips(a.initialRateBump, x[8..11]);
    U24RoundTrips(b.initialRateBump, y[8..11]);
    PointsInjective(a.pointsAndTimeDeltas, b.pointsAndTimeDeltas);
  }
}
