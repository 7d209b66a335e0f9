/** The Dutch auction: the rate bump added to an order's destination amount, and the
    premium a resolver earns for cancelling an expired order. */
module Auction {
  import opened Wrappers
  import opened Arithmetic
  import opened Bits
  import opened Packed24

  datatype PointAndTimeDelta = PointAndTimeDelta(rateBump: u24, timeDelta: u16)

  datatype AuctionData = AuctionData(
    startTime: u32,
    duration: u32,
    initialRateBump: u24,
    pointsAndTimeDeltas: seq<PointAndTimeDelta>)

  // ----- The loop and the function it computes -----

  function RateBump(timestamp: u64, data: AuctionData): nat {
    var finish := data.startTime + data.duration;
    if timestamp <= data.startTime then data.initialRateBump
    else if timestamp >= finish then 0
    else Walk(timestamp, data.startTime, data.initialRateBump, data.pointsAndTimeDeltas, finish)
  }

  function Walk(timestamp: nat, time: nat, bump: nat, points: seq<PointAndTimeDelta>, finish: nat): nat
    requires time < timestamp < finish
    decreases |points|
  {
    if points == [] then
      Between(timestamp, time, bump, finish, 0)
    else
      var next, nextBump := time + points[0].timeDelta, points[0].rateBump;
      if timestamp <= next then Between(timestamp, time, bump, next, nextBump)
      else Walk(timestamp, next, nextBump, points[1..], finish)
  }

  /** The bump at `t` on the segment from (`t0`, `b0`) to (`t1`, `b1`), rounded down. */
  function Between(t: nat, t0: nat, b0: nat, t1: nat, b1: nat): (b: nat)
    requires t0 < t <= t1
  {
    BetweenNumerator(t, t0, b0, t1, b1);
    DivModNat((t - t0) * b1 + (t1 - t) * b0, t1 - t0);
    ((t - t0) * b1 + (t1 - t) * b0) / (t1 - t0)
  }

  lemma BetweenNumerator(t: nat, t0: nat, b0: nat, t1: nat, b1: nat)
    requires t0 < t <= t1
    ensures (t - t0) * b1 >= 0 && (t1 - t) * b0 >= 0
  {
  }

  /** Every product and sum is assigned to a 64-bit variable, so that verifying these
      methods shows that none of them overflows and no divisor is zero. */
  method CalculateRateBump(timestamp: u64, data: AuctionData) returns (bump: u64)
    ensures bump == RateBump(timestamp, data)
  {
    if timestamp <= data.startTime {
      return data.initialRateBump;
    }
    var auctionFinishTime: u64 := data.startTime + data.duration;
    if timestamp >= auctionFinishTime {
      return 0;
    }
    var currentRateBump: u64 := data.initialRateBump;
    var currentPointTime: u64 := data.startTime;
    var points := data.pointsAndTimeDeltas;
    for i := 0 to |points|
      invariant currentPointTime < timestamp && currentRateBump < 0x100_0000
      invariant RateBump(timestamp, data)
             == Walk(timestamp, currentPointTime, currentRateBump, points[i..], auctionFinishTime)
    {
      var nextRateBump: u64 := points[i].rateBump;
      var pointTimeDelta: u64 := points[i].timeDelta;
      var nextPointTime: u64 := currentPointTime + pointTimeDelta;
      assert points[i..][0] == points[i] && points[i..][1..] == points[i + 1..];
      if timestamp <= nextPointTime {
        bump := OnInnerSegment(timestamp, currentPointTime, currentRateBump, nextPointTime, nextRateBump);
        return;
      }
      currentRateBump := nextRateBump;
      currentPointTime := nextPointTime;
    }
    assert points[|points|..] == [];
    bump := OnLastSegment(timestamp, currentPointTime, currentRateBump, auctionFinishTime);
  }

  method OnInnerSegment(t: u64, t0: u64, b0: u64, t1: u64, b1: u64) returns (bump: u64)
    requires t0 < t <= t1 && t1 - t0 < 0x1_0000 && b0 < 0x100_0000 && b1 < 0x100_0000
    ensures bump == Between(t, t0, b0, t1, b1)
  {
    ProductBound(t - t0, 0x1_0000, b1, 0x100_0000);
    ProductBound(t1 - t, 0x1_0000, b0, 0x100_0000);
    var rising: u64 := (t - t0) * b1;
    var falling: u64 := (t1 - t) * b0;
    var sum: u64 := rising + falling;
    bump := QuotientInRange(sum, t1 - t0);
  }

  method OnLastSegment(t: u64, t0: u64, b0: u64, finish: u64) returns (bump: u64)
    requires t0 < t < finish < 0x2_0000_0000 && b0 < 0x100_0000
    ensures bump == Between(t, t0, b0, finish, 0)
  {
    ProductBound(b0, 0x100_0000, finish - t, 0x2_0000_0000);
    var scaled: u64 := b0 * (finish - t);
    bump := QuotientInRange(scaled, finish - t0);
  }

  function QuotientInRange(a: u64, d: u64): (q: u64)
    requires d > 0
    ensures q == a / d
  {
    DivModNat(a, d);
    DivAtLeast(a, d, a / d);
    MulMonotone(1, d, a / d);
    a / d
  }

  lemma ProductBound(a: nat, x: nat, b: nat, y: nat)
    requires a <= x && b <= y
    ensures 0 <= a * b <= x * y
  {
    MulMonotone(a, x, b);
    MulMonotone(b, y, x);
  }

  // ----- The curve it interpolates -----

  datatype Knot = Knot(time: nat, bump: nat)

  /** The corners of the auction: the start, each point in turn, and the finish. */
  function Knots(data: AuctionData): (k: seq<Knot>)
    ensures |k| == |data.pointsAndTimeDeltas| + 2
  {
    KnotsFrom(data.startTime, data.initialRateBump, data.pointsAndTimeDeltas, data.startTime + data.duration)
  }

  function KnotsFrom(time: nat, bump: nat, points: seq<PointAndTimeDelta>, finish: nat): (k: seq<Knot>)
    ensures |k| == |points| + 2 && k[0] == Knot(time, bump)
    decreases |points|
  {
    [Knot(time, bump)] +
    if points == [] then [Knot(finish, 0)]
    else KnotsFrom(time + points[0].timeDelta, points[0].rateBump, points[1..], finish)
  }

  /** The point of the straight line through `a` and `b` above time `t`. */
  function Line(a: Knot, b: Knot, t: nat): real
    requires a.time < b.time
  {
    a.bump as real + (b.bump - a.bump) as real * ((t - a.time) as real / (b.time - a.time) as real)
  }

  predicate OnSegment(k: seq<Knot>, i: nat, t: nat) {
    i + 1 < |k| && k[i].time < t <= k[i + 1].time
  }

  /** While the auction runs, every moment lies on a segment of the curve. */
  lemma {:induction false} WalkFindsASegment(
    t: nat, time: nat, bump: nat, points: seq<PointAndTimeDelta>, finish: nat) returns (i: nat)
    requires time < t < finish
    ensures OnSegment(KnotsFrom(time, bump, points, finish), i, t)
    decreases |points|
  {
    i := 0;
    if points != [] {
      var next := time + points[0].timeDelta;
      if t > next {
        var j := WalkFindsASegment(t, next, points[0].rateBump, points[1..], finish);
        assert KnotsFrom(time, bump, points, finish)[1..]
            == KnotsFrom(next, points[0].rateBump, points[1..], finish);
        i := j + 1;
      }
    }
  }

  /** Knots never go back in time before the closing one. */
  lemma {:induction false} KnotTimesRise(
    time: nat, bump: nat, points: seq<PointAndTimeDelta>, finish: nat, i: nat)
    requires i < |points| + 1
    ensures time <= KnotsFrom(time, bump, points, finish)[i].time
    decreases |points|
  {
    if i > 0 {
      KnotTimesRise(time + points[0].timeDelta, points[0].rateBump, points[1..], finish, i - 1);
    }
  }

  /** On whichever segment a moment lies, the walk returns that segment's value. */
  lemma {:induction false} WalkIsBetween(
    t: nat, time: nat, bump: nat, points: seq<PointAndTimeDelta>, finish: nat, i: nat)
    requires time < t < finish && OnSegment(KnotsFrom(time, bump, points, finish), i, t)
    ensures var k := KnotsFrom(time, bump, points, finish);
            Walk(t, time, bump, points, finish) == Between(t, k[i].time, k[i].bump, k[i + 1].time, k[i + 1].bump)
    decreases |points|
  {
    if points != [] {
      var next, nextBump := time + points[0].timeDelta, points[0].rateBump;
      if i > 0 {
        KnotTimesRise(next, nextBump, points[1..], finish, i - 1);
        WalkIsBetween(t, next, nextBump, points[1..], finish, i - 1);
      }
    }
  }

  lemma FloorOfQuotient(n: int, d: int)
    requires d > 0
    ensures (n as real / d as real).Floor == n / d
  {
    var q, r := n / d, n % d;
    DivModSplit(n, d);
    ProductAsReal(d, q);
    QuotientBetween(n as real / d as real, q as real, r as real, d as real);
  }

  lemma ProductAsReal(a: int, b: int)
    ensures (a * b) as real == a as real * b as real
  {
  }

  lemma QuotientBetween(x: real, q: real, r: real, d: real)
    requires d > 0.0 && x * d == r + d * q && 0.0 <= r < d
    ensures q <= x < q + 1.0
  {
    assert (x - q) * d == r && (x - q - 1.0) * d == r - d;
    ProductSign(x - q, d);
    ProductSign(x - q - 1.0, d);
  }

  lemma ProductSign(y: real, d: real)
    requires d > 0.0
    ensures y < 0.0 <==> y * d < 0.0
  {
  }

  lemma BetweenIsFloorOfLine(a: Knot, b: Knot, t: nat)
    requires a.time < t <= b.time
    ensures Between(t, a.time, a.bump, b.time, b.bump) == Line(a, b, t).Floor
  {
    var d, e, slope := b.time - a.time, t - a.time, b.bump - a.bump;
    var n := e * b.bump + (b.time - t) * a.bump;
    NumeratorAsLine(d, e, a.bump, b.bump);
    FloorOfQuotient(n, d);
    LineAsQuotient(a.bump as real, slope as real, e as real, d as real);
    ProductAsReal(a.bump, d);
    ProductAsReal(slope, e);
    assert n as real == a.bump as real * d as real + slope as real * e as real;
    assert Line(a, b, t) == n as real / d as real;
  }

  lemma NumeratorAsLine(d: int, e: int, b0: int, b1: int)
    ensures e * b1 + (d - e) * b0 == b0 * d + (b1 - b0) * e
  {
  }

  lemma LineAsQuotient(a: real, slope: real, e: real, d: real)
    requires d > 0.0
    ensures a + slope * (e / d) == (a * d + slope * e) / d
  {
    var x := e / d;
    assert x * d == e;
    var y := a + slope * x;
    assert y * d == a * d + slope * (x * d);
  }

  /** While the auction runs, the loop's result is the floor of the exact straight-line
      interpolation on the one segment that holds the current time. */
  lemma RateBumpIsFloorOfCurve(t: u64, data: AuctionData, i: nat)
    requires data.startTime < t < data.startTime + data.duration
    requires OnSegment(Knots(data), i, t)
    ensures RateBump(t, data) == Line(Knots(data)[i], Knots(data)[i + 1], t).Floor
  {
    WalkIsBetween(t, data.startTime, data.initialRateBump, data.pointsAndTimeDeltas,
                  data.startTime + data.duration, i);
    BetweenIsFloorOfLine(Knots(data)[i], Knots(data)[i + 1], t);
  }

  /** There is always such a segment, so the lemma above determines the bump. */
  lemma CurveCoversAuction(t: u64, data: AuctionData) returns (i: nat)
    requires data.startTime < t < data.startTime + data.duration
    ensures OnSegment(Knots(data), i, t)
    ensures RateBump(t, data) == Line(Knots(data)[i], Knots(data)[i + 1], t).Floor
  {
    i := WalkFindsASegment(t, data.startTime, data.initialRateBump, data.pointsAndTimeDeltas,
                           data.startTime + data.duration);
    RateBumpIsFloorOfCurve(t, data, i);
  }

  lemma BetweenAtEnd(t0: nat, b0: nat, t1: nat, b1: nat)
    requires t0 < t1
    ensures Between(t1, t0, b0, t1, b1) == b1
  {
    DivUnique((t1 - t0) * b1, t1 - t0, b1, 0);
  }

  /** At a knot's own time, before the finish, the bump is that knot's bump. */
  lemma RateBumpAtKnot(data: AuctionData, i: nat)
    requires i < |data.pointsAndTimeDeltas| && data.pointsAndTimeDeltas[i].timeDelta > 0
    requires Knots(data)[i + 1].time < data.startTime + data.duration
    ensures RateBump(Knots(data)[i + 1].time, data) == data.pointsAndTimeDeltas[i].rateBump
  {
    var k, points := Knots(data), data.pointsAndTimeDeltas;
    var start, initial, finish := data.startTime, data.initialRateBump, data.startTime + data.duration;
    KnotDelta(start, initial, points, finish, i);
    KnotTimesRise(start, initial, points, finish, i);
    WalkIsBetween(k[i + 1].time, start, initial, points, finish, i);
    BetweenAtEnd(k[i].time, k[i].bump, k[i + 1].time, k[i + 1].bump);
  }

  /** Up to its start the auction has its initial bump, and from its finish on none. */
  lemma RateBumpOutsideAuction(t: u64, data: AuctionData)
    ensures t <= data.startTime ==> RateBump(t, data) == Knots(data)[0].bump == data.initialRateBump
    ensures data.startTime + data.duration <= t && data.startTime < t ==>
      RateBump(t, data) == Knots(data)[|Knots(data)| - 1].bump == 0
  {
    LastKnotIsFinish(data.startTime, data.initialRateBump, data.pointsAndTimeDeltas, data.startTime + data.duration);
  }

  lemma {:induction false} LastKnotIsFinish(time: nat, bump: nat, points: seq<PointAndTimeDelta>, finish: nat)
    ensures var k := KnotsFrom(time, bump, points, finish);
      k[|k| - 1] == Knot(finish, 0)
    decreases |points|
  {
    if points != [] {
      LastKnotIsFinish(time + points[0].timeDelta, points[0].rateBump, points[1..], finish);
    }
  }

  lemma {:induction false} KnotDelta(
    time: nat, bump: nat, points: seq<PointAndTimeDelta>, finish: nat, i: nat)
    requires i < |points|
    ensures var k := KnotsFrom(time, bump, points, finish);
            k[i + 1].time == k[i].time + points[i].timeDelta && k[i + 1].bump == points[i].rateBump
    decreases |points|
  {
    if i > 0 {
      KnotDelta(time + points[0].timeDelta, points[0].rateBump, points[1..], finish, i - 1);
    }
  }

  // ----- Bounds and monotonicity -----

  lemma Weighted(e: nat, f: nat, d: nat, eb: nat, fb: nat, low: nat, high: nat)
    requires d == e + f && low * e <= eb <= high * e && low * f <= fb <= high * f
    ensures low * d <= eb + fb <= high * d
  {
    assert low * d == low * e + low * f && high * d == high * e + high * f;
  }

  lemma QuotientBounds(n: nat, d: nat, low: nat, high: nat)
    requires d > 0 && low * d <= n <= high * d
    ensures low <= n / d <= high
  {
    DivAtLeast(n, d, low);
    DivMonotone(n, high * d, d);
    DivUnique(high * d, d, high, 0);
  }

  /** A segment's value lies between its two ends. */
  lemma BetweenBounds(t: nat, t0: nat, b0: nat, t1: nat, b1: nat, low: nat, high: nat)
    requires t0 < t <= t1 && low <= b0 <= high && low <= b1 <= high
    ensures low <= Between(t, t0, b0, t1, b1) <= high
  {
    var e, f, d := t - t0, t1 - t, t1 - t0;
    MulMonotone(low, b1, e);
    MulMonotone(low, b0, f);
    MulMonotone(b1, high, e);
    MulMonotone(b0, high, f);
    Weighted(e, f, d, e * b1, f * b0, low, high);
    QuotientBounds(e * b1 + f * b0, d, low, high);
  }

  /** On a falling segment the value falls with time. */
  lemma BetweenFalls(t: nat, t': nat, t0: nat, b0: nat, t1: nat, b1: nat)
    requires t0 < t <= t' <= t1 && b1 <= b0
    ensures Between(t', t0, b0, t1, b1) <= Between(t, t0, b0, t1, b1)
  {
    var n, n' := (t - t0) * b1 + (t1 - t) * b0, (t' - t0) * b1 + (t1 - t') * b0;
    assert n - n' == (t' - t) * (b0 - b1);
    MulMonotone(0, t' - t, b0 - b1);
    DivMonotone(n', n, t1 - t0);
  }

  /** All of the auction's bumps, the initial one first. */
  function Bumps(data: AuctionData): seq<nat> {
    [data.initialRateBump] + PointBumps(data.pointsAndTimeDeltas)
  }

  function PointBumps(points: seq<PointAndTimeDelta>): (b: seq<nat>)
    ensures |b| == |points|
  {
    seq(|points|, i requires 0 <= i < |points| => points[i].rateBump)
  }

  predicate NonIncreasing(b: seq<nat>) {
    forall i :: 0 <= i < |b| - 1 ==> b[i + 1] <= b[i]
  }

  lemma {:induction false} WalkBelow(
    t: nat, time: nat, bump: nat, points: seq<PointAndTimeDelta>, finish: nat, high: nat)
    requires time < t < finish && bump <= high
    requires forall i :: 0 <= i < |points| ==> points[i].rateBump <= high
    ensures Walk(t, time, bump, points, finish) <= high
    decreases |points|
  {
    if points == [] {
      BetweenBounds(t, time, bump, finish, 0, 0, high);
    } else {
      var next, nextBump := time + points[0].timeDelta, points[0].rateBump;
      if t <= next {
        BetweenBounds(t, time, bump, next, nextBump, 0, high);
      } else {
        WalkBelow(t, next, nextBump, points[1..], finish, high);
      }
    }
  }

  /** The bump never exceeds the largest bump of the auction. */
  lemma RateBumpNeverExceedsLargest(t: u64, data: AuctionData, high: nat)
    requires forall i :: 0 <= i < |Bumps(data)| ==> Bumps(data)[i] <= high
    ensures RateBump(t, data) <= high
  {
    assert Bumps(data)[0] <= high;
    forall i | 0 <= i < |data.pointsAndTimeDeltas|
      ensures data.pointsAndTimeDeltas[i].rateBump <= high
    {
      assert Bumps(data)[i + 1] == data.pointsAndTimeDeltas[i].rateBump;
    }
    var finish := data.startTime + data.duration;
    if data.startTime < t < finish {
      WalkBelow(t, data.startTime, data.initialRateBump, data.pointsAndTimeDeltas, finish, high);
    }
  }

  lemma {:induction false} TailBelowHead(b: seq<nat>, i: nat)
    requires NonIncreasing(b) && i < |b|
    ensures b[i] <= b[0]
  {
    if i > 0 { TailBelowHead(b, i - 1); }
  }

  lemma {:induction false} WalkFalls(
    t: nat, t': nat, time: nat, bump: nat, points: seq<PointAndTimeDelta>, finish: nat)
    requires time < t <= t' < finish
    requires NonIncreasing([bump] + PointBumps(points))
    ensures Walk(t', time, bump, points, finish) <= Walk(t, time, bump, points, finish) <= bump
    decreases |points|
  {
    if points == [] {
      BetweenFalls(t, t', time, bump, finish, 0);
      BetweenBounds(t, time, bump, finish, 0, 0, bump);
    } else {
      var next, nextBump := time + points[0].timeDelta, points[0].rateBump;
      var bumps := [bump] + PointBumps(points);
      assert bumps[1..] == [nextBump] + PointBumps(points[1..]);
      assert bumps[1] <= bumps[0];
      assert NonIncreasing(bumps[1..]) by {
        forall i | 0 <= i < |bumps[1..]| - 1 ensures bumps[1..][i + 1] <= bumps[1..][i] {
          assert bumps[(i + 1) + 1] <= bumps[i + 1];
        }
      }
      if t <= next {
        BetweenBounds(t, time, bump, next, nextBump, nextBump, bump);
      }
      if t' <= next {
        BetweenFalls(t, t', time, bump, next, nextBump);
      } else {
        WalkFalls(if t <= next then t' else t, t', next, nextBump, points[1..], finish);
      }
    }
  }

  /** If no point raises the bump, the bump never rises, over all time: before the start,
      across every corner, through zero-length segments and after the finish. */
  lemma RateBumpFalls(t: u64, t': u64, data: AuctionData)
    requires t <= t' && NonIncreasing(Bumps(data))
    ensures RateBump(t', data) <= RateBump(t, data)
  {
    var finish, initial := data.startTime + data.duration, data.initialRateBump;
    if data.startTime < t' < finish {
      WalkFalls(if t <= data.startTime then t' else t, t', data.startTime, initial, data.pointsAndTimeDeltas, finish);
    }
  }

  ghost predicate NeverRises(data: AuctionData) {
    forall t: u64, t': u64 :: t <= t' ==> RateBump(t', data) <= RateBump(t, data)
  }

  /** Every point takes time and comes before the finish. */
  predicate PointsSpread(data: AuctionData) {
    forall i :: 0 <= i < |data.pointsAndTimeDeltas| ==>
      data.pointsAndTimeDeltas[i].timeDelta > 0 && Knots(data)[i + 1].time < data.startTime + data.duration
  }

  /** The time at which corner `i` shows its bump. */
  lemma CornerShows(data: AuctionData, i: nat) returns (t: u64)
    requires PointsSpread(data) && i <= |data.pointsAndTimeDeltas|
    ensures t == Knots(data)[i].time && RateBump(t, data) == Bumps(data)[i]
  {
    t := data.startTime;
    if i > 0 {
      RateBumpAtKnot(data, i - 1);
      t := Knots(data)[i].time;
    }
  }

  lemma NextBumpIsLower(data: AuctionData, i: nat)
    requires PointsSpread(data) && NeverRises(data) && i < |data.pointsAndTimeDeltas|
    ensures Bumps(data)[i + 1] <= Bumps(data)[i]
  {
    KnotDelta(data.startTime, data.initialRateBump, data.pointsAndTimeDeltas, data.startTime + data.duration, i);
    var t := CornerShows(data, i);
    var t' := CornerShows(data, i + 1);
    assert RateBump(t', data) <= RateBump(t, data);
  }

  lemma FallingBumpsNeverRise(data: AuctionData)
    requires NonIncreasing(Bumps(data))
    ensures NeverRises(data)
  {
    forall t: u64, t': u64 | t <= t' ensures RateBump(t', data) <= RateBump(t, data) {
      RateBumpFalls(t, t', data);
    }
  }

  /** Where every point takes time and comes before the finish, the auction never rises
      exactly when no point raises the bump. */
  lemma NeverRisesExactlyWhenBumpsFall(data: AuctionData)
    requires PointsSpread(data)
    ensures NeverRises(data) <==> NonIncreasing(Bumps(data))
  {
    if NeverRises(data) {
      forall i | 0 <= i < |Bumps(data)| - 1 ensures Bumps(data)[i + 1] <= Bumps(data)[i] {
        NextBumpIsLower(data, i);
      }
    } else if NonIncreasing(Bumps(data)) {
      FallingBumpsNeverRise(data);
    }
  }

  /** The condition matters: a point that raises the bump makes the auction rise. */
  lemma RisingPointRaisesBump(low: u24, high: u24)
    requires low < high
    ensures var data := AuctionData(0, 10, low, [PointAndTimeDelta(high, 5)]);
            RateBump(0, data) == low && RateBump(5, data) == high
  {
    var data := AuctionData(0, 10, low, [PointAndTimeDelta(high, 5)]);
    RateBumpAtKnot(data, 0);
  }

  // ----- When the auction never rises -----

  /** The segment after corner `i` takes time, some of it before the finish. */
  predicate Shows(k: seq<Knot>, i: nat, finish: nat)
    requires i + 1 < |k|
  {
    k[i].time < k[i + 1].time && k[i].time + 1 < finish
  }

  /** The bump shown at corner `i`: of several corners at one time, the first one's. */
  function ShownBump(k: seq<Knot>, i: nat): nat
    requires i < |k|
  {
    if i > 0 && k[i - 1].time == k[i].time then ShownBump(k, i - 1) else k[i].bump
  }

  /** The bump at a moment of the segment after corner `i`. */
  function SegmentBump(k: seq<Knot>, i: nat, t: nat): nat
    requires OnSegment(k, i, t)
  {
    Between(t, k[i].time, k[i].bump, k[i + 1].time, k[i + 1].bump)
  }

  /** The segment does not start above the bump shown at its corner; and it does not raise
      the bump, unless it takes one second only, or the finish cuts its rise off so early
      that the first and the last moment shown are rounded to the same bump. */
  predicate FallsAfter(k: seq<Knot>, i: nat, finish: nat)
    requires i + 1 < |k| && Shows(k, i, finish)
  {
    var first := k[i].time + 1;
    && SegmentBump(k, i, first) <= ShownBump(k, i)
    && (|| k[i + 1].bump <= k[i].bump
        || k[i + 1].time == first
        || (finish <= k[i + 1].time && SegmentBump(k, i, finish - 1) == SegmentBump(k, i, first)))
  }

  predicate FallsAfterCorners(data: AuctionData) {
    var k, finish := Knots(data), data.startTime + data.duration;
    forall i :: 0 <= i < |k| - 1 && Shows(k, i, finish) ==> FallsAfter(k, i, finish)
  }

  /** On a rising segment the value rises with time. */
  lemma BetweenRises(t: nat, t': nat, t0: nat, b0: nat, t1: nat, b1: nat)
    requires t0 < t <= t' <= t1 && b0 <= b1
    ensures Between(t, t0, b0, t1, b1) <= Between(t', t0, b0, t1, b1)
  {
    var n, n' := (t - t0) * b1 + (t1 - t) * b0, (t' - t0) * b1 + (t1 - t') * b0;
    assert n' - n == (t' - t) * (b1 - b0);
    MulMonotone(0, t' - t, b1 - b0);
    DivMonotone(n, n', t1 - t0);
  }

  /** It reaches its upper end at its end and not before. */
  lemma BetweenBelowEnd(t: nat, t0: nat, b0: nat, t1: nat, b1: nat)
    requires t0 < t < t1 && b0 < b1
    ensures Between(t, t0, b0, t1, b1) < b1
  {
    var n, d := (t - t0) * b1 + (t1 - t) * b0, t1 - t0;
    assert d * b1 - n == (t1 - t) * (b1 - b0);
    MulMonotone(1, t1 - t, b1 - b0);
    assert n < b1 * d;
    QuotientBelow(n, d, b1);
  }

  lemma QuotientBelow(n: nat, d: nat, q: nat)
    requires d > 0 && n < q * d
    ensures n / d < q
  {
    DivModNat(n, d);
    if n / d >= q { MulMonotone(q, n / d, d); }
  }

  /** The moments of a running auction after corner `i` have that segment's bumps. */
  lemma RateBumpOnSegment(data: AuctionData, i: nat, t: u64)
    requires data.startTime < t < data.startTime + data.duration && OnSegment(Knots(data), i, t)
    ensures RateBump(t, data) == SegmentBump(Knots(data), i, t)
  {
    WalkIsBetween(t, data.startTime, data.initialRateBump, data.pointsAndTimeDeltas,
                  data.startTime + data.duration, i);
  }

  lemma {:induction false} CornerShowsFirst(data: AuctionData, i: nat)
    requires i < |Knots(data)| - 1 && Knots(data)[i].time < data.startTime + data.duration
    ensures data.startTime <= Knots(data)[i].time
    ensures RateBump(Knots(data)[i].time, data) == ShownBump(Knots(data), i)
  {
    var k, points, finish := Knots(data), data.pointsAndTimeDeltas, data.startTime + data.duration;
    if i > 0 {
      KnotTimesRise(data.startTime, data.initialRateBump, points, finish, i - 1);
      KnotDelta(data.startTime, data.initialRateBump, points, finish, i - 1);
      if k[i - 1].time == k[i].time {
        CornerShowsFirst(data, i - 1);
      } else {
        RateBumpOnSegment(data, i - 1, k[i].time);
        BetweenAtEnd(k[i - 1].time, k[i - 1].bump, k[i].time, k[i].bump);
      }
    }
  }

  /** What an auction that never rises does after each corner. */
  lemma NeverRisingFallsAfter(data: AuctionData, i: nat)
    requires NeverRises(data) && i < |Knots(data)| - 1 && Shows(Knots(data), i, data.startTime + data.duration)
    ensures FallsAfter(Knots(data), i, data.startTime + data.duration)
  {
    var k, finish := Knots(data), data.startTime + data.duration;
    var a, b, first := k[i], k[i + 1], k[i].time + 1;
    var last := if b.time < finish then b.time else finish - 1;
    CornerShowsFirst(data, i);
    RateBumpOnSegment(data, i, first);
    RateBumpOnSegment(data, i, last);
    assert RateBump(first, data) <= RateBump(a.time, data) && RateBump(last, data) <= RateBump(first, data);
    if a.bump < b.bump && first < b.time {
      BetweenRises(first, last, a.time, a.bump, b.time, b.bump);
      if b.time < finish {
        BetweenAtEnd(a.time, a.bump, b.time, b.bump);
        BetweenBelowEnd(first, a.time, a.bump, b.time, b.bump);
      }
    }
  }

  /** One second inside a segment. */
  lemma SecondFalls(k: seq<Knot>, i: nat, finish: nat, t: nat)
    requires i + 1 < |k| && Shows(k, i, finish) && FallsAfter(k, i, finish)
    requires k[i].time < t && t + 1 < finish && OnSegment(k, i, t + 1)
    ensures SegmentBump(k, i, t + 1) <= SegmentBump(k, i, t)
  {
    var a, b, first := k[i], k[i + 1], k[i].time + 1;
    if b.bump <= a.bump {
      BetweenFalls(t, t + 1, a.time, a.bump, b.time, b.bump);
    } else {
      BetweenRises(first, t, a.time, a.bump, b.time, b.bump);
      BetweenRises(t + 1, finish - 1, a.time, a.bump, b.time, b.bump);
    }
  }

  lemma NextSecondFalls(data: AuctionData, t: u64)
    requires FallsAfterCorners(data) && t + 1 < TWO64
    ensures RateBump(t + 1, data) <= RateBump(t, data)
  {
    var k, finish := Knots(data), data.startTime + data.duration;
    if data.startTime < t + 1 < finish {
      var i := CurveCoversAuction(t + 1, data);
      assert FallsAfter(k, i, finish);
      RateBumpOnSegment(data, i, t + 1);
      if t == k[i].time {
        CornerShowsFirst(data, i);
      } else {
        CornerShowsFirst(data, i);
        RateBumpOnSegment(data, i, t);
        SecondFalls(k, i, finish, t);
      }
    }
  }

  lemma {:induction false} LaterIsLower(data: AuctionData, t: u64, t': u64)
    requires FallsAfterCorners(data) && t <= t'
    ensures RateBump(t', data) <= RateBump(t, data)
    decreases t' - t
  {
    if t < t' {
      LaterIsLower(data, t, t' - 1);
      NextSecondFalls(data, t' - 1);
    }
  }

  /** For every auction: the bump never rises exactly when it falls after each corner. That
      takes two comparisons for each point, and lets a point raise the bump unseen: past the
      finish, for no time at all, or by less than shows. */
  lemma NeverRisesExactly(data: AuctionData)
    ensures NeverRises(data) <==> FallsAfterCorners(data)
  {
    var k, finish := Knots(data), data.startTime + data.duration;
    if NeverRises(data) {
      forall i | 0 <= i < |k| - 1 && Shows(k, i, finish) ensures FallsAfter(k, i, finish) {
        NeverRisingFallsAfter(data, i);
      }
    }
    if FallsAfterCorners(data) {
      forall t: u64, t': u64 | t <= t' ensures RateBump(t', data) <= RateBump(t, data) {
        LaterIsLower(data, t, t');
      }
    }
  }

  lemma SlowRiseIsUnseen(e: nat, d: nat, low: nat, high: nat)
    requires 0 < e <= d && low <= high && e * (high - low) < d
    ensures Between(e, 0, low, d, high) == low
  {
    assert e * high + (d - e) * low == low * d + e * (high - low);
    MulMonotone(0, e, high - low);
    DivUnique(e * high + (d - e) * low, d, low, e * (high - low));
  }

  /** Such a point: it raises the bump, but by less than one until the finish. */
  lemma UnseenPointMayRaise(duration: u32, low: u24, high: u24, delta: u16)
    requires 0 < duration <= delta && low < high && (duration - 1) * (high - low) < delta
    ensures var data := AuctionData(0, duration, low, [PointAndTimeDelta(high, delta)]);
      NeverRises(data) && !NonIncreasing(Bumps(data))
  {
    var points := [PointAndTimeDelta(high, delta)];
    var data := AuctionData(0, duration, low, points);
    var k := Knots(data);
    KnotDelta(0, low, points, duration, 0);
    if Shows(k, 0, duration) {
      MulMonotone(1, duration - 1, high - low);
      SlowRiseIsUnseen(1, delta, low, high);
      SlowRiseIsUnseen(duration - 1, delta, low, high);
    }
    assert !Shows(k, 1, duration);
    assert Bumps(data)[1] > Bumps(data)[0];
    NeverRisesExactly(data);
  }

  // ----- The cancellation premium -----

  function CalculatePremium(timestamp: u32, start: u32, duration: u32, maxPremium: u64): Result<nat> {
    if timestamp <= start then Ok(0)
    else if timestamp - start >= duration then Ok(maxPremium)
    else if (timestamp - start) * maxPremium >= TWO64 then Err(ArithmeticOverflow)
    else
      DivModNat((timestamp - start) * maxPremium, duration);
      Ok((timestamp - start) * maxPremium / duration)
  }

  /** The premium aborts only inside its ramp and only on a product of 64 bits or more;
      below 32 bits of premium that cannot happen. */
  lemma PremiumDefined(t: u32, start: u32, duration: u32, maxPremium: u64)
    ensures CalculatePremium(t, start, duration, maxPremium).Err?
       <==> start < t < start + duration && (t - start) * maxPremium >= TWO64
    ensures maxPremium < TWO32 ==> CalculatePremium(t, start, duration, maxPremium).Ok?
  {
    if start < t && maxPremium < TWO32 {
      MulMonotone(t - start, TWO32 - 1, maxPremium);
      MulMonotone(maxPremium, TWO32 - 1, TWO32 - 1);
    }
  }

  /** The premium climbs from nothing at expiration to its maximum at the end of the ramp. */
  lemma PremiumRises(t: u32, t': u32, start: u32, duration: u32, maxPremium: u64)
    requires t <= t'
    requires CalculatePremium(t, start, duration, maxPremium).Ok?
    requires CalculatePremium(t', start, duration, maxPremium).Ok?
    ensures CalculatePremium(t, start, duration, maxPremium).value
         <= CalculatePremium(t', start, duration, maxPremium).value <= maxPremium
    ensures t <= start ==> CalculatePremium(t, start, duration, maxPremium).value == 0
    ensures t > start && t - start >= duration ==> CalculatePremium(t, start, duration, maxPremium).value == maxPremium
  {
    if start < t < start + duration {
      RampBelowMaximum(t - start, duration, maxPremium);
    }
    if start < t' < start + duration {
      RampBelowMaximum(t' - start, duration, maxPremium);
      if start < t {
        MulMonotone(t - start, t' - start, maxPremium);
        DivMonotone((t - start) * maxPremium, (t' - start) * maxPremium, duration);
      }
    }
  }

  /** Between the two the premium is the floor of the exact straight-line ramp. */
  lemma PremiumIsFloorOfRamp(t: u32, start: u32, duration: u32, maxPremium: u64)
    requires start < t < start + duration && CalculatePremium(t, start, duration, maxPremium).Ok?
    ensures CalculatePremium(t, start, duration, maxPremium).value
         == (maxPremium as real * ((t - start) as real / duration as real)).Floor
  {
    RampFloor(t - start, maxPremium, duration, (t - start) * maxPremium);
  }

  lemma RampFloor(e: nat, m: nat, d: nat, n: nat)
    requires d > 0 && n == e * m
    ensures (m as real * (e as real / d as real)).Floor == n / d
  {
    FloorOfQuotient(n, d);
    ProductAsReal(e, m);
    RampAsQuotient(m as real, e as real, d as real, n as real);
  }

  lemma RampAsQuotient(m: real, e: real, d: real, n: real)
    requires d > 0.0 && n == e * m
    ensures m * (e / d) == n / d
  {
    assert (m * (e / d)) * d == m * e;
  }

  lemma RampBelowMaximum(elapsed: nat, duration: nat, maxPremium: nat)
    requires elapsed < duration
    ensures 0 <= elapsed * maxPremium / duration <= maxPremium
  {
    MulMonotone(elapsed, duration, maxPremium);
    MulMonotone(0, elapsed, maxPremium);
    DivMonotone(elapsed * maxPremium, duration * maxPremium, duration);
    DivUnique(duration * maxPremium, duration, maxPremium, 0);
    DivAtLeast(elapsed * maxPremium, duration, 0);
  }
}
