/** What an escrow owes on the destination chain: the order's destination amount in
    proportion to the fill, raised by the auction, each step rounded up. */
module DstAmount {
  import opened Wrappers
  import opened Arithmetic
  import opened Bits
  import opened Auction

  const BASE_1E7: nat := 10_000_000

  /** `(n + d - 1) / d` in checked 256-bit arithmetic, for a product `a * b`. */
  function CheckedCeil(a: nat, b: nat, d: nat): (r: Result<nat>)
    requires d > 0
    ensures r.Ok? ==> r.value < TWO256
  {
    if a * b >= TWO256 || a * b + (d - 1) >= TWO256 then Err(ArithmeticOverflow)
    else
      MulMonotone(0, a, b);
      QuotientAtMost(a * b + (d - 1), d);
      Ok((a * b + (d - 1)) / d)
  }

  lemma QuotientAtMost(n: nat, d: nat)
    requires d > 0
    ensures 0 <= n / d <= n
  {
    DivModNat(n, d);
    DivBounds(n, d);
    MulMonotone(1, d, n / d);
  }

  /** The destination amount due for `amount` out of `order`, before the auction. */
  function ProRata(dst: u256, amount: u64, order: u64): Result<nat> {
    if order == 0 then Err(ArithmeticOverflow) else CheckedCeil(dst, amount, order)
  }

  /** The same raised by the rate bump of the moment. */
  function GetDstAmount(base: nat, now: u64, data: AuctionData): Result<u256> {
    var raised :- CheckedCeil(base, BASE_1E7 + RateBump(now, data), BASE_1E7);
    Ok(raised)
  }

  function EscrowDstAmount(dst: u256, amount: u64, order: u64, now: u64, data: AuctionData): Result<u256> {
    var base :- ProRata(dst, amount, order);
    GetDstAmount(base, now, data)
  }

  /** Rounding up overshoots the exact quotient by less than one. */
  lemma CeilBounds(a: nat, b: nat, d: nat)
    requires d > 0 && CheckedCeil(a, b, d).Ok?
    ensures a * b <= CheckedCeil(a, b, d).value * d <= a * b + (d - 1)
  {
    DivBounds(a * b + (d - 1), d);
  }

  /** `q` is the quotient `n / d` rounded up. */
  predicate IsCeil(q: int, n: int, d: int) {
    n <= q * d < n + d
  }

  /** Both products, with what is added to round them up, fit 256 bits. */
  predicate AmountFits(dst: u256, amount: u64, order: u64, bump: nat)
    requires order > 0
  {
    && dst * amount + (order - 1) < Pow2(256)
    && ((dst * amount + (order - 1)) / order) * (10_000_000 + bump) + 9_999_999 < Pow2(256)
  }

  /** A destination amount exists exactly when both products fit. */
  lemma DefinedExactly(dst: u256, amount: u64, order: u64, now: u64, data: AuctionData)
    ensures EscrowDstAmount(dst, amount, order, now, data).Ok? <==>
      order > 0 && AmountFits(dst, amount, order, RateBump(now, data))
  {
  }

  lemma CeilIsUnique(q: nat, q': nat, n: int, d: nat)
    requires d > 0 && IsCeil(q, n, d) && IsCeil(q', n, d)
    ensures q == q'
  {
    if q < q' {
      MulMonotone(q + 1, q', d);
    } else if q' < q {
      MulMonotone(q' + 1, q, d);
    }
  }

  lemma RaisedExactly(base: nat, now: u64, data: AuctionData, due: nat)
    requires GetDstAmount(base, now, data).Ok?
    ensures GetDstAmount(base, now, data) == Ok(due) <==>
      IsCeil(due, base * (10_000_000 + RateBump(now, data)), 10_000_000)
  {
    var n, due' := base * (10_000_000 + RateBump(now, data)), GetDstAmount(base, now, data).value;
    CeilBounds(base, 10_000_000 + RateBump(now, data), 10_000_000);
    if IsCeil(due, n, 10_000_000) {
      CeilIsUnique(due, due', n, 10_000_000);
    }
  }

  /** And it is the order's amount in proportion to the fill, rounded up, and then raised by
      the rate bump in ten-millionths and rounded up again; nothing else is. */
  lemma DueIsRoundedUpTwice(dst: u256, amount: u64, order: u64, now: u64, data: AuctionData, base: nat, due: nat)
    requires EscrowDstAmount(dst, amount, order, now, data).Ok? && IsCeil(base, dst * amount, order)
    ensures EscrowDstAmount(dst, amount, order, now, data) == Ok(due) <==>
      IsCeil(due, base * (10_000_000 + RateBump(now, data)), 10_000_000)
  {
    CeilBounds(dst, amount, order);
    CeilIsUnique(base, ProRata(dst, amount, order).value, dst * amount, order);
    RaisedExactly(base, now, data, due);
  }

  /** The auction raises an amount by its rate bump, rounded up by less than one unit, and so
      never takes anything off. */
  lemma AuctionOnlyAdds(base: nat, now: u64, data: AuctionData)
    requires GetDstAmount(base, now, data).Ok?
    ensures base <= GetDstAmount(base, now, data).value
    ensures base * (BASE_1E7 + RateBump(now, data)) <= GetDstAmount(base, now, data).value * BASE_1E7
    ensures GetDstAmount(base, now, data).value * BASE_1E7 < base * (BASE_1E7 + RateBump(now, data)) + BASE_1E7
  {
    var multiplier := BASE_1E7 + RateBump(now, data);
    CeilBounds(base, multiplier, BASE_1E7);
    MulMonotone(BASE_1E7, multiplier, base);
    DivAtLeast(base * multiplier + (BASE_1E7 - 1), BASE_1E7, base);
  }

  /** One fill of an order: how much of it, when, and at which auction. */
  datatype Part = Part(amount: u64, now: u64, data: AuctionData)

  function Amounts(parts: seq<Part>): nat {
    if parts == [] then 0 else Amounts(parts[..|parts| - 1]) + parts[|parts| - 1].amount
  }

  predicate AllDefined(dst: u256, order: u64, parts: seq<Part>) {
    forall i :: 0 <= i < |parts| ==>
      EscrowDstAmount(dst, parts[i].amount, order, parts[i].now, parts[i].data).Ok?
  }

  /** The sum of the escrows' shares before the auction. */
  function SharesBefore(dst: u256, order: u64, parts: seq<Part>): nat
    requires AllDefined(dst, order, parts)
  {
    if parts == [] then 0
    else SharesBefore(dst, order, parts[..|parts| - 1]) + ProRata(dst, parts[|parts| - 1].amount, order).value
  }

  /** The sum of the escrows' destination amounts. */
  function Shares(dst: u256, order: u64, parts: seq<Part>): nat
    requires AllDefined(dst, order, parts)
  {
    if parts == [] then 0
    else
      var last := parts[|parts| - 1];
      Shares(dst, order, parts[..|parts| - 1]) + EscrowDstAmount(dst, last.amount, order, last.now, last.data).value
  }

  /** The share covers the amount's part of `dst` and exceeds it by less than `n` units. */
  predicate RoundsUp(dst: nat, order: nat, amount: nat, share: nat, n: nat) {
    dst * amount <= share * order <= dst * amount + n * (order - 1)
  }

  /** Each share rounds up by less than one order's worth of units. */
  lemma {:induction false} SharesBounds(dst: u256, order: u64, parts: seq<Part>)
    requires AllDefined(dst, order, parts) && order > 0
    ensures RoundsUp(dst, order, Amounts(parts), SharesBefore(dst, order, parts), |parts|)
  {
    if parts != [] {
      var before, last := parts[..|parts| - 1], parts[|parts| - 1];
      SharesBounds(dst, order, before);
      CeilBounds(dst, last.amount, order);
      AddShare(dst, order, Amounts(before), last.amount, SharesBefore(dst, order, before),
               ProRata(dst, last.amount, order).value, |before|);
    }
  }

  lemma AddShare(dst: nat, order: nat, amount: nat, more: nat, share: nat, extra: nat, n: nat)
    requires order > 0
    requires RoundsUp(dst, order, amount, share, n) && RoundsUp(dst, order, more, extra, 1)
    ensures RoundsUp(dst, order, amount + more, share + extra, n + 1)
  {
    assert dst * (amount + more) == dst * amount + dst * more;
    assert (share + extra) * order == share * order + extra * order;
    assert (n + 1) * (order - 1) == n * (order - 1) + (order - 1);
  }

  lemma {:induction false} AuctionOnlyAddsToShares(dst: u256, order: u64, parts: seq<Part>)
    requires AllDefined(dst, order, parts)
    ensures SharesBefore(dst, order, parts) <= Shares(dst, order, parts)
  {
    if parts != [] {
      var last := parts[|parts| - 1];
      AuctionOnlyAddsToShares(dst, order, parts[..|parts| - 1]);
      AuctionOnlyAdds(ProRata(dst, last.amount, order).value, last.now, last.data);
    }
  }

  /** Splitting an order never costs its maker: parts that add up to the whole order owe at
      least its destination amount, and before the auction at most one unit more for each
      part but one. */
  lemma SplittingNeverCosts(dst: u256, order: u64, parts: seq<Part>)
    requires AllDefined(dst, order, parts) && Amounts(parts) == order > 0
    ensures dst <= SharesBefore(dst, order, parts) <= Shares(dst, order, parts)
    ensures SharesBefore(dst, order, parts) <= dst + |parts| - 1
  {
    SharesBounds(dst, order, parts);
    AuctionOnlyAddsToShares(dst, order, parts);
    WholeRoundsUp(dst, order, SharesBefore(dst, order, parts), |parts|);
  }

  lemma WholeRoundsUp(dst: nat, order: nat, total: nat, n: nat)
    requires order > 0 && n > 0 && RoundsUp(dst, order, order, total, n)
    ensures dst <= total < dst + n
  {
    CancelFactor(dst, total, order);
    if total >= dst + n {
      MulMonotone(dst + n, total, order);
      MulDistributes(dst + n, n, order);
      MulDistributes(order, 1, n);
    }
  }

  lemma CancelFactor(a: nat, b: nat, d: nat)
    requires d > 0 && a * d <= b * d
    ensures a <= b
  {
    if a > b {
      MulMonotone(b + 1, a, d);
      MulDistributes(b + 1, 1, d);
    }
  }
}
