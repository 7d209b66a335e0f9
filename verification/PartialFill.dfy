/** Which secret a partial fill must use. The program keeps no record of used secrets: it
    recomputes the last one from the amount still unfilled. This module shows that over
    every run of fills the recomputation is as good as the record it replaces. */
module PartialFill {
  import opened Wrappers
  import opened Arithmetic
  import opened Bits

  /** The part that contains the `end`-th unit of an order, with the aborts of checked
      64-bit arithmetic. */
  function PartIndex(end: nat, parts: u64, order: u64): Result<u64> {
    if end == 0 || end >= TWO64 then Err(ArithmeticOverflow)
    else if (end - 1) * parts >= TWO64 || order == 0 then Err(ArithmeticOverflow)
    else
      PartBelow(end - 1, parts, order);
      Ok((end - 1) * parts / order)
  }

  lemma PartBelow(u: nat, parts: nat, order: nat)
    requires order > 0
    ensures 0 <= u * parts / order <= u * parts
  {
    MulMonotone(0, u, parts);
    DivModNat(u * parts, order);
    DivBounds(u * parts, order);
    MulMonotone(1, order, u * parts / order);
  }

  function IsValidPartialFill(making: u64, remaining: u64, order: u64, parts: u64, index: u64): Result<bool> {
    if order < remaining then Err(ArithmeticOverflow)
    else
      var calculated :- PartIndex(order - remaining + making, parts, order);
      if remaining == making then
        if calculated + 1 >= TWO64 then Err(ArithmeticOverflow) else Ok(calculated + 1 == index)
      else if order != remaining then
        var previous :- PartIndex(order - remaining, parts, order);
        if calculated == previous then Ok(false) else Ok(calculated == index)
      else
        Ok(calculated == index)
  }

  // ----- Runs of fills -----

  datatype Fill = Fill(amount: u64, index: u64)

  function Filled(fills: seq<Fill>): nat {
    if fills == [] then 0 else Filled(fills[..|fills| - 1]) + fills[|fills| - 1].amount
  }

  predicate Accepts(order: u64, parts: u64, remaining: u64, fill: Fill) {
    && fill.amount <= remaining
    && IsValidPartialFill(fill.amount, remaining, order, parts, fill.index) == Ok(true)
  }

  /** The fills were accepted one after another, each while the order was still open. */
  predicate ValidRun(order: u64, parts: u64, fills: seq<Fill>)
    ensures ValidRun(order, parts, fills) ==> Filled(fills) <= order
  {
    fills == [] ||
    var before := fills[..|fills| - 1];
    && ValidRun(order, parts, before)
    && Filled(before) < order
    && Accepts(order, parts, order - Filled(before), fills[|fills| - 1])
  }

  /** Unit `end` lies in part `i` when the order is cut into `parts` equal parts. */
  predicate LiesInPart(order: u64, parts: u64, end: nat, i: int) {
    end > 0 && i * order <= (end - 1) * parts < (i + 1) * order
  }

  lemma PartIndexMeaning(order: u64, parts: u64, end: nat, i: int)
    requires order > 0 && PartIndex(end, parts, order).Ok?
    ensures PartIndex(end, parts, order).value == i <==> LiesInPart(order, parts, end, i)
  {
    var n := (end - 1) * parts;
    DivAtLeast(n, order, i);
    DivAtLeast(n, order, i + 1);
  }

  lemma PartsRise(order: u64, parts: u64, end: nat, end': nat)
    requires end <= end' && PartIndex(end, parts, order).Ok? && PartIndex(end', parts, order).Ok?
    ensures PartIndex(end, parts, order).value <= PartIndex(end', parts, order).value
  {
    MulMonotone(end - 1, end' - 1, parts);
    DivMonotone((end - 1) * parts, (end' - 1) * parts, order);
  }

  /** Whenever a larger end can be computed, so can a smaller one. */
  lemma PartIndexDefined(order: u64, parts: u64, end: nat, end': nat)
    requires 0 < end <= end' && PartIndex(end', parts, order).Ok?
    ensures PartIndex(end, parts, order).Ok?
  {
    MulMonotone(end - 1, end' - 1, parts);
  }

  /** The indices used by a run, in order: the record the program does not keep. */
  function Used(fills: seq<Fill>): (u: seq<u64>)
    ensures |u| == |fills|
  {
    seq(|fills|, i requires 0 <= i < |fills| => fills[i].index)
  }

  /** In every partly filled order the index recomputed from what remains is the index
      that the last fill was accepted with. */
  lemma RecomputedIndexIsLastUsed(order: u64, parts: u64, fills: seq<Fill>)
    requires ValidRun(order, parts, fills) && fills != [] && Filled(fills) < order
    ensures Filled(fills) > 0
    ensures PartIndex(Filled(fills), parts, order) == Ok(fills[|fills| - 1].index)
  {
  }

  /** Accepted indices strictly increase, and the last bounds them all. */
  lemma {:induction false} UsedBelowLast(order: u64, parts: u64, fills: seq<Fill>, i: nat)
    requires ValidRun(order, parts, fills) && i < |fills| - 1
    ensures fills[i].index < fills[|fills| - 1].index
  {
    var before, last := fills[..|fills| - 1], fills[|fills| - 1];
    RecomputedIndexIsLastUsed(order, parts, before);
    PartsRise(order, parts, Filled(before), Filled(before) + last.amount);
    if i < |before| - 1 {
      UsedBelowLast(order, parts, before, i);
    }
  }

  lemma {:induction false} IndicesIncrease(order: u64, parts: u64, fills: seq<Fill>, i: nat, j: nat)
    requires ValidRun(order, parts, fills) && i < j < |fills|
    ensures fills[i].index < fills[j].index
    decreases |fills|
  {
    if j == |fills| - 1 {
      UsedBelowLast(order, parts, fills, i);
    } else {
      var before := fills[..|fills| - 1];
      IndicesIncrease(order, parts, before, i, j);
    }
  }

  /** What a fill check that does keep the record of used indices would accept: a closing
      fill takes the index after the last part, any other takes the part it reaches, which
      must lie beyond every used one. */
  predicate RecordAccepts(order: u64, parts: u64, filled: nat, used: seq<u64>, fill: Fill) {
    if filled + fill.amount == order then LiesInPart(order, parts, order, fill.index - 1)
    else
      && LiesInPart(order, parts, filled + fill.amount, fill.index)
      && forall i :: 0 <= i < |used| ==> used[i] < fill.index
  }

  /** The stateless check refines the recording one. It aborts exactly on an empty first
      fill or a product over 64 bits; otherwise both give the same answer. */
  lemma StatelessCheckRefinesRecord(order: u64, parts: u64, fills: seq<Fill>, fill: Fill)
    requires ValidRun(order, parts, fills) && Filled(fills) < order
    requires fill.amount <= order - Filled(fills)
    requires parts < 0x1_0000
    ensures var filled := Filled(fills);
            var check := IsValidPartialFill(fill.amount, order - filled, order, parts, fill.index);
            && (check.Err? <==> filled + fill.amount == 0 || (filled + fill.amount - 1) * parts >= TWO64)
            && (check.Ok? ==> (check.value <==> RecordAccepts(order, parts, filled, Used(fills), fill)))
  {
    var filled, used := Filled(fills), Used(fills);
    var end := filled + fill.amount;
    if end > 0 && (end - 1) * parts < TWO64 {
      var calculated := PartIndex(end, parts, order).value;
      PartIndexMeaning(order, parts, end, fill.index);
      PartIndexMeaning(order, parts, end, fill.index - 1);
      LastPartBound(order, parts, end);
      if fills != [] && end < order {
        PartIndexDefined(order, parts, filled, end);
        RecomputedIndexIsLastUsed(order, parts, fills);
        PartsRise(order, parts, filled, end);
        assert used[|fills| - 1] == fills[|fills| - 1].index;
        forall i | 0 <= i < |used| ensures used[i] <= used[|fills| - 1] {
          if i < |fills| - 1 { UsedBelowLast(order, parts, fills, i); }
        }
      }
    }
  }

  /** No unit lies beyond the last part. */
  lemma LastPartBound(order: u64, parts: u64, end: nat)
    requires end <= order && PartIndex(end, parts, order).Ok?
    ensures parts > 0 ==> PartIndex(end, parts, order).value < parts
    ensures parts == 0 ==> PartIndex(end, parts, order).value == 0
  {
    MulMonotone(end - 1, order - 1, parts);
    DivAtLeast((end - 1) * parts, order, parts);
    assert (order - 1) * parts == order * parts - parts;
  }

  // ----- Accounting and termination -----

  /** Every accepted fill takes at least one unit. */
  lemma AcceptedFillsAreNotEmpty(order: u64, parts: u64, fills: seq<Fill>)
    requires ValidRun(order, parts, fills) && fills != []
    ensures fills[|fills| - 1].amount > 0
  {
  }

  lemma {:induction false} FillsCountedByAmount(order: u64, parts: u64, fills: seq<Fill>)
    requires ValidRun(order, parts, fills)
    ensures |fills| <= Filled(fills)
  {
    if fills != [] {
      FillsCountedByAmount(order, parts, fills[..|fills| - 1]);
      AcceptedFillsAreNotEmpty(order, parts, fills);
    }
  }

  lemma {:induction false} FillsCountedByIndex(order: u64, parts: u64, fills: seq<Fill>)
    requires ValidRun(order, parts, fills) && fills != [] && parts > 0
    ensures |fills| <= fills[|fills| - 1].index + 1 <= parts + 1
  {
    var before := fills[..|fills| - 1];
    LastPartBound(order, parts, Filled(fills));
    if before != [] {
      FillsCountedByIndex(order, parts, before);
      UsedBelowLast(order, parts, fills, |before| - 1);
    }
  }

  /** An order has at most one fill per secret, and at most one per unit. */
  lemma FillCountBound(order: u64, parts: u64, fills: seq<Fill>)
    requires ValidRun(order, parts, fills) && parts > 0
    ensures |fills| <= parts + 1 && |fills| <= order
  {
    FillsCountedByAmount(order, parts, fills);
    if fills != [] {
      FillsCountedByIndex(order, parts, fills);
    }
  }

  // ----- Progress -----

  /** From every open order the whole remainder can be taken, with the index after the
      order's last part, as long as the product fits; that index is `parts` exactly when
      the order has at least as many units as parts. */
  lemma RemainderIsAccepted(order: u64, parts: u64, fills: seq<Fill>) returns (index: u64)
    requires ValidRun(order, parts, fills) && Filled(fills) < order
    requires 0 < parts < 0x1_0000 && (order - 1) * parts < TWO64
    ensures ValidRun(order, parts, fills + [Fill(order - Filled(fills), index)])
    ensures index <= parts
    ensures index == parts <==> parts <= order
  {
    index := PartIndex(order, parts, order).value + 1;
    LastPartBound(order, parts, order);
    LastPartIsReached(order, parts);
    var fill := Fill(order - Filled(fills), index);
    var more := fills + [fill];
    assert more[..|more| - 1] == fills && more[|more| - 1] == fill;
    assert Accepts(order, parts, order - Filled(fills), fill);
  }

  /** The last unit lies in the last part exactly when there is a unit for every part. */
  lemma LastPartIsReached(order: nat, parts: nat)
    requires order > 0 && parts > 0
    ensures parts - 1 <= (order - 1) * parts / order <==> parts <= order
  {
    DivAtLeast((order - 1) * parts, order, parts - 1);
    MulDistributes(parts, 1, order);
    MulDistributes(order, 1, parts);
  }

  /** The first unit of part `i`, rounding the part's start up. */
  function FirstUnit(order: u64, parts: u64, i: nat): (u: nat)
    requires parts > 0
    ensures i * order <= u * parts < i * order + parts
  {
    DivBounds(i * order + parts - 1, parts);
    MulMonotone(0, i, order);
    DivModNat(i * order + parts - 1, parts);
    (i * order + parts - 1) / parts
  }

  /** With two units to a part, every part beyond the last used one and below the end can
      be reached by a fill that leaves the order open. */
  lemma EveryPartIsReachable(order: u64, parts: u64, fills: seq<Fill>, i: u64) returns (amount: u64)
    requires ValidRun(order, parts, fills) && Filled(fills) < order
    requires 0 < parts < 0x1_0000 && (order - 1) * parts < TWO64
    requires 2 * parts <= order && i < parts
    requires forall k :: 0 <= k < |fills| ==> fills[k].index < i
    ensures amount < order - Filled(fills)
    ensures ValidRun(order, parts, fills + [Fill(amount, i)])
  {
    var u, filled := FirstUnit(order, parts, i), Filled(fills);
    FirstUnitLeavesRoom(order, parts, i, u);
    assert LiesInPart(order, parts, u + 1, i) by {
      assert (i + 1) * order == i * order + order;
    }
    MulMonotone(u, order - 1, parts);
    if fills != [] {
      RecomputedIndexIsLastUsed(order, parts, fills);
      var last := fills[|fills| - 1].index;
      if u + 1 <= filled {
        PartIndexMeaning(order, parts, u + 1, i);
        PartsRise(order, parts, u + 1, filled);
      }
    }
    amount := u + 1 - filled;
    PartIndexMeaning(order, parts, u + 1, i);
    var more := fills + [Fill(amount, i)];
    assert more[..|more| - 1] == fills;
    assert forall k :: 0 <= k < |Used(fills)| ==> Used(fills)[k] < i;
    StatelessCheckRefinesRecord(order, parts, fills, Fill(amount, i));
  }

  lemma FirstUnitLeavesRoom(order: nat, parts: nat, i: nat, u: nat)
    requires 0 < parts && 2 * parts <= order && i < parts
    requires u * parts < i * order + parts
    ensures u + 1 < order
  {
    if u >= order - 1 {
      MulMonotone(order - 1, u, parts);
      MulMonotone(i, parts - 1, order);
      MulDistributes(order, 1, parts);
      MulDistributes(parts, 1, order);
    }
  }

  /** Some fill that leaves a fresh order open is accepted with index `i`. */
  ghost predicate Reachable(order: u64, parts: u64, i: u64) {
    exists amount: u64 :: amount < order && ValidRun(order, parts, [Fill(amount, i)])
  }

  lemma LastPartNeedsTwoUnits(order: u64, parts: u64)
    requires 1 < parts < 0x1_0000 && Reachable(order, parts, parts - 1)
    ensures 2 * parts <= order
  {
    var amount: u64 :| amount < order && ValidRun(order, parts, [Fill(amount, parts - 1)]);
    var run := [Fill(amount, parts - 1)];
    assert run[..0] == [] && Filled([]) == 0;
    PartIndexMeaning(order, parts, amount, parts - 1);
    MulMonotone(amount - 1, order - 2, parts);
    MulDistributes(order, 2, parts);
    MulDistributes(parts, 1, order);
  }

  /** Two units to a part is the exact condition for every part of a fresh order to be
      reachable by a fill that leaves it open. */
  lemma AllPartsReachable(order: u64, parts: u64)
    requires order > 0 && 1 < parts < 0x1_0000 && (order - 1) * parts < TWO64
    ensures (forall i: u64 :: i < parts ==> Reachable(order, parts, i)) <==> 2 * parts <= order
  {
    if 2 * parts <= order {
      forall i: u64 | i < parts ensures Reachable(order, parts, i) {
        var amount := EveryPartIsReachable(order, parts, [], i);
        assert [] + [Fill(amount, i)] == [Fill(amount, i)];
      }
    } else if Reachable(order, parts, parts - 1) {
      LastPartNeedsTwoUnits(order, parts);
    }
  }

  /** Taking index `i` next and leaving the order open is possible. */
  ghost predicate CanUse(order: u64, parts: u64, remaining: u64, i: u64) {
    exists amount: u64 :: amount < remaining && Accepts(order, parts, remaining, Fill(amount, i))
  }

  /** The order can be closed with `index` and, while it has two units to a part, continued
      with every index beyond the used ones and below the number of parts. */
  ghost predicate CanProgress(order: u64, parts: u64, fills: seq<Fill>, remaining: u64, index: u64) {
    && Accepts(order, parts, remaining, Fill(remaining, index))
    && index <= parts
    && (index == parts <==> parts <= order)
    && (2 * parts <= order ==>
          forall i: u64 :: i < parts && (forall j :: 0 <= j < |fills| ==> fills[j].index < i) ==>
            CanUse(order, parts, remaining, i))
  }

  /** A valid run that has left something of the order. */
  predicate OpenRun(order: u64, parts: u64, fills: seq<Fill>, remaining: u64) {
    && 1 < parts < 0x1_0000 && remaining > 0
    && ValidRun(order, parts, fills) && Filled(fills) + remaining == order
  }

  /** The remainder's check computes within 64 bits. */
  predicate ProductFits(order: u64, parts: u64) {
    (order - 1) * parts < TWO64
  }

  lemma OpenRunsProgress(order: u64, parts: u64, fills: seq<Fill>, remaining: u64) returns (index: u64)
    requires OpenRun(order, parts, fills, remaining) && ProductFits(order, parts)
    ensures CanProgress(order, parts, fills, remaining, index)
  {
    index := RemainderIsAccepted(order, parts, fills);
    LastAccepted(order, parts, fills, Fill(remaining, index));
    if 2 * parts <= order {
      forall i: u64 | i < parts && (forall j :: 0 <= j < |fills| ==> fills[j].index < i)
        ensures CanUse(order, parts, remaining, i)
      {
        var amount := EveryPartIsReachable(order, parts, fills, i);
        LastAccepted(order, parts, fills, Fill(amount, i));
      }
    }
  }

  lemma LastAccepted(order: u64, parts: u64, fills: seq<Fill>, fill: Fill)
    requires ValidRun(order, parts, fills + [fill])
    ensures Filled(fills) < order && Accepts(order, parts, order - Filled(fills), fill)
  {
    var more := fills + [fill];
    assert more[..|more| - 1] == fills;
  }

  /** The check that keeps no record answers as the one that does, and recomputes the last
      index used. */
  ghost predicate RecomputesRecord(order: u64, parts: u64, fills: seq<Fill>, remaining: u64, fill: Fill)
    requires remaining <= order
  {
    var filled := order - remaining;
    var check := IsValidPartialFill(fill.amount, remaining, order, parts, fill.index);
    && (fills != [] ==> PartIndex(filled, parts, order) == Ok(fills[|fills| - 1].index))
    && (check.Err? <==> filled + fill.amount == 0 || (filled + fill.amount - 1) * parts >= TWO64)
    && (check.Ok? ==> (check.value <==> RecordAccepts(order, parts, filled, Used(fills), fill)))
  }

  lemma OpenRunsRecompute(order: u64, parts: u64, fills: seq<Fill>, remaining: u64, fill: Fill)
    requires OpenRun(order, parts, fills, remaining) && fill.amount <= remaining
    ensures RecomputesRecord(order, parts, fills, remaining, fill)
  {
    StatelessCheckRefinesRecord(order, parts, fills, fill);
    if fills != [] {
      RecomputedIndexIsLastUsed(order, parts, fills);
    }
  }

  // ----- The client's choice of secret -----

  /** The index a client picks: `parts` for the remainder, else the part reached. */
  function ClientIndex(amount: u64, remaining: u64, order: u64, parts: u64): Result<u64> {
    if amount == remaining then Ok(parts)
    else if order < remaining then Err(ArithmeticOverflow)
    else PartIndex(order - remaining + amount, parts, order)
  }

  /** The client's index is accepted for the remainder exactly when the order has a unit
      for every part, and otherwise exactly when the fill reaches a new part. */
  lemma ClientAgrees(order: u64, parts: u64, fills: seq<Fill>, amount: u64)
    requires ValidRun(order, parts, fills) && Filled(fills) < order
    requires 0 < parts < 0x1_0000 && (order - 1) * parts < TWO64
    requires 0 < amount <= order - Filled(fills)
    ensures var choice := ClientIndex(amount, order - Filled(fills), order, parts);
            && choice.Ok?
            && (Accepts(order, parts, order - Filled(fills), Fill(amount, choice.value)) <==>
                if amount == order - Filled(fills) then parts <= order
                else forall i :: 0 <= i < |fills| ==> fills[i].index < choice.value)
  {
    var filled := Filled(fills);
    MulMonotone(filled + amount - 1, order - 1, parts);
    var choice := ClientIndex(amount, order - filled, order, parts).value;
    if amount == order - filled {
      var index := RemainderIsAccepted(order, parts, fills);
      var more := fills + [Fill(order - filled, index)];
      assert more[..|more| - 1] == fills;
    } else {
      StatelessCheckRefinesRecord(order, parts, fills, Fill(amount, choice));
      PartIndexMeaning(order, parts, filled + amount, choice);
      assert forall i :: 0 <= i < |fills| ==> Used(fills)[i] == fills[i].index;
    }
  }
}
