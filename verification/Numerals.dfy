/** Fixed-width positional numerals, least significant digit first, and their byte forms. */
module Numerals {
  import opened Arithmetic
  import opened Bits

  type byte = x: int | 0 <= x < 0x100
  type Bytes32 = b: seq<byte> | |b| == 32 witness seq(32, _ => 0)

  const ZERO32: Bytes32 := Zeros(32)

  function Zeros(n: nat): (z: seq<byte>)
    ensures |z| == n
  {
    seq(n, _ => 0)
  }

  /** `base` to the power `width`. */
  function Power(base: nat, width: nat): (p: nat)
    requires base > 0
    ensures p > 0
  {
    if width == 0 then 1 else
      MulBounds(base, Power(base, width - 1));
      base * Power(base, width - 1)
  }

  lemma {:induction false} PowerOfPow2(bits: nat, width: nat)
    ensures Power(Pow2(bits), width) == Pow2(width * bits)
  {
    if width > 0 {
      PowerOfPow2(bits, width - 1);
      assert width * bits == bits + (width - 1) * bits;
      Pow2Add(bits, (width - 1) * bits);
    }
  }

  /** Every digit is a digit of the base. */
  predicate AreDigits(d: seq<nat>, base: nat) {
    forall i :: 0 <= i < |d| ==> d[i] < base
  }

  /** The `width` lowest digits of `n`. */
  function Digits(n: nat, base: nat, width: nat): (d: seq<nat>)
    requires base > 0
    ensures |d| == width && AreDigits(d, base)
    decreases width, n
  {
    if width == 0 then [] else
      DivModNat(n, base);
      [n % base] + Digits(n / base, base, width - 1)
  }

  function FromDigits(d: seq<nat>, base: nat): nat
    decreases |d|
  {
    if d == [] then 0 else d[0] + base * FromDigits(d[1..], base)
  }

  lemma {:induction false} FromDigitsBound(d: seq<nat>, base: nat)
    requires base > 0 && AreDigits(d, base)
    ensures FromDigits(d, base) < Power(base, |d|)
    decreases |d|
  {
    if d != [] {
      assert AreDigits(d[1..], base);
      FromDigitsBound(d[1..], base);
      LeadBelow(d[0], FromDigits(d[1..], base), base, Power(base, |d| - 1));
    }
  }

  lemma LeadBelow(low: nat, rest: nat, base: nat, bound: nat)
    requires low < base && rest < bound
    ensures low + base * rest < base * bound
  {
    MulMonotone(rest + 1, bound, base);
    assert (rest + 1) * base == base * rest + base;
  }

  /** A number with at most `width` digits has at most `width - 1` above its lowest. */
  lemma QuotientFits(n: nat, base: nat, rest: nat)
    requires base > 0 && n < base * rest
    ensures n / base < rest
  {
    DivAtLeast(n, base, rest);
  }

  /** Every number that fits is the value of its digits. */
  lemma {:induction false} FromDigitsOfDigits(n: nat, base: nat, width: nat)
    requires base > 0 && n < Power(base, width)
    ensures FromDigits(Digits(n, base, width), base) == n
    decreases width
  {
    if width > 0 {
      DivModNat(n, base);
      DivModSplit(n, base);
      var tail := Digits(n / base, base, width - 1);
      assert Digits(n, base, width)[1..] == tail;
      QuotientFits(n, base, Power(base, width - 1));
      FromDigitsOfDigits(n / base, base, width - 1);
    }
  }

  /** Every digit string is the digits of its value. */
  lemma {:induction false} DigitsOfFromDigits(d: seq<nat>, base: nat)
    requires base > 0 && AreDigits(d, base)
    ensures Digits(FromDigits(d, base), base, |d|) == d
  {
    if d != [] {
      var rest := FromDigits(d[1..], base);
      DivUnique(d[0] + base * rest, base, rest, d[0]);
      DigitsOfFromDigits(d[1..], base);
    }
  }

  /** Digit `i` is reached by dividing the `i` digits below it away. */
  lemma {:induction false} DigitAt(n: nat, base: nat, width: nat, i: nat)
    requires base > 0 && i < width
    ensures n / Power(base, i) >= 0
    ensures Digits(n, base, width)[i] == n / Power(base, i) % base
    decreases i
  {
    DivBounds(n, base);
    if i > 0 {
      DigitAt(n / base, base, width - 1, i - 1);
      DivDiv(n, base, Power(base, i - 1));
    }
  }

  /** The digits of a number split at any place into those of its two parts. */
  lemma {:induction false} DigitsSplit(low: nat, high: nat, base: nat, k: nat, m: nat)
    requires base > 0 && low < Power(base, k)
    ensures Digits(low + high * Power(base, k), base, k + m) == Digits(low, base, k) + Digits(high, base, m)
    decreases k
  {
    if k > 0 {
      var rest := Power(base, k - 1);
      DivModNat(low, base);
      assert low + high * (base * rest) == (low / base + high * rest) * base + low % base;
      DivUnique(low + high * (base * rest), base, low / base + high * rest, low % base);
      QuotientFits(low, base, rest);
      DigitsSplit(low / base, high, base, k - 1, m);
    }
  }

  /** Replacing what lies above the `k` lowest digits replaces digit `k` alone. */
  lemma TopDigitReplaced(n: nat, v: nat, base: nat, k: nat)
    requires base > 0 && n < Power(base, k + 1) && v < base
    ensures n % Power(base, k) + v * Power(base, k) < Power(base, k + 1)
    ensures Digits(n % Power(base, k) + v * Power(base, k), base, k + 1)
         == Digits(n, base, k + 1)[k := v]
  {
    var p := Power(base, k);
    var low, high := n % p, n / p;
    DivModNat(n, p);
    DivBounds(n, p);
    assert Power(base, k + 1) == p * base;
    QuotientFits(n, p, base);
    LeadBelow(low, v, p, base);
    assert n == low + high * p;
    DigitsSplit(low, high, base, k, 1);
    DigitsSplit(low, v, base, k, 1);
    assert Digits(high, base, 1)[0] == high % base == high by { DivUnique(high, base, 0, high); }
    assert Digits(v, base, 1)[0] == v % base == v by { DivUnique(v, base, 0, v); }
  }

  function LittleEndian(n: nat, width: nat): (b: seq<byte>)
    ensures |b| == width
  {
    Digits(n, 0x100, width)
  }

  function Reversed(b: seq<byte>): (r: seq<byte>)
    ensures |r| == |b|
  {
    seq(|b|, i requires 0 <= i < |b| => b[|b| - 1 - i])
  }

  lemma ReversedTwice(b: seq<byte>)
    ensures Reversed(Reversed(b)) == b
  {
  }

  function BigEndian(n: nat, width: nat): (b: seq<byte>)
    ensures |b| == width
  {
    Reversed(LittleEndian(n, width))
  }

  function FromLittleEndian(b: seq<byte>): nat {
    FromDigits(b, 0x100)
  }

  function FromBigEndian(b: seq<byte>): nat {
    FromLittleEndian(Reversed(b))
  }

  lemma {:induction false} FromDigitsAppend(d: seq<nat>, more: seq<nat>, base: nat)
    requires base > 0
    ensures FromDigits(d + more, base) == FromDigits(d, base) + Power(base, |d|) * FromDigits(more, base)
    decreases |d|
  {
    if d == [] {
      assert d + more == more;
    } else {
      assert (d + more)[1..] == d[1..] + more;
      FromDigitsAppend(d[1..], more, base);
      ScaledSum(base, FromDigits(d[1..], base), Power(base, |d| - 1), FromDigits(more, base));
    }
  }

  lemma ScaledSum(base: nat, low: nat, power: nat, high: nat)
    ensures base * (low + power * high) == base * low + (base * power) * high
  {
  }

  /** What the two byte orders mean: the first byte counts least, or the last one does. */
  lemma LittleEndianMeaning(b: seq<byte>, x: byte)
    ensures FromLittleEndian([]) == 0
    ensures FromLittleEndian([x] + b) == x + 0x100 * FromLittleEndian(b)
  {
    assert ([x] + b)[1..] == b;
  }

  lemma BigEndianMeaning(b: seq<byte>, x: byte)
    ensures FromBigEndian([]) == 0
    ensures FromBigEndian(b + [x]) == 0x100 * FromBigEndian(b) + x
  {
    assert Reversed([]) == [];
    assert Reversed(b + [x]) == [x] + Reversed(b);
    LittleEndianMeaning(Reversed(b), x);
  }

  lemma LittleEndianAppend(b: seq<byte>, more: seq<byte>)
    ensures FromLittleEndian(b + more) == FromLittleEndian(b) + Power(0x100, |b|) * FromLittleEndian(more)
  {
    FromDigitsAppend(b, more, 0x100);
  }

  lemma LittleEndianRoundTrip(n: nat, width: nat)
    requires n < Power(0x100, width)
    ensures FromLittleEndian(LittleEndian(n, width)) == n
  {
    FromDigitsOfDigits(n, 0x100, width);
  }

  lemma BigEndianRoundTrip(n: nat, width: nat)
    requires n < Power(0x100, width)
    ensures FromBigEndian(BigEndian(n, width)) == n
  {
    LittleEndianRoundTrip(n, width);
    ReversedTwice(LittleEndian(n, width));
  }

  lemma LittleEndianSurjective(b: seq<byte>)
    ensures FromLittleEndian(b) < Power(0x100, |b|)
    ensures LittleEndian(FromLittleEndian(b), |b|) == b
  {
    Pow2Values();
    FromDigitsBound(b, 0x100);
    DigitsOfFromDigits(b, 0x100);
  }

  lemma BigEndianSurjective(b: seq<byte>)
    ensures FromBigEndian(b) < Power(0x100, |b|)
    ensures BigEndian(FromBigEndian(b), |b|) == b
  {
    LittleEndianSurjective(Reversed(b));
    ReversedTwice(b);
  }
}
