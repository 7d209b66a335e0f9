/** Unsigned integer widths, and bitwise operations on them read as binary numerals. */
module Bits {
  import opened Arithmetic

  const TWO32: nat := 0x1_0000_0000
  const TWO64: nat := 0x1_0000_0000_0000_0000
  const TWO256: nat := Pow2(256)

  type u16 = x: int | 0 <= x < 0x1_0000
  type u32 = x: int | 0 <= x < 0x1_0000_0000
  type u64 = x: int | 0 <= x < 0x1_0000_0000_0000_0000
  type u256 = x: int | 0 <= x < Pow2(256)

  function Pow2(k: nat): (p: nat)
    ensures p >= 1
  {
    if k == 0 then 1 else 2 * Pow2(k - 1)
  }

  /** Shift right: the numeral without its `k` lowest digits. */
  function Shr(a: nat, k: nat): nat {
    if k == 0 then a else Shr(a / 2, k - 1)
  }

  /** Shift left: `k` zero digits appended. */
  function Shl(a: nat, k: nat): nat {
    if k == 0 then a else 2 * Shl(a, k - 1)
  }

  function And(a: nat, b: nat): nat
    decreases a
  {
    if a == 0 || b == 0 then 0 else 2 * And(a / 2, b / 2) + (a % 2) * (b % 2)
  }

  function Or(a: nat, b: nat): nat
    decreases a + b
  {
    if a == 0 then b else if b == 0 then a
    else 2 * Or(a / 2, b / 2) + (if a % 2 == 1 || b % 2 == 1 then 1 else 0)
  }

  /** Complement within `width` digits. */
  function Not(a: nat, width: nat): nat
    requires a < Pow2(width)
  {
    Pow2(width) - 1 - a
  }

  lemma {:induction false} Pow2Add(i: nat, j: nat)
    ensures Pow2(i + j) == Pow2(i) * Pow2(j)
  {
    if i > 0 {
      Pow2Add(i - 1, j);
      assert Pow2(i + j) == 2 * (Pow2(i - 1) * Pow2(j));
    }
  }

  lemma {:induction false} Pow2Monotone(i: nat, j: nat)
    requires i <= j
    ensures Pow2(i) <= Pow2(j)
  {
    if i < j { Pow2Monotone(i, j - 1); }
  }

  lemma Pow2Values()
    ensures Pow2(8) == 0x100
    ensures Pow2(16) == 0x1_0000
    ensures Pow2(32) == TWO32
    ensures Pow2(64) == TWO64
  {
    assert Pow2(4) == 16;
    Pow2Add(4, 4);
    Pow2Add(8, 8);
    Pow2Add(16, 16);
    Pow2Add(32, 32);
  }

  /** Digit `i` of the numeral. */
  function Bit(a: nat, i: nat): bool {
    if i == 0 then a % 2 == 1 else Bit(a / 2, i - 1)
  }

  lemma {:induction false} NoBits(i: nat)
    ensures !Bit(0, i)
  {
    if i > 0 { NoBits(i - 1); }
  }

  lemma AndHalf(a: nat, b: nat)
    requires a != 0 && b != 0
    ensures And(a, b) / 2 == And(a / 2, b / 2) && (And(a, b) % 2 == 1 <==> a % 2 == 1 && b % 2 == 1)
  {
    assert (a % 2) * (b % 2) == if a % 2 == 1 && b % 2 == 1 then 1 else 0;
  }

  /** And, or and complement act on each digit alone. */
  lemma {:induction false} AndBits(a: nat, b: nat, i: nat)
    ensures Bit(And(a, b), i) <==> Bit(a, i) && Bit(b, i)
    decreases i
  {
    if a == 0 || b == 0 {
      NoBits(i);
    } else {
      AndHalf(a, b);
      if i > 0 { AndBits(a / 2, b / 2, i - 1); }
    }
  }

  lemma OrHalf(a: nat, b: nat)
    requires a != 0 && b != 0
    ensures Or(a, b) / 2 == Or(a / 2, b / 2) && (Or(a, b) % 2 == 1 <==> a % 2 == 1 || b % 2 == 1)
  {
  }

  lemma {:induction false} OrBits(a: nat, b: nat, i: nat)
    ensures Bit(Or(a, b), i) <==> Bit(a, i) || Bit(b, i)
    decreases i
  {
    if a == 0 || b == 0 {
      NoBits(i);
    } else {
      OrHalf(a, b);
      if i > 0 { OrBits(a / 2, b / 2, i - 1); }
    }
  }

  lemma NotHalf(a: nat, width: nat)
    requires width > 0 && a < Pow2(width)
    ensures a / 2 < Pow2(width - 1)
    ensures Not(a, width) / 2 == Not(a / 2, width - 1) && (Not(a, width) % 2 == 1 <==> a % 2 == 0)
  {
    var p := Pow2(width - 1);
    assert Pow2(width) == 2 * p;
  }

  lemma {:induction false} NotBits(a: nat, width: nat, i: nat)
    requires a < Pow2(width) && i < width
    ensures Bit(Not(a, width), i) <==> !Bit(a, i)
    decreases i
  {
    NotHalf(a, width);
    if i > 0 { NotBits(a / 2, width - 1, i - 1); }
  }

  lemma {:induction false} ShrIsDiv(a: nat, k: nat)
    ensures Shr(a, k) == a / Pow2(k)
  {
    if k > 0 {
      ShrIsDiv(a / 2, k - 1);
      DivDiv(a, 2, Pow2(k - 1));
    }
  }

  lemma {:induction false} ShlIsMul(a: nat, k: nat)
    ensures Shl(a, k) == a * Pow2(k)
  {
    if k > 0 { ShlIsMul(a, k - 1); }
  }

  lemma DoubledMod(a: nat, p: nat)
    requires p > 0
    ensures a % (2 * p) == 2 * (a / 2 % p) + a % 2
  {
    var h := a / 2;
    var q, r := h / p, h % p;
    assert h == q * p + r;
    assert q * (2 * p) == 2 * (q * p);
    DivUnique(a, 2 * p, q, 2 * r + a % 2);
  }

  /** One more digit of ones in the mask keeps one more digit. */
  lemma AndStep(a: nat, p: nat)
    requires a > 0 && p > 0 && And(a / 2, p - 1) == a / 2 % p
    ensures And(a, 2 * p - 1) == a % (2 * p)
  {
    assert (2 * p - 1) / 2 == p - 1 && (2 * p - 1) % 2 == 1;
    DoubledMod(a, p);
  }

  /** Masking with `k` ones keeps the `k` lowest digits. */
  lemma {:induction false} AndOnesIsMod(a: nat, k: nat)
    ensures And(a, Pow2(k) - 1) == a % Pow2(k)
  {
    if k == 0 || a == 0 {
      DivUnique(0, Pow2(k), 0, 0);
    } else {
      AndOnesIsMod(a / 2, k - 1);
      AndStep(a, Pow2(k - 1));
    }
  }

  /** The lowest digit of `a` joins an even value unchanged. */
  lemma OrStep(a: nat, x: nat)
    requires a > 0 && x > 0 && Or(a / 2, x) == a / 2 + x
    ensures Or(a, 2 * x) == a + 2 * x
  {
    assert (2 * x) / 2 == x && (2 * x) % 2 == 0;
  }

  lemma DoubleProduct(v: nat, p: nat)
    ensures v * (2 * p) == 2 * (v * p) && (v > 0 && p > 0 ==> v * p > 0)
  {
  }

  /** Or-ing a value in above the `k` lowest digits adds it. */
  lemma {:induction false} OrDisjointIsAdd(a: nat, v: nat, k: nat)
    requires a < Pow2(k)
    ensures Or(a, v * Pow2(k)) == a + v * Pow2(k)
  {
    if k > 0 && a > 0 && v > 0 {
      var p := Pow2(k - 1);
      OrDisjointIsAdd(a / 2, v, k - 1);
      DoubleProduct(v, p);
      OrStep(a, v * p);
    }
  }

  /** Clearing everything from digit `k` up and or-ing a value in there. */
  lemma ReplaceAbove(a: nat, v: nat, k: nat)
    ensures Or(And(a, Pow2(k) - 1), Shl(v, k)) == a % Pow2(k) + v * Pow2(k)
  {
    AndOnesIsMod(a, k);
    ShlIsMul(v, k);
    DivModNat(a, Pow2(k));
    OrDisjointIsAdd(a % Pow2(k), v, k);
  }
}
