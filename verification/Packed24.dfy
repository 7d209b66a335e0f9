/** The three-byte integers in which an auction's rate bumps are stored. */
module Packed24 {
  import opened Wrappers
  import opened Arithmetic
  import opened Bits
  import opened Numerals

  /** The values three bytes can hold; the auction computes with these. */
  type u24 = x: int | 0 <= x < 0x100_0000

  /** A 24-bit unsigned integer kept as three bytes, most significant first. */
  type U24 = b: seq<byte> | |b| == 3 witness [0, 0, 0]

  function ToU64(v: U24): (n: u64)
    ensures n == Positional(v[0], v[1], v[2]) < 0x100_0000
  {
    ToU64IsPositional(v);
    Or(Or(Shl(v[0], 16), Shl(v[1], 8)), v[2])
  }

  /** Or-ing the shifted bytes gives their positional value. */
  lemma ToU64IsPositional(v: U24)
    ensures Or(Or(Shl(v[0], 16), Shl(v[1], 8)), v[2]) == Positional(v[0], v[1], v[2]) < 0x100_0000
  {
    var b0: nat, b1: nat, b2: nat := v[0], v[1], v[2];
    Pow2Values();
    ShlIsMul(b0, 16);
    ShlIsMul(b1, 8);
    OrCommutes(Shl(b0, 16), Shl(b1, 8));
    OrDisjointIsAdd(b1 * 0x100, b0, 16);
    OrAboveByte(0x100 * b0 + b1, v[2]);
  }

  function Positional(b0: nat, b1: nat, b2: nat): nat {
    0x1_0000 * b0 + 0x100 * b1 + b2
  }

  lemma {:induction false} OrCommutes(a: nat, b: nat)
    ensures Or(a, b) == Or(b, a)
    decreases a + b
  {
    if a > 0 && b > 0 { OrCommutes(a / 2, b / 2); }
  }

  lemma OrAboveByte(high: nat, low: byte)
    ensures Or(0x100 * high, low) == 0x100 * high + low
  {
    Pow2Values();
    OrCommutes(0x100 * high, low);
    OrDisjointIsAdd(low, high, 8);
  }

  /** `U24::from(u32)`, which panics on values of more than 24 bits. */
  function FromU32(val: u32): Result<U24> {
    if val <= 0xff_ffff then Ok([Shr(val, 16) % 0x100, Shr(val, 8) % 0x100, val % 0x100])
    else Err(ArithmeticOverflow)
  }

  lemma BytesRecombine(val: nat)
    requires val < 0x100_0000
    ensures Positional(val / 0x1_0000 % 0x100, val / 0x100 % 0x100, val % 0x100) == val
  {
    var upper, low := val / 0x100, val % 0x100;
    DivDiv(val, 0x100, 0x100);
    assert upper / 0x100 < 0x100;
    DivUnique(upper / 0x100, 0x100, 0, upper / 0x100);
    DivModSplit(upper, 0x100);
    DivModSplit(val, 0x100);
  }

  /** The bytes picked out by shifting and truncating rebuild the value. */
  lemma BytesOf(val: nat)
    requires val < 0x100_0000
    ensures Positional(Shr(val, 16) % 0x100, Shr(val, 8) % 0x100, val % 0x100) == val
  {
    Pow2Values();
    ShrIsDiv(val, 16);
    ShrIsDiv(val, 8);
    BytesRecombine(val);
  }

  lemma PositionalIsInjective(a: U24, b: U24)
    requires Positional(a[0], a[1], a[2]) == Positional(b[0], b[1], b[2])
    ensures a == b
  {
    assert a[0] == b[0] && a[1] == b[1] && a[2] == b[2];
  }

  /** The two conversions are inverse wherever the second is defined. */
  lemma U24RoundTrips(val: u32, v: U24)
    ensures FromU32(val).Ok? <==> val < 0x100_0000
    ensures FromU32(val).Ok? ==> ToU64(FromU32(val).value) == val
    ensures FromU32(ToU64(v)) == Ok(v)
  {
    if val < 0x100_0000 {
      BytesOf(val);
    }
    BytesOf(ToU64(v));
    PositionalIsInjective(FromU32(ToU64(v)).value, v);
  }
}
