/** Bytes, 16-bit big-endian fields and the few integer operations the frame builders use. */
module Bytes {

  datatype Option<+T> = None | Some(value: T)

  /** Outcome of a builder whose `struct.pack` calls may raise `struct.error`. */
  datatype Result<+T> = Ok(value: T) | StructError

  type Byte = b: int | 0 <= b < 0x100

  type U16 = x: int | 0 <= x < 0x1_0000

  /** The values `struct.pack('!H', x)` accepts. */
  predicate IsU16(x: int) {
    0 <= x < 0x1_0000
  }

  /** `struct.unpack('!H', b[i:i+2])[0]`: the big-endian 16-bit value at offset i. */
  function ReadU16(b: seq<Byte>, i: int): (x: U16)
    requires 0 <= i && i + 2 <= |b|
  {
    (b[i] as int) * 0x100 + (b[i + 1] as int)
  }

  /** `struct.pack('!H', x)`: two bytes, the most significant first. */
  function U16BE(x: U16): (r: seq<Byte>)
    ensures |r| == 2 && ReadU16(r, 0) == x
  {
    [x / 0x100, x % 0x100]
  }

  /** Packing what was read gives back the two bytes read. */
  lemma ReadU16Packs(b: seq<Byte>, i: int)
    requires 0 <= i && i + 2 <= |b|
    ensures U16BE(ReadU16(b, i)) == b[i..i + 2]
  {
  }

  function Pow2(k: nat): (p: nat)
    ensures p >= 1
  {
    if k == 0 then 1 else 2 * Pow2(k - 1)
  }

  /** Python's `a | b` on non-negative integers, taken bit by bit from the least significant end. */
  function Or(a: nat, b: nat): nat
    decreases a + b
  {
    if a == 0 && b == 0 then 0
    else 2 * Or(a / 2, b / 2) + (if a % 2 == 1 || b % 2 == 1 then 1 else 0)
  }

  lemma {:induction false} OrZero(a: nat)
    ensures Or(a, 0) == a
    decreases a
  {
    if a != 0 {
      OrZero(a / 2);
    }
  }

  /** An OR never clears a bit of its left operand, so it is at least that operand. */
  lemma {:induction false} OrAtLeast(a: nat, b: nat)
    ensures Or(a, b) >= a
    decreases a + b
  {
    if !(a == 0 && b == 0) {
      OrAtLeast(a / 2, b / 2);
    }
  }

  /** OR-ing a value below 2^k into a multiple of 2^k is addition: the bits do not overlap. */
  lemma {:induction false} OrDisjoint(p: nat, k: nat, v: nat)
    requires v < Pow2(k)
    ensures Or(p * Pow2(k), v) == p * Pow2(k) + v
    decreases k
  {
    if k == 0 {
      OrZero(p);
    } else {
      var a := p * Pow2(k);
      assert a == 2 * (p * Pow2(k - 1));
      if !(a == 0 && v == 0) {
        assert a / 2 == p * Pow2(k - 1) && a % 2 == 0;
        OrDisjoint(p, k - 1, v / 2);
      }
    }
  }
}
