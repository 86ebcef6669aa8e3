/** Machine words of the 32-bit Leros build (`MVT` = `uint32_t`,
    `MVT_S` = `int32_t`). Every word is held as its 32-bit pattern; signed
    readings go through `SInt`. Signed overflow and shifts of negative values
    in the simulator are taken to wrap modulo 2^32, as GCC compiles them. */
module Words {

  const Two32: int := 0x1_0000_0000

  /** A word read as an `int32_t` (two's complement). */
  function SInt(w: bv32): (v: int)
    ensures v < 0 <==> w >= 0x8000_0000
    ensures -0x8000_0000 <= v < 0x8000_0000
  {
    WordBelowHalf(w);
    WordFromHalf(w);
    if w < 0x8000_0000 then w as int else w as int - Two32
  }

  /** A word below 2^31 as a pattern is below 2^31 as a number. */
  lemma WordBelowHalf(w: bv32)
    ensures w < 0x8000_0000 ==> w as int < 0x8000_0000
  {
    if w as int >= 0x8000_0000 {
      assert (w as int) as bv32 == w;
    }
  }

  /** A word from 2^31 on as a pattern is from 2^31 on as a number. */
  lemma WordFromHalf(w: bv32)
    ensures w >= 0x8000_0000 ==> w as int >= 0x8000_0000
  {
    if w as int < 0x8000_0000 {
      assert (w as int) as bv32 == w;
    }
  }

  /** `+` on `MVT`: addition modulo 2^32. */
  function Add32(a: bv32, b: bv32): bv32
  {
    a + b
  }

  /** `-` on `MVT`: subtraction modulo 2^32. */
  function Sub32(a: bv32, b: bv32): bv32
  {
    a - b
  }

  /** Subtracting what was added gives the word back. */
  lemma AddThenSub(a: bv32, b: bv32)
    ensures Sub32(Add32(a, b), b) == a
  {
    assert Add32(a, b) == a + b;
    assert Sub32(a + b, b) == (a + b) - b;
  }

  /** The `int32_t` pattern of an `int`: its value modulo 2^32. */
  function FromInt(i: int): bv32
  {
    (i % Two32) as bv32
  }

  /** The signed reading is congruent to the word modulo 2^32: writing it
      back as a 32-bit pattern gives the word. */
  lemma SIntCongruent(w: bv32)
    ensures SInt(w) % Two32 == w as int
  {
    if w >= 0x8000_0000 {
      assert SInt(w) == w as int - Two32;
      assert SInt(w) + Two32 == w as int;
    }
  }

  /** `FromInt` undoes `SInt`. */
  lemma FromSInt(w: bv32)
    ensures FromInt(SInt(w)) == w
  {
    SIntCongruent(w);
  }

  /** `signextend<MVT_S, 8>` and `signextend<int, 8>`: a byte read as a
      signed 8-bit bit-field, so bits 8-31 are copies of bit 7. */
  function Sext8(b: bv8): (w: bv32)
    ensures w & 0xFF == b as bv32
    ensures w >> 8 == if b < 0x80 then 0 else 0xFF_FFFF
  {
    if b < 0x80 then b as bv32 else b as bv32 | 0xFFFF_FF00
  }

  /** `signextend<int, 11>` of an instruction word whose high byte is `hi`
      and low byte is `lo`: bits 0-10 read as a signed 11-bit bit-field, so
      bits 11-31 are copies of bit 10 (bit 2 of `hi`). */
  function Sext11(hi: bv8, lo: bv8): (w: bv32)
    ensures w & 0xFF == lo as bv32
    ensures (w >> 8) & 7 == (hi & 7) as bv32
    ensures w >> 11 == if hi & 4 == 0 then 0 else 0x1F_FFFF
  {
    var f := ((hi & 7) as bv32 << 8) | lo as bv32;
    if hi & 4 == 0 then f else f | 0xFFFF_F800
  }

  /** `>>= 1` on an `int32_t`: GCC shifts arithmetically, so bits 0-30 are
      bits 1-31 of `w` and bit 31 is copied (`AShr1KeepsSign`). */
  function AShr1(w: bv32): (r: bv32)
    ensures r & 0x7FFF_FFFF == w >> 1
  {
    (w >> 1) | (w & 0x8000_0000)
  }

  /** The arithmetic shift keeps the sign bit. */
  lemma AShr1KeepsSign(w: bv32)
    ensures AShr1(w) & 0x8000_0000 == w & 0x8000_0000
  {
  }
}
