/** The sixteen-bit register arithmetic of the checksum, one operation and one law at a time. */
module CrcBits {

  const POLY: bv16 := 0x1021

  function Xor(a: bv16, b: bv16): bv16 { a ^ b }

  function Left(x: bv16): bv16 { x << 1 }

  function LeftByte(x: bv16): bv16 { x << 8 }

  function HighByte(x: bv16): bv16 { x >> 8 }

  function LowByte(x: bv16): bv16 { x & 0x00FF }

  predicate Top(x: bv16) { x & 0x8000 != 0 }

  function Bit(b: bool): bv16 { if b then 1 else 0 }

  /** One shift of the division register by x, reduced by the polynomial 0x1021. */
  function Shift(r: bv16): bv16 { if Top(r) then Xor(Left(r), POLY) else Left(r) }

  lemma XorCommutes(a: bv16, b: bv16)
    ensures Xor(a, b) == Xor(b, a)
  {
  }

  lemma XorAssociates(a: bv16, b: bv16, c: bv16)
    ensures Xor(Xor(a, b), c) == Xor(a, Xor(b, c))
  {
  }

  lemma XorZero(a: bv16)
    ensures Xor(a, 0) == a
  {
  }

  lemma XorCancels(a: bv16, b: bv16, p: bv16)
    ensures Xor(Xor(a, p), Xor(b, p)) == Xor(a, b)
  {
    hide Xor;
    XorAssociates(a, p, Xor(b, p));
    XorCommutes(b, p);
    XorAssociates(p, p, b);
    XorSelf(p);
    XorCommutes(0, b);
    XorZero(b);
  }

  lemma XorSelf(a: bv16)
    ensures Xor(a, a) == 0
  {
  }

  lemma LeftLinear(a: bv16, b: bv16)
    ensures Left(Xor(a, b)) == Xor(Left(a), Left(b))
  {
  }

  lemma TopLinear(a: bv16, b: bv16)
    ensures Top(Xor(a, b)) == (Top(a) != Top(b))
  {
  }

  lemma ShiftLinear(a: bv16, b: bv16)
    ensures Shift(Xor(a, b)) == Xor(Shift(a), Shift(b))
  {
    hide Xor, Left, Top;
    LeftLinear(a, b);
    TopLinear(a, b);
    var x, y := Left(a), Left(b);
    XorCancels(x, y, POLY);
    XorAssociates(x, y, POLY);
    XorAssociates(x, POLY, y);
    XorCommutes(POLY, y);
  }

  /** Shifting a register with x on top of it: x's highest bit is reduced, the rest moves up. */
  lemma ShiftOver(r: bv16, x: bv16)
    ensures Shift(Xor(r, x)) == Xor(Xor(Shift(r), if Top(x) then POLY else 0), Left(x))
  {
    hide Xor, Left, Top;
    ShiftLinear(r, x);
    XorZero(Shift(r));
    XorAssociates(Shift(r), POLY, Left(x));
    XorCommutes(POLY, Left(x));
  }

  lemma ShiftOfZero()
    ensures Shift(0) == 0
  {
  }

  /** A bit brought down becomes the polynomial after sixteen shifts: fifteen to the top, one out. */
  lemma LowBitClimbs()
    ensures Shift(1) == 0x2 && Shift(0x2) == 0x4 && Shift(0x4) == 0x8 && Shift(0x8) == 0x10
    ensures Shift(0x10) == 0x20 && Shift(0x20) == 0x40 && Shift(0x40) == 0x80 && Shift(0x80) == 0x100
    ensures Shift(0x100) == 0x200 && Shift(0x200) == 0x400 && Shift(0x400) == 0x800 && Shift(0x800) == 0x1000
    ensures Shift(0x1000) == 0x2000 && Shift(0x2000) == 0x4000 && Shift(0x4000) == 0x8000 && Shift(0x8000) == POLY
  {
  }

  lemma EightLefts(x: bv16)
    ensures Left(Left(Left(Left(Left(Left(Left(Left(x)))))))) == LeftByte(x)
  {
  }

  lemma ByteGone(x: bv16)
    ensures LeftByte(LeftByte(x)) == 0
  {
  }

  lemma NoTopInLowByte(x: bv16)
    requires HighByte(x) == 0
    ensures !Top(x) && !Top(Left(x)) && !Top(Left(Left(x))) && !Top(Left(Left(Left(x))))
    ensures var y := Left(Left(Left(Left(x))));
            !Top(y) && !Top(Left(y)) && !Top(Left(Left(y))) && !Top(Left(Left(Left(y))))
  {
  }

  /** A register with a byte on top is the table index above the register's own low byte. */
  lemma SplitIndex(crc: bv16, c: bv16)
    requires c < 256
    ensures Xor(crc, LeftByte(c)) == Xor(LeftByte(Xor(HighByte(crc), c)), LowByte(crc))
    ensures LeftByte(LowByte(crc)) == LeftByte(crc)
    ensures HighByte(LowByte(crc)) == 0
    ensures Xor(HighByte(crc), c) < 256
  {
  }
}
