/** The word-level steps of DES (lib/des.c) and what each does to complemented words. */
module DesBits {
  function Flip(w: bv32): bv32 {
    !w
  }

  function Xor(a: bv32, b: bv32): bv32 {
    a ^ b
  }

  lemma FlipXor(w: bv32, t: bv32)
    ensures Xor(Flip(w), t) == Flip(Xor(w, t))
  {}

  lemma XorTwice(x: bv32, f: bv32)
    ensures Xor(Xor(x, f), f) == x
  {}

  function T4(a: bv32, b: bv32): bv32 {
    ((a >> 4) ^ b) & 0x0F0F0F0F
  }

  function T16(a: bv32, b: bv32): bv32 {
    ((a >> 16) ^ b) & 0x0000FFFF
  }

  function T2(a: bv32, b: bv32): bv32 {
    ((a >> 2) ^ b) & 0x33333333
  }

  function T8(a: bv32, b: bv32): bv32 {
    ((a >> 8) ^ b) & 0x00FF00FF
  }

  function T0(a: bv32, b: bv32): bv32 {
    (a ^ b) & 0xAAAAAAAA
  }

  function T10(a: bv32, b: bv32): bv32 {
    (a ^ b) & 0x10101010
  }

  function Up4(t: bv32): bv32 {
    t << 4
  }

  function Up16(t: bv32): bv32 {
    t << 16
  }

  function Up2(t: bv32): bv32 {
    t << 2
  }

  function Up8(t: bv32): bv32 {
    t << 8
  }

  lemma T4Again(a: bv32, b: bv32)
    ensures T4(Xor(a, Up4(T4(a, b))), Xor(b, T4(a, b))) == T4(a, b)
  {}

  lemma T16Again(a: bv32, b: bv32)
    ensures T16(Xor(a, Up16(T16(a, b))), Xor(b, T16(a, b))) == T16(a, b)
  {}

  lemma T2Again(a: bv32, b: bv32)
    ensures T2(Xor(a, Up2(T2(a, b))), Xor(b, T2(a, b))) == T2(a, b)
  {}

  lemma T8Again(a: bv32, b: bv32)
    ensures T8(Xor(a, Up8(T8(a, b))), Xor(b, T8(a, b))) == T8(a, b)
  {}

  lemma T0Again(a: bv32, b: bv32)
    ensures T0(Xor(a, T0(a, b)), Xor(b, T0(a, b))) == T0(a, b)
  {}

  lemma T4Not(x: bv32, y: bv32)
    ensures T4(Flip(x), Flip(y)) == T4(x, y)
  {}

  lemma T16Not(x: bv32, y: bv32)
    ensures T16(Flip(x), Flip(y)) == T16(x, y)
  {}

  lemma T2Not(x: bv32, y: bv32)
    ensures T2(Flip(x), Flip(y)) == T2(x, y)
  {}

  lemma T8Not(x: bv32, y: bv32)
    ensures T8(Flip(x), Flip(y)) == T8(x, y)
  {}

  lemma T0Not(x: bv32, y: bv32)
    ensures T0(Flip(x), Flip(y)) == T0(x, y)
  {}

  lemma T10Not(x: bv32, y: bv32)
    ensures T10(Flip(x), Flip(y)) == T10(x, y)
  {}

  function RotateLeft(w: bv32): bv32 {
    (w << 1) | (w >> 31)
  }

  function RotateRight(w: bv32): bv32 {
    (w << 31) | (w >> 1)
  }

  function ToTop(x: bv32): bv32 {
    x << 28
  }

  function Down4(x: bv32): bv32 {
    x >> 4
  }

  function Or(a: bv32, b: bv32): bv32 {
    a | b
  }

  function RotateRight4(x: bv32): bv32 {
    Or(ToTop(x), Down4(x))
  }

  lemma RotateRight4Is(x: bv32)
    ensures (x << 28) | (x >> 4) == RotateRight4(x)
  {}

  lemma XorThree(a: bv32, b: bv32, c: bv32)
    ensures Xor(Xor(a, b), c) == Xor(a, Xor(b, c))
  {}

  lemma XorFour(y: bv32, a: bv32, b: bv32, c: bv32, d: bv32)
    ensures (((y ^ a) ^ b) ^ c) ^ d == y ^ (a ^ b ^ c ^ d)
  {}

  lemma Rotations(w: bv32)
    ensures RotateRight(RotateLeft(w)) == w && RotateLeft(RotateRight(w)) == w
  {}

  lemma RotationsNot(w: bv32)
    ensures RotateLeft(Flip(w)) == Flip(RotateLeft(w)) && RotateRight(Flip(w)) == Flip(RotateRight(w))
  {}

  function FlipNibble(x: bv32): bv32 {
    x ^ 0xF0000000
  }

  function FlipRest(x: bv32): bv32 {
    x ^ 0x0FFFFFFF
  }

  lemma HighNot(w: bv32)
    ensures ToTop(Flip(w)) == FlipNibble(ToTop(w))
  {}

  lemma LowNotBits(w: bv32)
    ensures (!w) >> 4 == (w >> 4) ^ 0x0FFFFFFF
  {}

  lemma LowNot(w: bv32)
    ensures Down4(Flip(w)) == FlipRest(Down4(w))
  {
    LowNotBits(w);
    assert Flip(w) == !w;
    assert Down4(!w) == (!w) >> 4;
    assert Down4(w) == w >> 4;
  }

  lemma HighLow(w: bv32)
    ensures ToTop(w) & 0x0FFFFFFF == 0 && Down4(w) & 0xF0000000 == 0
  {}

  lemma OrNot(a: bv32, b: bv32)
    requires a & 0x0FFFFFFF == 0 && b & 0xF0000000 == 0
    ensures Or(FlipNibble(a), FlipRest(b)) == Flip(Or(a, b))
  {}

  lemma RotateRight4Or(w: bv32)
    ensures RotateRight4(w) == Or(ToTop(w), Down4(w))
  {}

  lemma RotateRight4Not(w: bv32)
    ensures RotateRight4(Flip(w)) == Flip(RotateRight4(w))
  {
    hide *;
    HighNot(w);
    LowNot(w);
    HighLow(w);
    OrNot(ToTop(w), Down4(w));
    RotateRight4Or(w);
    RotateRight4Or(Flip(w));
  }

  /** LHs: spreads four bits over four bytes, bit 0 lowest. */
  function LHs(n: bv32): bv32 {
    (n & 1) | ((n & 2) << 7) | ((n & 4) << 14) | ((n & 8) << 21)
  }

  /** RHs: the same, bit 3 lowest. */
  function RHs(n: bv32): bv32 {
    ((n & 1) << 24) | ((n & 2) << 15) | ((n & 4) << 6) | ((n & 8) >> 3)
  }

  function SpreadLeft(x: bv32): bv32 {
    ((LHs(x) << 3) | (LHs(x >> 8) << 2) | (LHs(x >> 16) << 1) | LHs(x >> 24)
     | (LHs(x >> 5) << 7) | (LHs(x >> 13) << 6) | (LHs(x >> 21) << 5) | (LHs(x >> 29) << 4)) & 0x0FFFFFFF
  }

  function SpreadRight(y: bv32): bv32 {
    ((RHs(y >> 1) << 3) | (RHs(y >> 9) << 2) | (RHs(y >> 17) << 1) | RHs(y >> 25)
     | (RHs(y >> 4) << 7) | (RHs(y >> 12) << 6) | (RHs(y >> 20) << 5) | (RHs(y >> 28) << 4)) & 0x0FFFFFFF
  }

  /** Complement within the 28 bits of a key half, and within the 6-bit groups of a subkey. */
  function Flip28(w: bv32): bv32 {
    w ^ 0x0FFFFFFF
  }

  function FlipKey(k: bv32): bv32 {
    k ^ 0x3F3F3F3F
  }

  /** A key half uses the low 28 bits. */
  predicate Half(w: bv32) {
    w & 0x0FFFFFFF == w
  }

  lemma SpreadLeftHalf(w: bv32)
    ensures Half(SpreadLeft(w))
  {}

  lemma SpreadRightHalf(w: bv32)
    ensures Half(SpreadRight(w))
  {}

  lemma SpreadLeftNot(w: bv32)
    ensures SpreadLeft(Flip(w)) == Flip28(SpreadLeft(w))
  {}

  lemma SpreadRightNot(w: bv32)
    ensures SpreadRight(Flip(w)) == Flip28(SpreadRight(w))
  {}

  function Turn1(w: bv32): bv32 {
    ((w << 1) | (w >> 27)) & 0x0FFFFFFF
  }

  function Turn2(w: bv32): bv32 {
    ((w << 2) | (w >> 26)) & 0x0FFFFFFF
  }

  lemma Turn1Not(w: bv32)
    requires Half(w)
    ensures Half(Turn1(w)) && Turn1(Flip28(w)) == Flip28(Turn1(w))
  {}

  lemma Turn2Not(w: bv32)
    requires Half(w)
    ensures Half(Turn2(w)) && Turn2(Flip28(w)) == Flip28(Turn2(w))
  {}

  /** A subkey word takes its high half from one key half and its low half from the other. */
  predicate High(w: bv32) {
    w & 0x3F3F0000 == w
  }

  predicate Low(w: bv32) {
    w & 0x00003F3F == w
  }

  function FlipHigh(w: bv32): bv32 {
    w ^ 0x3F3F0000
  }

  function FlipLow(w: bv32): bv32 {
    w ^ 0x00003F3F
  }

  function Key0X(x: bv32): bv32 {
    ((x << 4) & 0x24000000) | ((x << 28) & 0x10000000) | ((x << 14) & 0x08000000) | ((x << 18) & 0x02080000)
    | ((x << 6) & 0x01000000) | ((x << 9) & 0x00200000) | ((x >> 1) & 0x00100000) | ((x << 10) & 0x00040000)
    | ((x << 2) & 0x00020000) | ((x >> 10) & 0x00010000)
  }

  function Key0Y(y: bv32): bv32 {
    ((y >> 13) & 0x00002000) | ((y >> 4) & 0x00001000) | ((y << 6) & 0x00000800) | ((y >> 1) & 0x00000400)
    | ((y >> 14) & 0x00000200) | (y & 0x00000100) | ((y >> 5) & 0x00000020) | ((y >> 10) & 0x00000010)
    | ((y >> 3) & 0x00000008) | ((y >> 18) & 0x00000004) | ((y >> 26) & 0x00000002) | ((y >> 24) & 0x00000001)
  }

  function Key0(x: bv32, y: bv32): bv32 {
    Or(Key0X(x), Key0Y(y))
  }

  function Key1X(x: bv32): bv32 {
    ((x << 15) & 0x20000000) | ((x << 17) & 0x10000000) | ((x << 10) & 0x08000000) | ((x << 22) & 0x04000000)
    | ((x >> 2) & 0x02000000) | ((x << 1) & 0x01000000) | ((x << 16) & 0x00200000) | ((x << 11) & 0x00100000)
    | ((x << 3) & 0x00080000) | ((x >> 6) & 0x00040000) | ((x << 15) & 0x00020000) | ((x >> 4) & 0x00010000)
  }

  function Key1Y(y: bv32): bv32 {
    ((y >> 2) & 0x00002000) | ((y << 8) & 0x00001000) | ((y >> 14) & 0x00000808) | ((y >> 9) & 0x00000400)
    | (y & 0x00000200) | ((y << 7) & 0x00000100) | ((y >> 7) & 0x00000020) | ((y >> 3) & 0x00000011)
    | ((y << 2) & 0x00000004) | ((y >> 21) & 0x00000002)
  }

  function Key1(x: bv32, y: bv32): bv32 {
    Or(Key1X(x), Key1Y(y))
  }

  lemma Key0XNot(x: bv32)
    ensures Key0X(Flip28(x)) == FlipHigh(Key0X(x))
  {}

  lemma Key0YNot(y: bv32)
    ensures Key0Y(Flip28(y)) == FlipLow(Key0Y(y))
  {}

  lemma Key0Masks(x: bv32, y: bv32)
    ensures High(Key0X(x)) && Low(Key0Y(y))
  {}

  lemma Key1XNot(x: bv32)
    ensures Key1X(Flip28(x)) == FlipHigh(Key1X(x))
  {}

  lemma Key1YNot(y: bv32)
    ensures Key1Y(Flip28(y)) == FlipLow(Key1Y(y))
  {}

  lemma Key1Masks(x: bv32, y: bv32)
    ensures High(Key1X(x)) && Low(Key1Y(y))
  {}

  lemma JoinNot(a: bv32, b: bv32)
    requires High(a) && Low(b)
    ensures Or(FlipHigh(a), FlipLow(b)) == FlipKey(Or(a, b))
  {}

  lemma Key0Not(x: bv32, y: bv32)
    ensures Key0(Flip28(x), Flip28(y)) == FlipKey(Key0(x, y))
  {
    hide Key0X, Key0Y, Flip28, FlipKey, FlipHigh, FlipLow, High, Low, Or;
    Key0XNot(x);
    Key0YNot(y);
    Key0Masks(x, y);
    JoinNot(Key0X(x), Key0Y(y));
  }

  lemma Key1Not(x: bv32, y: bv32)
    ensures Key1(Flip28(x), Flip28(y)) == FlipKey(Key1(x, y))
  {
    hide Key1X, Key1Y, Flip28, FlipKey, FlipHigh, FlipLow, High, Low, Or;
    Key1XNot(x);
    Key1YNot(y);
    Key1Masks(x, y);
    JoinNot(Key1X(x), Key1Y(y));
  }
}
