/** The Data Encryption Algorithm as FIPS 46-3 has it: by its tables, and on bits numbered from 1. */
module DesFips {
  import opened Bytes
  import opened Des
  import opened DesBits

  /** The bits of a block, a half or a key by their numbers. */
  type Bits = nat -> bool

  type Table = seq<seq<nat>>

  const INITIAL: Table := [
    [58, 50, 42, 34, 26, 18, 10, 2],
    [60, 52, 44, 36, 28, 20, 12, 4],
    [62, 54, 46, 38, 30, 22, 14, 6],
    [64, 56, 48, 40, 32, 24, 16, 8],
    [57, 49, 41, 33, 25, 17, 9, 1],
    [59, 51, 43, 35, 27, 19, 11, 3],
    [61, 53, 45, 37, 29, 21, 13, 5],
    [63, 55, 47, 39, 31, 23, 15, 7]]

  const FINAL: Table := [
    [40, 8, 48, 16, 56, 24, 64, 32],
    [39, 7, 47, 15, 55, 23, 63, 31],
    [38, 6, 46, 14, 54, 22, 62, 30],
    [37, 5, 45, 13, 53, 21, 61, 29],
    [36, 4, 44, 12, 52, 20, 60, 28],
    [35, 3, 43, 11, 51, 19, 59, 27],
    [34, 2, 42, 10, 50, 18, 58, 26],
    [33, 1, 41, 9, 49, 17, 57, 25]]

  const EXPANSION: Table := [
    [32, 1, 2, 3, 4, 5],
    [4, 5, 6, 7, 8, 9],
    [8, 9, 10, 11, 12, 13],
    [12, 13, 14, 15, 16, 17],
    [16, 17, 18, 19, 20, 21],
    [20, 21, 22, 23, 24, 25],
    [24, 25, 26, 27, 28, 29],
    [28, 29, 30, 31, 32, 1]]

  const CHOICE1: Table := [
    [57, 49, 41, 33, 25, 17, 9],
    [1, 58, 50, 42, 34, 26, 18],
    [10, 2, 59, 51, 43, 35, 27],
    [19, 11, 3, 60, 52, 44, 36],
    [63, 55, 47, 39, 31, 23, 15],
    [7, 62, 54, 46, 38, 30, 22],
    [14, 6, 61, 53, 45, 37, 29],
    [21, 13, 5, 28, 20, 12, 4]]

  const CHOICE2: Table := [
    [14, 17, 11, 24, 1, 5],
    [3, 28, 15, 6, 21, 10],
    [23, 19, 12, 4, 26, 8],
    [16, 7, 27, 20, 13, 2],
    [41, 52, 31, 37, 47, 55],
    [30, 40, 51, 45, 33, 48],
    [44, 49, 39, 56, 34, 53],
    [46, 42, 50, 36, 29, 32]]

  const SHIFTS: seq<nat> := [1, 1, 2, 2, 2, 2, 2, 2, 1, 2, 2, 2, 2, 2, 2, 1]

  /** Entry `n` of a table with so many columns. */
  function At(t: Table, columns: nat, n: nat): nat
    requires columns > 0
  {
    if n == 0 then 0
    else
      var r, c := (n - 1) / columns, (n - 1) % columns;
      if r < |t| && c < |t[r]| then t[r][c] else 0
  }

  function Permuted(t: Table, columns: nat, b: Bits): Bits
    requires columns > 0
  {
    (n: nat) => b(At(t, columns, n))
  }

  /** The first `k` bits of `l`, and then `r`. */
  function Joined(l: Bits, r: Bits, k: nat): Bits {
    (n: nat) => if n <= k then l(n) else r(n - k)
  }

  function Second(b: Bits, k: nat): Bits {
    (n: nat) => b(n + k)
  }

  function Plus(a: Bits, b: Bits): Bits {
    (n: nat) => a(n) != b(n)
  }

  /** Half a key, turned left. */
  function Shifted(b: Bits, k: nat): Bits {
    (n: nat) => if n + k <= 28 then b(n + k) else b(n + k - 28)
  }

  /** The number of the six bits, the first of them highest. */
  function Six(a: bool, b: bool, c: bool, d: bool, e: bool, f: bool): bv6 {
    (if a then 32 else 0) | (if b then 16 else 0) | (if c then 8 else 0) | (if d then 4 else 0) | (if e then 2 else 0)
    | (if f then 1 else 0)
  }

  /** The six bits behind bit `k`. */
  function Group(b: Bits, k: nat): bv6 {
    Six(b(k + 1), b(k + 2), b(k + 3), b(k + 4), b(k + 5), b(k + 6))
  }

  /** Bit `n` of a word, the first one highest. */
  predicate Bit(w: bv32, n: nat) {
    if n <= 8 then
      if n == 1 then w & 0x80000000 != 0 else if n == 2 then w & 0x40000000 != 0
      else if n == 3 then w & 0x20000000 != 0 else if n == 4 then w & 0x10000000 != 0
      else if n == 5 then w & 0x8000000 != 0
      else if n == 6 then w & 0x4000000 != 0 else if n == 7 then w & 0x2000000 != 0 else w & 0x1000000 != 0
    else if n <= 16 then
      if n == 9 then w & 0x800000 != 0 else if n == 10 then w & 0x400000 != 0
      else if n == 11 then w & 0x200000 != 0 else if n == 12 then w & 0x100000 != 0
      else if n == 13 then w & 0x80000 != 0
      else if n == 14 then w & 0x40000 != 0 else if n == 15 then w & 0x20000 != 0 else w & 0x10000 != 0
    else if n <= 24 then
      if n == 17 then w & 0x8000 != 0 else if n == 18 then w & 0x4000 != 0
      else if n == 19 then w & 0x2000 != 0 else if n == 20 then w & 0x1000 != 0
      else if n == 21 then w & 0x800 != 0
      else if n == 22 then w & 0x400 != 0 else if n == 23 then w & 0x200 != 0 else w & 0x100 != 0
    else
      if n == 25 then w & 0x80 != 0 else if n == 26 then w & 0x40 != 0
      else if n == 27 then w & 0x20 != 0 else if n == 28 then w & 0x10 != 0
      else if n == 29 then w & 0x8 != 0
      else if n == 30 then w & 0x4 != 0 else if n == 31 then w & 0x2 != 0 else if n == 32 then w & 0x1 != 0 else false
  }

  predicate BlockBit(p: Halves, n: nat) {
    if n <= 32 then Bit(p.x, n) else Bit(p.y, n - 32)
  }

  function Block(p: Halves): Bits {
    (n: nat) => BlockBit(p, n)
  }

  function Word(w: bv32): Bits {
    (n: nat) => Bit(w, n)
  }

  /** The S-boxes, each followed by the permutation P. A table entry of lib/des.c is that, turned
      left by one place, as the halves of a block are there. */
  function Box(s: SBoxes, j: nat, v: bv6): bv32 {
    RotateRight(if j == 1 then s.sb1(v) else if j == 2 then s.sb2(v) else if j == 3 then s.sb3(v) else if j == 4 then s.sb4(v)
                else if j == 5 then s.sb5(v) else if j == 6 then s.sb6(v) else if j == 7 then s.sb7(v) else s.sb8(v))
  }

  /** The cipher function f(R, K). */
  function Cipher(s: SBoxes, r: Bits, k: Bits): Bits {
    var e := Plus(Permuted(EXPANSION, 6, r), k);
    Plus(Plus(Plus(Word(Box(s, 1, Group(e, 0))), Word(Box(s, 2, Group(e, 6)))),
              Plus(Word(Box(s, 3, Group(e, 12))), Word(Box(s, 4, Group(e, 18))))),
         Plus(Plus(Word(Box(s, 5, Group(e, 24))), Word(Box(s, 6, Group(e, 30)))),
              Plus(Word(Box(s, 7, Group(e, 36))), Word(Box(s, 8, Group(e, 42))))))
  }

  /** The rounds with these keys on the two halves. */
  function Rounds(s: SBoxes, keys: seq<Bits>, l: Bits, r: Bits): (Bits, Bits) {
    if keys == [] then (l, r) else Rounds(s, keys[1..], r, Plus(l, Cipher(s, r, keys[0])))
  }

  /** One DES with the sixteen keys given. */
  function Algorithm(s: SBoxes, keys: seq<Bits>, b: Bits): Bits {
    var p := Permuted(INITIAL, 8, b);
    var (l, r) := Rounds(s, keys, p, Second(p, 32));
    Permuted(FINAL, 8, Joined(r, l, 32))
  }

  /** The halves C and D of the key after `i` shifts. */
  function KeyHalf(b: Bits, i: nat): Bits
    requires i <= 16
  {
    if i == 0 then b else Shifted(KeyHalf(b, i - 1), SHIFTS[i - 1])
  }

  function Key(key: Bits, i: nat): Bits
    requires i <= 16
  {
    var p := Permuted(CHOICE1, 7, key);
    Permuted(CHOICE2, 6, Joined(KeyHalf(p, i), KeyHalf(Second(p, 28), i), 28))
  }

  function Keys(key: Bits): (r: seq<Bits>)
    ensures |r| == 16
  {
    seq(16, i requires 0 <= i < 16 => Key(key, i + 1))
  }

  function Backwards(keys: seq<Bits>): (r: seq<Bits>)
    ensures |r| == |keys|
  {
    seq(|keys|, i requires 0 <= i < |keys| => keys[|keys| - 1 - i])
  }

  function Enciphered(s: SBoxes, key: Bits, b: Bits): Bits {
    Algorithm(s, Keys(key), b)
  }

  /** Deciphering takes the keys in the opposite order. */
  function Deciphered(s: SBoxes, key: Bits, b: Bits): Bits {
    Algorithm(s, Backwards(Keys(key)), b)
  }

  predicate OctetBit(v: byte, k: nat) {
    if k == 1 then v & 0x80 != 0 else if k == 2 then v & 0x40 != 0 else if k == 3 then v & 0x20 != 0
    else if k == 4 then v & 0x10 != 0 else if k == 5 then v & 8 != 0 else if k == 6 then v & 4 != 0
    else if k == 7 then v & 2 != 0 else v & 1 != 0
  }

  /** The bits of eight bytes, from the highest one of the first byte on. */
  function OctetBits(b: Octets): Bits {
    (n: nat) => 1 <= n <= 64 && OctetBit(b[(n - 1) / 8], (n - 1) % 8 + 1)
  }

  /** The triple DES of FIPS 46-3: encipher, decipher, encipher. */
  function TripleEnciphered(s: SBoxes, k1: Octets, k2: Octets, k3: Octets, m: Octets): Bits {
    Enciphered(s, OctetBits(k3), Deciphered(s, OctetBits(k2), Enciphered(s, OctetBits(k1), OctetBits(m))))
  }

  function TripleDeciphered(s: SBoxes, k1: Octets, k2: Octets, k3: Octets, m: Octets): Bits {
    Deciphered(s, OctetBits(k1), Enciphered(s, OctetBits(k2), Deciphered(s, OctetBits(k3), OctetBits(m))))
  }

  /** The same bits up to number `k`. */
  predicate Same(a: Bits, b: Bits, k: nat) {
    forall n :: 1 <= n <= k ==> a(n) == b(n)
  }
}
