/** The bit manipulations of lib/des.c against the tables of FIPS 46-3. */
module DesWires {
  import opened Bytes
  import opened Des
  import opened DesBits
  import opened DesFips

  // ---------------------------------------------------------------- the initial and the final permutation

  /** The halves that lib/des.c holds are those of the standard, turned left by one place. */
  function Straight(p: Halves): Halves {
    Halves(RotateRight(p.x), RotateRight(p.y))
  }

  /** The first line of DES_IP; the next three follow. */
  predicate Crossed4(p: Halves, t: bv32, q: Halves) {
    t == ((p.x >> 4) ^ p.y) & 0x0F0F0F0F && q.x == p.x ^ (t << 4) && q.y == p.y ^ t
  }

  lemma Crossing4(p: Halves, t: bv32, q: Halves)
    requires Crossed4(p, t, q)
    ensures t == ((p.x >> 4) ^ p.y) & 0x0F0F0F0F && q.x == p.x ^ (t << 4) && q.y == p.y ^ t
  {}

  /** The second. */
  predicate Crossed16(p: Halves, t: bv32, q: Halves) {
    t == ((p.x >> 16) ^ p.y) & 0x0000FFFF && q.x == p.x ^ (t << 16) && q.y == p.y ^ t
  }

  lemma Crossing16(p: Halves, t: bv32, q: Halves)
    requires Crossed16(p, t, q)
    ensures t == ((p.x >> 16) ^ p.y) & 0x0000FFFF && q.x == p.x ^ (t << 16) && q.y == p.y ^ t
  {}

  /** The third. */
  predicate Crossed2(p: Halves, t: bv32, q: Halves) {
    t == ((p.y >> 2) ^ p.x) & 0x33333333 && q.x == p.x ^ t && q.y == p.y ^ (t << 2)
  }

  lemma Crossing2(p: Halves, t: bv32, q: Halves)
    requires Crossed2(p, t, q)
    ensures t == ((p.y >> 2) ^ p.x) & 0x33333333 && q.x == p.x ^ t && q.y == p.y ^ (t << 2)
  {}

  /** The fourth. */
  predicate Crossed8(p: Halves, t: bv32, q: Halves) {
    t == ((p.y >> 8) ^ p.x) & 0x00FF00FF && q.x == p.x ^ t && q.y == p.y ^ (t << 8)
  }

  lemma Crossing8(p: Halves, t: bv32, q: Halves)
    requires Crossed8(p, t, q)
    ensures t == ((p.y >> 8) ^ p.x) & 0x00FF00FF && q.x == p.x ^ t && q.y == p.y ^ (t << 8)
  {}

  /** The rest, up to the last turn. */
  predicate Crossed0(p: Halves, w: bv32, t: bv32, q: Halves) {
    w == (p.y << 1) | (p.y >> 31) && t == (p.x ^ w) & 0xAAAAAAAA && q.x == p.x ^ t && w ^ t == (q.y << 1) | (q.y >> 31)
  }

  lemma Crossing0(p: Halves, w: bv32, t: bv32, q: Halves)
    requires Crossed0(p, w, t, q)
    ensures w == (p.y << 1) | (p.y >> 31) && t == (p.x ^ w) & 0xAAAAAAAA
    ensures q.x == p.x ^ t && w ^ t == (q.y << 1) | (q.y >> 31)
  {}

  lemma InitialRow1(p: Halves, t1: bv32, p1: Halves, t2: bv32, p2: Halves, t3: bv32, p3: Halves, t4: bv32, p4: Halves,
    w: bv32, t5: bv32, q: Halves)
    requires t1 == ((p.x >> 4) ^ p.y) & 0x0F0F0F0F && p1.x == p.x ^ (t1 << 4) && p1.y == p.y ^ t1
    requires t2 == ((p1.x >> 16) ^ p1.y) & 0x0000FFFF && p2.x == p1.x ^ (t2 << 16) && p2.y == p1.y ^ t2
    requires t3 == ((p2.y >> 2) ^ p2.x) & 0x33333333 && p3.x == p2.x ^ t3 && p3.y == p2.y ^ (t3 << 2)
    requires t4 == ((p3.y >> 8) ^ p3.x) & 0x00FF00FF && p4.x == p3.x ^ t4 && p4.y == p3.y ^ (t4 << 8)
    requires w == (p4.y << 1) | (p4.y >> 31) && t5 == (p4.x ^ w) & 0xAAAAAAAA
    requires q.x == p4.x ^ t5 && w ^ t5 == (q.y << 1) | (q.y >> 31)
    ensures && (q.x & 0x80000000 != 0) == (p.y & 0x40 != 0) && (q.x & 0x40000000 != 0) == (p.y & 0x4000 != 0)
            && (q.x & 0x20000000 != 0) == (p.y & 0x400000 != 0) && (q.x & 0x10000000 != 0) == (p.y & 0x40000000 != 0)
            && (q.x & 0x8000000 != 0) == (p.x & 0x40 != 0) && (q.x & 0x4000000 != 0) == (p.x & 0x4000 != 0)
            && (q.x & 0x2000000 != 0) == (p.x & 0x400000 != 0) && (q.x & 0x1000000 != 0) == (p.x & 0x40000000 != 0)
  {}

  lemma InitialRow2(p: Halves, t1: bv32, p1: Halves, t2: bv32, p2: Halves, t3: bv32, p3: Halves, t4: bv32, p4: Halves,
    w: bv32, t5: bv32, q: Halves)
    requires t1 == ((p.x >> 4) ^ p.y) & 0x0F0F0F0F && p1.x == p.x ^ (t1 << 4) && p1.y == p.y ^ t1
    requires t2 == ((p1.x >> 16) ^ p1.y) & 0x0000FFFF && p2.x == p1.x ^ (t2 << 16) && p2.y == p1.y ^ t2
    requires t3 == ((p2.y >> 2) ^ p2.x) & 0x33333333 && p3.x == p2.x ^ t3 && p3.y == p2.y ^ (t3 << 2)
    requires t4 == ((p3.y >> 8) ^ p3.x) & 0x00FF00FF && p4.x == p3.x ^ t4 && p4.y == p3.y ^ (t4 << 8)
    requires w == (p4.y << 1) | (p4.y >> 31) && t5 == (p4.x ^ w) & 0xAAAAAAAA
    requires q.x == p4.x ^ t5 && w ^ t5 == (q.y << 1) | (q.y >> 31)
    ensures && (q.x & 0x800000 != 0) == (p.y & 0x10 != 0) && (q.x & 0x400000 != 0) == (p.y & 0x1000 != 0)
            && (q.x & 0x200000 != 0) == (p.y & 0x100000 != 0) && (q.x & 0x100000 != 0) == (p.y & 0x10000000 != 0)
            && (q.x & 0x80000 != 0) == (p.x & 0x10 != 0) && (q.x & 0x40000 != 0) == (p.x & 0x1000 != 0)
            && (q.x & 0x20000 != 0) == (p.x & 0x100000 != 0) && (q.x & 0x10000 != 0) == (p.x & 0x10000000 != 0)
  {}

  lemma InitialRow3(p: Halves, t1: bv32, p1: Halves, t2: bv32, p2: Halves, t3: bv32, p3: Halves, t4: bv32, p4: Halves,
    w: bv32, t5: bv32, q: Halves)
    requires t1 == ((p.x >> 4) ^ p.y) & 0x0F0F0F0F && p1.x == p.x ^ (t1 << 4) && p1.y == p.y ^ t1
    requires t2 == ((p1.x >> 16) ^ p1.y) & 0x0000FFFF && p2.x == p1.x ^ (t2 << 16) && p2.y == p1.y ^ t2
    requires t3 == ((p2.y >> 2) ^ p2.x) & 0x33333333 && p3.x == p2.x ^ t3 && p3.y == p2.y ^ (t3 << 2)
    requires t4 == ((p3.y >> 8) ^ p3.x) & 0x00FF00FF && p4.x == p3.x ^ t4 && p4.y == p3.y ^ (t4 << 8)
    requires w == (p4.y << 1) | (p4.y >> 31) && t5 == (p4.x ^ w) & 0xAAAAAAAA
    requires q.x == p4.x ^ t5 && w ^ t5 == (q.y << 1) | (q.y >> 31)
    ensures && (q.x & 0x8000 != 0) == (p.y & 0x4 != 0) && (q.x & 0x4000 != 0) == (p.y & 0x400 != 0)
            && (q.x & 0x2000 != 0) == (p.y & 0x40000 != 0) && (q.x & 0x1000 != 0) == (p.y & 0x4000000 != 0)
            && (q.x & 0x800 != 0) == (p.x & 0x4 != 0) && (q.x & 0x400 != 0) == (p.x & 0x400 != 0)
            && (q.x & 0x200 != 0) == (p.x & 0x40000 != 0) && (q.x & 0x100 != 0) == (p.x & 0x4000000 != 0)
  {}

  lemma InitialRow4(p: Halves, t1: bv32, p1: Halves, t2: bv32, p2: Halves, t3: bv32, p3: Halves, t4: bv32, p4: Halves,
    w: bv32, t5: bv32, q: Halves)
    requires t1 == ((p.x >> 4) ^ p.y) & 0x0F0F0F0F && p1.x == p.x ^ (t1 << 4) && p1.y == p.y ^ t1
    requires t2 == ((p1.x >> 16) ^ p1.y) & 0x0000FFFF && p2.x == p1.x ^ (t2 << 16) && p2.y == p1.y ^ t2
    requires t3 == ((p2.y >> 2) ^ p2.x) & 0x33333333 && p3.x == p2.x ^ t3 && p3.y == p2.y ^ (t3 << 2)
    requires t4 == ((p3.y >> 8) ^ p3.x) & 0x00FF00FF && p4.x == p3.x ^ t4 && p4.y == p3.y ^ (t4 << 8)
    requires w == (p4.y << 1) | (p4.y >> 31) && t5 == (p4.x ^ w) & 0xAAAAAAAA
    requires q.x == p4.x ^ t5 && w ^ t5 == (q.y << 1) | (q.y >> 31)
    ensures && (q.x & 0x80 != 0) == (p.y & 0x1 != 0) && (q.x & 0x40 != 0) == (p.y & 0x100 != 0)
            && (q.x & 0x20 != 0) == (p.y & 0x10000 != 0) && (q.x & 0x10 != 0) == (p.y & 0x1000000 != 0)
            && (q.x & 0x8 != 0) == (p.x & 0x1 != 0) && (q.x & 0x4 != 0) == (p.x & 0x100 != 0)
            && (q.x & 0x2 != 0) == (p.x & 0x10000 != 0) && (q.x & 0x1 != 0) == (p.x & 0x1000000 != 0)
  {}

  lemma InitialRow5(p: Halves, t1: bv32, p1: Halves, t2: bv32, p2: Halves, t3: bv32, p3: Halves, t4: bv32, p4: Halves,
    w: bv32, t5: bv32, q: Halves)
    requires t1 == ((p.x >> 4) ^ p.y) & 0x0F0F0F0F && p1.x == p.x ^ (t1 << 4) && p1.y == p.y ^ t1
    requires t2 == ((p1.x >> 16) ^ p1.y) & 0x0000FFFF && p2.x == p1.x ^ (t2 << 16) && p2.y == p1.y ^ t2
    requires t3 == ((p2.y >> 2) ^ p2.x) & 0x33333333 && p3.x == p2.x ^ t3 && p3.y == p2.y ^ (t3 << 2)
    requires t4 == ((p3.y >> 8) ^ p3.x) & 0x00FF00FF && p4.x == p3.x ^ t4 && p4.y == p3.y ^ (t4 << 8)
    requires w == (p4.y << 1) | (p4.y >> 31) && t5 == (p4.x ^ w) & 0xAAAAAAAA
    requires q.x == p4.x ^ t5 && w ^ t5 == (q.y << 1) | (q.y >> 31)
    ensures && (q.y & 0x80000000 != 0) == (p.y & 0x80 != 0) && (q.y & 0x40000000 != 0) == (p.y & 0x8000 != 0)
            && (q.y & 0x20000000 != 0) == (p.y & 0x800000 != 0) && (q.y & 0x10000000 != 0) == (p.y & 0x80000000 != 0)
            && (q.y & 0x8000000 != 0) == (p.x & 0x80 != 0) && (q.y & 0x4000000 != 0) == (p.x & 0x8000 != 0)
            && (q.y & 0x2000000 != 0) == (p.x & 0x800000 != 0) && (q.y & 0x1000000 != 0) == (p.x & 0x80000000 != 0)
  {}

  lemma InitialRow6(p: Halves, t1: bv32, p1: Halves, t2: bv32, p2: Halves, t3: bv32, p3: Halves, t4: bv32, p4: Halves,
    w: bv32, t5: bv32, q: Halves)
    requires t1 == ((p.x >> 4) ^ p.y) & 0x0F0F0F0F && p1.x == p.x ^ (t1 << 4) && p1.y == p.y ^ t1
    requires t2 == ((p1.x >> 16) ^ p1.y) & 0x0000FFFF && p2.x == p1.x ^ (t2 << 16) && p2.y == p1.y ^ t2
    requires t3 == ((p2.y >> 2) ^ p2.x) & 0x33333333 && p3.x == p2.x ^ t3 && p3.y == p2.y ^ (t3 << 2)
    requires t4 == ((p3.y >> 8) ^ p3.x) & 0x00FF00FF && p4.x == p3.x ^ t4 && p4.y == p3.y ^ (t4 << 8)
    requires w == (p4.y << 1) | (p4.y >> 31) && t5 == (p4.x ^ w) & 0xAAAAAAAA
    requires q.x == p4.x ^ t5 && w ^ t5 == (q.y << 1) | (q.y >> 31)
    ensures && (q.y & 0x800000 != 0) == (p.y & 0x20 != 0) && (q.y & 0x400000 != 0) == (p.y & 0x2000 != 0)
            && (q.y & 0x200000 != 0) == (p.y & 0x200000 != 0) && (q.y & 0x100000 != 0) == (p.y & 0x20000000 != 0)
            && (q.y & 0x80000 != 0) == (p.x & 0x20 != 0) && (q.y & 0x40000 != 0) == (p.x & 0x2000 != 0)
            && (q.y & 0x20000 != 0) == (p.x & 0x200000 != 0) && (q.y & 0x10000 != 0) == (p.x & 0x20000000 != 0)
  {}

  lemma InitialRow7(p: Halves, t1: bv32, p1: Halves, t2: bv32, p2: Halves, t3: bv32, p3: Halves, t4: bv32, p4: Halves,
    w: bv32, t5: bv32, q: Halves)
    requires t1 == ((p.x >> 4) ^ p.y) & 0x0F0F0F0F && p1.x == p.x ^ (t1 << 4) && p1.y == p.y ^ t1
    requires t2 == ((p1.x >> 16) ^ p1.y) & 0x0000FFFF && p2.x == p1.x ^ (t2 << 16) && p2.y == p1.y ^ t2
    requires t3 == ((p2.y >> 2) ^ p2.x) & 0x33333333 && p3.x == p2.x ^ t3 && p3.y == p2.y ^ (t3 << 2)
    requires t4 == ((p3.y >> 8) ^ p3.x) & 0x00FF00FF && p4.x == p3.x ^ t4 && p4.y == p3.y ^ (t4 << 8)
    requires w == (p4.y << 1) | (p4.y >> 31) && t5 == (p4.x ^ w) & 0xAAAAAAAA
    requires q.x == p4.x ^ t5 && w ^ t5 == (q.y << 1) | (q.y >> 31)
    ensures && (q.y & 0x8000 != 0) == (p.y & 0x8 != 0) && (q.y & 0x4000 != 0) == (p.y & 0x800 != 0)
            && (q.y & 0x2000 != 0) == (p.y & 0x80000 != 0) && (q.y & 0x1000 != 0) == (p.y & 0x8000000 != 0)
            && (q.y & 0x800 != 0) == (p.x & 0x8 != 0) && (q.y & 0x400 != 0) == (p.x & 0x800 != 0)
            && (q.y & 0x200 != 0) == (p.x & 0x80000 != 0) && (q.y & 0x100 != 0) == (p.x & 0x8000000 != 0)
  {}

  lemma InitialRow8(p: Halves, t1: bv32, p1: Halves, t2: bv32, p2: Halves, t3: bv32, p3: Halves, t4: bv32, p4: Halves,
    w: bv32, t5: bv32, q: Halves)
    requires t1 == ((p.x >> 4) ^ p.y) & 0x0F0F0F0F && p1.x == p.x ^ (t1 << 4) && p1.y == p.y ^ t1
    requires t2 == ((p1.x >> 16) ^ p1.y) & 0x0000FFFF && p2.x == p1.x ^ (t2 << 16) && p2.y == p1.y ^ t2
    requires t3 == ((p2.y >> 2) ^ p2.x) & 0x33333333 && p3.x == p2.x ^ t3 && p3.y == p2.y ^ (t3 << 2)
    requires t4 == ((p3.y >> 8) ^ p3.x) & 0x00FF00FF && p4.x == p3.x ^ t4 && p4.y == p3.y ^ (t4 << 8)
    requires w == (p4.y << 1) | (p4.y >> 31) && t5 == (p4.x ^ w) & 0xAAAAAAAA
    requires q.x == p4.x ^ t5 && w ^ t5 == (q.y << 1) | (q.y >> 31)
    ensures && (q.y & 0x80 != 0) == (p.y & 0x2 != 0) && (q.y & 0x40 != 0) == (p.y & 0x200 != 0)
            && (q.y & 0x20 != 0) == (p.y & 0x20000 != 0) && (q.y & 0x10 != 0) == (p.y & 0x2000000 != 0)
            && (q.y & 0x8 != 0) == (p.x & 0x2 != 0) && (q.y & 0x4 != 0) == (p.x & 0x200 != 0)
            && (q.y & 0x2 != 0) == (p.x & 0x20000 != 0) && (q.y & 0x1 != 0) == (p.x & 0x2000000 != 0)
  {}

  /** Bit `n` of the block `q` is the bit of `p` that the table names. */
  predicate Moved(t: Table, p: Halves, q: Halves, n: nat) {
    From(p, q, At(t, 8, n), n)
  }

  predicate From(p: Halves, q: Halves, m: nat, n: nat) {
    BlockBit(q, n) == BlockBit(p, m)
  }

  lemma InitialEntries(t: Table)
    requires t == INITIAL
    ensures && At(t, 8, 1) == 58 && At(t, 8, 2) == 50 && At(t, 8, 3) == 42 && At(t, 8, 4) == 34 && At(t, 8, 5) == 26
            && At(t, 8, 6) == 18 && At(t, 8, 7) == 10 && At(t, 8, 8) == 2 && At(t, 8, 9) == 60 && At(t, 8, 10) == 52
            && At(t, 8, 11) == 44 && At(t, 8, 12) == 36 && At(t, 8, 13) == 28 && At(t, 8, 14) == 20
            && At(t, 8, 15) == 12 && At(t, 8, 16) == 4 && At(t, 8, 17) == 62 && At(t, 8, 18) == 54
            && At(t, 8, 19) == 46 && At(t, 8, 20) == 38 && At(t, 8, 21) == 30 && At(t, 8, 22) == 22
            && At(t, 8, 23) == 14 && At(t, 8, 24) == 6 && At(t, 8, 25) == 64 && At(t, 8, 26) == 56
            && At(t, 8, 27) == 48 && At(t, 8, 28) == 40 && At(t, 8, 29) == 32 && At(t, 8, 30) == 24
            && At(t, 8, 31) == 16 && At(t, 8, 32) == 8 && At(t, 8, 33) == 57 && At(t, 8, 34) == 49
            && At(t, 8, 35) == 41 && At(t, 8, 36) == 33 && At(t, 8, 37) == 25 && At(t, 8, 38) == 17
            && At(t, 8, 39) == 9 && At(t, 8, 40) == 1 && At(t, 8, 41) == 59 && At(t, 8, 42) == 51
            && At(t, 8, 43) == 43 && At(t, 8, 44) == 35 && At(t, 8, 45) == 27 && At(t, 8, 46) == 19
            && At(t, 8, 47) == 11 && At(t, 8, 48) == 3 && At(t, 8, 49) == 61 && At(t, 8, 50) == 53
            && At(t, 8, 51) == 45 && At(t, 8, 52) == 37 && At(t, 8, 53) == 29 && At(t, 8, 54) == 21
            && At(t, 8, 55) == 13 && At(t, 8, 56) == 5 && At(t, 8, 57) == 63 && At(t, 8, 58) == 55
            && At(t, 8, 59) == 47 && At(t, 8, 60) == 39 && At(t, 8, 61) == 31 && At(t, 8, 62) == 23
            && At(t, 8, 63) == 15 && At(t, 8, 64) == 7
  {}

  lemma InitialBits1(p: Halves, q: Halves)
    requires && (q.x & 0x80000000 != 0) == (p.y & 0x40 != 0) && (q.x & 0x40000000 != 0) == (p.y & 0x4000 != 0)
             && (q.x & 0x20000000 != 0) == (p.y & 0x400000 != 0) && (q.x & 0x10000000 != 0) == (p.y & 0x40000000 != 0)
             && (q.x & 0x8000000 != 0) == (p.x & 0x40 != 0) && (q.x & 0x4000000 != 0) == (p.x & 0x4000 != 0)
             && (q.x & 0x2000000 != 0) == (p.x & 0x400000 != 0) && (q.x & 0x1000000 != 0) == (p.x & 0x40000000 != 0)
    ensures && From(p, q, 58, 1) && From(p, q, 50, 2) && From(p, q, 42, 3) && From(p, q, 34, 4) && From(p, q, 26, 5)
            && From(p, q, 18, 6) && From(p, q, 10, 7) && From(p, q, 2, 8)
  {}

  lemma InitialBits2(p: Halves, q: Halves)
    requires && (q.x & 0x800000 != 0) == (p.y & 0x10 != 0) && (q.x & 0x400000 != 0) == (p.y & 0x1000 != 0)
             && (q.x & 0x200000 != 0) == (p.y & 0x100000 != 0) && (q.x & 0x100000 != 0) == (p.y & 0x10000000 != 0)
             && (q.x & 0x80000 != 0) == (p.x & 0x10 != 0) && (q.x & 0x40000 != 0) == (p.x & 0x1000 != 0)
             && (q.x & 0x20000 != 0) == (p.x & 0x100000 != 0) && (q.x & 0x10000 != 0) == (p.x & 0x10000000 != 0)
    ensures && From(p, q, 60, 9) && From(p, q, 52, 10) && From(p, q, 44, 11) && From(p, q, 36, 12)
            && From(p, q, 28, 13) && From(p, q, 20, 14) && From(p, q, 12, 15) && From(p, q, 4, 16)
  {}

  lemma InitialBits3(p: Halves, q: Halves)
    requires && (q.x & 0x8000 != 0) == (p.y & 0x4 != 0) && (q.x & 0x4000 != 0) == (p.y & 0x400 != 0)
             && (q.x & 0x2000 != 0) == (p.y & 0x40000 != 0) && (q.x & 0x1000 != 0) == (p.y & 0x4000000 != 0)
             && (q.x & 0x800 != 0) == (p.x & 0x4 != 0) && (q.x & 0x400 != 0) == (p.x & 0x400 != 0)
             && (q.x & 0x200 != 0) == (p.x & 0x40000 != 0) && (q.x & 0x100 != 0) == (p.x & 0x4000000 != 0)
    ensures && From(p, q, 62, 17) && From(p, q, 54, 18) && From(p, q, 46, 19) && From(p, q, 38, 20)
            && From(p, q, 30, 21) && From(p, q, 22, 22) && From(p, q, 14, 23) && From(p, q, 6, 24)
  {}

  lemma InitialBits4(p: Halves, q: Halves)
    requires && (q.x & 0x80 != 0) == (p.y & 0x1 != 0) && (q.x & 0x40 != 0) == (p.y & 0x100 != 0)
             && (q.x & 0x20 != 0) == (p.y & 0x10000 != 0) && (q.x & 0x10 != 0) == (p.y & 0x1000000 != 0)
             && (q.x & 0x8 != 0) == (p.x & 0x1 != 0) && (q.x & 0x4 != 0) == (p.x & 0x100 != 0)
             && (q.x & 0x2 != 0) == (p.x & 0x10000 != 0) && (q.x & 0x1 != 0) == (p.x & 0x1000000 != 0)
    ensures && From(p, q, 64, 25) && From(p, q, 56, 26) && From(p, q, 48, 27) && From(p, q, 40, 28)
            && From(p, q, 32, 29) && From(p, q, 24, 30) && From(p, q, 16, 31) && From(p, q, 8, 32)
  {}

  lemma InitialBits5(p: Halves, q: Halves)
    requires && (q.y & 0x80000000 != 0) == (p.y & 0x80 != 0) && (q.y & 0x40000000 != 0) == (p.y & 0x8000 != 0)
             && (q.y & 0x20000000 != 0) == (p.y & 0x800000 != 0) && (q.y & 0x10000000 != 0) == (p.y & 0x80000000 != 0)
             && (q.y & 0x8000000 != 0) == (p.x & 0x80 != 0) && (q.y & 0x4000000 != 0) == (p.x & 0x8000 != 0)
             && (q.y & 0x2000000 != 0) == (p.x & 0x800000 != 0) && (q.y & 0x1000000 != 0) == (p.x & 0x80000000 != 0)
    ensures && From(p, q, 57, 33) && From(p, q, 49, 34) && From(p, q, 41, 35) && From(p, q, 33, 36)
            && From(p, q, 25, 37) && From(p, q, 17, 38) && From(p, q, 9, 39) && From(p, q, 1, 40)
  {}

  lemma InitialBits6(p: Halves, q: Halves)
    requires && (q.y & 0x800000 != 0) == (p.y & 0x20 != 0) && (q.y & 0x400000 != 0) == (p.y & 0x2000 != 0)
             && (q.y & 0x200000 != 0) == (p.y & 0x200000 != 0) && (q.y & 0x100000 != 0) == (p.y & 0x20000000 != 0)
             && (q.y & 0x80000 != 0) == (p.x & 0x20 != 0) && (q.y & 0x40000 != 0) == (p.x & 0x2000 != 0)
             && (q.y & 0x20000 != 0) == (p.x & 0x200000 != 0) && (q.y & 0x10000 != 0) == (p.x & 0x20000000 != 0)
    ensures && From(p, q, 59, 41) && From(p, q, 51, 42) && From(p, q, 43, 43) && From(p, q, 35, 44)
            && From(p, q, 27, 45) && From(p, q, 19, 46) && From(p, q, 11, 47) && From(p, q, 3, 48)
  {}

  lemma InitialBits7(p: Halves, q: Halves)
    requires && (q.y & 0x8000 != 0) == (p.y & 0x8 != 0) && (q.y & 0x4000 != 0) == (p.y & 0x800 != 0)
             && (q.y & 0x2000 != 0) == (p.y & 0x80000 != 0) && (q.y & 0x1000 != 0) == (p.y & 0x8000000 != 0)
             && (q.y & 0x800 != 0) == (p.x & 0x8 != 0) && (q.y & 0x400 != 0) == (p.x & 0x800 != 0)
             && (q.y & 0x200 != 0) == (p.x & 0x80000 != 0) && (q.y & 0x100 != 0) == (p.x & 0x8000000 != 0)
    ensures && From(p, q, 61, 49) && From(p, q, 53, 50) && From(p, q, 45, 51) && From(p, q, 37, 52)
            && From(p, q, 29, 53) && From(p, q, 21, 54) && From(p, q, 13, 55) && From(p, q, 5, 56)
  {}

  lemma InitialBits8(p: Halves, q: Halves)
    requires && (q.y & 0x80 != 0) == (p.y & 0x2 != 0) && (q.y & 0x40 != 0) == (p.y & 0x200 != 0)
             && (q.y & 0x20 != 0) == (p.y & 0x20000 != 0) && (q.y & 0x10 != 0) == (p.y & 0x2000000 != 0)
             && (q.y & 0x8 != 0) == (p.x & 0x2 != 0) && (q.y & 0x4 != 0) == (p.x & 0x200 != 0)
             && (q.y & 0x2 != 0) == (p.x & 0x20000 != 0) && (q.y & 0x1 != 0) == (p.x & 0x2000000 != 0)
    ensures && From(p, q, 63, 57) && From(p, q, 55, 58) && From(p, q, 47, 59) && From(p, q, 39, 60)
            && From(p, q, 31, 61) && From(p, q, 23, 62) && From(p, q, 15, 63) && From(p, q, 7, 64)
  {}

  lemma AllFrom(t: Table, p: Halves, q: Halves)
    requires t == INITIAL
    requires && From(p, q, 58, 1) && From(p, q, 50, 2) && From(p, q, 42, 3) && From(p, q, 34, 4) && From(p, q, 26, 5)
             && From(p, q, 18, 6) && From(p, q, 10, 7) && From(p, q, 2, 8) && From(p, q, 60, 9) && From(p, q, 52, 10)
             && From(p, q, 44, 11) && From(p, q, 36, 12) && From(p, q, 28, 13) && From(p, q, 20, 14)
             && From(p, q, 12, 15) && From(p, q, 4, 16) && From(p, q, 62, 17) && From(p, q, 54, 18)
             && From(p, q, 46, 19) && From(p, q, 38, 20) && From(p, q, 30, 21) && From(p, q, 22, 22)
             && From(p, q, 14, 23) && From(p, q, 6, 24) && From(p, q, 64, 25) && From(p, q, 56, 26)
             && From(p, q, 48, 27) && From(p, q, 40, 28) && From(p, q, 32, 29) && From(p, q, 24, 30)
             && From(p, q, 16, 31) && From(p, q, 8, 32) && From(p, q, 57, 33) && From(p, q, 49, 34)
             && From(p, q, 41, 35) && From(p, q, 33, 36) && From(p, q, 25, 37) && From(p, q, 17, 38)
             && From(p, q, 9, 39) && From(p, q, 1, 40) && From(p, q, 59, 41) && From(p, q, 51, 42)
             && From(p, q, 43, 43) && From(p, q, 35, 44) && From(p, q, 27, 45) && From(p, q, 19, 46)
             && From(p, q, 11, 47) && From(p, q, 3, 48) && From(p, q, 61, 49) && From(p, q, 53, 50)
             && From(p, q, 45, 51) && From(p, q, 37, 52) && From(p, q, 29, 53) && From(p, q, 21, 54)
             && From(p, q, 13, 55) && From(p, q, 5, 56) && From(p, q, 63, 57) && From(p, q, 55, 58)
             && From(p, q, 47, 59) && From(p, q, 39, 60) && From(p, q, 31, 61) && From(p, q, 23, 62)
             && From(p, q, 15, 63) && From(p, q, 7, 64)
    ensures forall n :: 1 <= n <= 64 ==> Moved(t, p, q, n)
  {
    hide At, From;
    InitialEntries(t);
    assert && Moved(t, p, q, 1) && Moved(t, p, q, 2) && Moved(t, p, q, 3) && Moved(t, p, q, 4) && Moved(t, p, q, 5)
            && Moved(t, p, q, 6) && Moved(t, p, q, 7) && Moved(t, p, q, 8) && Moved(t, p, q, 9) && Moved(t, p, q, 10)
            && Moved(t, p, q, 11) && Moved(t, p, q, 12) && Moved(t, p, q, 13) && Moved(t, p, q, 14)
            && Moved(t, p, q, 15) && Moved(t, p, q, 16) && Moved(t, p, q, 17) && Moved(t, p, q, 18)
            && Moved(t, p, q, 19) && Moved(t, p, q, 20) && Moved(t, p, q, 21) && Moved(t, p, q, 22)
            && Moved(t, p, q, 23) && Moved(t, p, q, 24) && Moved(t, p, q, 25) && Moved(t, p, q, 26)
            && Moved(t, p, q, 27) && Moved(t, p, q, 28) && Moved(t, p, q, 29) && Moved(t, p, q, 30)
            && Moved(t, p, q, 31) && Moved(t, p, q, 32) && Moved(t, p, q, 33) && Moved(t, p, q, 34)
            && Moved(t, p, q, 35) && Moved(t, p, q, 36) && Moved(t, p, q, 37) && Moved(t, p, q, 38)
            && Moved(t, p, q, 39) && Moved(t, p, q, 40) && Moved(t, p, q, 41) && Moved(t, p, q, 42)
            && Moved(t, p, q, 43) && Moved(t, p, q, 44) && Moved(t, p, q, 45) && Moved(t, p, q, 46)
            && Moved(t, p, q, 47) && Moved(t, p, q, 48) && Moved(t, p, q, 49) && Moved(t, p, q, 50)
            && Moved(t, p, q, 51) && Moved(t, p, q, 52) && Moved(t, p, q, 53) && Moved(t, p, q, 54)
            && Moved(t, p, q, 55) && Moved(t, p, q, 56) && Moved(t, p, q, 57) && Moved(t, p, q, 58)
            && Moved(t, p, q, 59) && Moved(t, p, q, 60) && Moved(t, p, q, 61) && Moved(t, p, q, 62)
            && Moved(t, p, q, 63) && Moved(t, p, q, 64);
  }

  lemma InitialRows(p: Halves, t1: bv32, p1: Halves, t2: bv32, p2: Halves, t3: bv32, p3: Halves, t4: bv32, p4: Halves,
    w: bv32, t5: bv32, q: Halves)
    requires Crossed4(p, t1, p1) && Crossed16(p1, t2, p2) && Crossed2(p2, t3, p3) && Crossed8(p3, t4, p4) && Crossed0(p4, w, t5, q)
    ensures forall n :: 1 <= n <= 64 ==> Moved(INITIAL, p, q, n)
  {
    hide *;
    Crossing4(p, t1, p1);
    Crossing16(p1, t2, p2);
    Crossing2(p2, t3, p3);
    Crossing8(p3, t4, p4);
    Crossing0(p4, w, t5, q);
    InitialRow1(p, t1, p1, t2, p2, t3, p3, t4, p4, w, t5, q);
    InitialRow2(p, t1, p1, t2, p2, t3, p3, t4, p4, w, t5, q);
    InitialRow3(p, t1, p1, t2, p2, t3, p3, t4, p4, w, t5, q);
    InitialRow4(p, t1, p1, t2, p2, t3, p3, t4, p4, w, t5, q);
    InitialRow5(p, t1, p1, t2, p2, t3, p3, t4, p4, w, t5, q);
    InitialRow6(p, t1, p1, t2, p2, t3, p3, t4, p4, w, t5, q);
    InitialRow7(p, t1, p1, t2, p2, t3, p3, t4, p4, w, t5, q);
    InitialRow8(p, t1, p1, t2, p2, t3, p3, t4, p4, w, t5, q);
    InitialBits1(p, q);
    InitialBits2(p, q);
    InitialBits3(p, q);
    InitialBits4(p, q);
    InitialBits5(p, q);
    InitialBits6(p, q);
    InitialBits7(p, q);
    InitialBits8(p, q);
    AllFrom(INITIAL, p, q);
  }

  lemma T4Is(a: bv32, b: bv32)
    ensures T4(a, b) == ((a >> 4) ^ b) & 0x0F0F0F0F
  {}

  lemma T16Is(a: bv32, b: bv32)
    ensures T16(a, b) == ((a >> 16) ^ b) & 0x0000FFFF
  {}

  lemma T2Is(a: bv32, b: bv32)
    ensures T2(a, b) == ((a >> 2) ^ b) & 0x33333333
  {}

  lemma T8Is(a: bv32, b: bv32)
    ensures T8(a, b) == ((a >> 8) ^ b) & 0x00FF00FF
  {}

  lemma T0Is(a: bv32, b: bv32)
    ensures T0(a, b) == (a ^ b) & 0xAAAAAAAA
  {}

  lemma XorIs(a: bv32, b: bv32)
    ensures Xor(a, b) == a ^ b
  {}

  lemma Up4Is(x: bv32, t: bv32)
    ensures Xor(x, Up4(t)) == x ^ (t << 4)
  {}

  lemma Up16Is(x: bv32, t: bv32)
    ensures Xor(x, Up16(t)) == x ^ (t << 16)
  {}

  lemma Up2Is(x: bv32, t: bv32)
    ensures Xor(x, Up2(t)) == x ^ (t << 2)
  {}

  lemma Up8Is(x: bv32, t: bv32)
    ensures Xor(x, Up8(t)) == x ^ (t << 8)
  {}

  lemma RotateIs(w: bv32)
    ensures RotateLeft(w) == (w << 1) | (w >> 31)
  {}

  lemma Crosses4(p: Halves, t: bv32, q: Halves)
    requires t == ((p.x >> 4) ^ p.y) & 0x0F0F0F0F && q.x == p.x ^ (t << 4) && q.y == p.y ^ t
    ensures Crossed4(p, t, q)
  {}

  lemma Line4(p: Halves, t: bv32, q: Halves)
    requires t == T4(p.x, p.y) && q.x == Xor(p.x, Up4(t)) && q.y == Xor(p.y, t)
    ensures Crossed4(p, t, q)
  {
    hide *;
    T4Is(p.x, p.y);
    Up4Is(p.x, t);
    XorIs(p.y, t);
    Crosses4(p, t, q);
  }

  lemma Crosses16(p: Halves, t: bv32, q: Halves)
    requires t == ((p.x >> 16) ^ p.y) & 0x0000FFFF && q.x == p.x ^ (t << 16) && q.y == p.y ^ t
    ensures Crossed16(p, t, q)
  {}

  lemma Line16(p: Halves, t: bv32, q: Halves)
    requires t == T16(p.x, p.y) && q.x == Xor(p.x, Up16(t)) && q.y == Xor(p.y, t)
    ensures Crossed16(p, t, q)
  {
    hide *;
    T16Is(p.x, p.y);
    Up16Is(p.x, t);
    XorIs(p.y, t);
    Crosses16(p, t, q);
  }

  lemma Crosses2(p: Halves, t: bv32, q: Halves)
    requires t == ((p.y >> 2) ^ p.x) & 0x33333333 && q.x == p.x ^ t && q.y == p.y ^ (t << 2)
    ensures Crossed2(p, t, q)
  {}

  lemma Line2(p: Halves, t: bv32, q: Halves)
    requires t == T2(p.y, p.x) && q.x == Xor(p.x, t) && q.y == Xor(p.y, Up2(t))
    ensures Crossed2(p, t, q)
  {
    hide *;
    T2Is(p.y, p.x);
    XorIs(p.x, t);
    Up2Is(p.y, t);
    Crosses2(p, t, q);
  }

  lemma Crosses8(p: Halves, t: bv32, q: Halves)
    requires t == ((p.y >> 8) ^ p.x) & 0x00FF00FF && q.x == p.x ^ t && q.y == p.y ^ (t << 8)
    ensures Crossed8(p, t, q)
  {}

  lemma Line8(p: Halves, t: bv32, q: Halves)
    requires t == T8(p.y, p.x) && q.x == Xor(p.x, t) && q.y == Xor(p.y, Up8(t))
    ensures Crossed8(p, t, q)
  {
    hide *;
    T8Is(p.y, p.x);
    XorIs(p.x, t);
    Up8Is(p.y, t);
    Crosses8(p, t, q);
  }

  lemma Crosses0(p: Halves, w: bv32, t: bv32, q: Halves)
    requires w == (p.y << 1) | (p.y >> 31) && t == (p.x ^ w) & 0xAAAAAAAA
    requires q.x == p.x ^ t && w ^ t == (q.y << 1) | (q.y >> 31)
    ensures Crossed0(p, w, t, q)
  {}

  lemma Line0(p: Halves, w: bv32, t: bv32, q: Halves)
    requires w == RotateLeft(p.y) && t == T0(p.x, w) && q.x == Xor(p.x, t) && Xor(w, t) == RotateLeft(q.y)
    ensures Crossed0(p, w, t, q)
  {
    hide *;
    RotateIs(p.y);
    T0Is(p.x, w);
    XorIs(p.x, t);
    XorIs(w, t);
    RotateIs(q.y);
    Crosses0(p, w, t, q);
  }

  lemma Turns(w: bv32)
    ensures RotateRight(RotateLeft(w)) == w && RotateLeft(RotateRight(w)) == w
  {}

  lemma First(p: Halves)
    ensures Crossed4(p, T4(p.x, p.y), Move4(p)) && Crossed16(p, T16(p.x, p.y), Move16(p))
    ensures Crossed2(p, T2(p.y, p.x), Move2(p)) && Crossed8(p, T8(p.y, p.x), Move8(p))
  {
    First4(p);
    First16(p);
    First2(p);
    First8(p);
    hide *;
  }

  lemma First4(p: Halves)
    ensures Crossed4(p, T4(p.x, p.y), Move4(p))
  {
    hide T4, Up4, Xor, Crossed4;
    Line4(p, T4(p.x, p.y), Move4(p));
  }

  lemma First16(p: Halves)
    ensures Crossed16(p, T16(p.x, p.y), Move16(p))
  {
    hide T16, Up16, Xor, Crossed16;
    Line16(p, T16(p.x, p.y), Move16(p));
  }

  lemma First2(p: Halves)
    ensures Crossed2(p, T2(p.y, p.x), Move2(p))
  {
    hide T2, Up2, Xor, Crossed2;
    Line2(p, T2(p.y, p.x), Move2(p));
  }

  lemma First8(p: Halves)
    ensures Crossed8(p, T8(p.y, p.x), Move8(p))
  {
    hide T8, Up8, Xor, Crossed8;
    Line8(p, T8(p.y, p.x), Move8(p));
  }

  lemma Rest(p: Halves, w: bv32, r: Halves, q: Halves)
    requires w == RotateLeft(p.y) && r == Move0(Halves(p.x, w)) && q.x == r.x && r.y == RotateLeft(q.y)
    ensures Crossed0(p, w, T0(p.x, w), q)
  {
    hide T0, RotateLeft, Xor, Crossed0;
    Line0(p, w, T0(p.x, w), q);
  }

  /** The initial permutation moves every bit to where the table of FIPS 46-3 has it. */
  lemma InitialAll(p: Halves)
    ensures forall n :: 1 <= n <= 64 ==> Moved(INITIAL, p, Straight(IP(p)), n)
  {
    hide T4, T16, T2, T8, T0, Up4, Up16, Up2, Up8, Xor, RotateLeft, RotateRight, Moved;
    hide Crossed4, Crossed16, Crossed2, Crossed8, Crossed0;
    var p1 := Move4(p);
    var p2 := Move16(p1);
    var p3 := Move2(p2);
    var p4 := Move8(p3);
    var w := RotateLeft(p4.y);
    var p6 := Move0(Halves(p4.x, w));
    Turns(p6.x);
    Turns(p6.y);
    First(p);
    First(p1);
    First(p2);
    First(p3);
    Rest(p4, w, p6, Straight(IP(p)));
    InitialRows(p, T4(p.x, p.y), p1, T16(p1.x, p1.y), p2, T2(p2.y, p2.x), p3, T8(p3.y, p3.x), p4,
                w, T0(p4.x, w), Straight(IP(p)));
  }

  /** The number in the second table undoes that in the first. */
  predicate Undone(t: Table, u: Table, n: nat) {
    1 <= At(u, 8, n) <= 64 && At(t, 8, At(u, 8, n)) == n
  }

  lemma Undone1(t: Table, u: Table)
    requires t == INITIAL && u == FINAL
    ensures && Undone(t, u, 1) && Undone(t, u, 2) && Undone(t, u, 3) && Undone(t, u, 4) && Undone(t, u, 5)
            && Undone(t, u, 6) && Undone(t, u, 7) && Undone(t, u, 8) && Undone(t, u, 9) && Undone(t, u, 10)
            && Undone(t, u, 11) && Undone(t, u, 12) && Undone(t, u, 13) && Undone(t, u, 14) && Undone(t, u, 15)
            && Undone(t, u, 16)
  {}

  lemma Undone2(t: Table, u: Table)
    requires t == INITIAL && u == FINAL
    ensures && Undone(t, u, 17) && Undone(t, u, 18) && Undone(t, u, 19) && Undone(t, u, 20) && Undone(t, u, 21)
            && Undone(t, u, 22) && Undone(t, u, 23) && Undone(t, u, 24) && Undone(t, u, 25) && Undone(t, u, 26)
            && Undone(t, u, 27) && Undone(t, u, 28) && Undone(t, u, 29) && Undone(t, u, 30) && Undone(t, u, 31)
            && Undone(t, u, 32)
  {}

  lemma Undone3(t: Table, u: Table)
    requires t == INITIAL && u == FINAL
    ensures && Undone(t, u, 33) && Undone(t, u, 34) && Undone(t, u, 35) && Undone(t, u, 36) && Undone(t, u, 37)
            && Undone(t, u, 38) && Undone(t, u, 39) && Undone(t, u, 40) && Undone(t, u, 41) && Undone(t, u, 42)
            && Undone(t, u, 43) && Undone(t, u, 44) && Undone(t, u, 45) && Undone(t, u, 46) && Undone(t, u, 47)
            && Undone(t, u, 48)
  {}

  lemma Undone4(t: Table, u: Table)
    requires t == INITIAL && u == FINAL
    ensures && Undone(t, u, 49) && Undone(t, u, 50) && Undone(t, u, 51) && Undone(t, u, 52) && Undone(t, u, 53)
            && Undone(t, u, 54) && Undone(t, u, 55) && Undone(t, u, 56) && Undone(t, u, 57) && Undone(t, u, 58)
            && Undone(t, u, 59) && Undone(t, u, 60) && Undone(t, u, 61) && Undone(t, u, 62) && Undone(t, u, 63)
            && Undone(t, u, 64)
  {}

  lemma Sixteen(t: Table, u: Table, k: nat)
    requires && Undone(t, u, k + 1) && Undone(t, u, k + 2) && Undone(t, u, k + 3) && Undone(t, u, k + 4)
             && Undone(t, u, k + 5) && Undone(t, u, k + 6) && Undone(t, u, k + 7) && Undone(t, u, k + 8)
             && Undone(t, u, k + 9) && Undone(t, u, k + 10) && Undone(t, u, k + 11) && Undone(t, u, k + 12)
             && Undone(t, u, k + 13) && Undone(t, u, k + 14) && Undone(t, u, k + 15) && Undone(t, u, k + 16)
    ensures forall n :: k < n <= k + 16 ==> Undone(t, u, n)
  {
    hide *;
  }

  lemma UndoneAll(t: Table, u: Table)
    requires t == INITIAL && u == FINAL
    ensures forall n :: 1 <= n <= 64 ==> Undone(t, u, n)
  {
    hide *;
    Undone1(t, u);
    Sixteen(t, u, 0);
    Undone2(t, u);
    Sixteen(t, u, 16);
    Undone3(t, u);
    Sixteen(t, u, 32);
    Undone4(t, u);
    Sixteen(t, u, 48);
  }

  /** The final permutation does too, since it undoes the initial one. */
  lemma FinalAll(p: Halves)
    ensures forall n :: 1 <= n <= 64 ==> Moved(FINAL, Straight(p), FP(p), n)
  {
    hide IP, FP, At, BlockBit, Straight, Undone;
    IPInvertsFP(p);
    InitialAll(FP(p));
    UndoneAll(INITIAL, FINAL);
    forall n | 1 <= n <= 64
      ensures Moved(FINAL, Straight(p), FP(p), n)
    {
      UndoneIs(INITIAL, FINAL, n);
      assert Moved(INITIAL, FP(p), Straight(p), At(FINAL, 8, n));
    }
  }

  lemma UndoneIs(t: Table, u: Table, n: nat)
    requires Undone(t, u, n)
    ensures 1 <= At(u, 8, n) <= 64 && At(t, 8, At(u, 8, n)) == n
  {}

  // ---------------------------------------------------------------- the cipher function

  function Xor6(a: bv6, b: bv6): bv6 {
    a ^ b
  }

  lemma SixPlus(a: bool, b: bool, c: bool, d: bool, e: bool, f: bool, a': bool, b': bool, c': bool, d': bool, e': bool, f': bool)
    ensures Six(a != a', b != b', c != c', d != d', e != e', f != f') == Xor6(Six(a, b, c, d, e, f), Six(a', b', c', d', e', f'))
  {}

  lemma GroupPlus(a: Bits, b: Bits, k: nat)
    ensures Group(Plus(a, b), k) == Xor6(Group(a, k), Group(b, k))
  {
    hide Six, Plus, Xor6;
    PlusAt(a, b, k + 1);
    PlusAt(a, b, k + 2);
    PlusAt(a, b, k + 3);
    PlusAt(a, b, k + 4);
    PlusAt(a, b, k + 5);
    PlusAt(a, b, k + 6);
    SixPlus(a(k + 1), a(k + 2), a(k + 3), a(k + 4), a(k + 5), a(k + 6), b(k + 1), b(k + 2), b(k + 3), b(k + 4), b(k + 5), b(k + 6));
  }

  /** A row of a table with six columns is a group. */
  lemma RowGroup(t: Table, b: Bits, k: nat, n1: nat, n2: nat, n3: nat, n4: nat, n5: nat, n6: nat)
    requires At(t, 6, k + 1) == n1 && At(t, 6, k + 2) == n2 && At(t, 6, k + 3) == n3
    requires At(t, 6, k + 4) == n4 && At(t, 6, k + 5) == n5 && At(t, 6, k + 6) == n6
    ensures Group(Permuted(t, 6, b), k) == Six(b(n1), b(n2), b(n3), b(n4), b(n5), b(n6))
  {
    hide Six, At;
  }

  lemma PlusAt(a: Bits, b: Bits, n: nat)
    ensures Plus(a, b)(n) == (a(n) != b(n))
  {}

  lemma SplitXor(a: bv32, b: bv32)
    ensures var s, t, u := Split(Xor(a, b)), Split(a), Split(b);
            s.a == Xor6(t.a, u.a) && s.b == Xor6(t.b, u.b) && s.c == Xor6(t.c, u.c) && s.d == Xor6(t.d, u.d)
  {}

  /** The groups of six that DES_ROUND takes from a half are rows of the table E. */
  lemma ExpansionWires(w: bv32, y: bv32, z: bv32)
    requires y == (w << 1) | (w >> 31) && z == (y << 28) | (y >> 4)
    ensures ((z >> 24) & 0x3F) as bv6
         == Six(w & 0x1 != 0, w & 0x80000000 != 0, w & 0x40000000 != 0, w & 0x20000000 != 0, w & 0x10000000 != 0, w & 0x8000000 != 0)
    ensures ((y >> 24) & 0x3F) as bv6
         == Six(w & 0x10000000 != 0, w & 0x8000000 != 0, w & 0x4000000 != 0, w & 0x2000000 != 0, w & 0x1000000 != 0, w & 0x800000 != 0)
    ensures ((z >> 16) & 0x3F) as bv6
         == Six(w & 0x1000000 != 0, w & 0x800000 != 0, w & 0x400000 != 0, w & 0x200000 != 0, w & 0x100000 != 0, w & 0x80000 != 0)
    ensures ((y >> 16) & 0x3F) as bv6
         == Six(w & 0x100000 != 0, w & 0x80000 != 0, w & 0x40000 != 0, w & 0x20000 != 0, w & 0x10000 != 0, w & 0x8000 != 0)
    ensures ((z >> 8) & 0x3F) as bv6
         == Six(w & 0x10000 != 0, w & 0x8000 != 0, w & 0x4000 != 0, w & 0x2000 != 0, w & 0x1000 != 0, w & 0x800 != 0)
    ensures ((y >> 8) & 0x3F) as bv6
         == Six(w & 0x1000 != 0, w & 0x800 != 0, w & 0x400 != 0, w & 0x200 != 0, w & 0x100 != 0, w & 0x80 != 0)
    ensures (z & 0x3F) as bv6
         == Six(w & 0x100 != 0, w & 0x80 != 0, w & 0x40 != 0, w & 0x20 != 0, w & 0x10 != 0, w & 0x8 != 0)
    ensures (y & 0x3F) as bv6
         == Six(w & 0x10 != 0, w & 0x8 != 0, w & 0x4 != 0, w & 0x2 != 0, w & 0x1 != 0, w & 0x80000000 != 0)
  {}

  lemma ExpansionEntries(t: Table)
    requires t == EXPANSION
    ensures && At(t, 6, 1) == 32 && At(t, 6, 2) == 1 && At(t, 6, 3) == 2 && At(t, 6, 4) == 3 && At(t, 6, 5) == 4
            && At(t, 6, 6) == 5 && At(t, 6, 7) == 4 && At(t, 6, 8) == 5 && At(t, 6, 9) == 6 && At(t, 6, 10) == 7
            && At(t, 6, 11) == 8 && At(t, 6, 12) == 9 && At(t, 6, 13) == 8 && At(t, 6, 14) == 9 && At(t, 6, 15) == 10
            && At(t, 6, 16) == 11 && At(t, 6, 17) == 12 && At(t, 6, 18) == 13 && At(t, 6, 19) == 12
            && At(t, 6, 20) == 13 && At(t, 6, 21) == 14 && At(t, 6, 22) == 15 && At(t, 6, 23) == 16
            && At(t, 6, 24) == 17 && At(t, 6, 25) == 16 && At(t, 6, 26) == 17 && At(t, 6, 27) == 18
            && At(t, 6, 28) == 19 && At(t, 6, 29) == 20 && At(t, 6, 30) == 21 && At(t, 6, 31) == 20
            && At(t, 6, 32) == 21 && At(t, 6, 33) == 22 && At(t, 6, 34) == 23 && At(t, 6, 35) == 24
            && At(t, 6, 36) == 25 && At(t, 6, 37) == 24 && At(t, 6, 38) == 25 && At(t, 6, 39) == 26
            && At(t, 6, 40) == 27 && At(t, 6, 41) == 28 && At(t, 6, 42) == 29 && At(t, 6, 43) == 28
            && At(t, 6, 44) == 29 && At(t, 6, 45) == 30 && At(t, 6, 46) == 31 && At(t, 6, 47) == 32
            && At(t, 6, 48) == 1
  {}

  lemma ExpansionRows(t: Table, b: Bits)
    requires t == EXPANSION
    ensures Group(Permuted(t, 6, b), 0) == Six(b(32), b(1), b(2), b(3), b(4), b(5))
    ensures Group(Permuted(t, 6, b), 6) == Six(b(4), b(5), b(6), b(7), b(8), b(9))
    ensures Group(Permuted(t, 6, b), 12) == Six(b(8), b(9), b(10), b(11), b(12), b(13))
    ensures Group(Permuted(t, 6, b), 18) == Six(b(12), b(13), b(14), b(15), b(16), b(17))
    ensures Group(Permuted(t, 6, b), 24) == Six(b(16), b(17), b(18), b(19), b(20), b(21))
    ensures Group(Permuted(t, 6, b), 30) == Six(b(20), b(21), b(22), b(23), b(24), b(25))
    ensures Group(Permuted(t, 6, b), 36) == Six(b(24), b(25), b(26), b(27), b(28), b(29))
    ensures Group(Permuted(t, 6, b), 42) == Six(b(28), b(29), b(30), b(31), b(32), b(1))
  {
    hide *;
    ExpansionEntries(t);
    RowGroup(t, b, 0, 32, 1, 2, 3, 4, 5);
    RowGroup(t, b, 6, 4, 5, 6, 7, 8, 9);
    RowGroup(t, b, 12, 8, 9, 10, 11, 12, 13);
    RowGroup(t, b, 18, 12, 13, 14, 15, 16, 17);
    RowGroup(t, b, 24, 16, 17, 18, 19, 20, 21);
    RowGroup(t, b, 30, 20, 21, 22, 23, 24, 25);
    RowGroup(t, b, 36, 24, 25, 26, 27, 28, 29);
    RowGroup(t, b, 42, 28, 29, 30, 31, 32, 1);
  }

  lemma ExpansionBits1(w: bv32)
    ensures Six(Bit(w, 32), Bit(w, 1), Bit(w, 2), Bit(w, 3), Bit(w, 4), Bit(w, 5)) ==
            Six(w & 0x1 != 0, w & 0x80000000 != 0, w & 0x40000000 != 0, w & 0x20000000 != 0, w & 0x10000000 != 0, w & 0x8000000 != 0)
    ensures Six(Bit(w, 4), Bit(w, 5), Bit(w, 6), Bit(w, 7), Bit(w, 8), Bit(w, 9)) ==
            Six(w & 0x10000000 != 0, w & 0x8000000 != 0, w & 0x4000000 != 0, w & 0x2000000 != 0, w & 0x1000000 != 0, w & 0x800000 != 0)
    ensures Six(Bit(w, 8), Bit(w, 9), Bit(w, 10), Bit(w, 11), Bit(w, 12), Bit(w, 13)) ==
            Six(w & 0x1000000 != 0, w & 0x800000 != 0, w & 0x400000 != 0, w & 0x200000 != 0, w & 0x100000 != 0, w & 0x80000 != 0)
    ensures Six(Bit(w, 12), Bit(w, 13), Bit(w, 14), Bit(w, 15), Bit(w, 16), Bit(w, 17)) ==
            Six(w & 0x100000 != 0, w & 0x80000 != 0, w & 0x40000 != 0, w & 0x20000 != 0, w & 0x10000 != 0, w & 0x8000 != 0)
  {
    hide Six, Bit;
    BitRow1(w);
    BitRow2(w);
    BitRow3(w);
    BitRow4(w);
  }

  lemma ExpansionBits2(w: bv32)
    ensures Six(Bit(w, 16), Bit(w, 17), Bit(w, 18), Bit(w, 19), Bit(w, 20), Bit(w, 21)) ==
            Six(w & 0x10000 != 0, w & 0x8000 != 0, w & 0x4000 != 0, w & 0x2000 != 0, w & 0x1000 != 0, w & 0x800 != 0)
    ensures Six(Bit(w, 20), Bit(w, 21), Bit(w, 22), Bit(w, 23), Bit(w, 24), Bit(w, 25)) ==
            Six(w & 0x1000 != 0, w & 0x800 != 0, w & 0x400 != 0, w & 0x200 != 0, w & 0x100 != 0, w & 0x80 != 0)
    ensures Six(Bit(w, 24), Bit(w, 25), Bit(w, 26), Bit(w, 27), Bit(w, 28), Bit(w, 29)) ==
            Six(w & 0x100 != 0, w & 0x80 != 0, w & 0x40 != 0, w & 0x20 != 0, w & 0x10 != 0, w & 0x8 != 0)
    ensures Six(Bit(w, 28), Bit(w, 29), Bit(w, 30), Bit(w, 31), Bit(w, 32), Bit(w, 1)) ==
            Six(w & 0x10 != 0, w & 0x8 != 0, w & 0x4 != 0, w & 0x2 != 0, w & 0x1 != 0, w & 0x80000000 != 0)
  {
    hide Six, Bit;
    BitRow1(w);
    BitRow2(w);
    BitRow3(w);
    BitRow4(w);
  }

  lemma ExpansionIs(w: bv32, y: bv32, z: bv32)
    requires y == RotateLeft(w) && z == RotateRight4(y)
    ensures Six(Bit(w, 32), Bit(w, 1), Bit(w, 2), Bit(w, 3), Bit(w, 4), Bit(w, 5)) ==
            ((z >> 24) & 0x3F) as bv6
    ensures Six(Bit(w, 4), Bit(w, 5), Bit(w, 6), Bit(w, 7), Bit(w, 8), Bit(w, 9)) ==
            ((y >> 24) & 0x3F) as bv6
    ensures Six(Bit(w, 8), Bit(w, 9), Bit(w, 10), Bit(w, 11), Bit(w, 12), Bit(w, 13)) ==
            ((z >> 16) & 0x3F) as bv6
    ensures Six(Bit(w, 12), Bit(w, 13), Bit(w, 14), Bit(w, 15), Bit(w, 16), Bit(w, 17)) ==
            ((y >> 16) & 0x3F) as bv6
    ensures Six(Bit(w, 16), Bit(w, 17), Bit(w, 18), Bit(w, 19), Bit(w, 20), Bit(w, 21)) ==
            ((z >> 8) & 0x3F) as bv6
    ensures Six(Bit(w, 20), Bit(w, 21), Bit(w, 22), Bit(w, 23), Bit(w, 24), Bit(w, 25)) ==
            ((y >> 8) & 0x3F) as bv6
    ensures Six(Bit(w, 24), Bit(w, 25), Bit(w, 26), Bit(w, 27), Bit(w, 28), Bit(w, 29)) ==
            (z & 0x3F) as bv6
    ensures Six(Bit(w, 28), Bit(w, 29), Bit(w, 30), Bit(w, 31), Bit(w, 32), Bit(w, 1)) ==
            (y & 0x3F) as bv6
  {
    hide *;
    RotateIs(w);
    Rotate4Is(y);
    ExpansionWires(w, y, z);
    ExpansionBits1(w);
    ExpansionBits2(w);
  }

  lemma Rotate4Is(y: bv32)
    ensures RotateRight4(y) == (y << 28) | (y >> 4)
  {}

  lemma ExpansionSplit(w: bv32, y: bv32, z: bv32)
    requires y == RotateLeft(w) && z == RotateRight4(y)
    ensures Six(Bit(w, 32), Bit(w, 1), Bit(w, 2), Bit(w, 3), Bit(w, 4), Bit(w, 5)) == Split(z).d
    ensures Six(Bit(w, 4), Bit(w, 5), Bit(w, 6), Bit(w, 7), Bit(w, 8), Bit(w, 9)) == Split(y).d
    ensures Six(Bit(w, 8), Bit(w, 9), Bit(w, 10), Bit(w, 11), Bit(w, 12), Bit(w, 13)) == Split(z).c
    ensures Six(Bit(w, 12), Bit(w, 13), Bit(w, 14), Bit(w, 15), Bit(w, 16), Bit(w, 17)) == Split(y).c
    ensures Six(Bit(w, 16), Bit(w, 17), Bit(w, 18), Bit(w, 19), Bit(w, 20), Bit(w, 21)) == Split(z).b
    ensures Six(Bit(w, 20), Bit(w, 21), Bit(w, 22), Bit(w, 23), Bit(w, 24), Bit(w, 25)) == Split(y).b
    ensures Six(Bit(w, 24), Bit(w, 25), Bit(w, 26), Bit(w, 27), Bit(w, 28), Bit(w, 29)) == Split(z).a
    ensures Six(Bit(w, 28), Bit(w, 29), Bit(w, 30), Bit(w, 31), Bit(w, 32), Bit(w, 1)) == Split(y).a
  {
    hide Six, Bit, RotateLeft, RotateRight4;
    ExpansionIs(w, y, z);
  }

  /** The two words of a subkey hold the groups of the key. */
  predicate KeyFits(k0: bv32, k1: bv32, key: Bits) {
    && Split(k1).d == Group(key, 0) && Split(k0).d == Group(key, 6) && Split(k1).c == Group(key, 12)
    && Split(k0).c == Group(key, 18) && Split(k1).b == Group(key, 24) && Split(k0).b == Group(key, 30)
    && Split(k1).a == Group(key, 36) && Split(k0).a == Group(key, 42)
  }

  lemma Xor6Swap(a: bv6, b: bv6)
    ensures Xor6(a, b) == Xor6(b, a)
  {}

  lemma SameWord(r: Bits, w: bv32, n: nat)
    requires Same(r, Word(w), 32) && 1 <= n <= 32
    ensures r(n) == Bit(w, n)
  {}

  lemma ExpansionSame(r: Bits, w: bv32)
    requires Same(r, Word(w), 32)
    ensures Six(r(32), r(1), r(2), r(3), r(4), r(5)) ==
            Six(Bit(w, 32), Bit(w, 1), Bit(w, 2), Bit(w, 3), Bit(w, 4), Bit(w, 5))
    ensures Six(r(4), r(5), r(6), r(7), r(8), r(9)) ==
            Six(Bit(w, 4), Bit(w, 5), Bit(w, 6), Bit(w, 7), Bit(w, 8), Bit(w, 9))
    ensures Six(r(8), r(9), r(10), r(11), r(12), r(13)) ==
            Six(Bit(w, 8), Bit(w, 9), Bit(w, 10), Bit(w, 11), Bit(w, 12), Bit(w, 13))
    ensures Six(r(12), r(13), r(14), r(15), r(16), r(17)) ==
            Six(Bit(w, 12), Bit(w, 13), Bit(w, 14), Bit(w, 15), Bit(w, 16), Bit(w, 17))
    ensures Six(r(16), r(17), r(18), r(19), r(20), r(21)) ==
            Six(Bit(w, 16), Bit(w, 17), Bit(w, 18), Bit(w, 19), Bit(w, 20), Bit(w, 21))
    ensures Six(r(20), r(21), r(22), r(23), r(24), r(25)) ==
            Six(Bit(w, 20), Bit(w, 21), Bit(w, 22), Bit(w, 23), Bit(w, 24), Bit(w, 25))
    ensures Six(r(24), r(25), r(26), r(27), r(28), r(29)) ==
            Six(Bit(w, 24), Bit(w, 25), Bit(w, 26), Bit(w, 27), Bit(w, 28), Bit(w, 29))
    ensures Six(r(28), r(29), r(30), r(31), r(32), r(1)) ==
            Six(Bit(w, 28), Bit(w, 29), Bit(w, 30), Bit(w, 31), Bit(w, 32), Bit(w, 1))
  {
    hide *;
    SameWord(r, w, 1); SameWord(r, w, 2); SameWord(r, w, 3); SameWord(r, w, 4);
    SameWord(r, w, 5); SameWord(r, w, 6); SameWord(r, w, 7); SameWord(r, w, 8);
    SameWord(r, w, 9); SameWord(r, w, 10); SameWord(r, w, 11); SameWord(r, w, 12);
    SameWord(r, w, 13); SameWord(r, w, 14); SameWord(r, w, 15); SameWord(r, w, 16);
    SameWord(r, w, 17); SameWord(r, w, 18); SameWord(r, w, 19); SameWord(r, w, 20);
    SameWord(r, w, 21); SameWord(r, w, 22); SameWord(r, w, 23); SameWord(r, w, 24);
    SameWord(r, w, 25); SameWord(r, w, 26); SameWord(r, w, 27); SameWord(r, w, 28);
    SameWord(r, w, 29); SameWord(r, w, 30); SameWord(r, w, 31); SameWord(r, w, 32);
  }

  lemma InputGroup(e: Bits, key: Bits, k: nat, u: bv6, v: bv6)
    requires Group(e, k) == u && Group(key, k) == v
    ensures Group(Plus(e, key), k) == Xor6(v, u)
  {
    hide *;
    GroupPlus(e, key, k);
    Xor6Swap(u, v);
  }

  /** What the S-boxes are given. */
  lemma Inputs(r: Bits, w: bv32, y: bv32, z: bv32, k0: bv32, k1: bv32, key: Bits)
    requires Same(r, Word(w), 32) && y == RotateLeft(w) && z == RotateRight4(y) && KeyFits(k0, k1, key)
    ensures var e := Plus(Permuted(EXPANSION, 6, r), key);
            var even, odd := Split(Xor(k0, y)), Split(Xor(k1, z));
            && Group(e, 0) == odd.d && Group(e, 6) == even.d && Group(e, 12) == odd.c && Group(e, 18) == even.c
            && Group(e, 24) == odd.b && Group(e, 30) == even.b && Group(e, 36) == odd.a && Group(e, 42) == even.a
  {
    hide Group, Plus, Permuted, Six, Bit, Same, Split, Xor, Xor6, RotateLeft, RotateRight4;
    ExpansionSame(r, w);
    ExpansionRows(EXPANSION, r);
    ExpansionSplit(w, y, z);
    var e := Permuted(EXPANSION, 6, r);
    InputGroup(e, key, 0, Split(z).d, Split(k1).d);
    InputGroup(e, key, 6, Split(y).d, Split(k0).d);
    InputGroup(e, key, 12, Split(z).c, Split(k1).c);
    InputGroup(e, key, 18, Split(y).c, Split(k0).c);
    InputGroup(e, key, 24, Split(z).b, Split(k1).b);
    InputGroup(e, key, 30, Split(y).b, Split(k0).b);
    InputGroup(e, key, 36, Split(z).a, Split(k1).a);
    InputGroup(e, key, 42, Split(y).a, Split(k0).a);
    SplitXor(k0, y);
    SplitXor(k1, z);
  }

  predicate XorFits(a: bv32, b: bv32, c: bv32, n: nat) {
    Bit(c, n) == (Bit(a, n) != Bit(b, n))
  }

  lemma XorWires(a: bv32, b: bv32, c: bv32)
    requires c == a ^ b
    ensures && (c & 0x80000000 != 0) == ((a & 0x80000000 != 0) != (b & 0x80000000 != 0))
            && (c & 0x40000000 != 0) == ((a & 0x40000000 != 0) != (b & 0x40000000 != 0))
            && (c & 0x20000000 != 0) == ((a & 0x20000000 != 0) != (b & 0x20000000 != 0))
            && (c & 0x10000000 != 0) == ((a & 0x10000000 != 0) != (b & 0x10000000 != 0))
            && (c & 0x8000000 != 0) == ((a & 0x8000000 != 0) != (b & 0x8000000 != 0))
            && (c & 0x4000000 != 0) == ((a & 0x4000000 != 0) != (b & 0x4000000 != 0))
            && (c & 0x2000000 != 0) == ((a & 0x2000000 != 0) != (b & 0x2000000 != 0))
            && (c & 0x1000000 != 0) == ((a & 0x1000000 != 0) != (b & 0x1000000 != 0))
    ensures && (c & 0x800000 != 0) == ((a & 0x800000 != 0) != (b & 0x800000 != 0))
            && (c & 0x400000 != 0) == ((a & 0x400000 != 0) != (b & 0x400000 != 0))
            && (c & 0x200000 != 0) == ((a & 0x200000 != 0) != (b & 0x200000 != 0))
            && (c & 0x100000 != 0) == ((a & 0x100000 != 0) != (b & 0x100000 != 0))
            && (c & 0x80000 != 0) == ((a & 0x80000 != 0) != (b & 0x80000 != 0))
            && (c & 0x40000 != 0) == ((a & 0x40000 != 0) != (b & 0x40000 != 0))
            && (c & 0x20000 != 0) == ((a & 0x20000 != 0) != (b & 0x20000 != 0))
            && (c & 0x10000 != 0) == ((a & 0x10000 != 0) != (b & 0x10000 != 0))
    ensures && (c & 0x8000 != 0) == ((a & 0x8000 != 0) != (b & 0x8000 != 0))
            && (c & 0x4000 != 0) == ((a & 0x4000 != 0) != (b & 0x4000 != 0))
            && (c & 0x2000 != 0) == ((a & 0x2000 != 0) != (b & 0x2000 != 0))
            && (c & 0x1000 != 0) == ((a & 0x1000 != 0) != (b & 0x1000 != 0))
            && (c & 0x800 != 0) == ((a & 0x800 != 0) != (b & 0x800 != 0))
            && (c & 0x400 != 0) == ((a & 0x400 != 0) != (b & 0x400 != 0))
            && (c & 0x200 != 0) == ((a & 0x200 != 0) != (b & 0x200 != 0))
            && (c & 0x100 != 0) == ((a & 0x100 != 0) != (b & 0x100 != 0))
    ensures && (c & 0x80 != 0) == ((a & 0x80 != 0) != (b & 0x80 != 0))
            && (c & 0x40 != 0) == ((a & 0x40 != 0) != (b & 0x40 != 0))
            && (c & 0x20 != 0) == ((a & 0x20 != 0) != (b & 0x20 != 0))
            && (c & 0x10 != 0) == ((a & 0x10 != 0) != (b & 0x10 != 0))
            && (c & 0x8 != 0) == ((a & 0x8 != 0) != (b & 0x8 != 0))
            && (c & 0x4 != 0) == ((a & 0x4 != 0) != (b & 0x4 != 0))
            && (c & 0x2 != 0) == ((a & 0x2 != 0) != (b & 0x2 != 0))
            && (c & 0x1 != 0) == ((a & 0x1 != 0) != (b & 0x1 != 0))
  {}

  lemma BitRow1(w: bv32)
    ensures && Bit(w, 1) == (w & 0x80000000 != 0) && Bit(w, 2) == (w & 0x40000000 != 0)
            && Bit(w, 3) == (w & 0x20000000 != 0) && Bit(w, 4) == (w & 0x10000000 != 0)
            && Bit(w, 5) == (w & 0x8000000 != 0) && Bit(w, 6) == (w & 0x4000000 != 0)
            && Bit(w, 7) == (w & 0x2000000 != 0) && Bit(w, 8) == (w & 0x1000000 != 0)
  {}

  lemma BitRow2(w: bv32)
    ensures && Bit(w, 9) == (w & 0x800000 != 0) && Bit(w, 10) == (w & 0x400000 != 0)
            && Bit(w, 11) == (w & 0x200000 != 0) && Bit(w, 12) == (w & 0x100000 != 0)
            && Bit(w, 13) == (w & 0x80000 != 0) && Bit(w, 14) == (w & 0x40000 != 0)
            && Bit(w, 15) == (w & 0x20000 != 0) && Bit(w, 16) == (w & 0x10000 != 0)
  {}

  lemma BitRow3(w: bv32)
    ensures && Bit(w, 17) == (w & 0x8000 != 0) && Bit(w, 18) == (w & 0x4000 != 0) && Bit(w, 19) == (w & 0x2000 != 0)
            && Bit(w, 20) == (w & 0x1000 != 0) && Bit(w, 21) == (w & 0x800 != 0) && Bit(w, 22) == (w & 0x400 != 0)
            && Bit(w, 23) == (w & 0x200 != 0) && Bit(w, 24) == (w & 0x100 != 0)
  {}

  lemma BitRow4(w: bv32)
    ensures && Bit(w, 25) == (w & 0x80 != 0) && Bit(w, 26) == (w & 0x40 != 0) && Bit(w, 27) == (w & 0x20 != 0)
            && Bit(w, 28) == (w & 0x10 != 0) && Bit(w, 29) == (w & 0x8 != 0) && Bit(w, 30) == (w & 0x4 != 0)
            && Bit(w, 31) == (w & 0x2 != 0) && Bit(w, 32) == (w & 0x1 != 0)
  {}

  lemma XorFits1(a: bv32, b: bv32, c: bv32)
    requires && (c & 0x80000000 != 0) == ((a & 0x80000000 != 0) != (b & 0x80000000 != 0))
            && (c & 0x40000000 != 0) == ((a & 0x40000000 != 0) != (b & 0x40000000 != 0))
            && (c & 0x20000000 != 0) == ((a & 0x20000000 != 0) != (b & 0x20000000 != 0))
            && (c & 0x10000000 != 0) == ((a & 0x10000000 != 0) != (b & 0x10000000 != 0))
            && (c & 0x8000000 != 0) == ((a & 0x8000000 != 0) != (b & 0x8000000 != 0))
            && (c & 0x4000000 != 0) == ((a & 0x4000000 != 0) != (b & 0x4000000 != 0))
            && (c & 0x2000000 != 0) == ((a & 0x2000000 != 0) != (b & 0x2000000 != 0))
            && (c & 0x1000000 != 0) == ((a & 0x1000000 != 0) != (b & 0x1000000 != 0))
    ensures && XorFits(a, b, c, 1) && XorFits(a, b, c, 2) && XorFits(a, b, c, 3) && XorFits(a, b, c, 4)
            && XorFits(a, b, c, 5) && XorFits(a, b, c, 6) && XorFits(a, b, c, 7) && XorFits(a, b, c, 8)
  {
    hide Bit;
    BitRow1(a);
    BitRow1(b);
    BitRow1(c);
  }

  lemma XorFits2(a: bv32, b: bv32, c: bv32)
    requires && (c & 0x800000 != 0) == ((a & 0x800000 != 0) != (b & 0x800000 != 0))
            && (c & 0x400000 != 0) == ((a & 0x400000 != 0) != (b & 0x400000 != 0))
            && (c & 0x200000 != 0) == ((a & 0x200000 != 0) != (b & 0x200000 != 0))
            && (c & 0x100000 != 0) == ((a & 0x100000 != 0) != (b & 0x100000 != 0))
            && (c & 0x80000 != 0) == ((a & 0x80000 != 0) != (b & 0x80000 != 0))
            && (c & 0x40000 != 0) == ((a & 0x40000 != 0) != (b & 0x40000 != 0))
            && (c & 0x20000 != 0) == ((a & 0x20000 != 0) != (b & 0x20000 != 0))
            && (c & 0x10000 != 0) == ((a & 0x10000 != 0) != (b & 0x10000 != 0))
    ensures && XorFits(a, b, c, 9) && XorFits(a, b, c, 10) && XorFits(a, b, c, 11) && XorFits(a, b, c, 12)
            && XorFits(a, b, c, 13) && XorFits(a, b, c, 14) && XorFits(a, b, c, 15) && XorFits(a, b, c, 16)
  {
    hide Bit;
    BitRow2(a);
    BitRow2(b);
    BitRow2(c);
  }

  lemma XorFits3(a: bv32, b: bv32, c: bv32)
    requires && (c & 0x8000 != 0) == ((a & 0x8000 != 0) != (b & 0x8000 != 0))
            && (c & 0x4000 != 0) == ((a & 0x4000 != 0) != (b & 0x4000 != 0))
            && (c & 0x2000 != 0) == ((a & 0x2000 != 0) != (b & 0x2000 != 0))
            && (c & 0x1000 != 0) == ((a & 0x1000 != 0) != (b & 0x1000 != 0))
            && (c & 0x800 != 0) == ((a & 0x800 != 0) != (b & 0x800 != 0))
            && (c & 0x400 != 0) == ((a & 0x400 != 0) != (b & 0x400 != 0))
            && (c & 0x200 != 0) == ((a & 0x200 != 0) != (b & 0x200 != 0))
            && (c & 0x100 != 0) == ((a & 0x100 != 0) != (b & 0x100 != 0))
    ensures && XorFits(a, b, c, 17) && XorFits(a, b, c, 18) && XorFits(a, b, c, 19) && XorFits(a, b, c, 20)
            && XorFits(a, b, c, 21) && XorFits(a, b, c, 22) && XorFits(a, b, c, 23) && XorFits(a, b, c, 24)
  {
    hide Bit;
    BitRow3(a);
    BitRow3(b);
    BitRow3(c);
  }

  lemma XorFits4(a: bv32, b: bv32, c: bv32)
    requires && (c & 0x80 != 0) == ((a & 0x80 != 0) != (b & 0x80 != 0))
            && (c & 0x40 != 0) == ((a & 0x40 != 0) != (b & 0x40 != 0))
            && (c & 0x20 != 0) == ((a & 0x20 != 0) != (b & 0x20 != 0))
            && (c & 0x10 != 0) == ((a & 0x10 != 0) != (b & 0x10 != 0))
            && (c & 0x8 != 0) == ((a & 0x8 != 0) != (b & 0x8 != 0))
            && (c & 0x4 != 0) == ((a & 0x4 != 0) != (b & 0x4 != 0))
            && (c & 0x2 != 0) == ((a & 0x2 != 0) != (b & 0x2 != 0))
            && (c & 0x1 != 0) == ((a & 0x1 != 0) != (b & 0x1 != 0))
    ensures && XorFits(a, b, c, 25) && XorFits(a, b, c, 26) && XorFits(a, b, c, 27) && XorFits(a, b, c, 28)
            && XorFits(a, b, c, 29) && XorFits(a, b, c, 30) && XorFits(a, b, c, 31) && XorFits(a, b, c, 32)
  {
    hide Bit;
    BitRow4(a);
    BitRow4(b);
    BitRow4(c);
  }

  lemma XorFitsAll(a: bv32, b: bv32, c: bv32)
    requires c == a ^ b
    ensures forall n :: 1 <= n <= 32 ==> XorFits(a, b, c, n)
  {
    hide *;
    XorWires(a, b, c);
    XorFits1(a, b, c);
    XorFits2(a, b, c);
    XorFits3(a, b, c);
    XorFits4(a, b, c);
  }

  lemma XorBit(a: bv32, b: bv32, n: nat)
    requires 1 <= n <= 32
    ensures Bit(Xor(a, b), n) == (Bit(a, n) != Bit(b, n))
  {
    hide Bit;
    XorFitsAll(a, b, Xor(a, b));
    assert XorFits(a, b, Xor(a, b), n);
  }

  lemma TurnXor(a: bv32, b: bv32)
    ensures RotateRight(Xor(a, b)) == Xor(RotateRight(a), RotateRight(b))
  {}

  /** Bit `n` of a table entry, turned back. */
  predicate Turned(v: bv32, n: nat) {
    Bit(RotateRight(v), n)
  }

  lemma TurnedXor(a: bv32, b: bv32, n: nat)
    requires 1 <= n <= 32
    ensures Turned(Xor(a, b), n) == (Turned(a, n) != Turned(b, n))
  {
    hide Bit, Xor, RotateRight;
    TurnXor(a, b);
    XorBit(RotateRight(a), RotateRight(b), n);
  }

  lemma EvenXor(s: SBoxes, t: Sextets)
    ensures Even(s, t) == Xor(Xor(Xor(s.sb8(t.a), s.sb6(t.b)), s.sb4(t.c)), s.sb2(t.d))
  {}

  lemma OddXor(s: SBoxes, t: Sextets)
    ensures Odd(s, t) == Xor(Xor(Xor(s.sb7(t.a), s.sb5(t.b)), s.sb3(t.c)), s.sb1(t.d))
  {}

  lemma FourTurned(a: bv32, b: bv32, c: bv32, d: bv32, n: nat)
    requires 1 <= n <= 32
    ensures Turned(Xor(Xor(Xor(a, b), c), d), n) == ((Turned(a, n) != Turned(b, n)) != (Turned(c, n) != Turned(d, n)))
  {
    hide *;
    TurnedXor(a, b, n);
    TurnedXor(Xor(a, b), c, n);
    TurnedXor(Xor(Xor(a, b), c), d, n);
  }

  lemma OutputBit(s: SBoxes, t: Sextets, u: Sextets, n: nat)
    requires 1 <= n <= 32
    ensures Turned(Xor(Even(s, t), Odd(s, u)), n) ==
            (((Turned(s.sb1(u.d), n) != Turned(s.sb2(t.d), n)) != (Turned(s.sb3(u.c), n) != Turned(s.sb4(t.c), n)))
             != ((Turned(s.sb5(u.b), n) != Turned(s.sb6(t.b), n)) != (Turned(s.sb7(u.a), n) != Turned(s.sb8(t.a), n))))
  {
    hide *;
    EvenXor(s, t);
    OddXor(s, u);
    FourTurned(s.sb8(t.a), s.sb6(t.b), s.sb4(t.c), s.sb2(t.d), n);
    FourTurned(s.sb7(u.a), s.sb5(u.b), s.sb3(u.c), s.sb1(u.d), n);
    TurnedXor(Even(s, t), Odd(s, u), n);
  }

  // ---------------------------------------------------------------- the key schedule

  /** The second exchange of the key, after the one it shares with the blocks. */
  predicate Crossed10(p: Halves, t: bv32, q: Halves) {
    t == (p.x ^ p.y) & 0x10101010 && q.x == p.x ^ t && q.y == p.y ^ t
  }

  lemma Crossing10(p: Halves, t: bv32, q: Halves)
    requires Crossed10(p, t, q)
    ensures t == (p.x ^ p.y) & 0x10101010 && q.x == p.x ^ t && q.y == p.y ^ t
  {}

  lemma ChoiceRow1(k: Halves, t1: bv32, p: Halves, t2: bv32, q: Halves, c: bv32)
    requires t1 == ((k.x >> 4) ^ k.y) & 0x0F0F0F0F && p.x == k.x ^ (t1 << 4) && p.y == k.y ^ t1
    requires t2 == (p.x ^ p.y) & 0x10101010 && q.x == p.x ^ t2 && q.y == p.y ^ t2
    requires c == SpreadLeft(q.y)
    ensures && (c & 0x8000000 != 0) == (k.x & 0x80 != 0) && (c & 0x4000000 != 0) == (k.x & 0x8000 != 0)
            && (c & 0x2000000 != 0) == (k.x & 0x800000 != 0) && (c & 0x1000000 != 0) == (k.x & 0x80000000 != 0)
            && (c & 0x800000 != 0) == (k.y & 0x80 != 0) && (c & 0x400000 != 0) == (k.y & 0x8000 != 0)
            && (c & 0x200000 != 0) == (k.y & 0x800000 != 0)
  {}

  lemma ChoiceRow2(k: Halves, t1: bv32, p: Halves, t2: bv32, q: Halves, c: bv32)
    requires t1 == ((k.x >> 4) ^ k.y) & 0x0F0F0F0F && p.x == k.x ^ (t1 << 4) && p.y == k.y ^ t1
    requires t2 == (p.x ^ p.y) & 0x10101010 && q.x == p.x ^ t2 && q.y == p.y ^ t2
    requires c == SpreadLeft(q.y)
    ensures && (c & 0x100000 != 0) == (k.y & 0x80000000 != 0) && (c & 0x80000 != 0) == (k.x & 0x40 != 0)
            && (c & 0x40000 != 0) == (k.x & 0x4000 != 0) && (c & 0x20000 != 0) == (k.x & 0x400000 != 0)
            && (c & 0x10000 != 0) == (k.x & 0x40000000 != 0) && (c & 0x8000 != 0) == (k.y & 0x40 != 0)
            && (c & 0x4000 != 0) == (k.y & 0x4000 != 0)
  {}

  lemma ChoiceRow3(k: Halves, t1: bv32, p: Halves, t2: bv32, q: Halves, c: bv32)
    requires t1 == ((k.x >> 4) ^ k.y) & 0x0F0F0F0F && p.x == k.x ^ (t1 << 4) && p.y == k.y ^ t1
    requires t2 == (p.x ^ p.y) & 0x10101010 && q.x == p.x ^ t2 && q.y == p.y ^ t2
    requires c == SpreadLeft(q.y)
    ensures && (c & 0x2000 != 0) == (k.y & 0x400000 != 0) && (c & 0x1000 != 0) == (k.y & 0x40000000 != 0)
            && (c & 0x800 != 0) == (k.x & 0x20 != 0) && (c & 0x400 != 0) == (k.x & 0x2000 != 0)
            && (c & 0x200 != 0) == (k.x & 0x200000 != 0) && (c & 0x100 != 0) == (k.x & 0x20000000 != 0)
            && (c & 0x80 != 0) == (k.y & 0x20 != 0)
  {}

  lemma ChoiceRow4(k: Halves, t1: bv32, p: Halves, t2: bv32, q: Halves, c: bv32)
    requires t1 == ((k.x >> 4) ^ k.y) & 0x0F0F0F0F && p.x == k.x ^ (t1 << 4) && p.y == k.y ^ t1
    requires t2 == (p.x ^ p.y) & 0x10101010 && q.x == p.x ^ t2 && q.y == p.y ^ t2
    requires c == SpreadLeft(q.y)
    ensures && (c & 0x40 != 0) == (k.y & 0x2000 != 0) && (c & 0x20 != 0) == (k.y & 0x200000 != 0)
            && (c & 0x10 != 0) == (k.y & 0x20000000 != 0) && (c & 0x8 != 0) == (k.x & 0x10 != 0)
            && (c & 0x4 != 0) == (k.x & 0x1000 != 0) && (c & 0x2 != 0) == (k.x & 0x100000 != 0)
            && (c & 0x1 != 0) == (k.x & 0x10000000 != 0)
  {}

  lemma ChoiceRow5(k: Halves, t1: bv32, p: Halves, t2: bv32, q: Halves, d: bv32)
    requires t1 == ((k.x >> 4) ^ k.y) & 0x0F0F0F0F && p.x == k.x ^ (t1 << 4) && p.y == k.y ^ t1
    requires t2 == (p.x ^ p.y) & 0x10101010 && q.x == p.x ^ t2 && q.y == p.y ^ t2
    requires d == SpreadRight(q.x)
    ensures && (d & 0x8000000 != 0) == (k.x & 0x2 != 0) && (d & 0x4000000 != 0) == (k.x & 0x200 != 0)
            && (d & 0x2000000 != 0) == (k.x & 0x20000 != 0) && (d & 0x1000000 != 0) == (k.x & 0x2000000 != 0)
            && (d & 0x800000 != 0) == (k.y & 0x2 != 0) && (d & 0x400000 != 0) == (k.y & 0x200 != 0)
            && (d & 0x200000 != 0) == (k.y & 0x20000 != 0)
  {}

  lemma ChoiceRow6(k: Halves, t1: bv32, p: Halves, t2: bv32, q: Halves, d: bv32)
    requires t1 == ((k.x >> 4) ^ k.y) & 0x0F0F0F0F && p.x == k.x ^ (t1 << 4) && p.y == k.y ^ t1
    requires t2 == (p.x ^ p.y) & 0x10101010 && q.x == p.x ^ t2 && q.y == p.y ^ t2
    requires d == SpreadRight(q.x)
    ensures && (d & 0x100000 != 0) == (k.y & 0x2000000 != 0) && (d & 0x80000 != 0) == (k.x & 0x4 != 0)
            && (d & 0x40000 != 0) == (k.x & 0x400 != 0) && (d & 0x20000 != 0) == (k.x & 0x40000 != 0)
            && (d & 0x10000 != 0) == (k.x & 0x4000000 != 0) && (d & 0x8000 != 0) == (k.y & 0x4 != 0)
            && (d & 0x4000 != 0) == (k.y & 0x400 != 0)
  {}

  lemma ChoiceRow7(k: Halves, t1: bv32, p: Halves, t2: bv32, q: Halves, d: bv32)
    requires t1 == ((k.x >> 4) ^ k.y) & 0x0F0F0F0F && p.x == k.x ^ (t1 << 4) && p.y == k.y ^ t1
    requires t2 == (p.x ^ p.y) & 0x10101010 && q.x == p.x ^ t2 && q.y == p.y ^ t2
    requires d == SpreadRight(q.x)
    ensures && (d & 0x2000 != 0) == (k.y & 0x40000 != 0) && (d & 0x1000 != 0) == (k.y & 0x4000000 != 0)
            && (d & 0x800 != 0) == (k.x & 0x8 != 0) && (d & 0x400 != 0) == (k.x & 0x800 != 0)
            && (d & 0x200 != 0) == (k.x & 0x80000 != 0) && (d & 0x100 != 0) == (k.x & 0x8000000 != 0)
            && (d & 0x80 != 0) == (k.y & 0x8 != 0)
  {}

  lemma ChoiceRow8(k: Halves, t1: bv32, p: Halves, t2: bv32, q: Halves, d: bv32)
    requires t1 == ((k.x >> 4) ^ k.y) & 0x0F0F0F0F && p.x == k.x ^ (t1 << 4) && p.y == k.y ^ t1
    requires t2 == (p.x ^ p.y) & 0x10101010 && q.x == p.x ^ t2 && q.y == p.y ^ t2
    requires d == SpreadRight(q.x)
    ensures && (d & 0x40 != 0) == (k.y & 0x800 != 0) && (d & 0x20 != 0) == (k.y & 0x80000 != 0)
            && (d & 0x10 != 0) == (k.y & 0x8000000 != 0) && (d & 0x8 != 0) == (k.y & 0x10 != 0)
            && (d & 0x4 != 0) == (k.y & 0x1000 != 0) && (d & 0x2 != 0) == (k.y & 0x100000 != 0)
            && (d & 0x1 != 0) == (k.y & 0x10000000 != 0)
  {}

  /** Bit `n` of the key after the first choice, of which the halves are `c` and `d`. */
  predicate Chosen(t: Table, key: Halves, c: bv32, d: bv32, n: nat) {
    (if n <= 28 then Bit(c, n + 4) else Bit(d, n - 24)) == BlockBit(key, At(t, 7, n))
  }

  lemma ChoiceBits1(key: Halves, c: bv32, d: bv32)
    requires && (c & 0x8000000 != 0) == (key.y & 0x80 != 0) && (c & 0x4000000 != 0) == (key.y & 0x8000 != 0)
            && (c & 0x2000000 != 0) == (key.y & 0x800000 != 0) && (c & 0x1000000 != 0) == (key.y & 0x80000000 != 0)
            && (c & 0x800000 != 0) == (key.x & 0x80 != 0) && (c & 0x400000 != 0) == (key.x & 0x8000 != 0)
            && (c & 0x200000 != 0) == (key.x & 0x800000 != 0)
    ensures && Chosen(CHOICE1, key, c, d, 1) && Chosen(CHOICE1, key, c, d, 2) && Chosen(CHOICE1, key, c, d, 3)
            && Chosen(CHOICE1, key, c, d, 4) && Chosen(CHOICE1, key, c, d, 5) && Chosen(CHOICE1, key, c, d, 6)
            && Chosen(CHOICE1, key, c, d, 7)
  {}

  lemma ChoiceBits2(key: Halves, c: bv32, d: bv32)
    requires && (c & 0x100000 != 0) == (key.x & 0x80000000 != 0) && (c & 0x80000 != 0) == (key.y & 0x40 != 0)
            && (c & 0x40000 != 0) == (key.y & 0x4000 != 0) && (c & 0x20000 != 0) == (key.y & 0x400000 != 0)
            && (c & 0x10000 != 0) == (key.y & 0x40000000 != 0) && (c & 0x8000 != 0) == (key.x & 0x40 != 0)
            && (c & 0x4000 != 0) == (key.x & 0x4000 != 0)
    ensures && Chosen(CHOICE1, key, c, d, 8) && Chosen(CHOICE1, key, c, d, 9) && Chosen(CHOICE1, key, c, d, 10)
            && Chosen(CHOICE1, key, c, d, 11) && Chosen(CHOICE1, key, c, d, 12) && Chosen(CHOICE1, key, c, d, 13)
            && Chosen(CHOICE1, key, c, d, 14)
  {}

  lemma ChoiceBits3(key: Halves, c: bv32, d: bv32)
    requires && (c & 0x2000 != 0) == (key.x & 0x400000 != 0) && (c & 0x1000 != 0) == (key.x & 0x40000000 != 0)
            && (c & 0x800 != 0) == (key.y & 0x20 != 0) && (c & 0x400 != 0) == (key.y & 0x2000 != 0)
            && (c & 0x200 != 0) == (key.y & 0x200000 != 0) && (c & 0x100 != 0) == (key.y & 0x20000000 != 0)
            && (c & 0x80 != 0) == (key.x & 0x20 != 0)
    ensures && Chosen(CHOICE1, key, c, d, 15) && Chosen(CHOICE1, key, c, d, 16) && Chosen(CHOICE1, key, c, d, 17)
            && Chosen(CHOICE1, key, c, d, 18) && Chosen(CHOICE1, key, c, d, 19) && Chosen(CHOICE1, key, c, d, 20)
            && Chosen(CHOICE1, key, c, d, 21)
  {}

  lemma ChoiceBits4(key: Halves, c: bv32, d: bv32)
    requires && (c & 0x40 != 0) == (key.x & 0x2000 != 0) && (c & 0x20 != 0) == (key.x & 0x200000 != 0)
            && (c & 0x10 != 0) == (key.x & 0x20000000 != 0) && (c & 0x8 != 0) == (key.y & 0x10 != 0)
            && (c & 0x4 != 0) == (key.y & 0x1000 != 0) && (c & 0x2 != 0) == (key.y & 0x100000 != 0)
            && (c & 0x1 != 0) == (key.y & 0x10000000 != 0)
    ensures && Chosen(CHOICE1, key, c, d, 22) && Chosen(CHOICE1, key, c, d, 23) && Chosen(CHOICE1, key, c, d, 24)
            && Chosen(CHOICE1, key, c, d, 25) && Chosen(CHOICE1, key, c, d, 26) && Chosen(CHOICE1, key, c, d, 27)
            && Chosen(CHOICE1, key, c, d, 28)
  {}

  lemma ChoiceBits5(key: Halves, c: bv32, d: bv32)
    requires && (d & 0x8000000 != 0) == (key.y & 0x2 != 0) && (d & 0x4000000 != 0) == (key.y & 0x200 != 0)
            && (d & 0x2000000 != 0) == (key.y & 0x20000 != 0) && (d & 0x1000000 != 0) == (key.y & 0x2000000 != 0)
            && (d & 0x800000 != 0) == (key.x & 0x2 != 0) && (d & 0x400000 != 0) == (key.x & 0x200 != 0)
            && (d & 0x200000 != 0) == (key.x & 0x20000 != 0)
    ensures && Chosen(CHOICE1, key, c, d, 29) && Chosen(CHOICE1, key, c, d, 30) && Chosen(CHOICE1, key, c, d, 31)
            && Chosen(CHOICE1, key, c, d, 32) && Chosen(CHOICE1, key, c, d, 33) && Chosen(CHOICE1, key, c, d, 34)
            && Chosen(CHOICE1, key, c, d, 35)
  {}

  lemma ChoiceBits6(key: Halves, c: bv32, d: bv32)
    requires && (d & 0x100000 != 0) == (key.x & 0x2000000 != 0) && (d & 0x80000 != 0) == (key.y & 0x4 != 0)
            && (d & 0x40000 != 0) == (key.y & 0x400 != 0) && (d & 0x20000 != 0) == (key.y & 0x40000 != 0)
            && (d & 0x10000 != 0) == (key.y & 0x4000000 != 0) && (d & 0x8000 != 0) == (key.x & 0x4 != 0)
            && (d & 0x4000 != 0) == (key.x & 0x400 != 0)
    ensures && Chosen(CHOICE1, key, c, d, 36) && Chosen(CHOICE1, key, c, d, 37) && Chosen(CHOICE1, key, c, d, 38)
            && Chosen(CHOICE1, key, c, d, 39) && Chosen(CHOICE1, key, c, d, 40) && Chosen(CHOICE1, key, c, d, 41)
            && Chosen(CHOICE1, key, c, d, 42)
  {}

  lemma ChoiceBits7(key: Halves, c: bv32, d: bv32)
    requires && (d & 0x2000 != 0) == (key.x & 0x40000 != 0) && (d & 0x1000 != 0) == (key.x & 0x4000000 != 0)
            && (d & 0x800 != 0) == (key.y & 0x8 != 0) && (d & 0x400 != 0) == (key.y & 0x800 != 0)
            && (d & 0x200 != 0) == (key.y & 0x80000 != 0) && (d & 0x100 != 0) == (key.y & 0x8000000 != 0)
            && (d & 0x80 != 0) == (key.x & 0x8 != 0)
    ensures && Chosen(CHOICE1, key, c, d, 43) && Chosen(CHOICE1, key, c, d, 44) && Chosen(CHOICE1, key, c, d, 45)
            && Chosen(CHOICE1, key, c, d, 46) && Chosen(CHOICE1, key, c, d, 47) && Chosen(CHOICE1, key, c, d, 48)
            && Chosen(CHOICE1, key, c, d, 49)
  {}

  lemma ChoiceBits8(key: Halves, c: bv32, d: bv32)
    requires && (d & 0x40 != 0) == (key.x & 0x800 != 0) && (d & 0x20 != 0) == (key.x & 0x80000 != 0)
            && (d & 0x10 != 0) == (key.x & 0x8000000 != 0) && (d & 0x8 != 0) == (key.x & 0x10 != 0)
            && (d & 0x4 != 0) == (key.x & 0x1000 != 0) && (d & 0x2 != 0) == (key.x & 0x100000 != 0)
            && (d & 0x1 != 0) == (key.x & 0x10000000 != 0)
    ensures && Chosen(CHOICE1, key, c, d, 50) && Chosen(CHOICE1, key, c, d, 51) && Chosen(CHOICE1, key, c, d, 52)
            && Chosen(CHOICE1, key, c, d, 53) && Chosen(CHOICE1, key, c, d, 54) && Chosen(CHOICE1, key, c, d, 55)
            && Chosen(CHOICE1, key, c, d, 56)
  {}

  lemma ChoiceLeft(key: Halves, t1: bv32, p: Halves, t2: bv32, q: Halves, c: bv32, d: bv32)
    requires Crossed4(Halves(key.y, key.x), t1, p) && Crossed10(p, t2, q) && c == SpreadLeft(q.y)
    ensures forall n :: 1 <= n <= 28 ==> Chosen(CHOICE1, key, c, d, n)
  {
    hide *;
    var k := Halves(key.y, key.x);
    Crossing4(k, t1, p);
    Crossing10(p, t2, q);
    ChoiceRow1(k, t1, p, t2, q, c);
    ChoiceRow2(k, t1, p, t2, q, c);
    ChoiceRow3(k, t1, p, t2, q, c);
    ChoiceRow4(k, t1, p, t2, q, c);
    ChoiceBits1(key, c, d);
    ChoiceBits2(key, c, d);
    ChoiceBits3(key, c, d);
    ChoiceBits4(key, c, d);
  }

  lemma ChoiceRight(key: Halves, t1: bv32, p: Halves, t2: bv32, q: Halves, c: bv32, d: bv32)
    requires Crossed4(Halves(key.y, key.x), t1, p) && Crossed10(p, t2, q) && d == SpreadRight(q.x)
    ensures forall n :: 29 <= n <= 56 ==> Chosen(CHOICE1, key, c, d, n)
  {
    hide *;
    var k := Halves(key.y, key.x);
    Crossing4(k, t1, p);
    Crossing10(p, t2, q);
    ChoiceRow5(k, t1, p, t2, q, d);
    ChoiceRow6(k, t1, p, t2, q, d);
    ChoiceRow7(k, t1, p, t2, q, d);
    ChoiceRow8(k, t1, p, t2, q, d);
    ChoiceBits5(key, c, d);
    ChoiceBits6(key, c, d);
    ChoiceBits7(key, c, d);
    ChoiceBits8(key, c, d);
  }

  lemma ChoiceRows(key: Halves, t1: bv32, p: Halves, t2: bv32, q: Halves, c: bv32, d: bv32)
    requires Crossed4(key.Swap(), t1, p) && Crossed10(p, t2, q) && c == SpreadLeft(q.y) && d == SpreadRight(q.x)
    ensures forall n :: 1 <= n <= 56 ==> Chosen(CHOICE1, key, c, d, n)
  {
    hide *;
    SwapIs(key);
    ChoiceLeft(key, t1, p, t2, q, c, d);
    ChoiceRight(key, t1, p, t2, q, c, d);
  }

  lemma SwapIs(p: Halves)
    ensures p.Swap() == Halves(p.y, p.x)
  {}

  lemma T10Is(a: bv32, b: bv32)
    ensures T10(a, b) == (a ^ b) & 0x10101010
  {}

  lemma Crosses10(p: Halves, t: bv32, q: Halves)
    requires t == (p.x ^ p.y) & 0x10101010 && q.x == p.x ^ t && q.y == p.y ^ t
    ensures Crossed10(p, t, q)
  {}

  lemma Line10(p: Halves, t: bv32, q: Halves)
    requires t == T10(p.x, p.y) && q.x == Xor(p.x, t) && q.y == Xor(p.y, t)
    ensures Crossed10(p, t, q)
  {
    hide *;
    T10Is(p.x, p.y);
    XorIs(p.x, t);
    XorIs(p.y, t);
    Crosses10(p, t, q);
  }

  lemma First10(p: Halves)
    ensures Crossed10(p, T10(p.x, p.y), Move10(p))
  {
    hide T10, Xor, Crossed10;
    Line10(p, T10(p.x, p.y), Move10(p));
  }

  /** The first choice takes every bit of the key from where the table of FIPS 46-3 has it. */
  lemma ChoiceAll(key: Halves)
    ensures var p := PermutedChoice1(key);
            forall n :: 1 <= n <= 56 ==> Chosen(CHOICE1, key, p.x, p.y, n)
  {
    hide Move4, Move10, T4, T10, SpreadLeft, SpreadRight, Crossed4, Crossed10, Chosen, Halves.Swap;
    var s := key.Swap();
    var p := Move4(s);
    First4(s);
    First10(p);
    var q := Move10(p);
    ChoiceRows(key, T4(s.x, s.y), p, T10(p.x, p.y), q, SpreadLeft(q.y), SpreadRight(q.x));
  }

  /** These bits are half a key as lib/des.c holds it, in the low 28 bits of a word. */
  predicate HalfHeld(b: Bits, w: bv32) {
    forall n :: 1 <= n <= 28 ==> b(n) == Bit(w, n + 4)
  }

  /** Bit `n` of half a key after a turn by one place. */
  predicate Turned1(w: bv32, v: bv32, n: nat) {
    Bit(v, n + 4) == Bit(w, if n + 1 <= 28 then n + 5 else n - 23)
  }

  lemma TurnWires1(w: bv32, v: bv32)
    requires w & 0x0FFFFFFF == w && v == ((w << 1) | (w >> 27)) & 0x0FFFFFFF
    ensures && (v & 0x8000000 != 0) == (w & 0x4000000 != 0) && (v & 0x4000000 != 0) == (w & 0x2000000 != 0)
            && (v & 0x2000000 != 0) == (w & 0x1000000 != 0) && (v & 0x1000000 != 0) == (w & 0x800000 != 0)
            && (v & 0x800000 != 0) == (w & 0x400000 != 0) && (v & 0x400000 != 0) == (w & 0x200000 != 0)
            && (v & 0x200000 != 0) == (w & 0x100000 != 0) && (v & 0x100000 != 0) == (w & 0x80000 != 0)
            && (v & 0x80000 != 0) == (w & 0x40000 != 0) && (v & 0x40000 != 0) == (w & 0x20000 != 0)
            && (v & 0x20000 != 0) == (w & 0x10000 != 0) && (v & 0x10000 != 0) == (w & 0x8000 != 0)
            && (v & 0x8000 != 0) == (w & 0x4000 != 0) && (v & 0x4000 != 0) == (w & 0x2000 != 0)
            && (v & 0x2000 != 0) == (w & 0x1000 != 0) && (v & 0x1000 != 0) == (w & 0x800 != 0)
            && (v & 0x800 != 0) == (w & 0x400 != 0) && (v & 0x400 != 0) == (w & 0x200 != 0)
            && (v & 0x200 != 0) == (w & 0x100 != 0) && (v & 0x100 != 0) == (w & 0x80 != 0)
            && (v & 0x80 != 0) == (w & 0x40 != 0) && (v & 0x40 != 0) == (w & 0x20 != 0)
            && (v & 0x20 != 0) == (w & 0x10 != 0) && (v & 0x10 != 0) == (w & 0x8 != 0)
            && (v & 0x8 != 0) == (w & 0x4 != 0) && (v & 0x4 != 0) == (w & 0x2 != 0)
            && (v & 0x2 != 0) == (w & 0x1 != 0) && (v & 0x1 != 0) == (w & 0x8000000 != 0)
  {}

  lemma TurnBits1A(w: bv32, v: bv32)
    requires && (v & 0x8000000 != 0) == (w & 0x4000000 != 0) && (v & 0x4000000 != 0) == (w & 0x2000000 != 0)
             && (v & 0x2000000 != 0) == (w & 0x1000000 != 0) && (v & 0x1000000 != 0) == (w & 0x800000 != 0)
             && (v & 0x800000 != 0) == (w & 0x400000 != 0) && (v & 0x400000 != 0) == (w & 0x200000 != 0)
             && (v & 0x200000 != 0) == (w & 0x100000 != 0) && (v & 0x100000 != 0) == (w & 0x80000 != 0)
             && (v & 0x80000 != 0) == (w & 0x40000 != 0) && (v & 0x40000 != 0) == (w & 0x20000 != 0)
             && (v & 0x20000 != 0) == (w & 0x10000 != 0) && (v & 0x10000 != 0) == (w & 0x8000 != 0)
             && (v & 0x8000 != 0) == (w & 0x4000 != 0) && (v & 0x4000 != 0) == (w & 0x2000 != 0)
    ensures && Turned1(w, v, 1) && Turned1(w, v, 2) && Turned1(w, v, 3) && Turned1(w, v, 4) && Turned1(w, v, 5)
            && Turned1(w, v, 6) && Turned1(w, v, 7) && Turned1(w, v, 8) && Turned1(w, v, 9) && Turned1(w, v, 10)
            && Turned1(w, v, 11) && Turned1(w, v, 12) && Turned1(w, v, 13) && Turned1(w, v, 14)
  {}

  lemma TurnBits1B(w: bv32, v: bv32)
    requires && (v & 0x2000 != 0) == (w & 0x1000 != 0) && (v & 0x1000 != 0) == (w & 0x800 != 0)
             && (v & 0x800 != 0) == (w & 0x400 != 0) && (v & 0x400 != 0) == (w & 0x200 != 0)
             && (v & 0x200 != 0) == (w & 0x100 != 0) && (v & 0x100 != 0) == (w & 0x80 != 0)
             && (v & 0x80 != 0) == (w & 0x40 != 0) && (v & 0x40 != 0) == (w & 0x20 != 0)
             && (v & 0x20 != 0) == (w & 0x10 != 0) && (v & 0x10 != 0) == (w & 0x8 != 0)
             && (v & 0x8 != 0) == (w & 0x4 != 0) && (v & 0x4 != 0) == (w & 0x2 != 0)
             && (v & 0x2 != 0) == (w & 0x1 != 0) && (v & 0x1 != 0) == (w & 0x8000000 != 0)
    ensures && Turned1(w, v, 15) && Turned1(w, v, 16) && Turned1(w, v, 17) && Turned1(w, v, 18) && Turned1(w, v, 19)
            && Turned1(w, v, 20) && Turned1(w, v, 21) && Turned1(w, v, 22) && Turned1(w, v, 23) && Turned1(w, v, 24)
            && Turned1(w, v, 25) && Turned1(w, v, 26) && Turned1(w, v, 27) && Turned1(w, v, 28)
  {}

  lemma TurnAll1(w: bv32, v: bv32)
    requires Half(w) && v == Turn1(w)
    ensures forall n :: 1 <= n <= 28 ==> Turned1(w, v, n)
  {
    hide *;
    TurnIs1(w, v);
    TurnWires1(w, v);
    TurnBits1A(w, v);
    TurnBits1B(w, v);
  }

  lemma TurnIs1(w: bv32, v: bv32)
    requires Half(w) && v == Turn1(w)
    ensures w & 0x0FFFFFFF == w && v == ((w << 1) | (w >> 27)) & 0x0FFFFFFF
  {}

  /** Bit `n` of half a key after a turn by two. */
  predicate Turned2(w: bv32, v: bv32, n: nat) {
    Bit(v, n + 4) == Bit(w, if n + 2 <= 28 then n + 6 else n - 22)
  }

  lemma TurnWires2(w: bv32, v: bv32)
    requires w & 0x0FFFFFFF == w && v == ((w << 2) | (w >> 26)) & 0x0FFFFFFF
    ensures && (v & 0x8000000 != 0) == (w & 0x2000000 != 0) && (v & 0x4000000 != 0) == (w & 0x1000000 != 0)
            && (v & 0x2000000 != 0) == (w & 0x800000 != 0) && (v & 0x1000000 != 0) == (w & 0x400000 != 0)
            && (v & 0x800000 != 0) == (w & 0x200000 != 0) && (v & 0x400000 != 0) == (w & 0x100000 != 0)
            && (v & 0x200000 != 0) == (w & 0x80000 != 0) && (v & 0x100000 != 0) == (w & 0x40000 != 0)
            && (v & 0x80000 != 0) == (w & 0x20000 != 0) && (v & 0x40000 != 0) == (w & 0x10000 != 0)
            && (v & 0x20000 != 0) == (w & 0x8000 != 0) && (v & 0x10000 != 0) == (w & 0x4000 != 0)
            && (v & 0x8000 != 0) == (w & 0x2000 != 0) && (v & 0x4000 != 0) == (w & 0x1000 != 0)
            && (v & 0x2000 != 0) == (w & 0x800 != 0) && (v & 0x1000 != 0) == (w & 0x400 != 0)
            && (v & 0x800 != 0) == (w & 0x200 != 0) && (v & 0x400 != 0) == (w & 0x100 != 0)
            && (v & 0x200 != 0) == (w & 0x80 != 0) && (v & 0x100 != 0) == (w & 0x40 != 0)
            && (v & 0x80 != 0) == (w & 0x20 != 0) && (v & 0x40 != 0) == (w & 0x10 != 0)
            && (v & 0x20 != 0) == (w & 0x8 != 0) && (v & 0x10 != 0) == (w & 0x4 != 0)
            && (v & 0x8 != 0) == (w & 0x2 != 0) && (v & 0x4 != 0) == (w & 0x1 != 0)
            && (v & 0x2 != 0) == (w & 0x8000000 != 0) && (v & 0x1 != 0) == (w & 0x4000000 != 0)
  {}

  lemma TurnBits2A(w: bv32, v: bv32)
    requires && (v & 0x8000000 != 0) == (w & 0x2000000 != 0) && (v & 0x4000000 != 0) == (w & 0x1000000 != 0)
             && (v & 0x2000000 != 0) == (w & 0x800000 != 0) && (v & 0x1000000 != 0) == (w & 0x400000 != 0)
             && (v & 0x800000 != 0) == (w & 0x200000 != 0) && (v & 0x400000 != 0) == (w & 0x100000 != 0)
             && (v & 0x200000 != 0) == (w & 0x80000 != 0) && (v & 0x100000 != 0) == (w & 0x40000 != 0)
             && (v & 0x80000 != 0) == (w & 0x20000 != 0) && (v & 0x40000 != 0) == (w & 0x10000 != 0)
             && (v & 0x20000 != 0) == (w & 0x8000 != 0) && (v & 0x10000 != 0) == (w & 0x4000 != 0)
             && (v & 0x8000 != 0) == (w & 0x2000 != 0) && (v & 0x4000 != 0) == (w & 0x1000 != 0)
    ensures && Turned2(w, v, 1) && Turned2(w, v, 2) && Turned2(w, v, 3) && Turned2(w, v, 4) && Turned2(w, v, 5)
            && Turned2(w, v, 6) && Turned2(w, v, 7) && Turned2(w, v, 8) && Turned2(w, v, 9) && Turned2(w, v, 10)
            && Turned2(w, v, 11) && Turned2(w, v, 12) && Turned2(w, v, 13) && Turned2(w, v, 14)
  {}

  lemma TurnBits2B(w: bv32, v: bv32)
    requires && (v & 0x2000 != 0) == (w & 0x800 != 0) && (v & 0x1000 != 0) == (w & 0x400 != 0)
             && (v & 0x800 != 0) == (w & 0x200 != 0) && (v & 0x400 != 0) == (w & 0x100 != 0)
             && (v & 0x200 != 0) == (w & 0x80 != 0) && (v & 0x100 != 0) == (w & 0x40 != 0)
             && (v & 0x80 != 0) == (w & 0x20 != 0) && (v & 0x40 != 0) == (w & 0x10 != 0)
             && (v & 0x20 != 0) == (w & 0x8 != 0) && (v & 0x10 != 0) == (w & 0x4 != 0)
             && (v & 0x8 != 0) == (w & 0x2 != 0) && (v & 0x4 != 0) == (w & 0x1 != 0)
             && (v & 0x2 != 0) == (w & 0x8000000 != 0) && (v & 0x1 != 0) == (w & 0x4000000 != 0)
    ensures && Turned2(w, v, 15) && Turned2(w, v, 16) && Turned2(w, v, 17) && Turned2(w, v, 18) && Turned2(w, v, 19)
            && Turned2(w, v, 20) && Turned2(w, v, 21) && Turned2(w, v, 22) && Turned2(w, v, 23) && Turned2(w, v, 24)
            && Turned2(w, v, 25) && Turned2(w, v, 26) && Turned2(w, v, 27) && Turned2(w, v, 28)
  {}

  lemma TurnAll2(w: bv32, v: bv32)
    requires Half(w) && v == Turn2(w)
    ensures forall n :: 1 <= n <= 28 ==> Turned2(w, v, n)
  {
    hide *;
    TurnIs2(w, v);
    TurnWires2(w, v);
    TurnBits2A(w, v);
    TurnBits2B(w, v);
  }

  lemma TurnIs2(w: bv32, v: bv32)
    requires Half(w) && v == Turn2(w)
    ensures w & 0x0FFFFFFF == w && v == ((w << 2) | (w >> 26)) & 0x0FFFFFFF
  {}

  lemma Turned1Is(w: bv32, v: bv32, n: nat)
    requires Turned1(w, v, n)
    ensures Bit(v, n + 4) == Bit(w, if n + 1 <= 28 then n + 5 else n - 23)
  {}

  lemma Turned2Is(w: bv32, v: bv32, n: nat)
    requires Turned2(w, v, n)
    ensures Bit(v, n + 4) == Bit(w, if n + 2 <= 28 then n + 6 else n - 22)
  {}

  lemma HalfHeldBit(b: Bits, w: bv32, n: nat)
    requires HalfHeld(b, w) && 1 <= n <= 28
    ensures b(n) == Bit(w, n + 4)
  {
    hide Bit;
  }

  lemma HalfHeldAll(b: Bits, w: bv32)
    requires forall n :: 1 <= n <= 28 ==> b(n) == Bit(w, n + 4)
    ensures HalfHeld(b, w)
  {
    hide Bit;
  }

  lemma ShiftedAt(b: Bits, k: nat, n: nat)
    ensures Shifted(b, k)(n) == if n + k <= 28 then b(n + k) else b(n + k - 28)
  {}

  lemma ShiftHeld1(b: Bits, w: bv32)
    requires HalfHeld(b, w) && Half(w)
    ensures HalfHeld(Shifted(b, 1), Turn1(w))
  {
    hide *;
    TurnAll1(w, Turn1(w));
    forall n | 1 <= n <= 28
      ensures Shifted(b, 1)(n) == Bit(Turn1(w), n + 4)
    {
      Turned1Is(w, Turn1(w), n);
      ShiftedAt(b, 1, n);
      HalfHeldBit(b, w, if n + 1 <= 28 then n + 1 else n - 27);
    }
    HalfHeldAll(Shifted(b, 1), Turn1(w));
  }

  lemma ShiftHeld2(b: Bits, w: bv32)
    requires HalfHeld(b, w) && Half(w)
    ensures HalfHeld(Shifted(b, 2), Turn2(w))
  {
    hide *;
    TurnAll2(w, Turn2(w));
    forall n | 1 <= n <= 28
      ensures Shifted(b, 2)(n) == Bit(Turn2(w), n + 4)
    {
      Turned2Is(w, Turn2(w), n);
      ShiftedAt(b, 2, n);
      HalfHeldBit(b, w, if n + 2 <= 28 then n + 2 else n - 26);
    }
    HalfHeldAll(Shifted(b, 2), Turn2(w));
  }

  lemma ShiftHeld(b: Bits, w: bv32, i: nat)
    requires HalfHeld(b, w) && Half(w) && i < 16
    ensures HalfHeld(Shifted(b, SHIFTS[i]), Turn(i, w)) && Half(Turn(i, w))
  {
    hide HalfHeld, Half, Turn1, Turn2, Shifted;
    ShiftHeld1(b, w);
    ShiftHeld2(b, w);
    Turn1Not(w);
    Turn2Not(w);
  }

  /** The groups of six in the subkey words are rows of the second choice. */
  lemma KeyWires(c: bv32, d: bv32, k0: bv32, k1: bv32)
    requires k0 == Key0(c, d) && k1 == Key1(c, d)
    ensures ((k1 >> 24) & 0x3F) as bv6 ==
            Six(c & 0x4000 != 0, c & 0x800 != 0, c & 0x20000 != 0, c & 0x10 != 0, c & 0x8000000 != 0, c & 0x800000 != 0)
    ensures ((k0 >> 24) & 0x3F) as bv6 ==
            Six(c & 0x2000000 != 0, c & 0x1 != 0, c & 0x2000 != 0, c & 0x400000 != 0, c & 0x80 != 0, c & 0x40000 != 0)
    ensures ((k1 >> 16) & 0x3F) as bv6 ==
            Six(c & 0x20 != 0, c & 0x200 != 0, c & 0x10000 != 0, c & 0x1000000 != 0, c & 0x4 != 0, c & 0x100000 != 0)
    ensures ((k0 >> 16) & 0x3F) as bv6 ==
            Six(c & 0x1000 != 0, c & 0x200000 != 0, c & 0x2 != 0, c & 0x100 != 0, c & 0x8000 != 0, c & 0x4000000 != 0)
    ensures ((k1 >> 8) & 0x3F) as bv6 ==
            Six(d & 0x8000 != 0, d & 0x10 != 0, d & 0x2000000 != 0, d & 0x80000 != 0, d & 0x200 != 0, d & 0x2 != 0)
    ensures ((k0 >> 8) & 0x3F) as bv6 ==
            Six(d & 0x4000000 != 0, d & 0x10000 != 0, d & 0x20 != 0, d & 0x800 != 0, d & 0x800000 != 0, d & 0x100 != 0)
    ensures (k1 & 0x3F) as bv6 ==
            Six(d & 0x1000 != 0, d & 0x80 != 0, d & 0x20000 != 0, d & 0x1 != 0, d & 0x400000 != 0, d & 0x8 != 0)
    ensures (k0 & 0x3F) as bv6 ==
            Six(d & 0x400 != 0, d & 0x4000 != 0, d & 0x40 != 0, d & 0x100000 != 0, d & 0x8000000 != 0, d & 0x1000000 != 0)
  {}

  lemma KeyBits1(c: bv32)
    ensures Six(Bit(c, 18), Bit(c, 21), Bit(c, 15), Bit(c, 28), Bit(c, 5), Bit(c, 9)) ==
            Six(c & 0x4000 != 0, c & 0x800 != 0, c & 0x20000 != 0, c & 0x10 != 0, c & 0x8000000 != 0, c & 0x800000 != 0)
    ensures Six(Bit(c, 7), Bit(c, 32), Bit(c, 19), Bit(c, 10), Bit(c, 25), Bit(c, 14)) ==
            Six(c & 0x2000000 != 0, c & 0x1 != 0, c & 0x2000 != 0, c & 0x400000 != 0, c & 0x80 != 0, c & 0x40000 != 0)
    ensures Six(Bit(c, 27), Bit(c, 23), Bit(c, 16), Bit(c, 8), Bit(c, 30), Bit(c, 12)) ==
            Six(c & 0x20 != 0, c & 0x200 != 0, c & 0x10000 != 0, c & 0x1000000 != 0, c & 0x4 != 0, c & 0x100000 != 0)
    ensures Six(Bit(c, 20), Bit(c, 11), Bit(c, 31), Bit(c, 24), Bit(c, 17), Bit(c, 6)) ==
            Six(c & 0x1000 != 0, c & 0x200000 != 0, c & 0x2 != 0, c & 0x100 != 0, c & 0x8000 != 0, c & 0x4000000 != 0)
  {
    hide Six, Bit;
    BitRow1(c);
    BitRow2(c);
    BitRow3(c);
    BitRow4(c);
  }

  lemma KeyBits2(d: bv32)
    ensures Six(Bit(d, 17), Bit(d, 28), Bit(d, 7), Bit(d, 13), Bit(d, 23), Bit(d, 31)) ==
            Six(d & 0x8000 != 0, d & 0x10 != 0, d & 0x2000000 != 0, d & 0x80000 != 0, d & 0x200 != 0, d & 0x2 != 0)
    ensures Six(Bit(d, 6), Bit(d, 16), Bit(d, 27), Bit(d, 21), Bit(d, 9), Bit(d, 24)) ==
            Six(d & 0x4000000 != 0, d & 0x10000 != 0, d & 0x20 != 0, d & 0x800 != 0, d & 0x800000 != 0, d & 0x100 != 0)
    ensures Six(Bit(d, 20), Bit(d, 25), Bit(d, 15), Bit(d, 32), Bit(d, 10), Bit(d, 29)) ==
            Six(d & 0x1000 != 0, d & 0x80 != 0, d & 0x20000 != 0, d & 0x1 != 0, d & 0x400000 != 0, d & 0x8 != 0)
    ensures Six(Bit(d, 22), Bit(d, 18), Bit(d, 26), Bit(d, 12), Bit(d, 5), Bit(d, 8)) ==
            Six(d & 0x400 != 0, d & 0x4000 != 0, d & 0x40 != 0, d & 0x100000 != 0, d & 0x8000000 != 0, d & 0x1000000 != 0)
  {
    hide Six, Bit;
    BitRow1(d);
    BitRow2(d);
    BitRow3(d);
    BitRow4(d);
  }

  lemma KeySplit(c: bv32, d: bv32, k0: bv32, k1: bv32)
    requires k0 == Key0(c, d) && k1 == Key1(c, d)
    ensures Split(k1).d ==
            Six(Bit(c, 18), Bit(c, 21), Bit(c, 15), Bit(c, 28), Bit(c, 5), Bit(c, 9))
    ensures Split(k0).d ==
            Six(Bit(c, 7), Bit(c, 32), Bit(c, 19), Bit(c, 10), Bit(c, 25), Bit(c, 14))
    ensures Split(k1).c ==
            Six(Bit(c, 27), Bit(c, 23), Bit(c, 16), Bit(c, 8), Bit(c, 30), Bit(c, 12))
    ensures Split(k0).c ==
            Six(Bit(c, 20), Bit(c, 11), Bit(c, 31), Bit(c, 24), Bit(c, 17), Bit(c, 6))
    ensures Split(k1).b ==
            Six(Bit(d, 17), Bit(d, 28), Bit(d, 7), Bit(d, 13), Bit(d, 23), Bit(d, 31))
    ensures Split(k0).b ==
            Six(Bit(d, 6), Bit(d, 16), Bit(d, 27), Bit(d, 21), Bit(d, 9), Bit(d, 24))
    ensures Split(k1).a ==
            Six(Bit(d, 20), Bit(d, 25), Bit(d, 15), Bit(d, 32), Bit(d, 10), Bit(d, 29))
    ensures Split(k0).a ==
            Six(Bit(d, 22), Bit(d, 18), Bit(d, 26), Bit(d, 12), Bit(d, 5), Bit(d, 8))
  {
    hide Six, Bit, Key0, Key1;
    KeyWires(c, d, k0, k1);
    KeyBits1(c);
    KeyBits2(d);
  }

  lemma Choice2Entries(t: Table)
    requires t == CHOICE2
    ensures && At(t, 6, 1) == 14 && At(t, 6, 2) == 17 && At(t, 6, 3) == 11 && At(t, 6, 4) == 24 && At(t, 6, 5) == 1
            && At(t, 6, 6) == 5 && At(t, 6, 7) == 3 && At(t, 6, 8) == 28 && At(t, 6, 9) == 15 && At(t, 6, 10) == 6
            && At(t, 6, 11) == 21 && At(t, 6, 12) == 10 && At(t, 6, 13) == 23 && At(t, 6, 14) == 19
            && At(t, 6, 15) == 12 && At(t, 6, 16) == 4 && At(t, 6, 17) == 26 && At(t, 6, 18) == 8
            && At(t, 6, 19) == 16 && At(t, 6, 20) == 7 && At(t, 6, 21) == 27 && At(t, 6, 22) == 20
            && At(t, 6, 23) == 13 && At(t, 6, 24) == 2 && At(t, 6, 25) == 41 && At(t, 6, 26) == 52
            && At(t, 6, 27) == 31 && At(t, 6, 28) == 37 && At(t, 6, 29) == 47 && At(t, 6, 30) == 55
            && At(t, 6, 31) == 30 && At(t, 6, 32) == 40 && At(t, 6, 33) == 51 && At(t, 6, 34) == 45
            && At(t, 6, 35) == 33 && At(t, 6, 36) == 48 && At(t, 6, 37) == 44 && At(t, 6, 38) == 49
            && At(t, 6, 39) == 39 && At(t, 6, 40) == 56 && At(t, 6, 41) == 34 && At(t, 6, 42) == 53
            && At(t, 6, 43) == 46 && At(t, 6, 44) == 42 && At(t, 6, 45) == 50 && At(t, 6, 46) == 36
            && At(t, 6, 47) == 29 && At(t, 6, 48) == 32
  {}

  lemma Choice2Rows(t: Table, b: Bits)
    requires t == CHOICE2
    ensures Group(Permuted(t, 6, b), 0) == Six(b(14), b(17), b(11), b(24), b(1), b(5))
    ensures Group(Permuted(t, 6, b), 6) == Six(b(3), b(28), b(15), b(6), b(21), b(10))
    ensures Group(Permuted(t, 6, b), 12) == Six(b(23), b(19), b(12), b(4), b(26), b(8))
    ensures Group(Permuted(t, 6, b), 18) == Six(b(16), b(7), b(27), b(20), b(13), b(2))
    ensures Group(Permuted(t, 6, b), 24) == Six(b(41), b(52), b(31), b(37), b(47), b(55))
    ensures Group(Permuted(t, 6, b), 30) == Six(b(30), b(40), b(51), b(45), b(33), b(48))
    ensures Group(Permuted(t, 6, b), 36) == Six(b(44), b(49), b(39), b(56), b(34), b(53))
    ensures Group(Permuted(t, 6, b), 42) == Six(b(46), b(42), b(50), b(36), b(29), b(32))
  {
    hide *;
    Choice2Entries(t);
    RowGroup(t, b, 0, 14, 17, 11, 24, 1, 5);
    RowGroup(t, b, 6, 3, 28, 15, 6, 21, 10);
    RowGroup(t, b, 12, 23, 19, 12, 4, 26, 8);
    RowGroup(t, b, 18, 16, 7, 27, 20, 13, 2);
    RowGroup(t, b, 24, 41, 52, 31, 37, 47, 55);
    RowGroup(t, b, 30, 30, 40, 51, 45, 33, 48);
    RowGroup(t, b, 36, 44, 49, 39, 56, 34, 53);
    RowGroup(t, b, 42, 46, 42, 50, 36, 29, 32);
  }

  lemma JoinedHalf(a: Bits, b: Bits, c: bv32, d: bv32, n: nat)
    requires HalfHeld(a, c) && HalfHeld(b, d) && 1 <= n <= 56
    ensures Joined(a, b, 28)(n) == if n <= 28 then Bit(c, n + 4) else Bit(d, n - 24)
  {
    hide Bit;
  }

  lemma JoinedRows1(a: Bits, b: Bits, c: bv32, d: bv32, j: Bits)
    requires HalfHeld(a, c) && HalfHeld(b, d) && j == Joined(a, b, 28)
    ensures Six(j(14), j(17), j(11), j(24), j(1), j(5)) ==
            Six(Bit(c, 18), Bit(c, 21), Bit(c, 15), Bit(c, 28), Bit(c, 5), Bit(c, 9))
    ensures Six(j(3), j(28), j(15), j(6), j(21), j(10)) ==
            Six(Bit(c, 7), Bit(c, 32), Bit(c, 19), Bit(c, 10), Bit(c, 25), Bit(c, 14))
    ensures Six(j(23), j(19), j(12), j(4), j(26), j(8)) ==
            Six(Bit(c, 27), Bit(c, 23), Bit(c, 16), Bit(c, 8), Bit(c, 30), Bit(c, 12))
    ensures Six(j(16), j(7), j(27), j(20), j(13), j(2)) ==
            Six(Bit(c, 20), Bit(c, 11), Bit(c, 31), Bit(c, 24), Bit(c, 17), Bit(c, 6))
  {
    hide *;
    JoinedHalf(a, b, c, d, 14); JoinedHalf(a, b, c, d, 17); JoinedHalf(a, b, c, d, 11);
    JoinedHalf(a, b, c, d, 24); JoinedHalf(a, b, c, d, 1); JoinedHalf(a, b, c, d, 5);
    JoinedHalf(a, b, c, d, 3); JoinedHalf(a, b, c, d, 28); JoinedHalf(a, b, c, d, 15);
    JoinedHalf(a, b, c, d, 6); JoinedHalf(a, b, c, d, 21); JoinedHalf(a, b, c, d, 10);
    JoinedHalf(a, b, c, d, 23); JoinedHalf(a, b, c, d, 19); JoinedHalf(a, b, c, d, 12);
    JoinedHalf(a, b, c, d, 4); JoinedHalf(a, b, c, d, 26); JoinedHalf(a, b, c, d, 8);
    JoinedHalf(a, b, c, d, 16); JoinedHalf(a, b, c, d, 7); JoinedHalf(a, b, c, d, 27);
    JoinedHalf(a, b, c, d, 20); JoinedHalf(a, b, c, d, 13); JoinedHalf(a, b, c, d, 2);
  }

  lemma JoinedRows2(a: Bits, b: Bits, c: bv32, d: bv32, j: Bits)
    requires HalfHeld(a, c) && HalfHeld(b, d) && j == Joined(a, b, 28)
    ensures Six(j(41), j(52), j(31), j(37), j(47), j(55)) ==
            Six(Bit(d, 17), Bit(d, 28), Bit(d, 7), Bit(d, 13), Bit(d, 23), Bit(d, 31))
    ensures Six(j(30), j(40), j(51), j(45), j(33), j(48)) ==
            Six(Bit(d, 6), Bit(d, 16), Bit(d, 27), Bit(d, 21), Bit(d, 9), Bit(d, 24))
    ensures Six(j(44), j(49), j(39), j(56), j(34), j(53)) ==
            Six(Bit(d, 20), Bit(d, 25), Bit(d, 15), Bit(d, 32), Bit(d, 10), Bit(d, 29))
    ensures Six(j(46), j(42), j(50), j(36), j(29), j(32)) ==
            Six(Bit(d, 22), Bit(d, 18), Bit(d, 26), Bit(d, 12), Bit(d, 5), Bit(d, 8))
  {
    hide *;
    JoinedHalf(a, b, c, d, 41); JoinedHalf(a, b, c, d, 52); JoinedHalf(a, b, c, d, 31);
    JoinedHalf(a, b, c, d, 37); JoinedHalf(a, b, c, d, 47); JoinedHalf(a, b, c, d, 55);
    JoinedHalf(a, b, c, d, 30); JoinedHalf(a, b, c, d, 40); JoinedHalf(a, b, c, d, 51);
    JoinedHalf(a, b, c, d, 45); JoinedHalf(a, b, c, d, 33); JoinedHalf(a, b, c, d, 48);
    JoinedHalf(a, b, c, d, 44); JoinedHalf(a, b, c, d, 49); JoinedHalf(a, b, c, d, 39);
    JoinedHalf(a, b, c, d, 56); JoinedHalf(a, b, c, d, 34); JoinedHalf(a, b, c, d, 53);
    JoinedHalf(a, b, c, d, 46); JoinedHalf(a, b, c, d, 42); JoinedHalf(a, b, c, d, 50);
    JoinedHalf(a, b, c, d, 36); JoinedHalf(a, b, c, d, 29); JoinedHalf(a, b, c, d, 32);
  }

  /** The two words made of the halves are the key that the second choice makes of them. */
  lemma KeyFitsHalves(a: Bits, b: Bits, c: bv32, d: bv32)
    requires HalfHeld(a, c) && HalfHeld(b, d)
    ensures KeyFits(Key0(c, d), Key1(c, d), Permuted(CHOICE2, 6, Joined(a, b, 28)))
  {
    hide Group, Permuted, Joined, Six, Bit, HalfHeld, Split, Key0, Key1, At;
    var j := Joined(a, b, 28);
    KeySplit(c, d, Key0(c, d), Key1(c, d));
    Choice2Rows(CHOICE2, j);
    JoinedRows1(a, b, c, d, j);
    JoinedRows2(a, b, c, d, j);
  }
}
