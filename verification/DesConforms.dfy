/** lib/des.c computes the triple DES of FIPS 46-3, in the CBC mode of NIST SP 800-38A. */
module DesConforms {
  import opened Bytes
  import opened Des
  import opened DesBits
  import opened DesFips
  import opened DesWires

  lemma BoxBit(s: SBoxes, v1: bv6, v2: bv6, v3: bv6, v4: bv6, v5: bv6, v6: bv6, v7: bv6, v8: bv6, n: nat)
    ensures Word(Box(s, 1, v1))(n) == Turned(s.sb1(v1), n) && Word(Box(s, 2, v2))(n) == Turned(s.sb2(v2), n)
    ensures Word(Box(s, 3, v3))(n) == Turned(s.sb3(v3), n) && Word(Box(s, 4, v4))(n) == Turned(s.sb4(v4), n)
    ensures Word(Box(s, 5, v5))(n) == Turned(s.sb5(v5), n) && Word(Box(s, 6, v6))(n) == Turned(s.sb6(v6), n)
    ensures Word(Box(s, 7, v7))(n) == Turned(s.sb7(v7), n) && Word(Box(s, 8, v8))(n) == Turned(s.sb8(v8), n)
  {
    hide Bit, RotateRight;
  }

  lemma PlusFour(a: Bits, b: Bits, c: Bits, d: Bits, n: nat)
    ensures Plus(Plus(a, b), Plus(c, d))(n) == ((a(n) != b(n)) != (c(n) != d(n)))
  {
    hide *;
    PlusAt(a, b, n);
    PlusAt(c, d, n);
    PlusAt(Plus(a, b), Plus(c, d), n);
  }

  lemma CipherBit(s: SBoxes, r: Bits, key: Bits, t: Sextets, u: Sextets, n: nat)
    requires var e := Plus(Permuted(EXPANSION, 6, r), key);
             && Group(e, 0) == u.d && Group(e, 6) == t.d && Group(e, 12) == u.c && Group(e, 18) == t.c
             && Group(e, 24) == u.b && Group(e, 30) == t.b && Group(e, 36) == u.a && Group(e, 42) == t.a
    ensures DesFips.Cipher(s, r, key)(n) ==
            (((Turned(s.sb1(u.d), n) != Turned(s.sb2(t.d), n)) != (Turned(s.sb3(u.c), n) != Turned(s.sb4(t.c), n)))
             != ((Turned(s.sb5(u.b), n) != Turned(s.sb6(t.b), n)) != (Turned(s.sb7(u.a), n) != Turned(s.sb8(t.a), n))))
  {
    hide Bit, Turned, Plus, Word, Box, Group, Permuted;
    BoxBit(s, u.d, t.d, u.c, t.c, u.b, t.b, u.a, t.a, n);
    var a, b := Word(Box(s, 1, u.d)), Word(Box(s, 2, t.d));
    var c, d := Word(Box(s, 3, u.c)), Word(Box(s, 4, t.c));
    var f, g := Word(Box(s, 5, u.b)), Word(Box(s, 6, t.b));
    var h, i := Word(Box(s, 7, u.a)), Word(Box(s, 8, t.a));
    PlusFour(a, b, c, d, n);
    PlusFour(f, g, h, i, n);
    PlusAt(Plus(Plus(a, b), Plus(c, d)), Plus(Plus(f, g), Plus(h, i)), n);
  }

  lemma FIs(s: SBoxes, y: bv32, z: bv32, k0: bv32, k1: bv32)
    requires z == RotateRight4(y)
    ensures F(s, y, k0, k1) == Xor(Even(s, Split(Xor(k0, y))), Odd(s, Split(Xor(k1, z))))
  {
    hide Xor, Even, Odd, Split, RotateRight4;
  }

  /** F computes the cipher function of the standard, on turned halves. */
  lemma CipherFits(s: SBoxes, r: Bits, y: bv32, k0: bv32, k1: bv32, key: Bits)
    requires Same(r, Word(RotateRight(y)), 32) && KeyFits(k0, k1, key)
    ensures Same(DesFips.Cipher(s, r, key), Word(RotateRight(F(s, y, k0, k1))), 32)
  {
    hide *;
    var z := RotateRight4(y);
    var t, u := Split(Xor(k0, y)), Split(Xor(k1, z));
    Turns(y);
    Inputs(r, RotateRight(y), y, z, k0, k1, key);
    FIs(s, y, z, k0, k1);
    forall n | 1 <= n <= 32
      ensures DesFips.Cipher(s, r, key)(n) == Turned(F(s, y, k0, k1), n)
    {
      CipherBit(s, r, key, t, u, n);
      OutputBit(s, t, u, n);
    }
    TurnedSame(DesFips.Cipher(s, r, key), F(s, y, k0, k1));
  }

  lemma TurnedSame(b: Bits, v: bv32)
    requires forall n :: 1 <= n <= 32 ==> b(n) == Turned(v, n)
    ensures Same(b, Word(RotateRight(v)), 32)
  {
    hide Bit, RotateRight;
  }

  // ---------------------------------------------------------------- the rounds

  /** These bits are the half of a block as lib/des.c holds it. */
  predicate Held(b: Bits, v: bv32) {
    Same(b, Word(RotateRight(v)), 32)
  }

  lemma HeldBit(b: Bits, v: bv32, n: nat)
    requires Held(b, v) && 1 <= n <= 32
    ensures b(n) == Turned(v, n)
  {
    hide Bit, RotateRight;
  }

  lemma HeldPlus(a: Bits, b: Bits, v: bv32, w: bv32)
    requires Held(a, v) && Held(b, w)
    ensures Held(Plus(a, b), Xor(v, w))
  {
    hide *;
    forall n | 1 <= n <= 32
      ensures Plus(a, b)(n) == Turned(Xor(v, w), n)
    {
      HeldBit(a, v, n);
      HeldBit(b, w, n);
      PlusAt(a, b, n);
      TurnedXor(v, w, n);
    }
    TurnedHeld(Plus(a, b), Xor(v, w));
  }

  lemma TurnedHeld(b: Bits, v: bv32)
    requires forall n :: 1 <= n <= 32 ==> b(n) == Turned(v, n)
    ensures Held(b, v)
  {
    hide Bit, RotateRight;
  }

  /** The words are the subkeys of the keys. */
  ghost predicate AllFit(sk: seq<bv32>, keys: seq<Bits>) {
    |sk| == 2 * |keys| && forall i :: 0 <= i < |keys| ==> KeyFits(sk[2 * i], sk[2 * i + 1], keys[i])
  }

  lemma AllFitTail(sk: seq<bv32>, keys: seq<Bits>)
    requires AllFit(sk, keys) && keys != []
    ensures KeyFits(sk[0], sk[1], keys[0]) && AllFit(sk[2..], keys[1..])
  {
    hide KeyFits;
    assert KeyFits(sk[2 * 0], sk[2 * 0 + 1], keys[0]);
    forall i | 0 <= i < |keys| - 1
      ensures KeyFits(sk[2..][2 * i], sk[2..][2 * i + 1], keys[1..][i])
    {
      assert KeyFits(sk[2 * (i + 1)], sk[2 * (i + 1) + 1], keys[i + 1]);
    }
  }

  lemma {:induction false} RoundsFit(s: SBoxes, sk: seq<bv32>, keys: seq<Bits>, p: Halves, l: Bits, r: Bits)
    requires AllFit(sk, keys) && Held(l, p.x) && Held(r, p.y)
    ensures |sk| % 2 == 0
    ensures var q, (a, b) := Des.Rounds(s, sk, p), DesFips.Rounds(s, keys, l, r);
            Held(a, q.x) && Held(b, q.y)
    decreases |keys|
  {
    hide KeyFits, Held, DesFips.Cipher, F, Xor, Plus;
    if keys != [] {
      hide AllFit;
      AllFitTail(sk, keys);
      CipherHeld(s, r, p.y, sk[0], sk[1], keys[0]);
      HeldPlus(l, DesFips.Cipher(s, r, keys[0]), p.x, F(s, p.y, sk[0], sk[1]));
      RoundsFit(s, sk[2..], keys[1..], Halves(p.y, Xor(p.x, F(s, p.y, sk[0], sk[1]))), r, Plus(l, DesFips.Cipher(s, r, keys[0])));
    }
  }

  lemma CipherHeld(s: SBoxes, r: Bits, y: bv32, k0: bv32, k1: bv32, key: Bits)
    requires Held(r, y) && KeyFits(k0, k1, key)
    ensures Held(DesFips.Cipher(s, r, key), F(s, y, k0, k1))
  {
    hide DesFips.Cipher, F, KeyFits, Same, Word, RotateRight;
    CipherFits(s, r, y, k0, k1, key);
  }

  // ---------------------------------------------------------------- one DES

  lemma MovedBit(t: Table, p: Halves, q: Halves, n: nat)
    requires Moved(t, p, q, n)
    ensures BlockBit(q, n) == BlockBit(p, At(t, 8, n))
  {}

  lemma SameBlock(b: Bits, p: Halves, n: nat)
    requires Same(b, Block(p), 64) && 1 <= n <= 64
    ensures b(n) == BlockBit(p, n)
  {
    hide BlockBit;
  }

  lemma InRange(t: Table, u: Table, n: nat)
    requires t == INITIAL && u == FINAL && 1 <= n <= 64
    ensures 1 <= At(t, 8, n) <= 64 && 1 <= At(u, 8, n) <= 64
  {
    hide *;
    InitialRange(t);
    UndoneAll(t, u);
    UndoneIs(t, u, n);
    assert Ranged(t, n);
    RangedIs(t, n);
  }

  predicate Ranged(t: Table, n: nat) {
    1 <= At(t, 8, n) <= 64
  }

  lemma RangedIs(t: Table, n: nat)
    requires Ranged(t, n)
    ensures 1 <= At(t, 8, n) <= 64
  {}

  lemma InitialRange(t: Table)
    requires t == INITIAL
    ensures forall n :: 1 <= n <= 64 ==> Ranged(t, n)
  {
    hide *;
    InitialRange1(t);
    InitialRange2(t);
    InitialRange3(t);
    InitialRange4(t);
  }

  lemma InitialRange1(t: Table)
    requires t == INITIAL
    ensures && Ranged(t, 1) && Ranged(t, 2) && Ranged(t, 3) && Ranged(t, 4) && Ranged(t, 5) && Ranged(t, 6)
            && Ranged(t, 7) && Ranged(t, 8) && Ranged(t, 9) && Ranged(t, 10) && Ranged(t, 11) && Ranged(t, 12)
            && Ranged(t, 13) && Ranged(t, 14) && Ranged(t, 15) && Ranged(t, 16)
  {}

  lemma InitialRange2(t: Table)
    requires t == INITIAL
    ensures && Ranged(t, 17) && Ranged(t, 18) && Ranged(t, 19) && Ranged(t, 20) && Ranged(t, 21) && Ranged(t, 22)
            && Ranged(t, 23) && Ranged(t, 24) && Ranged(t, 25) && Ranged(t, 26) && Ranged(t, 27) && Ranged(t, 28)
            && Ranged(t, 29) && Ranged(t, 30) && Ranged(t, 31) && Ranged(t, 32)
  {}

  lemma InitialRange3(t: Table)
    requires t == INITIAL
    ensures && Ranged(t, 33) && Ranged(t, 34) && Ranged(t, 35) && Ranged(t, 36) && Ranged(t, 37) && Ranged(t, 38)
            && Ranged(t, 39) && Ranged(t, 40) && Ranged(t, 41) && Ranged(t, 42) && Ranged(t, 43) && Ranged(t, 44)
            && Ranged(t, 45) && Ranged(t, 46) && Ranged(t, 47) && Ranged(t, 48)
  {}

  lemma InitialRange4(t: Table)
    requires t == INITIAL
    ensures && Ranged(t, 49) && Ranged(t, 50) && Ranged(t, 51) && Ranged(t, 52) && Ranged(t, 53) && Ranged(t, 54)
            && Ranged(t, 55) && Ranged(t, 56) && Ranged(t, 57) && Ranged(t, 58) && Ranged(t, 59) && Ranged(t, 60)
            && Ranged(t, 61) && Ranged(t, 62) && Ranged(t, 63) && Ranged(t, 64)
  {}

  lemma PermutedAt(t: Table, b: Bits, n: nat)
    ensures Permuted(t, 8, b)(n) == b(At(t, 8, n))
  {
    hide At;
  }

  /** A block after the initial permutation, in the two ways. */
  lemma InitialHeld(b: Bits, p: Halves)
    requires Same(b, Block(p), 64)
    ensures var q := Permuted(INITIAL, 8, b); Held(q, IP(p).x) && Held(Second(q, 32), IP(p).y)
  {
    hide *;
    InitialAll(p);
    var q, h := Permuted(INITIAL, 8, b), IP(p);
    forall n | 1 <= n <= 32
      ensures q(n) == Turned(h.x, n) && Second(q, 32)(n) == Turned(h.y, n)
    {
      InitialBit(b, p, q, h, n);
      InitialBit(b, p, q, h, n + 32);
      SecondAt(q, 32, n);
      StraightBit(h, n);
    }
    TurnedHeld(q, h.x);
    TurnedHeld(Second(q, 32), h.y);
  }

  lemma SecondAt(b: Bits, k: nat, n: nat)
    ensures Second(b, k)(n) == b(n + k)
  {}

  lemma StraightBit(h: Halves, n: nat)
    requires 1 <= n <= 32
    ensures BlockBit(Straight(h), n) == Turned(h.x, n) && BlockBit(Straight(h), n + 32) == Turned(h.y, n)
  {
    hide Bit, RotateRight;
  }

  lemma InitialBit(b: Bits, p: Halves, q: Bits, h: Halves, n: nat)
    requires Same(b, Block(p), 64) && q == Permuted(INITIAL, 8, b) && 1 <= n <= 64
    requires Moved(INITIAL, p, Straight(h), n)
    ensures q(n) == BlockBit(Straight(h), n)
  {
    hide *;
    InRange(INITIAL, FINAL, n);
    PermutedAt(INITIAL, b, n);
    MovedBit(INITIAL, p, Straight(h), n);
    SameBlock(b, p, At(INITIAL, 8, n));
  }

  /** The exchanged halves after the final permutation, in the two ways. */
  lemma FinalSame(l: Bits, r: Bits, p: Halves)
    requires Held(l, p.x) && Held(r, p.y)
    ensures Same(Permuted(FINAL, 8, Joined(l, r, 32)), Block(FP(p)), 64)
  {
    hide *;
    FinalAll(p);
    var j := Joined(l, r, 32);
    forall n | 1 <= n <= 64
      ensures Permuted(FINAL, 8, j)(n) == BlockBit(FP(p), n)
    {
      InRange(INITIAL, FINAL, n);
      PermutedAt(FINAL, j, n);
      MovedBit(FINAL, Straight(p), FP(p), n);
      JoinedBit(l, r, p, At(FINAL, 8, n));
    }
    BlockSame(Permuted(FINAL, 8, j), FP(p));
  }

  lemma BlockSame(b: Bits, p: Halves)
    requires forall n :: 1 <= n <= 64 ==> b(n) == BlockBit(p, n)
    ensures Same(b, Block(p), 64)
  {
    hide BlockBit;
  }

  lemma JoinedBit(l: Bits, r: Bits, p: Halves, n: nat)
    requires Held(l, p.x) && Held(r, p.y) && 1 <= n <= 64
    ensures Joined(l, r, 32)(n) == BlockBit(Straight(p), n)
  {
    hide Bit, RotateRight, Held;
    if n <= 32 {
      HeldBit(l, p.x, n);
    } else {
      HeldBit(r, p.y, n - 32);
    }
  }

  /** One DES: the rounds of lib/des.c between its permutations are the algorithm of the standard. */
  lemma AlgorithmFits(s: SBoxes, sk: seq<bv32>, keys: seq<Bits>, b: Bits, p: Halves)
    requires AllFit(sk, keys) && |sk| == 32 && Same(b, Block(p), 64)
    ensures Same(Algorithm(s, keys, b), Block(FP(Single(s, sk, IP(p)))), 64)
  {
    hide IP, FP, Des.Rounds, DesFips.Rounds, Held, AllFit, Permuted, Same, Block;
    InitialHeld(b, p);
    var q := Permuted(INITIAL, 8, b);
    RoundsFit(s, sk, keys, IP(p), q, Second(q, 32));
    var (l, r) := DesFips.Rounds(s, keys, q, Second(q, 32));
    FinalSame(r, l, Single(s, sk, IP(p)));
  }

  // ---------------------------------------------------------------- the key schedule as a whole

  lemma KeyHalfStep(b: Bits, i: nat)
    requires i < 16
    ensures KeyHalf(b, i + 1) == Shifted(KeyHalf(b, i), SHIFTS[i])
  {
    hide Shifted;
  }

  /** The keys from the `i`th on, and the words that the schedule writes for them. */
  lemma {:induction false} SubkeysFit(key: Bits, i: nat, c: bv32, d: bv32)
    requires i <= 16 && Half(c) && Half(d)
    requires var p := Permuted(CHOICE1, 7, key);
             HalfHeld(KeyHalf(p, i), c) && HalfHeld(KeyHalf(Second(p, 28), i), d)
    ensures AllFit(Subkeys(i, c, d), Keys(key)[i..])
    decreases 16 - i
  {
    hide Half, HalfHeld, KeyHalf, Shifted, Permuted, Second, Turn, Key0, Key1, KeyFits;
    if i < 16 {
      var p := Permuted(CHOICE1, 7, key);
      KeyHalfStep(p, i);
      KeyHalfStep(Second(p, 28), i);
      ShiftHeld(KeyHalf(p, i), c, i);
      ShiftHeld(KeyHalf(Second(p, 28), i), d, i);
      var c', d' := Turn(i, c), Turn(i, d);
      KeyFitsHalves(KeyHalf(p, i + 1), KeyHalf(Second(p, 28), i + 1), c', d');
      SubkeysFit(key, i + 1, c', d');
      AllFitCons(Key0(c', d'), Key1(c', d'), Keys(key)[i], Subkeys(i + 1, c', d'), Keys(key)[i + 1..]);
      assert [Keys(key)[i]] + Keys(key)[i + 1..] == Keys(key)[i..];
    }
  }

  lemma AllFitCons(k0: bv32, k1: bv32, key: Bits, sk: seq<bv32>, keys: seq<Bits>)
    requires KeyFits(k0, k1, key) && AllFit(sk, keys)
    ensures AllFit([k0, k1] + sk, [key] + keys)
  {
    hide KeyFits;
    forall i | 0 <= i < |keys| + 1
      ensures KeyFits(([k0, k1] + sk)[2 * i], ([k0, k1] + sk)[2 * i + 1], ([key] + keys)[i])
    {
      if i > 0 {
        assert KeyFits(sk[2 * (i - 1)], sk[2 * (i - 1) + 1], keys[i - 1]);
      }
    }
  }

  lemma ChosenBit(key: Halves, c: bv32, d: bv32, n: nat)
    requires Chosen(CHOICE1, key, c, d, n)
    ensures (if n <= 28 then Bit(c, n + 4) else Bit(d, n - 24)) == BlockBit(key, At(CHOICE1, 7, n))
  {}

  predicate Ranged1(t: Table, n: nat) {
    1 <= At(t, 7, n) <= 64
  }

  lemma Ranged1Is(t: Table, n: nat)
    requires Ranged1(t, n)
    ensures 1 <= At(t, 7, n) <= 64
  {}

  lemma Choice1Range(t: Table)
    requires t == CHOICE1
    ensures forall n :: 1 <= n <= 56 ==> Ranged1(t, n)
  {
    hide *;
    Choice1Range1(t);
    Choice1Range2(t);
    Choice1Range3(t);
    Choice1Range4(t);
  }

  lemma Choice1Range1(t: Table)
    requires t == CHOICE1
    ensures && Ranged1(t, 1) && Ranged1(t, 2) && Ranged1(t, 3) && Ranged1(t, 4) && Ranged1(t, 5) && Ranged1(t, 6)
            && Ranged1(t, 7) && Ranged1(t, 8) && Ranged1(t, 9) && Ranged1(t, 10) && Ranged1(t, 11) && Ranged1(t, 12)
            && Ranged1(t, 13) && Ranged1(t, 14)
  {}

  lemma Choice1Range2(t: Table)
    requires t == CHOICE1
    ensures && Ranged1(t, 15) && Ranged1(t, 16) && Ranged1(t, 17) && Ranged1(t, 18) && Ranged1(t, 19)
            && Ranged1(t, 20) && Ranged1(t, 21) && Ranged1(t, 22) && Ranged1(t, 23) && Ranged1(t, 24)
            && Ranged1(t, 25) && Ranged1(t, 26) && Ranged1(t, 27) && Ranged1(t, 28)
  {}

  lemma Choice1Range3(t: Table)
    requires t == CHOICE1
    ensures && Ranged1(t, 29) && Ranged1(t, 30) && Ranged1(t, 31) && Ranged1(t, 32) && Ranged1(t, 33)
            && Ranged1(t, 34) && Ranged1(t, 35) && Ranged1(t, 36) && Ranged1(t, 37) && Ranged1(t, 38)
            && Ranged1(t, 39) && Ranged1(t, 40) && Ranged1(t, 41) && Ranged1(t, 42)
  {}

  lemma Choice1Range4(t: Table)
    requires t == CHOICE1
    ensures && Ranged1(t, 43) && Ranged1(t, 44) && Ranged1(t, 45) && Ranged1(t, 46) && Ranged1(t, 47)
            && Ranged1(t, 48) && Ranged1(t, 49) && Ranged1(t, 50) && Ranged1(t, 51) && Ranged1(t, 52)
            && Ranged1(t, 53) && Ranged1(t, 54) && Ranged1(t, 55) && Ranged1(t, 56)
  {}

  lemma PermutedAt7(t: Table, b: Bits, n: nat)
    ensures Permuted(t, 7, b)(n) == b(At(t, 7, n))
  {
    hide At;
  }

  lemma ChosenHeld(key: Bits, k: Halves, n: nat)
    requires Same(key, Block(k), 64) && 1 <= n <= 56
    ensures var p := PermutedChoice1(k);
            Permuted(CHOICE1, 7, key)(n) == if n <= 28 then Bit(p.x, n + 4) else Bit(p.y, n - 24)
  {
    hide *;
    var p := PermutedChoice1(k);
    ChoiceAll(k);
    ChosenBit(k, p.x, p.y, n);
    PermutedAt7(CHOICE1, key, n);
    Choice1Range(CHOICE1);
    Ranged1Is(CHOICE1, n);
    SameBlock(key, k, At(CHOICE1, 7, n));
  }

  /** The words of the key schedule hold the sixteen keys of the standard. */
  lemma ScheduleFits(key: Bits, k: Halves)
    requires Same(key, Block(k), 64)
    ensures AllFit(KeySchedule(k), Keys(key))
  {
    hide *;
    var p, b := PermutedChoice1(k), Permuted(CHOICE1, 7, key);
    forall n | 1 <= n <= 28
      ensures b(n) == Bit(p.x, n + 4) && Second(b, 28)(n) == Bit(p.y, n + 4)
    {
      ChosenHeld(key, k, n);
      ChosenHeld(key, k, n + 28);
      SecondAt(b, 28, n);
    }
    HalfHeldAll(b, p.x);
    HalfHeldAll(Second(b, 28), p.y);
    KeyHalfNone(b);
    KeyHalfNone(Second(b, 28));
    ChoiceHalves(k);
    SubkeysFit(key, 0, p.x, p.y);
    assert Keys(key)[0..] == Keys(key);
    ScheduleIs(k);
  }

  lemma KeyHalfNone(b: Bits)
    ensures KeyHalf(b, 0) == b
  {}

  lemma ChoiceHalves(k: Halves)
    ensures Half(PermutedChoice1(k).x) && Half(PermutedChoice1(k).y)
  {
    hide Half, Move4, Move10, SpreadLeft, SpreadRight, Halves.Swap;
    var q := Move10(Move4(k.Swap()));
    SpreadLeftHalf(q.y);
    SpreadRightHalf(q.x);
  }

  lemma ScheduleIs(k: Halves)
    ensures KeySchedule(k) == Subkeys(0, PermutedChoice1(k).x, PermutedChoice1(k).y)
  {
    hide PermutedChoice1, Subkeys;
  }

  // ---------------------------------------------------------------- blocks of bytes, and three keys

  predicate OctetFits(a: byte, b: byte, c: byte, d: byte, w: bv32, n: nat) {
    Bit(w, n) == OctetBit(if n <= 8 then a else if n <= 16 then b else if n <= 24 then c else d, (n - 1) % 8 + 1)
  }

  lemma OctetWires1(a: byte, b: byte, c: byte, d: byte, w: bv32)
    requires w == GetWord(a, b, c, d)
    ensures && (w & 0x80000000 != 0) == (a & 0x80 != 0) && (w & 0x40000000 != 0) == (a & 0x40 != 0)
            && (w & 0x20000000 != 0) == (a & 0x20 != 0) && (w & 0x10000000 != 0) == (a & 0x10 != 0)
            && (w & 0x8000000 != 0) == (a & 0x8 != 0) && (w & 0x4000000 != 0) == (a & 0x4 != 0)
            && (w & 0x2000000 != 0) == (a & 0x2 != 0) && (w & 0x1000000 != 0) == (a & 0x1 != 0)
  {}

  lemma OctetFits1(a: byte, b: byte, c: byte, d: byte, w: bv32)
    requires && (w & 0x80000000 != 0) == (a & 0x80 != 0) && (w & 0x40000000 != 0) == (a & 0x40 != 0)
             && (w & 0x20000000 != 0) == (a & 0x20 != 0) && (w & 0x10000000 != 0) == (a & 0x10 != 0)
             && (w & 0x8000000 != 0) == (a & 0x8 != 0) && (w & 0x4000000 != 0) == (a & 0x4 != 0)
             && (w & 0x2000000 != 0) == (a & 0x2 != 0) && (w & 0x1000000 != 0) == (a & 0x1 != 0)
    ensures && OctetFits(a, b, c, d, w, 1) && OctetFits(a, b, c, d, w, 2) && OctetFits(a, b, c, d, w, 3)
            && OctetFits(a, b, c, d, w, 4) && OctetFits(a, b, c, d, w, 5) && OctetFits(a, b, c, d, w, 6)
            && OctetFits(a, b, c, d, w, 7) && OctetFits(a, b, c, d, w, 8)
  {
    hide Bit;
    BitRow1(w);
  }

  lemma OctetWires2(a: byte, b: byte, c: byte, d: byte, w: bv32)
    requires w == GetWord(a, b, c, d)
    ensures && (w & 0x800000 != 0) == (b & 0x80 != 0) && (w & 0x400000 != 0) == (b & 0x40 != 0)
            && (w & 0x200000 != 0) == (b & 0x20 != 0) && (w & 0x100000 != 0) == (b & 0x10 != 0)
            && (w & 0x80000 != 0) == (b & 0x8 != 0) && (w & 0x40000 != 0) == (b & 0x4 != 0)
            && (w & 0x20000 != 0) == (b & 0x2 != 0) && (w & 0x10000 != 0) == (b & 0x1 != 0)
  {}

  lemma OctetFits2(a: byte, b: byte, c: byte, d: byte, w: bv32)
    requires && (w & 0x800000 != 0) == (b & 0x80 != 0) && (w & 0x400000 != 0) == (b & 0x40 != 0)
             && (w & 0x200000 != 0) == (b & 0x20 != 0) && (w & 0x100000 != 0) == (b & 0x10 != 0)
             && (w & 0x80000 != 0) == (b & 0x8 != 0) && (w & 0x40000 != 0) == (b & 0x4 != 0)
             && (w & 0x20000 != 0) == (b & 0x2 != 0) && (w & 0x10000 != 0) == (b & 0x1 != 0)
    ensures && OctetFits(a, b, c, d, w, 9) && OctetFits(a, b, c, d, w, 10) && OctetFits(a, b, c, d, w, 11)
            && OctetFits(a, b, c, d, w, 12) && OctetFits(a, b, c, d, w, 13) && OctetFits(a, b, c, d, w, 14)
            && OctetFits(a, b, c, d, w, 15) && OctetFits(a, b, c, d, w, 16)
  {
    hide Bit;
    BitRow2(w);
  }

  lemma OctetWires3(a: byte, b: byte, c: byte, d: byte, w: bv32)
    requires w == GetWord(a, b, c, d)
    ensures && (w & 0x8000 != 0) == (c & 0x80 != 0) && (w & 0x4000 != 0) == (c & 0x40 != 0)
            && (w & 0x2000 != 0) == (c & 0x20 != 0) && (w & 0x1000 != 0) == (c & 0x10 != 0)
            && (w & 0x800 != 0) == (c & 0x8 != 0) && (w & 0x400 != 0) == (c & 0x4 != 0)
            && (w & 0x200 != 0) == (c & 0x2 != 0) && (w & 0x100 != 0) == (c & 0x1 != 0)
  {}

  lemma OctetFits3(a: byte, b: byte, c: byte, d: byte, w: bv32)
    requires && (w & 0x8000 != 0) == (c & 0x80 != 0) && (w & 0x4000 != 0) == (c & 0x40 != 0)
             && (w & 0x2000 != 0) == (c & 0x20 != 0) && (w & 0x1000 != 0) == (c & 0x10 != 0)
             && (w & 0x800 != 0) == (c & 0x8 != 0) && (w & 0x400 != 0) == (c & 0x4 != 0)
             && (w & 0x200 != 0) == (c & 0x2 != 0) && (w & 0x100 != 0) == (c & 0x1 != 0)
    ensures && OctetFits(a, b, c, d, w, 17) && OctetFits(a, b, c, d, w, 18) && OctetFits(a, b, c, d, w, 19)
            && OctetFits(a, b, c, d, w, 20) && OctetFits(a, b, c, d, w, 21) && OctetFits(a, b, c, d, w, 22)
            && OctetFits(a, b, c, d, w, 23) && OctetFits(a, b, c, d, w, 24)
  {
    hide Bit;
    BitRow3(w);
  }

  lemma OctetWires4(a: byte, b: byte, c: byte, d: byte, w: bv32)
    requires w == GetWord(a, b, c, d)
    ensures && (w & 0x80 != 0) == (d & 0x80 != 0) && (w & 0x40 != 0) == (d & 0x40 != 0)
            && (w & 0x20 != 0) == (d & 0x20 != 0) && (w & 0x10 != 0) == (d & 0x10 != 0)
            && (w & 0x8 != 0) == (d & 0x8 != 0) && (w & 0x4 != 0) == (d & 0x4 != 0)
            && (w & 0x2 != 0) == (d & 0x2 != 0) && (w & 0x1 != 0) == (d & 0x1 != 0)
  {}

  lemma OctetFits4(a: byte, b: byte, c: byte, d: byte, w: bv32)
    requires && (w & 0x80 != 0) == (d & 0x80 != 0) && (w & 0x40 != 0) == (d & 0x40 != 0)
             && (w & 0x20 != 0) == (d & 0x20 != 0) && (w & 0x10 != 0) == (d & 0x10 != 0)
             && (w & 0x8 != 0) == (d & 0x8 != 0) && (w & 0x4 != 0) == (d & 0x4 != 0)
             && (w & 0x2 != 0) == (d & 0x2 != 0) && (w & 0x1 != 0) == (d & 0x1 != 0)
    ensures && OctetFits(a, b, c, d, w, 25) && OctetFits(a, b, c, d, w, 26) && OctetFits(a, b, c, d, w, 27)
            && OctetFits(a, b, c, d, w, 28) && OctetFits(a, b, c, d, w, 29) && OctetFits(a, b, c, d, w, 30)
            && OctetFits(a, b, c, d, w, 31) && OctetFits(a, b, c, d, w, 32)
  {
    hide Bit;
    BitRow4(w);
  }

  lemma OctetFitsAll(a: byte, b: byte, c: byte, d: byte, w: bv32)
    requires w == GetWord(a, b, c, d)
    ensures forall n :: 1 <= n <= 32 ==> OctetFits(a, b, c, d, w, n)
  {
    hide *;
    OctetWires1(a, b, c, d, w);
    OctetWires2(a, b, c, d, w);
    OctetWires3(a, b, c, d, w);
    OctetWires4(a, b, c, d, w);
    OctetFits1(a, b, c, d, w);
    OctetFits2(a, b, c, d, w);
    OctetFits3(a, b, c, d, w);
    OctetFits4(a, b, c, d, w);
  }

  lemma OctetsSame(b: Octets)
    ensures Same(OctetBits(b), Block(FromOctets(b)), 64)
  {
    hide Bit, OctetBit, GetWord;
    var p := FromOctets(b);
    OctetFitsAll(b[0], b[1], b[2], b[3], p.x);
    OctetFitsAll(b[4], b[5], b[6], b[7], p.y);
    forall n | 1 <= n <= 64
      ensures OctetBits(b)(n) == BlockBit(p, n)
    {
      if n <= 32 {
        assert OctetFits(b[0], b[1], b[2], b[3], p.x, n);
      } else {
        assert OctetFits(b[4], b[5], b[6], b[7], p.y, n - 32);
      }
    }
  }

  lemma AllFitBackwards(sk: seq<bv32>, keys: seq<Bits>)
    requires AllFit(sk, keys)
    ensures |sk| % 2 == 0 && AllFit(ReversePairs(sk), Backwards(keys))
  {
    hide KeyFits, ReversePairs;
    forall i | 0 <= i < |keys|
      ensures KeyFits(ReversePairs(sk)[2 * i], ReversePairs(sk)[2 * i + 1], Backwards(keys)[i])
    {
      var j := |keys| - 1 - i;
      ReversePairsAt(sk, 2 * i);
      assert KeyFits(sk[2 * j], sk[2 * j + 1], keys[j]);
    }
  }

  /** One of the three passes, between the permutations. */
  lemma Pass(s: SBoxes, sk: seq<bv32>, keys: seq<Bits>, b: Bits, h: Halves) returns (r: Halves)
    requires AllFit(sk, keys) && |sk| == 32 && Same(b, Block(FP(h)), 64)
    ensures r == Single(s, sk, h) && Same(Algorithm(s, keys, b), Block(FP(r)), 64)
  {
    hide *;
    AlgorithmFits(s, sk, keys, b, FP(h));
    IPInvertsFP(h);
    r := Single(s, sk, h);
  }

  lemma Passes(s: SBoxes, a: seq<bv32>, b: seq<bv32>, c: seq<bv32>, k1: seq<Bits>, k2: seq<Bits>, k3: seq<Bits>, m: Octets)
    requires |a| == |b| == |c| == 32 && AllFit(a, k1) && AllFit(b, k2) && AllFit(c, k3)
    ensures Same(Algorithm(s, k3, Algorithm(s, k2, Algorithm(s, k1, OctetBits(m)))), OctetBits(CryptOctets(s, a + b + c, m)), 64)
  {
    hide Algorithm, AllFit, OctetBits, Same, Block, Single, FP, IP, FromOctets, ToOctets;
    var p := FromOctets(m);
    OctetsSame(m);
    FPInvertsIP(p);
    var h := Pass(s, a, k1, OctetBits(m), IP(p));
    h := Pass(s, b, k2, Algorithm(s, k1, OctetBits(m)), h);
    h := Pass(s, c, k3, Algorithm(s, k2, Algorithm(s, k1, OctetBits(m))), h);
    assert (a + b + c)[..32] == a && (a + b + c)[32..64] == b && (a + b + c)[64..] == c;
    var r := CryptOctets(s, a + b + c, m);
    HalvesRoundTrip(FP(h));
    OctetsSame(r);
    SameThrough(Algorithm(s, k3, Algorithm(s, k2, Algorithm(s, k1, OctetBits(m)))), Block(FP(h)), OctetBits(r));
  }

  lemma SameThrough(a: Bits, b: Bits, c: Bits)
    requires Same(a, b, 64) && Same(c, b, 64)
    ensures Same(a, c, 64)
  {}

  lemma SchedulesFit(key: Octets)
    ensures var sk, keys := KeySchedule(FromOctets(key)), Keys(OctetBits(key));
            AllFit(sk, keys) && AllFit(ReversePairs(sk), Backwards(keys))
  {
    hide *;
    OctetsSame(key);
    ScheduleFits(OctetBits(key), FromOctets(key));
    AllFitBackwards(KeySchedule(FromOctets(key)), Keys(OctetBits(key)));
  }

  lemma CiphersAre(s: SBoxes, key: Bits, b: Bits)
    ensures Enciphered(s, key, b) == Algorithm(s, Keys(key), b)
    ensures Deciphered(s, key, b) == Algorithm(s, Backwards(Keys(key)), b)
  {
    hide Algorithm, Keys, Backwards;
  }

  /** des3_encrypt computes it, for all keys and blocks and whatever the S-boxes hold. */
  lemma EncryptIsFips(s: SBoxes, k1: Octets, k2: Octets, k3: Octets, m: Octets)
    ensures Same(TripleEnciphered(s, k1, k2, k3, m), OctetBits(CryptOctets(s, EncryptKeys(k1, k2, k3), m)), 64)
  {
    hide Enciphered, Deciphered, OctetBits, Same, CryptOctets, KeySchedule, FromOctets, AllFit, Keys, Backwards, ReversePairs;
    SchedulesFit(k1);
    SchedulesFit(k2);
    SchedulesFit(k3);
    var a, b, c := Keys(OctetBits(k1)), Backwards(Keys(OctetBits(k2))), Keys(OctetBits(k3));
    Passes(s, KeySchedule(FromOctets(k1)), ReversePairs(KeySchedule(FromOctets(k2))), KeySchedule(FromOctets(k3)), a, b, c, m);
    CiphersAre(s, OctetBits(k1), OctetBits(m));
    CiphersAre(s, OctetBits(k2), Algorithm(s, a, OctetBits(m)));
    CiphersAre(s, OctetBits(k3), Algorithm(s, b, Algorithm(s, a, OctetBits(m))));
  }

  /** And des3_decrypt its inverse. */
  lemma DecryptIsFips(s: SBoxes, k1: Octets, k2: Octets, k3: Octets, m: Octets)
    ensures Same(TripleDeciphered(s, k1, k2, k3, m), OctetBits(CryptOctets(s, DecryptKeys(k1, k2, k3), m)), 64)
  {
    hide Enciphered, Deciphered, OctetBits, Same, CryptOctets, KeySchedule, FromOctets, AllFit, Keys, Backwards, ReversePairs;
    SchedulesFit(k1);
    SchedulesFit(k2);
    SchedulesFit(k3);
    var a, b, c := Backwards(Keys(OctetBits(k3))), Keys(OctetBits(k2)), Backwards(Keys(OctetBits(k1)));
    Passes(s, ReversePairs(KeySchedule(FromOctets(k3))), KeySchedule(FromOctets(k2)),
           ReversePairs(KeySchedule(FromOctets(k1))), a, b, c, m);
    CiphersAre(s, OctetBits(k3), OctetBits(m));
    CiphersAre(s, OctetBits(k2), Algorithm(s, a, OctetBits(m)));
    CiphersAre(s, OctetBits(k1), Algorithm(s, b, Algorithm(s, a, OctetBits(m))));
  }

  // ---------------------------------------------------------------- a whole message

  /** The `k`th block of eight bytes. */
  function Nth8(m: seq<byte>, k: nat): Octets
    requires 8 * k + 8 <= |m|
  {
    m[8 * k..8 * k + 8]
  }

  lemma Behind(a: Octets, b: seq<byte>, k: nat)
    requires 8 * k + 8 <= |b|
    ensures Nth8(a + b, k + 1) == Nth8(b, k)
  {}

  /** Every block of the ciphertext is the cipher of the message block added to the ciphertext block
      before it, or to the IV. */
  lemma {:induction false} CbcBlocks(cipher: Octets -> Octets, iv: Octets, m: seq<byte>, k: nat)
    requires |m| % 8 == 0 && 8 * k + 8 <= |m|
    ensures var c := CbcEncrypt(cipher, iv, m);
            Nth8(c, k) == cipher(XorOctets(if k == 0 then iv else Nth8(c, k - 1), Nth8(m, k)))
    decreases |m|
  {
    hide XorOctets;
    var block: Octets := cipher(XorOctets(iv, m[..8]));
    var rest := CbcEncrypt(cipher, block, m[8..]);
    assert m[..8] + m[8..] == m && m[0..8] == m[..8] && (block + rest)[0..8] == block;
    if k > 0 {
      CbcBlocks(cipher, block, m[8..], k - 1);
      Behind(m[..8], m[8..], k - 1);
      Behind(block, rest, k - 1);
      if k > 1 {
        Behind(block, rest, k - 2);
      }
    }
  }

  lemma XorBytes(a: Octets, b: Octets, i: nat)
    requires i < 8
    ensures XorOctets(a, b)[i] == a[i] ^ b[i]
  {}

  /** `c` is the triple DES of `m` added to the block before. */
  ghost predicate FipsBlock(s: SBoxes, key: seq<byte>, before: Octets, m: Octets, c: Octets)
    requires |key| == 24
  {
    exists x: Octets ::
      && (forall i :: 0 <= i < 8 ==> x[i] == before[i] ^ m[i])
      && Same(TripleEnciphered(s, key[..8], key[8..16], key[16..], x), OctetBits(c), 64)
  }

  /** What ssl_des3_encrypt gives for a key of 24 bytes and whole blocks, by the two standards. */
  lemma MessageIsFips(s: SBoxes, key: seq<byte>, iv: Octets, m: seq<byte>, k: nat)
    requires |key| == 24 && |m| % 8 == 0 && 8 * k + 8 <= |m|
    ensures var c := CbcEncrypt(Des.Cipher(s, key), iv, m);
            FipsBlock(s, key, if k == 0 then iv else Nth8(c, k - 1), Nth8(m, k), Nth8(c, k))
  {
    hide XorOctets, TripleEnciphered, Same, OctetBits, CryptOctets, EncryptKeys, CbcEncrypt, Nth8;
    var c := CbcEncrypt(Des.Cipher(s, key), iv, m);
    var before := if k == 0 then iv else Nth8(c, k - 1);
    var x := XorOctets(before, Nth8(m, k));
    CbcBlocks(Des.Cipher(s, key), iv, m, k);
    EncryptIsFips(s, key[..8], key[8..16], key[16..], x);
    forall i | 0 <= i < 8
      ensures x[i] == before[i] ^ Nth8(m, k)[i]
    {
      XorBytes(before, Nth8(m, k), i);
    }
  }
}
