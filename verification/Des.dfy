/** Triple DES in CBC mode (lib/des.c). The eight S-boxes are a parameter: every statement
    holds whatever they contain. */
module Des {
  import opened Bytes
  import opened DesBits

  /** The two 32-bit halves of a block. */
  datatype Halves = Halves(x: bv32, y: bv32) {
    function Swap(): Halves {
      Halves(y, x)
    }

    function Not(): Halves {
      Halves(Flip(x), Flip(y))
    }
  }

  /** The S-boxes SB1 to SB8, each a table of 64 words. */
  datatype SBoxes = SBoxes(
    sb1: bv6 -> bv32, sb2: bv6 -> bv32, sb3: bv6 -> bv32, sb4: bv6 -> bv32,
    sb5: bv6 -> bv32, sb6: bv6 -> bv32, sb7: bv6 -> bv32, sb8: bv6 -> bv32)

  // ---------------------------------------------------------------- initial and final permutation

  function Move4(p: Halves): Halves {
    var t := T4(p.x, p.y);
    Halves(Xor(p.x, Up4(t)), Xor(p.y, t))
  }

  function Move16(p: Halves): Halves {
    var t := T16(p.x, p.y);
    Halves(Xor(p.x, Up16(t)), Xor(p.y, t))
  }

  function Move2(p: Halves): Halves {
    var t := T2(p.y, p.x);
    Halves(Xor(p.x, t), Xor(p.y, Up2(t)))
  }

  function Move8(p: Halves): Halves {
    var t := T8(p.y, p.x);
    Halves(Xor(p.x, t), Xor(p.y, Up8(t)))
  }

  function Move0(p: Halves): Halves {
    var t := T0(p.x, p.y);
    Halves(Xor(p.x, t), Xor(p.y, t))
  }

  function IP(p: Halves): Halves {
    var q := Move8(Move2(Move16(Move4(p))));
    var r := Move0(Halves(q.x, RotateLeft(q.y)));
    Halves(RotateLeft(r.x), r.y)
  }

  function FP(p: Halves): Halves {
    var q := Move0(Halves(RotateRight(p.x), p.y));
    Move4(Move16(Move2(Move8(Halves(q.x, RotateRight(q.y))))))
  }

  lemma Move4Twice(p: Halves)
    ensures Move4(Move4(p)) == p
  {
    hide Xor, T4, Up4;
    T4Again(p.x, p.y);
    XorTwice(p.x, Up4(T4(p.x, p.y)));
    XorTwice(p.y, T4(p.x, p.y));
  }

  lemma Move16Twice(p: Halves)
    ensures Move16(Move16(p)) == p
  {
    hide Xor, T16, Up16;
    T16Again(p.x, p.y);
    XorTwice(p.x, Up16(T16(p.x, p.y)));
    XorTwice(p.y, T16(p.x, p.y));
  }

  lemma Move2Twice(p: Halves)
    ensures Move2(Move2(p)) == p
  {
    hide Xor, T2, Up2;
    T2Again(p.y, p.x);
    XorTwice(p.y, Up2(T2(p.y, p.x)));
    XorTwice(p.x, T2(p.y, p.x));
  }

  lemma Move8Twice(p: Halves)
    ensures Move8(Move8(p)) == p
  {
    hide Xor, T8, Up8;
    T8Again(p.y, p.x);
    XorTwice(p.y, Up8(T8(p.y, p.x)));
    XorTwice(p.x, T8(p.y, p.x));
  }

  lemma Move0Twice(p: Halves)
    ensures Move0(Move0(p)) == p
  {
    hide Xor, T0;
    T0Again(p.x, p.y);
    XorTwice(p.x, T0(p.x, p.y));
    XorTwice(p.y, T0(p.x, p.y));
  }

  lemma Moves(p: Halves)
    ensures Move4(Move4(p)) == p && Move16(Move16(p)) == p
    ensures Move2(Move2(p)) == p && Move8(Move8(p)) == p && Move0(Move0(p)) == p
  {
    hide *;
    Move4Twice(p);
    Move16Twice(p);
    Move2Twice(p);
    Move8Twice(p);
    Move0Twice(p);
  }

  lemma FPInvertsIP(p: Halves)
    ensures FP(IP(p)) == p
  {
    hide Move4, Move16, Move2, Move8, Move0, RotateLeft, RotateRight, Flip;
    Moves(p);
    Moves(Move4(p));
    Moves(Move16(Move4(p)));
    var q := Move8(Move2(Move16(Move4(p))));
    Moves(Move2(Move16(Move4(p))));
    Rotations(q.y);
    Moves(Halves(q.x, RotateLeft(q.y)));
    Rotations(Move0(Halves(q.x, RotateLeft(q.y))).x);
  }

  lemma FlipHalves(p: Halves, t: bv32, u: bv32)
    ensures Halves(Xor(Flip(p.x), t), Xor(Flip(p.y), u)) == Halves(Xor(p.x, t), Xor(p.y, u)).Not()
  {
    hide Flip, Xor;
    FlipXor(p.x, t);
    FlipXor(p.y, u);
  }

  lemma Move4Not(p: Halves)
    ensures Move4(p.Not()) == Move4(p).Not()
  {
    hide Flip, Xor, T4, Up4;
    T4Not(p.x, p.y);
    FlipHalves(p, Up4(T4(p.x, p.y)), T4(p.x, p.y));
  }

  lemma Move16Not(p: Halves)
    ensures Move16(p.Not()) == Move16(p).Not()
  {
    hide Flip, Xor, T16, Up16;
    T16Not(p.x, p.y);
    FlipHalves(p, Up16(T16(p.x, p.y)), T16(p.x, p.y));
  }

  lemma Move2Not(p: Halves)
    ensures Move2(p.Not()) == Move2(p).Not()
  {
    hide Flip, Xor, T2, Up2;
    T2Not(p.y, p.x);
    FlipHalves(p, T2(p.y, p.x), Up2(T2(p.y, p.x)));
  }

  lemma Move8Not(p: Halves)
    ensures Move8(p.Not()) == Move8(p).Not()
  {
    hide Flip, Xor, T8, Up8;
    T8Not(p.y, p.x);
    FlipHalves(p, T8(p.y, p.x), Up8(T8(p.y, p.x)));
  }

  lemma Move0Not(p: Halves)
    ensures Move0(p.Not()) == Move0(p).Not()
  {
    hide Flip, Xor, T0;
    T0Not(p.x, p.y);
    FlipHalves(p, T0(p.x, p.y), T0(p.x, p.y));
  }

  /** Complementing a block commutes with both permutations. */
  lemma MovesNot(p: Halves)
    ensures Move4(p.Not()) == Move4(p).Not() && Move16(p.Not()) == Move16(p).Not()
    ensures Move2(p.Not()) == Move2(p).Not() && Move8(p.Not()) == Move8(p).Not()
    ensures Move0(p.Not()) == Move0(p).Not()
  {
    hide *;
    Move4Not(p);
    Move16Not(p);
    Move2Not(p);
    Move8Not(p);
    Move0Not(p);
  }

  lemma IPNot(p: Halves)
    ensures IP(p.Not()) == IP(p).Not()
  {
    hide Move4, Move16, Move2, Move8, Move0, RotateLeft, RotateRight, Flip;
    MovesNot(p);
    MovesNot(Move4(p));
    MovesNot(Move16(Move4(p)));
    MovesNot(Move2(Move16(Move4(p))));
    var q := Move8(Move2(Move16(Move4(p))));
    RotationsNot(q.y);
    MovesNot(Halves(q.x, RotateLeft(q.y)));
    RotationsNot(Move0(Halves(q.x, RotateLeft(q.y))).x);
  }

  lemma FPNot(p: Halves)
    ensures FP(p.Not()) == FP(p).Not()
  {
    hide Move4, Move16, Move2, Move8, Move0, RotateLeft, RotateRight, Flip;
    RotationsNot(p.x);
    MovesNot(Halves(RotateRight(p.x), p.y));
    var q := Move0(Halves(RotateRight(p.x), p.y));
    RotationsNot(q.y);
    var r := Halves(q.x, RotateRight(q.y));
    MovesNot(r);
    MovesNot(Move8(r));
    MovesNot(Move2(Move8(r)));
    MovesNot(Move16(Move2(Move8(r))));
  }

  // ---------------------------------------------------------------- rounds

  /** The four six-bit indices DES_ROUND takes from a word, lowest byte first. */
  datatype Sextets = Sextets(a: bv6, b: bv6, c: bv6, d: bv6)

  function Split(w: bv32): Sextets {
    Sextets((w & 0x3F) as bv6, ((w >> 8) & 0x3F) as bv6, ((w >> 16) & 0x3F) as bv6, ((w >> 24) & 0x3F) as bv6)
  }

  function Even(s: SBoxes, t: Sextets): bv32 {
    s.sb8(t.a) ^ s.sb6(t.b) ^ s.sb4(t.c) ^ s.sb2(t.d)
  }

  function Odd(s: SBoxes, t: Sextets): bv32 {
    s.sb7(t.a) ^ s.sb5(t.b) ^ s.sb3(t.c) ^ s.sb1(t.d)
  }

  /** What one DES_ROUND adds to the other half. */
  function F(s: SBoxes, x: bv32, k0: bv32, k1: bv32): bv32 {
    Xor(Even(s, Split(Xor(k0, x))), Odd(s, Split(Xor(k1, RotateRight4(x)))))
  }

  /** The rounds `sk` provides for, two words each. Every round adds F of the second half
      to the first and exchanges the halves. */
  function Rounds(s: SBoxes, sk: seq<bv32>, p: Halves): Halves
    requires |sk| % 2 == 0
  {
    if sk == [] then p else Rounds(s, sk[2..], Halves(p.y, Xor(p.x, F(s, p.y, sk[0], sk[1]))))
  }

  function ReversePairs(sk: seq<bv32>): (r: seq<bv32>)
    requires |sk| % 2 == 0
    ensures |r| == |sk|
  {
    if sk == [] then [] else ReversePairs(sk[2..]) + sk[..2]
  }

  lemma {:induction false} RoundsAppend(s: SBoxes, a: seq<bv32>, b: seq<bv32>, p: Halves)
    requires |a| % 2 == 0 && |b| % 2 == 0
    ensures Rounds(s, a + b, p) == Rounds(s, b, Rounds(s, a, p))
  {
    hide F, Xor;
    if a == [] {
      assert a + b == b;
    } else {
      assert (a + b)[2..] == a[2..] + b;
      RoundsAppend(s, a[2..], b, Halves(p.y, Xor(p.x, F(s, p.y, a[0], a[1]))));
    }
  }

  /** Running the rounds on exchanged halves with the subkeys in reverse order undoes them. */
  lemma {:induction false} RoundsInverse(s: SBoxes, sk: seq<bv32>, p: Halves)
    requires |sk| % 2 == 0
    ensures Rounds(s, ReversePairs(sk), Rounds(s, sk, p).Swap()) == p.Swap()
  {
    hide F, Xor;
    if sk != [] {
      var f := F(s, p.y, sk[0], sk[1]);
      var q := Halves(p.y, Xor(p.x, f));
      RoundsInverse(s, sk[2..], q);
      RoundsAppend(s, ReversePairs(sk[2..]), sk[..2], Rounds(s, sk, p).Swap());
      XorTwice(p.x, f);
      assert sk[..2][2..] == [];
    }
  }

  lemma {:induction false} ReverseTwice(sk: seq<bv32>)
    requires |sk| % 2 == 0
    ensures ReversePairs(ReversePairs(sk)) == sk
  {
    if sk != [] {
      ReverseAppend(ReversePairs(sk[2..]), sk[..2]);
      ReverseTwice(sk[2..]);
      assert ReversePairs(sk[..2]) == sk[..2];
    }
  }

  lemma {:induction false} ReverseAppend(a: seq<bv32>, b: seq<bv32>)
    requires |a| % 2 == 0 && |b| % 2 == 0
    ensures ReversePairs(a + b) == ReversePairs(b) + ReversePairs(a)
  {
    if a == [] {
      assert a + b == b;
    } else {
      assert (a + b)[2..] == a[2..] + b && (a + b)[..2] == a[..2];
      ReverseAppend(a[2..], b);
    }
  }

  lemma {:induction false} ReversePairsAt(sk: seq<bv32>, i: nat)
    requires |sk| % 2 == 0 && i % 2 == 0 && i < |sk|
    ensures ReversePairs(sk)[i] == sk[|sk| - 2 - i] && ReversePairs(sk)[i + 1] == sk[|sk| - 1 - i]
  {
    if i < |sk| - 2 {
      ReversePairsAt(sk[2..], i);
    }
  }

  // ---------------------------------------------------------------- triple DES on one block

  /** One DES: sixteen rounds and the exchange that ends them. */
  function Single(s: SBoxes, sk: seq<bv32>, p: Halves): Halves
    requires |sk| == 32
  {
    Rounds(s, sk, p).Swap()
  }

  function Triple(s: SBoxes, sk: seq<bv32>, p: Halves): Halves
    requires |sk| == 96
  {
    FP(Single(s, sk[64..], Single(s, sk[32..64], Single(s, sk[..32], IP(p)))))
  }

  lemma SingleInverse(s: SBoxes, sk: seq<bv32>, p: Halves)
    requires |sk| == 32
    ensures Single(s, ReversePairs(sk), Single(s, sk, p)) == p
  {
    RoundsInverse(s, sk, p);
  }

  lemma IPInvertsFP(p: Halves)
    ensures IP(FP(p)) == p
  {
    hide Move4, Move16, Move2, Move8, Move0, RotateLeft, RotateRight, Flip;
    Rotations(p.x);
    var a := Halves(RotateRight(p.x), p.y);
    Moves(a);
    var q := Move0(a);
    Rotations(q.y);
    var r := Halves(q.x, RotateRight(q.y));
    Moves(r);
    Moves(Move8(r));
    Moves(Move2(Move8(r)));
    Moves(Move16(Move2(Move8(r))));
  }

  lemma TripleInverse(s: SBoxes, a: seq<bv32>, b: seq<bv32>, c: seq<bv32>, p: Halves)
    requires |a| == |b| == |c| == 32
    ensures Triple(s, ReversePairs(c) + ReversePairs(b) + ReversePairs(a), Triple(s, a + b + c, p)) == p
  {
    hide IP, FP, Single, ReversePairs;
    var sk, dk := a + b + c, ReversePairs(c) + ReversePairs(b) + ReversePairs(a);
    assert sk[..32] == a && sk[32..64] == b && sk[64..] == c;
    assert dk[..32] == ReversePairs(c) && dk[32..64] == ReversePairs(b) && dk[64..] == ReversePairs(a);
    var p0 := IP(p);
    var p1 := Single(s, a, p0);
    var p2 := Single(s, b, p1);
    var p3 := Single(s, c, p2);
    IPInvertsFP(p3);
    SingleInverse(s, c, p2);
    SingleInverse(s, b, p1);
    SingleInverse(s, a, p0);
    FPInvertsIP(p);
  }

  // ---------------------------------------------------------------- key schedule

  function Move10(p: Halves): Halves {
    var t := T10(p.x, p.y);
    Halves(Xor(p.x, t), Xor(p.y, t))
  }

  function PermutedChoice1(p: Halves): Halves {
    var q := Move10(Move4(p.Swap()));
    Halves(SpreadLeft(q.y), SpreadRight(q.x))
  }

  function Turn(i: nat, w: bv32): bv32 {
    if i < 2 || i == 8 || i == 15 then Turn1(w) else Turn2(w)
  }

  /** The subkeys of rounds `i` to 15, from the two key halves before round `i`. */
  function Subkeys(i: nat, x: bv32, y: bv32): (sk: seq<bv32>)
    requires i <= 16
    ensures |sk| == 2 * (16 - i)
    decreases 16 - i
  {
    if i == 16 then []
    else
      var x', y' := Turn(i, x), Turn(i, y);
      [Key0(x', y'), Key1(x', y')] + Subkeys(i + 1, x', y')
  }

  function KeySchedule(key: Halves): (sk: seq<bv32>)
    ensures |sk| == 32
  {
    var p := PermutedChoice1(key);
    Subkeys(0, p.x, p.y)
  }

  // ---------------------------------------------------------------- complementation

  lemma Move10Not(p: Halves)
    ensures Move10(p.Not()) == Move10(p).Not()
  {
    hide Flip, Xor, T10;
    T10Not(p.x, p.y);
    FlipHalves(p, T10(p.x, p.y), T10(p.x, p.y));
  }

  lemma TurnNot(i: nat, w: bv32)
    requires Half(w)
    ensures Half(Turn(i, w)) && Turn(i, Flip28(w)) == Flip28(Turn(i, w))
  {
    hide Turn1, Turn2, Half, Flip28;
    Turn1Not(w);
    Turn2Not(w);
  }

  ghost predicate Flipped(sk: seq<bv32>, sk': seq<bv32>) {
    |sk| == |sk'| && forall i :: 0 <= i < |sk| ==> sk'[i] == FlipKey(sk[i])
  }

  lemma {:induction false} SubkeysNot(i: nat, x: bv32, y: bv32)
    requires i <= 16 && Half(x) && Half(y)
    ensures Flipped(Subkeys(i, x, y), Subkeys(i, Flip28(x), Flip28(y)))
    decreases 16 - i
  {
    hide Turn, Key0, Key1, Flip28, FlipKey, Half;
    if i < 16 {
      TurnNot(i, x);
      TurnNot(i, y);
      Key0Not(Turn(i, x), Turn(i, y));
      Key1Not(Turn(i, x), Turn(i, y));
      SubkeysNot(i + 1, Turn(i, x), Turn(i, y));
    }
  }

  /** The key schedule only moves bits: complementing the key complements every subkey. */
  lemma KeyScheduleNot(key: Halves)
    ensures Flipped(KeySchedule(key), KeySchedule(key.Not()))
  {
    hide Move4, Move10, SpreadLeft, SpreadRight, Flip, Flip28, FlipKey, Subkeys, Half;
    Move4Not(key.Swap());
    Move10Not(Move4(key.Swap()));
    var q := Move10(Move4(key.Swap()));
    SpreadLeftNot(q.y);
    SpreadRightNot(q.x);
    SpreadLeftHalf(q.y);
    SpreadRightHalf(q.x);
    SubkeysNot(0, SpreadLeft(q.y), SpreadRight(q.x));
  }

  lemma SplitNot(k: bv32, w: bv32)
    ensures Split(Xor(FlipKey(k), Flip(w))) == Split(Xor(k, w))
  {}

  /** Complementing the subkeys and the half cancels before the S-boxes. */
  lemma FNot(s: SBoxes, x: bv32, k0: bv32, k1: bv32)
    ensures F(s, Flip(x), FlipKey(k0), FlipKey(k1)) == F(s, x, k0, k1)
  {
    hide Flip, FlipKey, Xor, Split, RotateRight4, Even, Odd;
    SplitNot(k0, x);
    RotateRight4Not(x);
    SplitNot(k1, RotateRight4(x));
  }

  lemma {:induction false} RoundsNot(s: SBoxes, sk: seq<bv32>, sk': seq<bv32>, p: Halves)
    requires |sk| % 2 == 0 && Flipped(sk, sk')
    ensures Rounds(s, sk', p.Not()) == Rounds(s, sk, p).Not()
  {
    hide F, Flip, FlipKey, Xor;
    if sk != [] {
      FNot(s, p.y, sk[0], sk[1]);
      var f := F(s, p.y, sk[0], sk[1]);
      FlipXor(p.x, f);
      RoundsNot(s, sk[2..], sk'[2..], Halves(p.y, Xor(p.x, f)));
    }
  }

  lemma {:induction false} FlippedReverse(sk: seq<bv32>, sk': seq<bv32>)
    requires |sk| % 2 == 0 && Flipped(sk, sk')
    ensures Flipped(ReversePairs(sk), ReversePairs(sk'))
  {
    hide FlipKey;
    if sk != [] {
      FlippedReverse(sk[2..], sk'[2..]);
    }
  }

  lemma TripleNot(s: SBoxes, sk: seq<bv32>, sk': seq<bv32>, p: Halves)
    requires |sk| == 96 && Flipped(sk, sk')
    ensures Triple(s, sk', p.Not()) == Triple(s, sk, p).Not()
  {
    hide IP, FP, Rounds, Flip, FlipKey;
    IPNot(p);
    RoundsNot(s, sk[..32], sk'[..32], IP(p));
    var p1 := Single(s, sk[..32], IP(p));
    RoundsNot(s, sk[32..64], sk'[32..64], p1);
    var p2 := Single(s, sk[32..64], p1);
    RoundsNot(s, sk[64..], sk'[64..], p2);
    FPNot(Single(s, sk[64..], p2));
  }

  // ---------------------------------------------------------------- keys and blocks as bytes

  type Octets = b: seq<byte> | |b| == 8 witness [0, 0, 0, 0, 0, 0, 0, 0]

  function GetWord(a: byte, b: byte, c: byte, d: byte): bv32 {
    ((a as bv32) << 24) | ((b as bv32) << 16) | ((c as bv32) << 8) | (d as bv32)
  }

  function PutWord(w: bv32): (r: seq<byte>)
    ensures |r| == 4
  {
    [((w >> 24) & 0xFF) as byte, ((w >> 16) & 0xFF) as byte, ((w >> 8) & 0xFF) as byte, (w & 0xFF) as byte]
  }

  function FromOctets(b: Octets): Halves {
    Halves(GetWord(b[0], b[1], b[2], b[3]), GetWord(b[4], b[5], b[6], b[7]))
  }

  function ToOctets(p: Halves): Octets {
    PutWord(p.x) + PutWord(p.y)
  }

  function XorOctets(a: Octets, b: Octets): Octets {
    seq(8, i requires 0 <= i < 8 => a[i] ^ b[i])
  }

  function NotOctets(a: Octets): Octets {
    seq(8, i requires 0 <= i < 8 => !a[i])
  }

  lemma PutGet(a: byte, b: byte, c: byte, d: byte)
    ensures PutWord(GetWord(a, b, c, d)) == [a, b, c, d]
    ensures GetWord(!a, !b, !c, !d) == Flip(GetWord(a, b, c, d))
  {}

  lemma GetPut(w: bv32)
    ensures var r := PutWord(w); GetWord(r[0], r[1], r[2], r[3]) == w
  {}

  lemma PutNot(w: bv32)
    ensures var r := PutWord(w); PutWord(Flip(w)) == [!r[0], !r[1], !r[2], !r[3]]
  {}

  lemma OctetsRoundTrip(b: Octets)
    ensures ToOctets(FromOctets(b)) == b
    ensures FromOctets(NotOctets(b)) == FromOctets(b).Not()
  {
    PutGet(b[0], b[1], b[2], b[3]);
    PutGet(b[4], b[5], b[6], b[7]);
    hide GetWord, PutWord, Flip;
  }

  lemma HalvesRoundTrip(p: Halves)
    ensures FromOctets(ToOctets(p)) == p
    ensures ToOctets(p.Not()) == NotOctets(ToOctets(p))
  {
    GetPut(p.x);
    GetPut(p.y);
    PutNot(p.x);
    PutNot(p.y);
    hide GetWord, PutWord, Flip;
  }

  function EncryptKeys(k1: Octets, k2: Octets, k3: Octets): (sk: seq<bv32>)
    ensures |sk| == 96
  {
    KeySchedule(FromOctets(k1)) + ReversePairs(KeySchedule(FromOctets(k2))) + KeySchedule(FromOctets(k3))
  }

  function DecryptKeys(k1: Octets, k2: Octets, k3: Octets): (sk: seq<bv32>)
    ensures |sk| == 96
  {
    ReversePairs(KeySchedule(FromOctets(k3))) + KeySchedule(FromOctets(k2)) + ReversePairs(KeySchedule(FromOctets(k1)))
  }

  function CryptOctets(s: SBoxes, sk: seq<bv32>, b: Octets): Octets
    requires |sk| == 96
  {
    ToOctets(Triple(s, sk, FromOctets(b)))
  }

  /** Decryption undoes encryption, for all keys, blocks and S-boxes. */
  lemma DecryptEncrypt(s: SBoxes, k1: Octets, k2: Octets, k3: Octets, b: Octets)
    ensures CryptOctets(s, DecryptKeys(k1, k2, k3), CryptOctets(s, EncryptKeys(k1, k2, k3), b)) == b
  {
    hide ToOctets, FromOctets, Triple, KeySchedule;
    var p := FromOctets(b);
    var ks1, ks2, ks3 := KeySchedule(p), KeySchedule(FromOctets(k2)), KeySchedule(FromOctets(k3));
    ks1 := KeySchedule(FromOctets(k1));
    TripleInverse(s, ks1, ReversePairs(ks2), ks3, p);
    ReverseTwice(ks2);
    HalvesRoundTrip(Triple(s, EncryptKeys(k1, k2, k3), p));
    OctetsRoundTrip(b);
  }

  lemma EncryptKeysNot(k1: Octets, k2: Octets, k3: Octets)
    ensures Flipped(EncryptKeys(k1, k2, k3), EncryptKeys(NotOctets(k1), NotOctets(k2), NotOctets(k3)))
  {
    hide FlipKey, FromOctets, NotOctets, KeySchedule;
    OctetsRoundTrip(k1);
    OctetsRoundTrip(k2);
    OctetsRoundTrip(k3);
    KeyScheduleNot(FromOctets(k1));
    KeyScheduleNot(FromOctets(k2));
    KeyScheduleNot(FromOctets(k3));
    FlippedReverse(KeySchedule(FromOctets(k2)), KeySchedule(FromOctets(k2).Not()));
  }

  /** The complementation property of DES, for three keys. */
  lemma EncryptNot(s: SBoxes, k1: Octets, k2: Octets, k3: Octets, b: Octets)
    ensures CryptOctets(s, EncryptKeys(NotOctets(k1), NotOctets(k2), NotOctets(k3)), NotOctets(b))
         == NotOctets(CryptOctets(s, EncryptKeys(k1, k2, k3), b))
  {
    hide ToOctets, FromOctets, NotOctets, Triple, EncryptKeys, FlipKey, Flip;
    EncryptKeysNot(k1, k2, k3);
    OctetsRoundTrip(b);
    var sk := EncryptKeys(k1, k2, k3);
    TripleNot(s, sk, EncryptKeys(NotOctets(k1), NotOctets(k2), NotOctets(k3)), FromOctets(b));
    HalvesRoundTrip(Triple(s, sk, FromOctets(b)));
  }

  // ---------------------------------------------------------------- cipher block chaining

  /** Section 6.2 of NIST SP 800-38A, over any block cipher. */
  function CbcEncrypt(cipher: Octets -> Octets, iv: Octets, m: seq<byte>): (c: seq<byte>)
    requires |m| % 8 == 0
    ensures |c| == |m|
    decreases |m|
  {
    if m == [] then []
    else
      var block := cipher(XorOctets(iv, m[..8]));
      block + CbcEncrypt(cipher, block, m[8..])
  }

  function CbcDecrypt(decipher: Octets -> Octets, iv: Octets, c: seq<byte>): seq<byte>
    requires |c| % 8 == 0
    decreases |c|
  {
    if c == [] then [] else XorOctets(iv, decipher(c[..8])) + CbcDecrypt(decipher, c[..8], c[8..])
  }

  lemma XorOctetsTwice(a: Octets, b: Octets)
    ensures XorOctets(a, XorOctets(a, b)) == b
  {}

  lemma {:induction false} CbcInverse(cipher: Octets -> Octets, decipher: Octets -> Octets, iv: Octets, m: seq<byte>)
    requires |m| % 8 == 0
    requires forall b: Octets :: decipher(cipher(b)) == b
    ensures CbcDecrypt(decipher, iv, CbcEncrypt(cipher, iv, m)) == m
    decreases |m|
  {
    hide XorOctets;
    if m != [] {
      var x := XorOctets(iv, m[..8]);
      var block: Octets := cipher(x);
      var rest := CbcEncrypt(cipher, block, m[8..]);
      assert (block + rest)[..8] == block && (block + rest)[8..] == rest;
      XorOctetsTwice(iv, m[..8]);
      CbcInverse(cipher, decipher, block, m[8..]);
      assert m[..8] + m[8..] == m;
    }
  }

  /** The block that the next one is chained to: the last ciphertext block, or the IV. */
  function Chained(cipher: Octets -> Octets, iv: Octets, m: seq<byte>): Octets
    requires |m| % 8 == 0
    decreases |m|
  {
    if m == [] then iv else Chained(cipher, cipher(XorOctets(iv, m[..8])), m[8..])
  }

  lemma {:induction false} CbcAppend(cipher: Octets -> Octets, iv: Octets, m: seq<byte>, last: Octets)
    requires |m| % 8 == 0
    ensures |m + last| % 8 == 0
    ensures CbcEncrypt(cipher, iv, m + last)
         == CbcEncrypt(cipher, iv, m) + cipher(XorOctets(Chained(cipher, iv, m), last))
    ensures Chained(cipher, iv, m + last) == cipher(XorOctets(Chained(cipher, iv, m), last))
    decreases |m|
  {
    hide XorOctets;
    if m == [] {
      assert m + last == last && last[..8] == last && last[8..] == [];
    } else {
      assert (m + last)[..8] == m[..8] && (m + last)[8..] == m[8..] + last;
      CbcAppend(cipher, cipher(XorOctets(iv, m[..8])), m[8..], last);
    }
  }

  function Cipher(s: SBoxes, key: seq<byte>): Octets -> Octets
    requires |key| == 24
  {
    (b: Octets) => CryptOctets(s, EncryptKeys(key[..8], key[8..16], key[16..]), b)
  }

  function Decipher(s: SBoxes, key: seq<byte>): Octets -> Octets
    requires |key| == 24
  {
    (b: Octets) => CryptOctets(s, DecryptKeys(key[..8], key[8..16], key[16..]), b)
  }

  /** A receiver with the same key and IV recovers every message from its CBC ciphertext. */
  lemma CbcDecryptEncrypt(s: SBoxes, key: seq<byte>, iv: Octets, m: seq<byte>)
    requires |key| == 24 && |m| % 8 == 0
    ensures CbcDecrypt(Decipher(s, key), iv, CbcEncrypt(Cipher(s, key), iv, m)) == m
  {
    hide CryptOctets, EncryptKeys, DecryptKeys;
    forall b: Octets
      ensures Decipher(s, key)(Cipher(s, key)(b)) == b
    {
      DecryptEncrypt(s, key[..8], key[8..16], key[16..], b);
    }
    CbcInverse(Cipher(s, key), Decipher(s, key), iv, m);
  }

  // ---------------------------------------------------------------- the code

  /** DES_ROUND with the subkey pointer at `at`: four table lookups for each of two subkey words. */
  method Round(s: SBoxes, sk: array<bv32>, at: nat, x: bv32, y: bv32) returns (y': bv32)
    requires at + 2 <= sk.Length
    ensures y' == Xor(y, F(s, x, sk[at], sk[at + 1]))
  {
    hide *;
    y' := LookupEven(s, Xor(sk[at], x), y);
    var r := (x << 28) | (x >> 4);
    RotateRight4Is(x);
    y' := LookupOdd(s, Xor(sk[at + 1], r), y');
    RoundIs(s, sk[at], sk[at + 1], x, y);
  }

  method LookupEven(s: SBoxes, t: bv32, y: bv32) returns (r: bv32)
    ensures r == Xor(y, Even(s, Split(t)))
  {
    hide *;
    r := Lookups(y, s.sb8((t & 0x3F) as bv6), s.sb6(((t >> 8) & 0x3F) as bv6),
                 s.sb4(((t >> 16) & 0x3F) as bv6), s.sb2(((t >> 24) & 0x3F) as bv6));
    EvenIs(s, t);
  }

  method LookupOdd(s: SBoxes, t: bv32, y: bv32) returns (r: bv32)
    ensures r == Xor(y, Odd(s, Split(t)))
  {
    hide *;
    r := Lookups(y, s.sb7((t & 0x3F) as bv6), s.sb5(((t >> 8) & 0x3F) as bv6),
                 s.sb3(((t >> 16) & 0x3F) as bv6), s.sb1(((t >> 24) & 0x3F) as bv6));
    OddIs(s, t);
  }

  /** Four table entries are added one after the other. */
  method Lookups(y: bv32, a: bv32, b: bv32, c: bv32, d: bv32) returns (r: bv32)
    ensures r == Xor(y, a ^ b ^ c ^ d)
  {
    r := y ^ a;
    r := r ^ b;
    r := r ^ c;
    r := r ^ d;
    XorFour(y, a, b, c, d);
  }

  lemma EvenIs(s: SBoxes, t: bv32)
    ensures Even(s, Split(t)) == s.sb8((t & 0x3F) as bv6) ^ s.sb6(((t >> 8) & 0x3F) as bv6)
                                 ^ s.sb4(((t >> 16) & 0x3F) as bv6) ^ s.sb2(((t >> 24) & 0x3F) as bv6)
  {}

  lemma OddIs(s: SBoxes, t: bv32)
    ensures Odd(s, Split(t)) == s.sb7((t & 0x3F) as bv6) ^ s.sb5(((t >> 8) & 0x3F) as bv6)
                                ^ s.sb3(((t >> 16) & 0x3F) as bv6) ^ s.sb1(((t >> 24) & 0x3F) as bv6)
  {}

  lemma RoundIs(s: SBoxes, k0: bv32, k1: bv32, x: bv32, y: bv32)
    ensures Xor(Xor(y, Even(s, Split(Xor(k0, x)))), Odd(s, Split(Xor(k1, RotateRight4(x))))) == Xor(y, F(s, x, k0, k1))
  {
    hide Even, Odd, Split, RotateRight4, Xor;
    XorThree(y, Even(s, Split(Xor(k0, x))), Odd(s, Split(Xor(k1, RotateRight4(x)))));
  }

  /** One of the three groups of sixteen rounds: eight macro lines of two rounds each. */
  method Sixteen(s: SBoxes, sk: array<bv32>, at: nat, p: Halves) returns (q: Halves)
    requires at + 32 <= sk.Length
    ensures q == Rounds(s, sk[at..at + 32], p)
  {
    hide F, Xor;
    var x, y := p.x, p.y;
    for i := 0 to 8
      invariant Halves(x, y) == Rounds(s, sk[at..at + 4 * i], p)
    {
      var n := at + 4 * i;
      ghost var h := Halves(x, y);
      x := Round(s, sk, n, y, x);
      y := Round(s, sk, n + 2, x, y);
      TwoRounds(s, sk[n..n + 4], h);
      RoundsAppend(s, sk[at..n], sk[n..n + 4], p);
      assert sk[at..n] + sk[n..n + 4] == sk[at..n + 4];
    }
    q := Halves(x, y);
  }

  lemma TwoRounds(s: SBoxes, sk: seq<bv32>, p: Halves)
    requires |sk| == 4
    ensures var x := Xor(p.x, F(s, p.y, sk[0], sk[1]));
            Rounds(s, sk, p) == Halves(x, Xor(p.y, F(s, x, sk[2], sk[3])))
  {
    hide F, Xor;
    var q := Halves(p.y, Xor(p.x, F(s, p.y, sk[0], sk[1])));
    assert Rounds(s, sk[2..], q) == Rounds(s, sk[2..][2..], Halves(q.y, Xor(q.x, F(s, q.y, sk[2], sk[3]))));
    assert sk[2..][2..] == [];
  }

  method PutPair(sk: array<bv32>, at: nat, a: bv32, b: bv32)
    requires at + 2 <= sk.Length
    modifies sk
    ensures sk[..] == old(sk[..])[at := a][at + 1 := b]
  {
    sk[at], sk[at + 1] := a, b;
  }

  /** `s` with the first `m` elements of `part` written at `at`. */
  function Written<T>(s: seq<T>, at: nat, part: seq<T>, m: nat): (r: seq<T>)
    requires m <= |part| && at + m <= |s|
    ensures |r| == |s|
    ensures forall k :: 0 <= k < |s| ==> r[k] == if at <= k < at + m then part[k - at] else s[k]
  {
    s[..at] + part[..m] + s[at + m..]
  }

  lemma WrittenNone<T>(s: seq<T>, at: nat, part: seq<T>)
    requires at <= |s|
    ensures Written(s, at, part, 0) == s
  {}

  lemma WrittenPair<T>(s: seq<T>, at: nat, part: seq<T>, m: nat)
    requires m + 2 <= |part| && at + m + 2 <= |s|
    ensures Written(s, at, part, m)[at + m := part[m]][at + m + 1 := part[m + 1]] == Written(s, at, part, m + 2)
  {}

  lemma WrittenApart<T>(s: seq<T>, at: nat, part: seq<T>, m: nat, n: nat, x: T, y: T)
    requires m <= |part| && at + m <= |s| && n + 2 <= |s|
    requires n + 2 <= at || at + m <= n
    ensures Written(s, at, part, m)[n := x][n + 1 := y] == Written(s[n := x][n + 1 := y], at, part, m)
  {}

  lemma SubkeysStep(all: seq<bv32>, n: nat, i: nat, x: bv32, y: bv32)
    requires i < 16 && |all| == 32 && n == 2 * i && all[n..] == Subkeys(i, x, y)
    ensures var x', y' := Turn(i, x), Turn(i, y);
            && all[n] == Key0(x', y') && all[n + 1] == Key1(x', y')
            && all[n + 2..] == Subkeys(i + 1, x', y')
  {
    hide Turn, Key0, Key1;
    assert all[n] == all[n..][0] && all[n + 1] == all[n..][1];
    assert all[n + 2..] == all[n..][2..];
  }

  lemma SpreadStep<T>(e: seq<T>, d: seq<T>, ra: seq<T>, rb: seq<T>, rc: seq<T>, i: nat)
    requires |e| == |d| == 96 && |ra| == |rb| == |rc| == 32 && i + 2 <= 32
    ensures Written(e, 32, rb, i)[i + 32 := rb[i]][i + 33 := rb[i + 1]] == Written(e, 32, rb, i + 2)
    ensures Written(Written(d, 0, rc, i), 64, ra, i)[i := rc[i]][i + 1 := rc[i + 1]][i + 64 := ra[i]][i + 65 := ra[i + 1]]
         == Written(Written(d, 0, rc, i + 2), 64, ra, i + 2)
  {
    hide Written;
    WrittenPair(e, 32, rb, i);
    WrittenApart(Written(d, 0, rc, i), 64, ra, i, i, rc[i], rc[i + 1]);
    WrittenPair(d, 0, rc, i);
    WrittenPair(Written(d, 0, rc, i + 2), 64, ra, i);
  }

  lemma SpreadReads<T>(e: seq<T>, d: seq<T>, a: seq<T>, b: seq<T>, c: seq<T>, ra: seq<T>, rb: seq<T>, rc: seq<T>, i: nat)
    requires |e| == |d| == 96 && |a| == |b| == |c| == |ra| == |rb| == |rc| == 32 && i + 2 <= 32 && i % 2 == 0
    requires e[..32] == a && d[32..64] == b && e[64..] == c
    ensures var e', d' := Written(e, 32, rb, i), Written(Written(d, 0, rc, i), 64, ra, i);
            && e'[30 - i] == a[30 - i] && e'[31 - i] == a[31 - i]
            && d'[62 - i] == b[30 - i] && d'[63 - i] == b[31 - i]
            && e'[94 - i] == c[30 - i] && e'[95 - i] == c[31 - i]
  {
    hide Written;
  }

  lemma SpreadDone<T>(e: seq<T>, d: seq<T>, a: seq<T>, b: seq<T>, c: seq<T>, ra: seq<T>, rb: seq<T>, rc: seq<T>)
    requires |e| == |d| == 96 && |a| == |b| == |c| == |ra| == |rb| == |rc| == 32
    requires e[..32] == a && d[32..64] == b && e[64..] == c
    ensures Written(e, 32, rb, 32) == a + rb + c
    ensures Written(Written(d, 0, rc, 32), 64, ra, 32) == rc + b + ra
  {
    hide Written;
  }

  class Des3Context {
    const sboxes: SBoxes
    const esk: array<bv32>
    const dsk: array<bv32>

    ghost predicate Keyed(key: seq<byte>)
      reads esk, dsk
      requires |key| == 24
    {
      && esk[..] == EncryptKeys(key[..8], key[8..16], key[16..])
      && dsk[..] == DecryptKeys(key[..8], key[8..16], key[16..])
    }

    constructor (sboxes: SBoxes)
      ensures this.sboxes == sboxes && fresh(esk) && fresh(dsk)
      ensures esk.Length == dsk.Length == 96 && esk != dsk
    {
      this.sboxes := sboxes;
      esk := new bv32[96];
      dsk := new bv32[96];
    }

    /** des_main_ks: the schedule of one key, written at `at`. */
    method MainKeySchedule(sk: array<bv32>, at: nat, key: Octets)
      requires at + 32 <= sk.Length
      modifies sk
      ensures sk[..] == Written(old(sk[..]), at, KeySchedule(FromOctets(key)), 32)
    {
      hide Turn, Key0, Key1, PermutedChoice1, FromOctets, Written, Subkeys;
      var p := PermutedChoice1(FromOctets(key));
      Subkeyed(sk, at, p.x, p.y);
    }

    /** The sixteen turns of the two key halves. */
    method Subkeyed(sk: array<bv32>, at: nat, x0: bv32, y0: bv32)
      requires at + 32 <= sk.Length
      modifies sk
      ensures sk[..] == Written(old(sk[..]), at, Subkeys(0, x0, y0), 32)
    {
      hide *;
      ghost var all, before := Subkeys(0, x0, y0), sk[..];
      var x, y, n := x0, y0, 0;
      WrittenNone(before, at, all);
      assert all[n..] == all;
      for i := 0 to 16
        invariant n == 2 * i
        invariant all[n..] == Subkeys(i, x, y)
        invariant sk[..] == Written(before, at, all, n)
      {
        SubkeysStep(all, n, i, x, y);
        x, y := Turn(i, x), Turn(i, y);
        WrittenPair(before, at, all, n);
        PutPair(sk, at + n, Key0(x, y), Key1(x, y));
        n := n + 2;
      }
    }

    /** des3_set_3keys: the three schedules, reversed where the EDE form needs it. */
    method SetKeys(key: seq<byte>)
      requires |key| == 24
      requires esk.Length == dsk.Length == 96 && esk != dsk
      modifies esk, dsk
      ensures Keyed(key)
    {
      hide KeySchedule, FromOctets, ReversePairs;
      MainKeySchedule(esk, 0, key[..8]);
      MainKeySchedule(dsk, 32, key[8..16]);
      MainKeySchedule(esk, 64, key[16..]);
      ghost var a := KeySchedule(FromOctets(key[..8]));
      ghost var b := KeySchedule(FromOctets(key[8..16]));
      ghost var c := KeySchedule(FromOctets(key[16..]));
      SpreadKeys(a, b, c);
    }

    /** The loop of des3_set_3keys. */
    method SpreadKeys(ghost a: seq<bv32>, ghost b: seq<bv32>, ghost c: seq<bv32>)
      requires esk.Length == dsk.Length == 96 && esk != dsk
      requires |a| == |b| == |c| == 32
      requires esk[..32] == a && dsk[32..64] == b && esk[64..] == c
      modifies esk, dsk
      ensures esk[..] == a + ReversePairs(b) + c
      ensures dsk[..] == ReversePairs(c) + b + ReversePairs(a)
    {
      hide Written, ReversePairs;
      ghost var e, d := esk[..], dsk[..];
      ghost var ra, rb, rc := ReversePairs(a), ReversePairs(b), ReversePairs(c);
      WrittenNone(e, 32, rb);
      WrittenNone(d, 0, rc);
      WrittenNone(d, 64, ra);
      var i := 0;
      while i < 32
        invariant i <= 32 && i % 2 == 0
        invariant esk[..] == Written(e, 32, rb, i)
        invariant dsk[..] == Written(Written(d, 0, rc, i), 64, ra, i)
      {
        SpreadReads(e, d, a, b, c, ra, rb, rc, i);
        ReversePairsAt(a, i);
        ReversePairsAt(b, i);
        ReversePairsAt(c, i);
        PutPair(dsk, i, esk[94 - i], esk[95 - i]);
        PutPair(esk, i + 32, dsk[62 - i], dsk[63 - i]);
        PutPair(dsk, i + 64, esk[30 - i], esk[31 - i]);
        SpreadStep(e, d, ra, rb, rc, i);
        i := i + 2;
      }
      SpreadDone(e, d, a, b, c, ra, rb, rc);
    }

    /** des3_encrypt and des3_decrypt, with `sk` either subkey array; `output` may be `input`. */
    method Crypt(sk: array<bv32>, input: array<byte>, output: array<byte>)
      requires sk.Length == 96 && input.Length == output.Length == 8
      modifies output
      ensures output[..] == CryptOctets(sboxes, sk[..], old(input[..]))
    {
      hide IP, FP, Rounds, FromOctets, ToOctets;
      var p := IP(FromOctets(input[..]));
      p := Sixteen(sboxes, sk, 0, p);
      p := Sixteen(sboxes, sk, 32, p.Swap());
      p := Sixteen(sboxes, sk, 64, p.Swap());
      assert sk[..][..32] == sk[0..32] && sk[..][32..64] == sk[32..64] && sk[..][64..] == sk[64..96];
      var b := ToOctets(FP(p.Swap()));
      Memcpy(output, 0, b);
    }
  }

  /** ssl_des3_encrypt: 0 and nothing written for a key that is not 24 bytes or a message
      that is not whole blocks, the CBC ciphertext otherwise. */
  method SslDes3Encrypt(s: SBoxes, key: seq<byte>, input: seq<byte>, iv: Octets) returns (n: nat, res: seq<byte>)
    ensures |key| != 24 || |input| % 8 != 0 ==> n == 0 && res == []
    ensures |key| == 24 && |input| % 8 == 0 ==> n == |input| && res == CbcEncrypt(Cipher(s, key), iv, input)
  {
    hide EncryptKeys, DecryptKeys, CryptOctets, XorOctets;
    if |key| != 24 || |input| % 8 != 0 {
      return 0, [];
    }
    var ctx := new Des3Context(s);
    ctx.SetKeys(key);
    var buf := new byte[8];
    Memcpy(buf, 0, iv);
    assert buf[..] == iv;
    res := [];
    var off := 0;
    while off < |input|
      invariant off <= |input| && off % 8 == 0
      invariant fresh(buf) && fresh(ctx.esk) && ctx.Keyed(key)
      invariant res == CbcEncrypt(Cipher(s, key), iv, input[..off])
      invariant buf[..] == Chained(Cipher(s, key), iv, input[..off])
    {
      XorInto(buf, input[off..off + 8]);
      ctx.Crypt(ctx.esk, buf, buf);
      CbcAppend(Cipher(s, key), iv, input[..off], input[off..off + 8]);
      assert input[..off] + input[off..off + 8] == input[..off + 8];
      res := res + buf[..];
      off := off + 8;
    }
    assert input[..off] == input;
    n := |input|;
  }

  method XorInto(buf: array<byte>, block: Octets)
    requires buf.Length == 8
    modifies buf
    ensures buf[..] == XorOctets(old(buf[..]), block)
  {
    for i := 0 to 8
      invariant forall k :: 0 <= k < i ==> buf[k] == old(buf[k]) ^ block[k]
      invariant forall k :: i <= k < 8 ==> buf[k] == old(buf[k])
    {
      buf[i] := buf[i] ^ block[i];
    }
  }
}
