/** Base64 as in lib/base64.c. */
module Base64 {
  import opened Bytes

  /** The digit for a 6-bit value; 64 is the padding character. */
  function Digit(v: bv8): byte
    requires v <= 64
  {
    if v < 26 then v + 0x41
    else if v < 52 then v + 0x47
    else if v < 62 then v - 4
    else if v == 62 then 0x2b
    else if v == 63 then 0x2f
    else 0x3d
  }

  /** The reverse table as a C int in eight bits: 0xff where there is no digit. */
  function Reverse(c: byte): bv8 {
    if 0x41 <= c <= 0x5a then c - 0x41
    else if 0x61 <= c <= 0x7a then c - 0x47
    else if 0x30 <= c <= 0x39 then c + 4
    else if c == 0x2b then 62
    else if c == 0x2f then 63
    else if c == 0x3d then 64
    else 0xff
  }

  lemma ReverseDigit(v: bv8)
    requires v <= 64
    ensures Reverse(Digit(v)) == v && Digit(v) != 0
  {}

  lemma DigitReverse(c: byte)
    ensures Reverse(c) <= 64 <==> exists v: bv8 :: v <= 64 && Digit(v) == c
  {
    if Reverse(c) <= 64 {
      assert Digit(Reverse(c)) == c;
    } else {
      forall v: bv8 | v <= 64
        ensures Digit(v) != c
      {
        ReverseDigit(v);
      }
    }
  }

  // ---------------------------------------------------------------- one group

  function First(a: bv8): bv8 { a >> 2 }

  function Second(a: bv8, b: bv8): bv8 { ((a << 4) & 0x30) | (b >> 4) }

  function Third(b: bv8, c: bv8): bv8 { ((b << 2) & 0x3c) | (c >> 6) }

  function Fourth(c: bv8): bv8 { c & 0x3f }

  function High1(x: bv8): bv8 { (x << 2) & 0xfc }

  function Low1(y: bv8): bv8 { (y >> 4) & 0x03 }

  function High2(y: bv8): bv8 { (y << 4) & 0xf0 }

  function Low2(z: bv8): bv8 { (z >> 2) & 0x0f }

  function High3(z: bv8): bv8 { (z << 6) & 0xc0 }

  function Or(a: bv8, b: bv8): bv8 { a | b }

  function Back1(x: bv8, y: bv8): bv8 { Or(High1(x), Low1(y)) }

  function Back2(y: bv8, z: bv8): bv8 { Or(High2(y), Low2(z)) }

  function Back3(z: bv8, w: bv8): bv8 { Or(High3(z), w) }

  lemma Group1(a: bv8, b: bv8)
    ensures Back1(First(a), Second(a, b)) == a && First(a) < 64 && Second(a, b) < 64
  {}

  lemma Group2(a: bv8, b: bv8, c: bv8)
    ensures Back2(Second(a, b), Third(b, c)) == b && Third(b, c) < 64
  {}

  lemma Group3(b: bv8, c: bv8)
    ensures Back3(Third(b, c), Fourth(c)) == c && Fourth(c) < 64
  {}

  // ---------------------------------------------------------------- whole texts

  /** One to three bytes as four digits. */
  function Quad(s: seq<byte>): (r: seq<byte>)
    requires 0 < |s| <= 3
    ensures |r| == 4
  {
    var a, b, c := s[0], if |s| > 1 then s[1] else 0, if |s| > 2 then s[2] else 0;
    Group1(a, b);
    Group2(a, b, c);
    Group3(b, c);
    [Digit(First(a)), Digit(Second(a, b)), Digit(if |s| > 1 then Third(b, c) else 64), Digit(if |s| > 2 then Fourth(c) else 64)]
  }

  /** Section 4 of RFC 4648. */
  function Encoded(s: seq<byte>): (r: seq<byte>) {
    if s == [] then []
    else if |s| <= 3 then Quad(s)
    else Quad(s[..3]) + Encoded(s[3..])
  }

  lemma {:induction false} EncodedLength(s: seq<byte>)
    ensures |Encoded(s)| == (|s| + 2) / 3 * 4
    ensures 0 !in Encoded(s)
  {
    if s != [] {
      QuadDigits(if |s| <= 3 then s else s[..3]);
      if |s| > 3 {
        EncodedLength(s[3..]);
      }
    }
  }

  lemma QuadDigits(s: seq<byte>)
    requires 0 < |s| <= 3
    ensures 0 !in Quad(s)
  {
    hide First, Second, Third, Fourth, Digit, Reverse;
    var a, b, c := s[0], if |s| > 1 then s[1] else 0, if |s| > 2 then s[2] else 0;
    Group1(a, b);
    Group2(a, b, c);
    Group3(b, c);
    ReverseDigit(First(a));
    ReverseDigit(Second(a, b));
    ReverseDigit(if |s| > 1 then Third(b, c) else 64);
    ReverseDigit(if |s| > 2 then Fourth(c) else 64);
  }

  /** A value that ends the decoding: the padding, and where `char` is unsigned any other character
      that is no digit. Where it is signed, such a character reads as -1 and is decoded like one. */
  predicate Stops(v: bv8, signed: bool) {
    v >= 64 && !(signed && v >= 0x80)
  }

  /** What four characters give, and whether the decoding goes on. */
  function Unquad(s: seq<byte>, signed: bool): (seq<byte>, bool)
    requires |s| >= 4
  {
    var x, y, z, w := Reverse(s[0]), Reverse(s[1]), Reverse(s[2]), Reverse(s[3]);
    if Stops(x, signed) || Stops(y, signed) then ([], false)
    else if Stops(z, signed) then ([Back1(x, y)], false)
    else if Stops(w, signed) then ([Back1(x, y), Back2(y, z)], false)
    else ([Back1(x, y), Back2(y, z), Back3(z, w)], true)
  }

  function Decoded(s: seq<byte>, signed: bool): seq<byte> {
    if |s| < 4 then []
    else
      var (r, more) := Unquad(s, signed);
      r + if more then Decoded(s[4..], signed) else []
  }

  lemma UnquadQuad(s: seq<byte>, rest: seq<byte>, signed: bool)
    requires 0 < |s| <= 3
    ensures Unquad(Quad(s) + rest, signed) == (s, |s| == 3)
  {
    hide First, Second, Third, Fourth, Digit, Reverse, Back1, Back2, Back3;
    var a, b, c := s[0], if |s| > 1 then s[1] else 0, if |s| > 2 then s[2] else 0;
    Group1(a, b);
    Group2(a, b, c);
    Group3(b, c);
    ReverseDigit(First(a));
    ReverseDigit(Second(a, b));
    ReverseDigit(if |s| > 1 then Third(b, c) else 64);
    ReverseDigit(if |s| > 2 then Fourth(c) else 64);
    var q := Quad(s) + rest;
    assert q[0] == Quad(s)[0] && q[1] == Quad(s)[1] && q[2] == Quad(s)[2] && q[3] == Quad(s)[3];
    if |s| == 1 {
      assert s == [a];
    } else if |s| == 2 {
      assert s == [a, b];
    } else {
      assert s == [a, b, c];
    }
  }

  /** Decoding undoes encoding, for every text, with signed and with unsigned characters. */
  lemma {:induction false} DecodeEncode(s: seq<byte>, signed: bool)
    ensures Decoded(Encoded(s), signed) == s
  {
    hide Quad, Unquad;
    if s != [] {
      if |s| <= 3 {
        assert Quad(s) + [] == Quad(s);
        UnquadQuad(s, [], signed);
        if |s| == 3 {
          assert Decoded(Quad(s)[4..], signed) == [];
        }
      } else {
        UnquadQuad(s[..3], Encoded(s[3..]), signed);
        assert (Quad(s[..3]) + Encoded(s[3..]))[4..] == Encoded(s[3..]);
        DecodeEncode(s[3..], signed);
      }
    }
  }

  // ---------------------------------------------------------------- RFC 4648

  /** Table 1 of RFC 4648. */
  function Symbol(n: nat): nat {
    if n < 26 then 'A' as nat + n
    else if n < 52 then 'a' as nat + (n - 26)
    else if n < 62 then '0' as nat + (n - 52)
    else if n == 62 then '+' as nat else '/' as nat
  }

  /** One to three bytes, joined to a group of 24 bits. */
  ghost function Joined(b: seq<byte>): nat
    requires 0 < |b| <= 3
  {
    b[0] as nat * 0x1_0000 + (if |b| > 1 then b[1] as nat * 0x100 else 0) + (if |b| > 2 then b[2] as nat else 0)
  }

  /** Such a group as four symbols of six bits each; what is only filled up shows as '='. */
  ghost predicate Grouped(b: seq<byte>, d: seq<byte>) {
    && 0 < |b| <= 3 && |d| == 4
    && var n := Joined(b);
    && d[0] as nat == Symbol(n / 0x4_0000) && d[1] as nat == Symbol(n / 0x1000 % 64)
    && d[2] as nat == (if |b| > 1 then Symbol(n / 64 % 64) else '=' as nat)
    && d[3] as nat == (if |b| > 2 then Symbol(n % 64) else '=' as nat)
  }

  /** Section 4 of RFC 4648. */
  ghost predicate Rfc4648(s: seq<byte>, r: seq<byte>) {
    && 3 * |r| == 4 * ((|s| + 2) / 3 * 3)
    && forall g :: 0 <= g < (|s| + 2) / 3 ==> GroupAt(s, r, g)
  }

  /** Bytes 3g to 3g + 2, as far as there are, are symbols 4g to 4g + 3. */
  ghost predicate GroupAt(s: seq<byte>, r: seq<byte>, g: nat)
    requires 3 * g < |s| && 4 * g + 4 <= |r|
  {
    Grouped(s[3 * g..if 3 * g + 3 < |s| then 3 * g + 3 else |s|], r[4 * g..4 * g + 4])
  }

  lemma GroupFirst(s: seq<byte>, q: seq<byte>, r: seq<byte>)
    requires s != [] && |q| == 4 && Grouped(if |s| <= 3 then s else s[..3], q)
    ensures GroupAt(s, q + r, 0)
  {
    hide Grouped;
    assert (q + r)[0..4] == q;
    assert |s| > 3 ==> s[0..3] == s[..3];
    assert |s| <= 3 ==> s[0..|s|] == s;
  }

  lemma GroupLater(s: seq<byte>, q: seq<byte>, r: seq<byte>, g: nat)
    requires |s| > 3 && |q| == 4 && 3 * g < |s[3..]| && 4 * g + 4 <= |r| && GroupAt(s[3..], r, g)
    ensures GroupAt(s, q + r, g + 1)
  {
    hide Grouped;
    SliceBehind(q, r, 4 * g, 4 * g + 4);
    var t := s[3..];
    var e := if 3 * g + 3 < |t| then 3 * g + 3 else |t|;
    SliceBehind(s[..3], t, 3 * g, e);
    assert s[..3] + t == s;
  }

  lemma SliceBehind(a: seq<byte>, b: seq<byte>, from: nat, to: nat)
    requires from <= to <= |b|
    ensures (a + b)[|a| + from..|a| + to] == b[from..to]
  {}

  lemma FirstIs(a: bv8)
    ensures First(a) as nat == a as nat / 4
  {}

  lemma FourthIs(c: bv8)
    ensures Fourth(c) as nat == c as nat % 64
  {}

  lemma SumIs(x: bv8, y: bv8)
    requires x < 64 && y < 64
    ensures (x + y) as nat == x as nat + y as nat
  {}

  lemma SecondParts(a: bv8, b: bv8)
    ensures Second(a, b) == ((a & 3) << 4) + (b >> 4) && (a & 3) < 4 && ((a & 3) << 4) < 64 && b >> 4 < 64
  {}

  lemma SecondShifts(a: bv8, b: bv8)
    requires (a & 3) < 4
    ensures ((a & 3) << 4) as nat == a as nat % 4 * 16 && (b >> 4) as nat == b as nat / 16
  {
    ShiftUp4(a & 3);
    Low3(a);
    ShiftDown4(b);
  }

  lemma ShiftUp4(e: bv8)
    requires e < 4
    ensures (e << 4) as nat == e as nat * 16
  {}

  lemma Low3(a: bv8)
    ensures (a & 3) as nat == a as nat % 4
  {}

  lemma ShiftDown4(b: bv8)
    ensures (b >> 4) as nat == b as nat / 16
  {}

  lemma ThirdParts(b: bv8, c: bv8)
    ensures Third(b, c) == ((b & 15) << 2) + (c >> 6) && (b & 15) < 16 && ((b & 15) << 2) < 64 && c >> 6 < 64
  {}

  lemma ThirdShifts(b: bv8, c: bv8)
    requires (b & 15) < 16
    ensures ((b & 15) << 2) as nat == b as nat % 16 * 4 && (c >> 6) as nat == c as nat / 64
  {
    ShiftUp2(b & 15);
    Low15(b);
    ShiftDown6(c);
  }

  lemma ShiftUp2(e: bv8)
    requires e < 16
    ensures (e << 2) as nat == e as nat * 4
  {}

  lemma Low15(b: bv8)
    ensures (b & 15) as nat == b as nat % 16
  {}

  lemma ShiftDown6(c: bv8)
    ensures (c >> 6) as nat == c as nat / 64
  {}

  lemma SecondIs(a: bv8, b: bv8)
    ensures Second(a, b) as nat == a as nat % 4 * 16 + b as nat / 16
  {
    hide Second;
    SecondParts(a, b);
    SecondShifts(a, b);
    SumIs((a & 3) << 4, b >> 4);
  }

  lemma ThirdIs(b: bv8, c: bv8)
    ensures Third(b, c) as nat == b as nat % 16 * 4 + c as nat / 64
  {
    hide Third;
    ThirdParts(b, c);
    ThirdShifts(b, c);
    SumIs((b & 15) << 2, c >> 6);
  }

  lemma DigitIs(v: bv8)
    requires v <= 64
    ensures Digit(v) as nat == if v < 64 then Symbol(v as nat) else '=' as nat
  {}

  lemma Sextets(a: nat, b: nat, c: nat, n: nat)
    requires a < 256 && b < 256 && c < 256 && n == a * 0x1_0000 + b * 0x100 + c
    ensures && n / 0x4_0000 == a / 4 && n / 0x1000 % 64 == a % 4 * 16 + b / 16
            && n / 64 % 64 == b % 16 * 4 + c / 64 && n % 64 == c % 64
  {
    Shift18(a / 4, a % 4 * 0x1_0000 + b * 0x100 + c, n);
    Shift12(16 * a + b / 16, b % 16 * 0x100 + c, n);
    Shift6(1024 * a + 4 * b + c / 64, c % 64, n);
    Shift6(a / 4, a % 4 * 16 + b / 16, 16 * a + b / 16);
    Shift6(16 * a + b / 16, b % 16 * 4 + c / 64, 1024 * a + 4 * b + c / 64);
  }

  lemma Shift18(q: nat, r: nat, n: nat)
    requires n == q * 0x4_0000 + r && r < 0x4_0000
    ensures n / 0x4_0000 == q
  {}

  lemma Shift12(q: nat, r: nat, n: nat)
    requires n == q * 0x1000 + r && r < 0x1000
    ensures n / 0x1000 == q
  {}

  lemma Shift6(q: nat, r: nat, n: nat)
    requires n == q * 64 + r && r < 64
    ensures n / 64 == q && n % 64 == r
  {}

  lemma Fronts(a: bv8, b: bv8)
    ensures First(a) < 64 && Second(a, b) < 64
    ensures Digit(First(a)) as nat == Symbol(a as nat / 4)
    ensures Digit(Second(a, b)) as nat == Symbol(a as nat % 4 * 16 + b as nat / 16)
  {
    hide First, Second, Digit, Symbol;
    Group1(a, b);
    FirstIs(a);
    SecondIs(a, b);
    DigitIs(First(a));
    DigitIs(Second(a, b));
  }

  lemma Backs(b: bv8, c: bv8)
    ensures Third(b, c) < 64 && Fourth(c) < 64
    ensures Digit(Third(b, c)) as nat == Symbol(b as nat % 16 * 4 + c as nat / 64)
    ensures Digit(Fourth(c)) as nat == Symbol(c as nat % 64)
    ensures Digit(64) as nat == '=' as nat
  {
    hide First, Second, Third, Fourth, Digit, Symbol;
    Group2(0, b, c);
    Group3(b, c);
    ThirdIs(b, c);
    FourthIs(c);
    DigitIs(Third(b, c));
    DigitIs(Fourth(c));
    DigitIs(64);
  }

  lemma QuadSymbols(s: seq<byte>, a: byte, b: byte, c: byte)
    requires 0 < |s| <= 3 && a == s[0] && b == (if |s| > 1 then s[1] else 0) && c == if |s| > 2 then s[2] else 0
    ensures First(a) < 64 && Second(a, b) < 64 && Third(b, c) < 64 && Fourth(c) < 64
    ensures Quad(s)[0] == Digit(First(a)) && Quad(s)[1] == Digit(Second(a, b))
    ensures Quad(s)[2] == if |s| > 1 then Digit(Third(b, c)) else Digit(64)
    ensures Quad(s)[3] == if |s| > 2 then Digit(Fourth(c)) else Digit(64)
  {
    hide First, Second, Third, Fourth, Digit;
    Group1(a, b);
    Group2(a, b, c);
    Group3(b, c);
  }

  lemma QuadGrouped(s: seq<byte>)
    requires 0 < |s| <= 3
    ensures Grouped(s, Quad(s))
  {
    var a, b, c := s[0], if |s| > 1 then s[1] else 0, if |s| > 2 then s[2] else 0;
    QuadSymbols(s, a, b, c);
    Fronts(a, b);
    Backs(b, c);
    ByNumbers(s, Quad(s), a as nat, b as nat, c as nat);
  }

  lemma ByNumbers(s: seq<byte>, d: seq<byte>, a: nat, b: nat, c: nat)
    requires 0 < |s| <= 3 && |d| == 4 && a < 256 && b < 256 && c < 256
    requires a == s[0] as nat && b == (if |s| > 1 then s[1] as nat else 0) && c == if |s| > 2 then s[2] as nat else 0
    requires d[0] as nat == Symbol(a / 4) && d[1] as nat == Symbol(a % 4 * 16 + b / 16)
    requires d[2] as nat == if |s| > 1 then Symbol(b % 16 * 4 + c / 64) else '=' as nat
    requires d[3] as nat == if |s| > 2 then Symbol(c % 64) else '=' as nat
    ensures Grouped(s, d)
  {
    assert Joined(s) == a * 0x1_0000 + b * 0x100 + c;
    hide Symbol, Joined;
    Sextets(a, b, c, Joined(s));
  }

  /** The encoding is that of the RFC. */
  lemma {:induction false} EncodedIsRfc4648(s: seq<byte>)
    ensures Rfc4648(s, Encoded(s))
  {
    hide GroupAt, Grouped, Quad;
    if |s| > 3 {
      var t, q, r := s[3..], Quad(s[..3]), Encoded(s[3..]);
      EncodedIsRfc4648(t);
      QuadGrouped(s[..3]);
      GroupFirst(s, q, r);
      forall g | 0 < g < (|s| + 2) / 3
        ensures GroupAt(s, q + r, g)
      {
        GroupLater(s, q, r, g - 1);
      }
    } else if s != [] {
      QuadGrouped(s);
      GroupFirst(s, Quad(s), []);
      assert Quad(s) + [] == Quad(s);
    }
  }

  /** Decoding ends at the padding and, where `char` is unsigned, at every character that is no symbol. */
  lemma StopsAt(c: byte, signed: bool)
    ensures Stops(Reverse(c), signed) <==> c as nat == '=' as nat || (!signed && forall n: nat :: n < 64 ==> Symbol(n) != c as nat)
  {
    if Reverse(c) < 64 {
      assert Symbol(Reverse(c) as nat) == c as nat;
    } else if exists n: nat :: n < 64 && Symbol(n) == c as nat {
      assert false;
    }
  }

  // ---------------------------------------------------------------- the buffers

  method Put4(out: array<byte>, n: nat, a: byte, b: byte, c: byte, d: byte)
    requires n + 4 <= out.Length
    modifies out
    ensures out[..n + 4] == old(out[..n]) + [a, b, c, d]
  {
    out[n] := a;
    out[n + 1] := b;
    out[n + 2] := c;
    out[n + 3] := d;
  }

  lemma EncodeStep(s: seq<byte>)
    requires |s| >= 3
    ensures First(s[0]) < 64 && Second(s[0], s[1]) < 64 && Third(s[1], s[2]) < 64 && Fourth(s[2]) < 64
    ensures Encoded(s) == [Digit(First(s[0])), Digit(Second(s[0], s[1])), Digit(Third(s[1], s[2])), Digit(Fourth(s[2]))]
                          + Encoded(s[3..])
  {
    hide First, Second, Third, Fourth, Digit;
    Group1(s[0], s[1]);
    Group2(s[0], s[1], s[2]);
    Group3(s[1], s[2]);
    if |s| == 3 {
      assert s[3..] == [] && s[..3] == s;
    }
  }

  lemma EncodeEnd(s: seq<byte>)
    requires |s| < 3
    ensures s == [] ==> Encoded(s) == []
    ensures |s| > 0 ==> First(s[0]) < 64 && Second(s[0], 0) < 64
    ensures |s| == 1 ==> Encoded(s) == [Digit(First(s[0])), Digit(Second(s[0], 0)), Digit(64), Digit(64)]
    ensures |s| == 2 ==> Second(s[0], s[1]) < 64 && Third(s[1], 0) < 64
                         && Encoded(s) == [Digit(First(s[0])), Digit(Second(s[0], s[1])), Digit(Third(s[1], 0)), Digit(64)]
  {
    hide First, Second, Third, Fourth, Digit;
    if |s| > 0 {
      Group1(s[0], 0);
    }
    if |s| == 2 {
      Group1(s[0], s[1]);
      Group2(s[0], s[1], 0);
    }
  }

  lemma Room(len: nat, at: nat)
    requires at % 3 == 0 && at <= len
    ensures len - at >= 3 ==> at / 3 * 4 + 4 <= (len + 2) / 3 * 4 && (at + 3) % 3 == 0 && (at + 3) / 3 * 4 == at / 3 * 4 + 4
    ensures 0 < len - at < 3 ==> at / 3 * 4 + 4 == (len + 2) / 3 * 4
    ensures len == at ==> at / 3 * 4 == (len + 2) / 3 * 4
  {}

  /** base64_encode_real: `out` has room for the digits and a zero byte. */
  method EncodeReal(input: seq<byte>, out: array<byte>) returns (n: nat)
    requires out.Length >= (|input| + 2) / 3 * 4 + 1
    modifies out
    ensures n == (|input| + 2) / 3 * 4 && out[..n] == Encoded(input) && out[n] == 0
    ensures Rfc4648(input, out[..n])
  {
    hide *;
    EncodedIsRfc4648(input);
    n := 0;
    var at := 0;
    assert input[0..] == input;
    while |input| - at >= 3
      invariant at <= |input| && n == at / 3 * 4 && at % 3 == 0
      invariant out[..n] + Encoded(input[at..]) == Encoded(input)
    {
      EncodeStep(input[at..]);
      Room(|input|, at);
      ghost var done := out[..n];
      Put4(out, n, Digit(First(input[at])), Digit(Second(input[at], input[at + 1])),
           Digit(Third(input[at + 1], input[at + 2])), Digit(Fourth(input[at + 2])));
      assert input[at..][3..] == input[at + 3..];
      n, at := n + 4, at + 3;
    }
    Room(|input|, at);
    EncodeEnd(input[at..]);
    if |input| - at > 0 {
      if |input| - at > 1 {
        Put4(out, n, Digit(First(input[at])), Digit(Second(input[at], input[at + 1])), Digit(Third(input[at + 1], 0)), Digit(64));
      } else {
        Put4(out, n, Digit(First(input[at])), Digit(Second(input[at], 0)), Digit(64), Digit(64));
      }
      n := n + 4;
    }
    out[n] := 0;
  }

  /** base64_encode. */
  method Encode(input: seq<byte>) returns (out: array<byte>)
    ensures fresh(out) && out[..] == Encoded(input) + [0]
  {
    out := new byte[(|input| + 2) / 3 * 4 + 1];
    var n := EncodeReal(input, out);
    assert out[..] == out[..n] + [out[n]];
  }

  lemma DecodeStep(s: seq<byte>, signed: bool)
    requires |s| >= 4
    ensures var (r, more) := Unquad(s, signed);
            && |r| <= 3 && Decoded(s, signed) == r + if more then Decoded(s[4..], signed) else []
  {}

  lemma UnquadIs(s: seq<byte>, signed: bool)
    requires |s| >= 4
    ensures var x, y, z, w := Reverse(s[0]), Reverse(s[1]), Reverse(s[2]), Reverse(s[3]);
            && (Stops(x, signed) || Stops(y, signed) ==> Unquad(s, signed) == ([], false))
            && (!Stops(x, signed) && !Stops(y, signed) && Stops(z, signed) ==> Unquad(s, signed) == ([Back1(x, y)], false))
            && (!Stops(x, signed) && !Stops(y, signed) && !Stops(z, signed) && Stops(w, signed) ==>
                  Unquad(s, signed) == ([Back1(x, y), Back2(y, z)], false))
            && (!Stops(x, signed) && !Stops(y, signed) && !Stops(z, signed) && !Stops(w, signed) ==>
                  Unquad(s, signed) == ([Back1(x, y), Back2(y, z), Back3(z, w)], true))
  {}

  lemma DecodeShort(s: seq<byte>, signed: bool)
    requires |s| < 4
    ensures Decoded(s, signed) == []
  {}

  /** base64_decode_real on a text without zero bytes. */
  method DecodeReal(s: seq<byte>, out: array<byte>, signed: bool) returns (n: nat)
    requires out.Length >= |s| / 4 * 3
    modifies out
    ensures n <= |s| / 4 * 3 && out[..n] == Decoded(s, signed)
  {
    hide *;
    n := 0;
    var i := 0;
    ghost var g := 0;
    assert s[0..] == s;
    while |s| - i >= 4
      invariant i <= |s| && n == 3 * g && i == 4 * g
      invariant out[..n] + Decoded(s[i..], signed) == Decoded(s, signed)
    {
      Room3(|s|, g);
      DecodeStep(s[i..], signed);
      assert s[i..][4..] == s[i + 4..];
      ghost var done := out[..n];
      assert s[i..i + 4] == s[i..][..4];
      UnquadFour(s[i..], signed);
      var k, more := DecodeGroup(s[i..i + 4], out, n, signed);
      Grown(done, out[n..n + k], if more then Decoded(s[i + 4..], signed) else [], out[..n + k]);
      n := n + k;
      if !more {
        return;
      }
      i, g := i + 4, g + 1;
    }
    DecodeShort(s[i..], signed);
    Room3(|s|, g);
  }

  /** The bytes of the groups so far, and of one more. */
  lemma Room3(len: nat, g: nat)
    requires 4 * g <= len
    ensures 3 * g <= len / 4 * 3 && (4 * g + 4 <= len ==> 3 * g + 3 <= len / 4 * 3)
  {}

  lemma Grown(done: seq<byte>, r: seq<byte>, rest: seq<byte>, all: seq<byte>)
    requires |all| == |done| + |r| && all[..|done|] == done && all[|done|..] == r
    ensures done + (r + rest) == all + rest
    ensures rest == [] ==> done + (r + rest) == all
  {
    assert all == done + r;
  }

  lemma UnquadFour(s: seq<byte>, signed: bool)
    requires |s| >= 4
    ensures Unquad(s[..4], signed) == Unquad(s, signed)
    ensures Unquad(s, signed).1 <==> |Unquad(s, signed).0| == 3
  {}

  /** One turn of the loop: the bytes are put together in the buffer. */
  method DecodeGroup(s: seq<byte>, out: array<byte>, n: nat, signed: bool) returns (k: nat, more: bool)
    requires |s| == 4 && n + 3 <= out.Length
    modifies out
    ensures k <= 3 && (more <==> k == 3) && (out[n..n + k], more) == Unquad(s, signed)
    ensures out[..n] == old(out[..n])
  {
    hide Reverse, Stops, High1, High2, High3, Low1, Low2, Or, Unquad;
    UnquadIs(s, signed);
    k, more := 0, false;
    var sx := Reverse(s[0]);
    if Stops(sx, signed) {
      assert out[n..n + k] == [];
      return;
    }
    out[n] := High1(sx);
    sx := Reverse(s[1]);
    if Stops(sx, signed) {
      assert out[n..n + k] == [];
      return;
    }
    out[n] := Or(out[n], Low1(sx));
    k := 1;
    out[n + 1] := High2(sx);
    sx := Reverse(s[2]);
    if Stops(sx, signed) {
      assert out[n..n + k] == [out[n]];
      return;
    }
    out[n + 1] := Or(out[n + 1], Low2(sx));
    k := 2;
    out[n + 2] := High3(sx);
    sx := Reverse(s[3]);
    if Stops(sx, signed) {
      assert out[n..n + k] == [out[n], out[n + 1]];
      return;
    }
    out[n + 2] := Or(out[n + 2], sx);
    k, more := 3, true;
    assert out[n..n + k] == [out[n], out[n + 1], out[n + 2]];
  }

  lemma Enough(len: nat)
    ensures (len + 6) / 4 * 3 >= len / 4 * 3
  {}

  /** base64_decode. */
  method Decode(s: seq<byte>, signed: bool) returns (n: nat, out: array<byte>)
    ensures fresh(out) && n == |Decoded(s, signed)| && out[..] == Decoded(s, signed) + [0]
  {
    hide *;
    Enough(|s|);
    var buffer := new byte[(|s| + 6) / 4 * 3];
    n := DecodeReal(s, buffer, signed);
    out := new byte[n + 1];
    ghost var text := buffer[..n];
    Memcpy(out, 0, buffer[..n]);
    assert out[..n] == text;
    out[n] := 0;
    assert out[..] == out[..n] + [0];
  }
}
