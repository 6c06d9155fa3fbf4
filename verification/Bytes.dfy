/** Bytes, 32-bit words and the few C library idioms (`memcpy`, `memset`) the codecs share. */
module Bytes {
  type byte = bv8
  type octet = x: int | 0 <= x < 256
  type word = w: int | 0 <= w < 0x1_0000_0000

  function ByteOf(n: nat): byte {
    (n % 256) as byte
  }

  function LE32(w: word): seq<byte> {
    [ByteOf(w), ByteOf(w / 0x100), ByteOf(w / 0x1_0000), ByteOf(w / 0x100_0000)]
  }

  function BE32(w: word): seq<byte> {
    [ByteOf(w / 0x100_0000), ByteOf(w / 0x1_0000), ByteOf(w / 0x100), ByteOf(w)]
  }

  /** The number whose bytes are `b`, low-order byte first. */
  ghost function LittleValue(b: seq<byte>): nat {
    if b == [] then 0 else b[0] as nat + 256 * LittleValue(b[1..])
  }

  /** The number whose bytes are `b`, high-order byte first. */
  ghost function BigValue(b: seq<byte>): nat {
    if b == [] then 0 else 256 * BigValue(b[..|b| - 1]) + b[|b| - 1] as nat
  }

  lemma SmallByte(m: nat)
    requires m < 256
    ensures (m as byte) as nat == m
  {
    if (m as byte) as nat < m {
    } else if (m as byte) as nat > m {
    }
  }

  lemma ByteOfValue(n: nat)
    ensures ByteOf(n) as nat == n % 256
  {
    SmallByte(n % 256);
  }

  lemma FourBytes(w: word)
    ensures w == w % 256 + 256 * (w / 0x100 % 256 + 256 * (w / 0x1_0000 % 256 + 256 * (w / 0x100_0000 % 256)))
  {}

  lemma LE32Bytes(w: word)
    ensures var b := LE32(w);
            && |b| == 4 && b[0] as nat == w % 256 && b[1] as nat == w / 0x100 % 256
            && b[2] as nat == w / 0x1_0000 % 256 && b[3] as nat == w / 0x100_0000 % 256
  {
    hide ByteOf;
    ByteOfValue(w);
    ByteOfValue(w / 0x100);
    ByteOfValue(w / 0x1_0000);
    ByteOfValue(w / 0x100_0000);
  }

  lemma BE32Reverses(w: word)
    ensures var b, c := BE32(w), LE32(w); |b| == 4 && b[0] == c[3] && b[1] == c[2] && b[2] == c[1] && b[3] == c[0]
  {}

  lemma LittleFirst(b: byte, rest: seq<byte>)
    ensures LittleValue([b] + rest) == b as nat + 256 * LittleValue(rest)
  {
    assert ([b] + rest)[1..] == rest;
  }

  lemma BigLast(rest: seq<byte>, b: byte)
    ensures BigValue(rest + [b]) == 256 * BigValue(rest) + b as nat
  {
    assert (rest + [b])[..|rest|] == rest;
  }

  lemma LittleFour(a: byte, b: byte, c: byte, d: byte, rest: seq<byte>)
    ensures LittleValue([a, b, c, d] + rest)
         == a as nat + 256 * (b as nat + 256 * (c as nat + 256 * (d as nat + 256 * LittleValue(rest))))
  {
    hide *;
    assert [a, b, c, d] + rest == [a] + ([b] + ([c] + ([d] + rest)));
    LittleFirst(a, [b] + ([c] + ([d] + rest)));
    LittleFirst(b, [c] + ([d] + rest));
    LittleFirst(c, [d] + rest);
    LittleFirst(d, rest);
  }

  lemma BigFour(rest: seq<byte>, a: byte, b: byte, c: byte, d: byte)
    ensures BigValue(rest + [a, b, c, d])
         == d as nat + 256 * (c as nat + 256 * (b as nat + 256 * (a as nat + 256 * BigValue(rest))))
  {
    hide *;
    assert rest + [a, b, c, d] == rest + [a] + [b] + [c] + [d];
    BigLast(rest, a);
    BigLast(rest + [a], b);
    BigLast(rest + [a] + [b], c);
    BigLast(rest + [a] + [b] + [c], d);
  }

  lemma LE32Value(w: word, rest: seq<byte>)
    ensures LittleValue(LE32(w) + rest) == w + 0x1_0000_0000 * LittleValue(rest)
    ensures LittleValue(LE32(w)) == w
  {
    var b := LE32(w);
    LE32Bytes(w);
    assert LittleValue([]) == 0;
    hide *;
    assert b == [b[0], b[1], b[2], b[3]] && b + [] == b;
    LittleFour(b[0], b[1], b[2], b[3], rest);
    LittleFour(b[0], b[1], b[2], b[3], []);
    FourBytes(w);
  }

  lemma BE32Value(rest: seq<byte>, w: word)
    ensures BigValue(rest + BE32(w)) == w + 0x1_0000_0000 * BigValue(rest)
    ensures BigValue(BE32(w)) == w
  {
    var b := BE32(w);
    BE32Reverses(w);
    LE32Bytes(w);
    assert BigValue([]) == 0;
    hide *;
    assert b == [b[0], b[1], b[2], b[3]] && [] + b == b;
    BigFour(rest, b[0], b[1], b[2], b[3]);
    BigFour([], b[0], b[1], b[2], b[3]);
    FourBytes(w);
  }

  function Zeros(n: nat): (s: seq<byte>)
    ensures |s| == n
  {
    seq(n, _ => 0)
  }

  function Concat<T>(chunks: seq<seq<T>>): seq<T> {
    if chunks == [] then [] else chunks[0] + Concat(chunks[1..])
  }

  lemma {:induction false} ConcatSnoc<T>(chunks: seq<seq<T>>, last: seq<T>)
    ensures Concat(chunks + [last]) == Concat(chunks) + last
  {
    if chunks == [] {
      assert chunks + [last] == [last];
    } else {
      assert (chunks + [last])[1..] == chunks[1..] + [last];
      ConcatSnoc(chunks[1..], last);
    }
  }

  method Memcpy(dst: array<byte>, at: nat, src: seq<byte>)
    requires at + |src| <= dst.Length
    modifies dst
    ensures dst[..] == old(dst[..at]) + src + old(dst[at + |src|..])
  {
    for i := 0 to |src|
      invariant dst[..at] == old(dst[..at])
      invariant dst[at + |src|..] == old(dst[at + |src|..])
      invariant forall k :: 0 <= k < i ==> dst[at + k] == src[k]
    {
      dst[at + i] := src[i];
    }
    assert dst[at..at + |src|] == src;
  }
}
