/** MD5 (lib/md5.c): the streaming context computes the one-shot digest of RFC 1321. */
module Md5 {
  import opened Bytes
  import opened MerkleDamgard

  /** The chaining state, `buf` in the source. */
  datatype Words = Words(a: word, b: word, c: word, d: word)

  type Transform = (Words, seq<byte>) -> Words

  const INIT := Words(0x67452301, 0xefcdab89, 0x98badcfe, 0x10325476)

  /** Section 3.1 and 3.2 of RFC 1321: a one bit, zeros up to 56 mod 64, and the
      low 64 bits of the bit count, low-order word first. */
  function Padding(n: nat): (p: seq<byte>)
    ensures (n + |p|) % 64 == 0
  {
    var bits := 8 * n % 0x1_0000_0000_0000_0000;
    PadLength(n);
    [0x80] + Zeros((55 - n) % 64) + (LE32(bits % 0x1_0000_0000) + LE32(bits / 0x1_0000_0000))
  }

  lemma PadLength(n: nat)
    ensures (n + 1 + (55 - n) % 64 + 8) % 64 == 0
  {}

  /** Section 3.5: the four words, each low-order byte first. */
  function Output(w: Words): (d: seq<byte>)
    ensures |d| == 16
  {
    LE32(w.a) + LE32(w.b) + LE32(w.c) + LE32(w.d)
  }

  function Digest(f: Transform, m: seq<byte>): seq<byte> {
    Output(Chain(f, INIT, m + Padding(|m|)))
  }

  /** The digest that RFC 1321 describes: the padded message ends in the low 64 bits of its bit
      count (section 3.2), the words start as the bytes of section 3.3, every block of the message
      replaces them, and the digest is the last words, low-order byte first (section 3.5). */
  ghost predicate Rfc1321(f: Transform, m: seq<byte>, d: seq<byte>) {
    exists p, hs: seq<Words> | Padded(m, p) && Iterated(f, hs, p) ::
      && LittleValue(p[|p| - 8..]) == 8 * |m| % 0x1_0000_0000_0000_0000
      && LittleValue([0x01, 0x23, 0x45, 0x67]) == hs[0].a
      && LittleValue([0x89, 0xab, 0xcd, 0xef]) == hs[0].b
      && LittleValue([0xfe, 0xdc, 0xba, 0x98]) == hs[0].c
      && LittleValue([0x76, 0x54, 0x32, 0x10]) == hs[0].d
      && |d| == 16
      && LittleValue(d[..4]) == hs[|hs| - 1].a && LittleValue(d[4..8]) == hs[|hs| - 1].b
      && LittleValue(d[8..12]) == hs[|hs| - 1].c && LittleValue(d[12..]) == hs[|hs| - 1].d
  }

  lemma InitialWords()
    ensures LittleValue([0x01, 0x23, 0x45, 0x67]) == INIT.a && LittleValue([0x89, 0xab, 0xcd, 0xef]) == INIT.b
    ensures LittleValue([0xfe, 0xdc, 0xba, 0x98]) == INIT.c && LittleValue([0x76, 0x54, 0x32, 0x10]) == INIT.d
  {
    LittleFour(0x01, 0x23, 0x45, 0x67, []);
    LittleFour(0x89, 0xab, 0xcd, 0xef, []);
    LittleFour(0xfe, 0xdc, 0xba, 0x98, []);
    LittleFour(0x76, 0x54, 0x32, 0x10, []);
    assert forall a: byte, b: byte, c: byte, d: byte :: [a, b, c, d] + [] == [a, b, c, d];
  }

  lemma OutputWords(w: Words)
    ensures var d := Output(w);
            && LittleValue(d[..4]) == w.a && LittleValue(d[4..8]) == w.b
            && LittleValue(d[8..12]) == w.c && LittleValue(d[12..]) == w.d
  {
    LE32Value(w.a, []);
    LE32Value(w.b, []);
    LE32Value(w.c, []);
    LE32Value(w.d, []);
    assert |LE32(w.a)| == |LE32(w.b)| == |LE32(w.c)| == |LE32(w.d)| == 4;
    hide LE32, LittleValue;
    var d := Output(w);
    assert d[..4] == LE32(w.a) && d[4..8] == LE32(w.b) && d[8..12] == LE32(w.c) && d[12..] == LE32(w.d);
  }

  lemma LengthValue(bits: nat)
    requires bits < 0x1_0000_0000_0000_0000
    ensures LittleValue(LE32(bits % 0x1_0000_0000) + LE32(bits / 0x1_0000_0000)) == bits
  {
    hide LE32, LittleValue;
    LE32Value(bits % 0x1_0000_0000, LE32(bits / 0x1_0000_0000));
    LE32Value(bits / 0x1_0000_0000, []);
  }

  lemma PaddingPads(m: seq<byte>)
    ensures var p := m + Padding(|m|);
            Padded(m, p) && LittleValue(p[|p| - 8..]) == 8 * |m| % 0x1_0000_0000_0000_0000
  {
    var bits := 8 * |m| % 0x1_0000_0000_0000_0000;
    var len := LE32(bits % 0x1_0000_0000) + LE32(bits / 0x1_0000_0000);
    PadLength(|m|);
    LengthValue(bits);
    hide LE32, LittleValue, Padded;
    PaddedBy(m, (55 - |m|) % 64, len, m + Padding(|m|));
  }

  /** The one-shot digest is the digest of the RFC. */
  lemma DigestIsRfc1321(f: Transform, m: seq<byte>)
    ensures Rfc1321(f, m, Digest(f, m))
  {
    var p := m + Padding(|m|);
    PaddingPads(m);
    var hs := ChainStates(f, INIT, p);
    InitialWords();
    OutputWords(hs[|hs| - 1]);
    hide Padding, Padded, Iterated, LittleValue, Chain;
    assert Padded(m, p) && Iterated(f, hs, p);
  }

  /** How the machine lays a 32-bit word out in memory. */
  function Native(little: bool, w: word): seq<byte> {
    if little then LE32(w) else BE32(w)
  }

  function Cvt32(little: bool, w: word): word {
    if little then w
    else w / 0x100_0000 + w / 0x1_0000 % 0x100 * 0x100 + w / 0x100 % 0x100 * 0x1_0000 + w % 0x100 * 0x100_0000
  }

  lemma SplitWord(b0: nat, b1: nat, b2: nat, b3: nat, w: nat)
    requires b0 < 0x100 && b1 < 0x100 && b2 < 0x100 && b3 < 0x100
    requires w == b0 + b1 * 0x100 + b2 * 0x1_0000 + b3 * 0x100_0000
    ensures w % 0x100 == b0 && w / 0x100 % 0x100 == b1 && w / 0x1_0000 % 0x100 == b2 && w / 0x100_0000 == b3
  {
    assert w / 0x100 == b1 + b2 * 0x100 + b3 * 0x1_0000;
    assert w / 0x1_0000 == b2 + b3 * 0x100;
  }

  lemma JoinWord(w: word) returns (b0: nat, b1: nat, b2: nat, b3: nat)
    ensures b0 < 0x100 && b1 < 0x100 && b2 < 0x100 && b3 < 0x100
    ensures w == b0 + b1 * 0x100 + b2 * 0x1_0000 + b3 * 0x100_0000
  {
    b3 := w / 0x100_0000;
    var r := w - b3 * 0x100_0000;
    b2 := r / 0x1_0000;
    r := r - b2 * 0x1_0000;
    b1 := r / 0x100;
    b0 := r - b1 * 0x100;
  }

  lemma Cvt32Reverses(w: word)
    ensures var v := Cvt32(false, w);
            && v % 0x100 == w / 0x100_0000 && v / 0x100 % 0x100 == w / 0x1_0000 % 0x100
            && v / 0x1_0000 % 0x100 == w / 0x100 % 0x100 && v / 0x100_0000 == w % 0x100
  {
    var b0, b1, b2, b3 := JoinWord(w);
    SplitWord(b0, b1, b2, b3, w);
    SplitWord(b3, b2, b1, b0, Cvt32(false, w));
  }

  lemma ByteOfMod(a: nat, b: nat)
    requires a % 256 == b % 256
    ensures ByteOf(a) == ByteOf(b)
  {}

  lemma ReversedBytes(v: word, w: word)
    requires v % 0x100 == w / 0x100_0000 && v / 0x100 % 0x100 == w / 0x1_0000 % 0x100
    requires v / 0x1_0000 % 0x100 == w / 0x100 % 0x100 && v / 0x100_0000 == w % 0x100
    ensures BE32(v) == LE32(w)
  {
    hide ByteOf;
    ByteOfMod(v / 0x100_0000, w);
    ByteOfMod(v / 0x1_0000, w / 0x100);
    ByteOfMod(v / 0x100, w / 0x1_0000);
    ByteOfMod(v, w / 0x100_0000);
  }

  /** Storing a converted word gives little-endian bytes on either machine. */
  lemma Cvt32IsLittleEndian(little: bool, w: word)
    ensures Native(little, Cvt32(little, w)) == LE32(w)
  {
    hide LE32, BE32;
    if !little {
      Cvt32Reverses(w);
      ReversedBytes(Cvt32(false, w), w);
    }
  }

  /** The two counter words hold the low 64 bits of the bit count. */
  ghost predicate Counts(lo: word, hi: word, n: nat) {
    hi * 0x1_0000_0000 + lo == 8 * n % 0x1_0000_0000_0000_0000
  }

  function AddLow(lo: word, len: word): word {
    (lo + len * 8 % 0x1_0000_0000) % 0x1_0000_0000
  }

  function AddHigh(lo: word, hi: word, len: word): word {
    (hi + (if AddLow(lo, len) < lo then 1 else 0) + len / 0x2000_0000) % 0x1_0000_0000
  }

  lemma Remainder(x: int, q: int, r: int)
    requires x == q * 0x1_0000_0000_0000_0000 + r && 0 <= r < 0x1_0000_0000_0000_0000
    ensures x % 0x1_0000_0000_0000_0000 == r
  {}

  /** The carry test `new < old` makes the split counter exact modulo 2^64. */
  lemma CountsAdd(lo: word, hi: word, n: nat, len: word)
    requires Counts(lo, hi, n)
    ensures Counts(AddLow(lo, len), AddHigh(lo, hi, len), n + len)
  {
    var M := 0x1_0000_0000;
    var low := len * 8 % M;
    assert len * 8 == len / 0x2000_0000 * M + low;
    var c := if AddLow(lo, len) < lo then 1 else 0;
    assert AddLow(lo, len) + c * M == lo + low;
    var h := hi + c + len / 0x2000_0000;
    var k := h / M;
    assert AddHigh(lo, hi, len) == h - k * M;
    var q := 8 * n / 0x1_0000_0000_0000_0000;
    Remainder(8 * (n + len), q + k, AddHigh(lo, hi, len) * M + AddLow(lo, len));
  }

  lemma CountsTail(lo: word, hi: word, n: nat)
    requires Counts(lo, hi, n)
    ensures lo / 8 % 64 == n % 64
  {
    var q := 8 * n / 0x1_0000_0000_0000_0000;
    assert lo == 8 * (n - q * 0x2000_0000_0000_0000 - hi * 0x2000_0000);
    assert lo / 8 == n + 64 * (- q * 0x80_0000_0000_0000 - hi * 0x80_0000);
  }

  lemma HighLow(lo: word, hi: word, bits: nat)
    requires bits == hi * 0x1_0000_0000 + lo
    ensures bits % 0x1_0000_0000 == lo && bits / 0x1_0000_0000 == hi
  {}

  lemma PaddingByTail(lo: word, hi: word, n: nat)
    requires Counts(lo, hi, n)
    ensures Padding(n) == [0x80] + Zeros(Gap(n % 64)) + (LE32(lo) + LE32(hi))
  {
    hide LE32, Gap;
    HighLow(lo, hi, 8 * n % 0x1_0000_0000_0000_0000);
    GapMod(n);
  }

  lemma DigestByParts(f: Transform, m: seq<byte>, done: seq<byte>, rest: seq<byte>, w: Words)
    requires m == done + rest
    requires |done + (rest + Padding(|m|))| % 64 == 0
    requires w == Chain(f, INIT, done + (rest + Padding(|m|)))
    ensures Output(w) == Digest(f, m)
  {
    assert done + (rest + Padding(|m|)) == m + Padding(|m|);
  }

  class Context {
    const transform: Transform
    const little: bool
    const block: array<byte>
    var buf: Words
    var lo: word
    var hi: word
    ghost var message: seq<byte>

    ghost predicate Valid()
      reads this, block
    {
      && block.Length == 64
      && Counts(lo, hi, |message|)
      && Absorbed(transform, INIT, message, buf, block[..])
    }

    constructor (transform: Transform, little: bool)
      ensures Valid() && fresh(block)
      ensures message == [] && this.transform == transform && this.little == little
    {
      this.transform, this.little := transform, little;
      block := new byte[64];
      buf, lo, hi := INIT, 0, 0;
      message := [];
      new;
      assert message[..FullLen(0)] == [];
    }

    /** Complete the block with `piece` and run the block function over it. */
    method Fill(piece: seq<byte>, ghost done: seq<byte>, ghost rest: seq<byte>)
      requires block.Length == 64 && |piece| <= 64 && block[..64 - |piece|] == rest
      requires |done| % 64 == 0 && buf == Chain(transform, INIT, done)
      modifies this`buf, block
      ensures |done + (rest + piece)| % 64 == 0
      ensures buf == Chain(transform, INIT, done + (rest + piece))
    {
      Memcpy(block, 64 - |piece|, piece);
      assert block[..] == rest + piece;
      ChainBlock(transform, INIT, done, block[..]);
      buf := transform(buf, block[..]);
    }

    /** Keep `piece` in the block until more data arrives. */
    method Hold(at: nat, piece: seq<byte>, ghost done: seq<byte>, ghost rest: seq<byte>)
      requires block.Length == 64 && at + |piece| < 64 && block[..at] == rest
      requires |done| % 64 == 0 && buf == Chain(transform, INIT, done)
      modifies block
      ensures Absorbed(transform, INIT, done + (rest + piece), buf, block[..])
    {
      Memcpy(block, at, piece);
      assert block[..|rest + piece|] == rest + piece;
      AbsorbedTail(transform, INIT, done, rest + piece, buf, block[..]);
    }

    /** Add `len` bytes to the bit count; the result is how many bytes the block held. */
    method Count(len: word) returns (t: nat)
      requires Counts(lo, hi, |message|)
      modifies this`lo, this`hi
      ensures Counts(lo, hi, |message| + len)
      ensures t == |message| % 64
    {
      CountsAdd(lo, hi, |message|, len);
      CountsTail(lo, hi, |message|);
      t := lo / 8 % 64;
      lo, hi := AddLow(lo, len), AddHigh(lo, hi, len);
    }

    lemma Opened()
      requires Valid()
      ensures block.Length == 64 && Counts(lo, hi, |message|)
      ensures Absorbed(transform, INIT, message, buf, block[..])
    {}

    lemma Closed()
      requires block.Length == 64 && Counts(lo, hi, |message|)
      requires Absorbed(transform, INIT, message, buf, block[..])
      ensures Valid()
    {}

    /** `len` is an `unsigned int` in the source: one call appends fewer than 2^32 bytes. */
    method Append(data: seq<byte>)
      requires Valid()
      requires |data| < 0x1_0000_0000
      modifies this`buf, this`lo, this`hi, this`message, block
      ensures Valid()
      ensures message == old(message) + data
    {
      hide *;
      Opened();
      var t := Count(|data|);
      ghost var done, rest := AbsorbedSplit(transform, INIT, message, buf, block[..]);
      message := message + data;
      assert message == done + (rest + data[0..]) by {
        assert data == data[0..];
      }
      var at := 0;
      if t != 0 {
        t := 64 - t;
        if |data| < t {
          Hold(64 - t, data[at..], done, rest);
          Closed();
          return;
        }
        Fill(data[at..at + t], done, rest);
        SplitMiddle(done, rest, data, at, at + t);
        done, rest, at := done + (rest + data[at..at + t]), [], at + t;
      }
      Blocks(data, at, done, rest);
      Closed();
    }

    /** Run the block function over whole blocks of `data` and keep the remainder. */
    method Blocks(data: seq<byte>, start: nat, ghost before: seq<byte>, ghost rest: seq<byte>)
      requires block.Length == 64 && start <= |data| && rest == []
      requires |before| % 64 == 0 && message == before + (rest + data[start..])
      requires buf == Chain(transform, INIT, before)
      modifies this`buf, block
      ensures Absorbed(transform, INIT, message, buf, block[..])
    {
      hide *;
      var at := start;
      ghost var done := before;
      while |data| - at >= 64
        invariant at <= |data| && |done| % 64 == 0
        invariant message == done + (rest + data[at..])
        invariant buf == Chain(transform, INIT, done)
      {
        Fill(data[at..at + 64], done, rest);
        SplitMiddle(done, rest, data, at, at + 64);
        done, at := done + (rest + data[at..at + 64]), at + 64;
      }
      Hold(0, data[at..], done, rest);
    }

    method StoreLength()
      requires block.Length == 64
      modifies block
      ensures block[..] == old(block[..56]) + (LE32(lo) + LE32(hi))
    {
      Memcpy(block, 56, Native(little, Cvt32(little, lo)));
      Memcpy(block, 60, Native(little, Cvt32(little, hi)));
      Cvt32IsLittleEndian(little, lo);
      Cvt32IsLittleEndian(little, hi);
    }

    /** Store the length behind 56 filled bytes and run the block function a last time. */
    method Seal(ghost done: seq<byte>, ghost front: seq<byte>)
      requires block.Length == 64 && |front| == 56 && block[..56] == front
      requires |done| % 64 == 0 && buf == Chain(transform, INIT, done)
      modifies this`buf, block
      ensures |done + (front + (LE32(lo) + LE32(hi)))| % 64 == 0
      ensures buf == Chain(transform, INIT, done + (front + (LE32(lo) + LE32(hi))))
    {
      StoreLength();
      assert block[..] == front + (LE32(lo) + LE32(hi));
      ChainBlock(transform, INIT, done, block[..]);
      buf := transform(buf, block[..]);
    }

    /** Close the message: one final block, or two when the length does not fit behind the tail. */
    method Pad(ghost done: seq<byte>, ghost rest: seq<byte>)
      requires block.Length == 64 && |rest| < 64 && block[..|rest|] == rest
      requires lo / 8 % 64 == |rest|
      requires |done| % 64 == 0 && buf == Chain(transform, INIT, done)
      modifies this`buf, block
      ensures var pad := [0x80] + Zeros(Gap(|rest|)) + (LE32(lo) + LE32(hi));
              |done + (rest + pad)| % 64 == 0 && buf == Chain(transform, INIT, done + (rest + pad))
    {
      hide Chain;
      var count := lo / 8 % 64;
      Memcpy(block, count, [0x80]);
      assert block[..count + 1] == rest + [0x80];
      count := 63 - count;
      if count < 8 {
        Fill(Zeros(count), done, rest + [0x80]);
        Memcpy(block, 0, Zeros(56));
        Seal(done + (rest + [0x80] + Zeros(count)), Zeros(56));
        Regroup(done, rest, Zeros(count), Zeros(56), LE32(lo) + LE32(hi));
        assert Zeros(count) + Zeros(56) == Zeros(Gap(|rest|));
      } else {
        Memcpy(block, 64 - count, Zeros(count - 8));
        Seal(done, rest + [0x80] + Zeros(count - 8));
        Regroup(done, rest, [], Zeros(count - 8), LE32(lo) + LE32(hi));
        assert [] + Zeros(count - 8) == Zeros(Gap(|rest|));
      }
    }

    /** Emit the words, then run the closing `memset`. It clears `sizeof(ctx)`, the size of a
        pointer, so the last digest words stay in the context. */
    method Emit(pointerWords: nat) returns (digest: seq<byte>)
      requires 1 <= pointerWords <= 2
      modifies this`buf
      ensures digest == Output(old(buf))
      ensures Native(little, buf.c) + Native(little, buf.d) == digest[8..]
      ensures buf.a == 0
      ensures if pointerWords == 2 then buf.b == 0 else Native(little, buf.b) == digest[4..8]
    {
      Cvt32IsLittleEndian(little, buf.a);
      Cvt32IsLittleEndian(little, buf.b);
      Cvt32IsLittleEndian(little, buf.c);
      Cvt32IsLittleEndian(little, buf.d);
      buf := Words(Cvt32(little, buf.a), Cvt32(little, buf.b), Cvt32(little, buf.c), Cvt32(little, buf.d));
      digest := Native(little, buf.a) + Native(little, buf.b) + Native(little, buf.c) + Native(little, buf.d);
      buf := if pointerWords == 2 then buf.(a := 0, b := 0) else buf.(a := 0);
    }

    method Finish(pointerWords: nat) returns (digest: seq<byte>)
      requires Valid()
      requires 1 <= pointerWords <= 2
      modifies this`buf, block
      ensures digest == Digest(transform, message)
      ensures Native(little, buf.c) + Native(little, buf.d) == digest[8..]
      ensures buf.a == 0
      ensures if pointerWords == 2 then buf.b == 0 else Native(little, buf.b) == digest[4..8]
    {
      CountsTail(lo, hi, |message|);
      ghost var done, rest := AbsorbedSplit(transform, INIT, message, buf, block[..]);
      PaddingByTail(lo, hi, |message|);
      hide *;
      Pad(done, rest);
      DigestByParts(transform, message, done, rest, buf);
      digest := Emit(pointerWords);
    }
  }

  /** However a message is cut into calls, the digest is the one-shot digest of the whole. */
  method DigestOfChunks(f: Transform, little: bool, chunks: seq<seq<byte>>) returns (digest: seq<byte>)
    requires forall c :: c in chunks ==> |c| < 0x1_0000_0000
    ensures digest == Digest(f, Concat(chunks))
    ensures Rfc1321(f, Concat(chunks), digest)
  {
    hide Digest, Chain, Counts, Absorbed, Rfc1321;
    var ctx := new Context(f, little);
    for i := 0 to |chunks|
      invariant ctx.Valid() && fresh(ctx) && fresh(ctx.block)
      invariant ctx.message == Concat(chunks[..i]) && ctx.transform == f
    {
      ctx.Append(chunks[i]);
      ConcatSnoc(chunks[..i], chunks[i]);
      assert chunks[..i] + [chunks[i]] == chunks[..i + 1];
    }
    assert chunks[..|chunks|] == chunks;
    digest := ctx.Finish(2);
    DigestIsRfc1321(f, Concat(chunks));
  }
}
