/** SHA-1 and HMAC-SHA1 (lib/sha1.c): the byte-wise context computes the one-shot digest of
    RFC 3174 for every message it accepts, and sha1_hmac the code of RFC 2104. */
module Sha1 {
  import opened Bytes
  import opened MerkleDamgard

  /** The chaining state, `Intermediate_Hash` in the source. */
  datatype Words = Words(a: word, b: word, c: word, d: word, e: word)

  type Transform = (Words, seq<byte>) -> Words

  const INIT := Words(0x67452301, 0xEFCDAB89, 0x98BADCFE, 0x10325476, 0xC3D2E1F0)

  /** Messages are shorter than 2^64 bits. */
  const LIMIT: nat := 0x2000_0000_0000_0000

  const SUCCESS := 0
  const STATE_ERROR := 3
  const TOO_LONG := 1

  /** Section 4 of RFC 3174: a one bit, zeros up to 56 mod 64, and the bit count, high-order word first. */
  function Padding(n: nat): seq<byte>
    requires n < LIMIT
  {
    [0x80] + Zeros((55 - n) % 64) + (BE32(8 * n / 0x1_0000_0000) + BE32(8 * n % 0x1_0000_0000))
  }

  function Output(w: Words): (d: seq<byte>)
    ensures |d| == 20
  {
    BE32(w.a) + BE32(w.b) + BE32(w.c) + BE32(w.d) + BE32(w.e)
  }

  function Digest(f: Transform, m: seq<byte>): (d: seq<byte>)
    requires |m| < LIMIT
    ensures |d| == 20
  {
    PaddingLength(|m|);
    Output(Chain(f, INIT, m + Padding(|m|)))
  }

  lemma PaddingLength(n: nat)
    requires n < LIMIT
    ensures (n + |Padding(n)|) % 64 == 0
  {
    GapSum(n);
  }

  lemma GapSum(n: nat)
    ensures (n + 1 + (55 - n) % 64 + 8) % 64 == 0
  {}

  /** The digest that RFC 3174 describes: the padded message ends in its bit count (section 4), the
      words start as H0 to H4 of section 6.1, every block of the message replaces them, and the digest
      is the last words, high-order byte first. */
  ghost predicate Rfc3174(f: Transform, m: seq<byte>, d: seq<byte>) {
    exists p, hs: seq<Words> | Padded(m, p) && Iterated(f, hs, p) ::
      && BigValue(p[|p| - 8..]) == 8 * |m|
      && BigValue([0x67, 0x45, 0x23, 0x01]) == hs[0].a && BigValue([0xEF, 0xCD, 0xAB, 0x89]) == hs[0].b
      && BigValue([0x98, 0xBA, 0xDC, 0xFE]) == hs[0].c && BigValue([0x10, 0x32, 0x54, 0x76]) == hs[0].d
      && BigValue([0xC3, 0xD2, 0xE1, 0xF0]) == hs[0].e
      && |d| == 20
      && BigValue(d[..4]) == hs[|hs| - 1].a && BigValue(d[4..8]) == hs[|hs| - 1].b
      && BigValue(d[8..12]) == hs[|hs| - 1].c && BigValue(d[12..16]) == hs[|hs| - 1].d
      && BigValue(d[16..]) == hs[|hs| - 1].e
  }

  lemma InitialWords()
    ensures BigValue([0x67, 0x45, 0x23, 0x01]) == INIT.a && BigValue([0xEF, 0xCD, 0xAB, 0x89]) == INIT.b
    ensures BigValue([0x98, 0xBA, 0xDC, 0xFE]) == INIT.c && BigValue([0x10, 0x32, 0x54, 0x76]) == INIT.d
    ensures BigValue([0xC3, 0xD2, 0xE1, 0xF0]) == INIT.e
  {
    BigFour([], 0x67, 0x45, 0x23, 0x01);
    BigFour([], 0xEF, 0xCD, 0xAB, 0x89);
    BigFour([], 0x98, 0xBA, 0xDC, 0xFE);
    BigFour([], 0x10, 0x32, 0x54, 0x76);
    BigFour([], 0xC3, 0xD2, 0xE1, 0xF0);
    assert forall a: byte, b: byte, c: byte, d: byte :: [] + [a, b, c, d] == [a, b, c, d];
  }

  lemma OutputWords(w: Words)
    ensures var d := Output(w);
            && BigValue(d[..4]) == w.a && BigValue(d[4..8]) == w.b && BigValue(d[8..12]) == w.c
            && BigValue(d[12..16]) == w.d && BigValue(d[16..]) == w.e
  {
    BE32Value([], w.a);
    BE32Value([], w.b);
    BE32Value([], w.c);
    BE32Value([], w.d);
    BE32Value([], w.e);
    assert |BE32(w.a)| == |BE32(w.b)| == |BE32(w.c)| == |BE32(w.d)| == |BE32(w.e)| == 4;
    hide BE32, BigValue;
    var d := Output(w);
    assert d[..4] == BE32(w.a) && d[4..8] == BE32(w.b) && d[8..12] == BE32(w.c);
    assert d[12..16] == BE32(w.d) && d[16..] == BE32(w.e);
  }

  lemma LengthValue(bits: nat)
    requires bits < 0x1_0000_0000_0000_0000
    ensures BigValue(BE32(bits / 0x1_0000_0000) + BE32(bits % 0x1_0000_0000)) == bits
  {
    hide BE32, BigValue;
    BE32Value(BE32(bits / 0x1_0000_0000), bits % 0x1_0000_0000);
    BE32Value([], bits / 0x1_0000_0000);
  }

  lemma PaddingPads(m: seq<byte>)
    requires |m| < LIMIT
    ensures var p := m + Padding(|m|);
            Padded(m, p) && BigValue(p[|p| - 8..]) == 8 * |m|
  {
    var len := BE32(8 * |m| / 0x1_0000_0000) + BE32(8 * |m| % 0x1_0000_0000);
    GapSum(|m|);
    LengthValue(8 * |m|);
    assert |len| == 8;
    hide BE32, BigValue, Padded;
    PaddedBy(m, (55 - |m|) % 64, len, m + Padding(|m|));
  }

  /** The one-shot digest is the digest of the RFC. */
  lemma DigestIsRfc3174(f: Transform, m: seq<byte>)
    requires |m| < 0x2000_0000_0000_0000
    ensures Rfc3174(f, m, Digest(f, m))
  {
    var p := m + Padding(|m|);
    PaddingLength(|m|);
    PaddingPads(m);
    var hs := ChainStates(f, INIT, p);
    InitialWords();
    OutputWords(hs[|hs| - 1]);
    hide Padding, Padded, Iterated, BigValue, Chain;
    assert Padded(m, p) && Iterated(f, hs, p);
  }

  /** The two length words hold the bit count. */
  ghost predicate Counts(lo: word, hi: word, n: nat) {
    hi * 0x1_0000_0000 + lo == 8 * n
  }

  lemma Words8(lo: word, hi: word, n: nat)
    requires Counts(lo, hi, n)
    ensures 8 * n / 0x1_0000_0000 == hi && 8 * n % 0x1_0000_0000 == lo
    ensures n < LIMIT
  {}

  lemma PaddingByTail(lo: word, hi: word, n: nat)
    requires Counts(lo, hi, n)
    ensures n < LIMIT && Padding(n) == [0x80] + Zeros(Gap(n % 64)) + (BE32(hi) + BE32(lo))
  {
    hide BE32, Gap;
    Words8(lo, hi, n);
    GapMod(n);
  }

  lemma DigestByParts(f: Transform, m: seq<byte>, done: seq<byte>, rest: seq<byte>, w: Words)
    requires m == done + rest && |m| < LIMIT
    requires |done + (rest + Padding(|m|))| % 64 == 0
    requires w == Chain(f, INIT, done + (rest + Padding(|m|)))
    ensures Output(w) == Digest(f, m)
  {
    hide Padding, Output;
    PaddingLength(|m|);
    assert done + (rest + Padding(|m|)) == m + Padding(|m|);
  }

  /** One context takes bytes until it is closed by Finish; using it wrongly corrupts it. */
  class Context {
    const transform: Transform
    const block: array<byte>
    var hash: Words
    var lengthLow: word
    var lengthHigh: word
    var index: nat
    var computed: bool
    var corrupted: nat
    ghost var message: seq<byte>

    /** While the context is neither closed nor corrupted it has absorbed `message`. */
    ghost predicate Valid()
      reads this, block
    {
      && block.Length == 64
      && (!computed && corrupted == 0 ==>
            && Counts(lengthLow, lengthHigh, |message|)
            && index == |message| % 64
            && Absorbed(transform, INIT, message, hash, block[..]))
      && (computed && corrupted == 0 ==>
            && |message| < LIMIT
            && Output(hash) == Digest(transform, message))
    }

    constructor (transform: Transform)
      ensures Valid() && fresh(block)
      ensures this.transform == transform && message == [] && !computed && corrupted == 0
    {
      this.transform := transform;
      block := new byte[64];
      lengthLow, lengthHigh, index := 0, 0, 0;
      hash := INIT;
      computed, corrupted := false, 0;
      message := [];
      new;
      assert message[..FullLen(0)] == [];
    }

    method ProcessBlock(ghost done: seq<byte>)
      requires block.Length == 64
      requires |done| % 64 == 0 && hash == Chain(transform, INIT, done)
      modifies this`hash, this`index
      ensures |done + block[..]| % 64 == 0 && hash == Chain(transform, INIT, done + block[..]) && index == 0
    {
      ChainBlock(transform, INIT, done, block[..]);
      hash := transform(hash, block[..]);
      index := 0;
    }

    /** The length words count eight bits; running over 64 bits corrupts the context. */
    method CountByte(ghost n: nat)
      requires Counts(lengthLow, lengthHigh, n)
      modifies this`lengthLow, this`lengthHigh, this`corrupted
      ensures n + 1 < LIMIT ==> corrupted == old(corrupted) && Counts(lengthLow, lengthHigh, n + 1)
      ensures n + 1 >= LIMIT ==> corrupted == TOO_LONG
    {
      Words8(lengthLow, lengthHigh, n);
      Multiple8(lengthLow, lengthHigh, n);
      lengthLow := (lengthLow + 8) % 0x1_0000_0000;
      if lengthLow == 0 {
        lengthHigh := (lengthHigh + 1) % 0x1_0000_0000;
        if lengthHigh == 0 {
          corrupted := TOO_LONG;
        }
      }
    }

    static lemma Multiple8(lo: word, hi: word, n: nat)
      requires Counts(lo, hi, n)
      ensures lo + 8 < 0x1_0000_0000 || lo + 8 == 0x1_0000_0000
    {
      assert lo == 8 * (n - hi * 0x2000_0000);
    }

    method StoreByte(b: byte)
      requires block.Length == 64 && index == |message| % 64
      requires Absorbed(transform, INIT, message, hash, block[..])
      modifies this`hash, this`index, block
      ensures index == (|message| + 1) % 64
      ensures Absorbed(transform, INIT, message + [b], hash, block[..])
    {
      ghost var done, rest := AbsorbedSplit(transform, INIT, message, hash, block[..]);
      NextIndex(|message|);
      block[index] := b;
      index := index + 1;
      assert block[..index] == rest + [b];
      assert message + [b] == done + (rest + [b]);
      if index == 64 {
        assert block[..] == rest + [b];
        ProcessBlock(done);
        AbsorbedTail(transform, INIT, done + (rest + [b]), [], hash, block[..]);
        assert done + (rest + [b]) + [] == message + [b];
      } else {
        AbsorbedTail(transform, INIT, done, rest + [b], hash, block[..]);
      }
    }

    static lemma NextIndex(n: nat)
      ensures (n + 1) % 64 == if n % 64 == 63 then 0 else n % 64 + 1
    {}

    /** One byte of the loop of sha1_append. */
    method AppendByte(b: byte)
      requires Valid() && !computed && corrupted == 0
      modifies this`hash, this`index, this`lengthLow, this`lengthHigh, this`corrupted, this`message, block
      ensures Valid() && message == old(message) + [b]
      ensures corrupted == if |message| < LIMIT then 0 else TOO_LONG
    {
      hide Absorbed, Counts, Digest, Output;
      ghost var n := |message|;
      StoreByte(b);
      CountByte(n);
      message := message + [b];
      assert |message| == n + 1;
    }

    /** sha1_append. A message that reaches 2^64 bits is noticed inside the call, which still
        reports success; appending to a closed context corrupts it. */
    method Append(data: seq<byte>) returns (status: nat)
      requires Valid()
      requires |data| < 0x1_0000_0000
      modifies this`hash, this`index, this`lengthLow, this`lengthHigh, this`corrupted, this`message, block
      ensures Valid()
      ensures data == [] ==> status == 0 && message == old(message) && corrupted == old(corrupted)
      ensures data != [] && computed ==> status == 3 == corrupted
      ensures data != [] && !computed && old(corrupted) != 0 ==> status == corrupted == old(corrupted)
      ensures data != [] && !computed && old(corrupted) == 0 ==>
        && status == 0
        && (|old(message)| + |data| < LIMIT ==> corrupted == 0 && message == old(message) + data)
        && (|old(message)| + |data| >= LIMIT ==> corrupted == 1)
    {
      hide Absorbed, Counts;
      if |data| == 0 {
        return SUCCESS;
      }
      if computed {
        corrupted := STATE_ERROR;
        return STATE_ERROR;
      }
      if corrupted != 0 {
        return corrupted;
      }
      var i := 0;
      while i < |data| && corrupted == 0
        invariant i <= |data| && Valid() && !computed
        invariant message == old(message) + data[..i]
        invariant corrupted == if i == 0 || |message| < LIMIT then 0 else TOO_LONG
      {
        AppendByte(data[i]);
        assert data[..i] + [data[i]] == data[..i + 1];
        i := i + 1;
      }
      assert i == |data| ==> data[..i] == data;
      return SUCCESS;
    }

    method ZeroTo(limit: nat)
      requires index <= limit <= 64 == block.Length
      modifies this`index, block
      ensures index == limit
      ensures block[..limit] == old(block[..index]) + Zeros(limit - old(index))
    {
      ghost var front, start := block[..index], index;
      while index < limit
        invariant start <= index <= limit
        invariant block[..index] == front + Zeros(index - start)
      {
        block[index] := 0;
        index := index + 1;
        assert block[..index] == block[..index - 1] + [0];
        assert Zeros(index - start) == Zeros(index - 1 - start) + [0];
      }
    }

    /** Store the length, high-order word first, behind 56 filled bytes, and process the block. */
    method Seal(ghost done: seq<byte>, ghost front: seq<byte>)
      requires block.Length == 64 && |front| == 56 && block[..56] == front
      requires |done| % 64 == 0 && hash == Chain(transform, INIT, done)
      modifies this`hash, this`index, block
      ensures |done + (front + (BE32(lengthHigh) + BE32(lengthLow)))| % 64 == 0
      ensures hash == Chain(transform, INIT, done + (front + (BE32(lengthHigh) + BE32(lengthLow))))
    {
      Memcpy(block, 56, BE32(lengthHigh) + BE32(lengthLow));
      assert block[..] == front + (BE32(lengthHigh) + BE32(lengthLow));
      ProcessBlock(done);
    }

    /** sha1_pad: one final block, or two when the length does not fit behind the tail. */
    method Pad(ghost done: seq<byte>, ghost rest: seq<byte>)
      requires block.Length == 64 && index == |rest| < 64 && block[..index] == rest
      requires |done| % 64 == 0 && hash == Chain(transform, INIT, done)
      modifies this`hash, this`index, block
      ensures var pad := [0x80] + Zeros(Gap(|rest|)) + (BE32(lengthHigh) + BE32(lengthLow));
              |done + (rest + pad)| % 64 == 0 && hash == Chain(transform, INIT, done + (rest + pad))
    {
      hide Chain, BE32;
      ghost var len := BE32(lengthHigh) + BE32(lengthLow);
      if index > 55 {
        block[index] := 0x80;
        index := index + 1;
        assert block[..index] == rest + [0x80];
        ZeroTo(64);
        ghost var z := Zeros(63 - |rest|);
        assert block[..] == rest + [0x80] + z;
        ProcessBlock(done);
        ZeroTo(56);
        assert block[..56] == Zeros(56);
        Seal(done + (rest + [0x80] + z), Zeros(56));
        Regroup(done, rest, z, Zeros(56), len);
        assert z + Zeros(56) == Zeros(Gap(|rest|));
      } else {
        block[index] := 0x80;
        index := index + 1;
        assert block[..index] == rest + [0x80];
        ZeroTo(56);
        Seal(done, rest + [0x80] + Zeros(55 - |rest|));
        Regroup(done, rest, [], Zeros(55 - |rest|), len);
        assert [] + Zeros(55 - |rest|) == Zeros(Gap(|rest|));
      }
    }

    /** Close an open context over its message. */
    method Close()
      requires Valid() && !computed && corrupted == 0
      modifies this`hash, this`index, block
      ensures |message| < LIMIT && Output(hash) == Digest(transform, message)
    {
      ghost var done, rest := AbsorbedSplit(transform, INIT, message, hash, block[..]);
      PaddingByTail(lengthLow, lengthHigh, |message|);
      hide *;
      Pad(done, rest);
      DigestByParts(transform, message, done, rest, hash);
    }

    method ZeroBlock()
      requires block.Length == 64
      modifies block
      ensures block[..] == Zeros(64)
    {
      for i := 0 to 64
        invariant forall k :: 0 <= k < i ==> block[k] == 0
      {
        block[i] := 0;
      }
    }

    /** sha1_finish: closing twice gives the same digest again. */
    method Finish() returns (status: nat, digest: seq<byte>)
      requires Valid()
      modifies this`hash, this`index, this`lengthLow, this`lengthHigh, this`computed, block
      ensures Valid()
      ensures status == corrupted
      ensures corrupted == 0 ==> computed && |message| < LIMIT && digest == Digest(transform, message)
      ensures corrupted != 0 ==> computed == old(computed) && digest == []
    {
      hide Absorbed, Digest, Output, Counts;
      if corrupted != 0 {
        return corrupted, [];
      }
      if !computed {
        Close();
        ZeroBlock();
        lengthLow, lengthHigh, computed := 0, 0, true;
      }
      digest := Output(hash);
      status := SUCCESS;
    }
  }

  /** However a message is cut into calls, closing the context yields the one-shot digest,
      and it fails exactly for messages of 2^64 bits or more. */
  method DigestOfChunks(f: Transform, chunks: seq<seq<byte>>) returns (status: nat, digest: seq<byte>)
    requires forall c :: c in chunks ==> |c| < 0x1_0000_0000
    ensures status == 0 <==> 8 * |Concat(chunks)| < 0x1_0000_0000_0000_0000
    ensures status == 0 ==> digest == Digest(f, Concat(chunks)) && Rfc3174(f, Concat(chunks), digest)
  {
    hide Rfc3174;
    var ctx := new Context(f);
    for i := 0 to |chunks|
      invariant ctx.Valid() && fresh(ctx) && fresh(ctx.block) && ctx.transform == f && !ctx.computed
      invariant ctx.corrupted == 0 <==> |Concat(chunks[..i])| < LIMIT
      invariant ctx.corrupted == 0 ==> ctx.message == Concat(chunks[..i])
    {
      ConcatSnoc(chunks[..i], chunks[i]);
      assert chunks[..i] + [chunks[i]] == chunks[..i + 1];
      var st := ctx.Append(chunks[i]);
    }
    assert chunks[..|chunks|] == chunks;
    status, digest := ctx.Finish();
    if status == 0 {
      DigestIsRfc3174(f, Concat(chunks));
    }
  }

  // ---------------------------------------------------------------- HMAC

  function XorAll(s: seq<byte>, pad: byte): (r: seq<byte>)
    ensures |r| == |s|
  {
    seq(|s|, i requires 0 <= i < |s| => s[i] ^ pad)
  }

  function PadKey(k: seq<byte>): (r: seq<byte>)
    requires |k| <= 64
    ensures |r| == 64
  {
    k + Zeros(64 - |k|)
  }

  /** Section 2 of RFC 2104. */
  function Rfc2104(f: Transform, key: seq<byte>, text: seq<byte>): seq<byte>
    requires |key| < LIMIT && |text| < LIMIT - 64
  {
    var k := PadKey(if |key| > 64 then Digest(f, key) else key);
    Digest(f, XorAll(k, 0x5c) + Digest(f, XorAll(k, 0x36) + text))
  }

  /** The code that RFC 2104 describes: a key of over 64 bytes is digested, zeros fill it up to 64, and
      with its bytes XORed with 0x36 it begins the inner message and with 0x5c the outer one. */
  ghost predicate Rfc2104Code(f: Transform, key: seq<byte>, text: seq<byte>, d: seq<byte>) {
    exists used, a, b, inner | Masked(used, 0x36, a) && Masked(used, 0x5c, b) && Rfc3174(f, a + text, inner) ::
      && (if |key| <= 64 then used == key else Rfc3174(f, key, used))
      && Rfc3174(f, b + inner, d)
  }

  /** `r` is `key`, filled up with zeros to 64 bytes, with every byte XORed with `pad`. */
  ghost predicate Masked(key: seq<byte>, pad: byte, r: seq<byte>) {
    && |key| <= 64 == |r|
    && forall i :: 0 <= i < 64 ==> r[i] == (if i < |key| then key[i] else 0) ^ pad
  }

  lemma MaskedIs(key: seq<byte>, pad: byte)
    requires |key| <= 64
    ensures Masked(key, pad, XorAll(PadKey(key), pad))
  {}

  lemma Rfc2104By(f: Transform, key: seq<byte>, text: seq<byte>, d: seq<byte>,
                  used: seq<byte>, a: seq<byte>, b: seq<byte>, inner: seq<byte>)
    requires Masked(used, 0x36, a) && Masked(used, 0x5c, b)
    requires Rfc3174(f, a + text, inner) && Rfc3174(f, b + inner, d)
    requires if |key| <= 64 then used == key else Rfc3174(f, key, used)
    ensures Rfc2104Code(f, key, text, d)
  {
    hide Masked, Rfc3174;
  }

  lemma Rfc2104Is(f: Transform, key: seq<byte>, text: seq<byte>)
    requires |key| < LIMIT && |text| < LIMIT - 64
    ensures Rfc2104Code(f, key, text, Rfc2104(f, key, text))
  {
    hide Digest, Rfc3174, Masked, XorAll, Rfc2104Code;
    var used := if |key| > 64 then Digest(f, key) else key;
    var a, b := XorAll(PadKey(used), 0x36), XorAll(PadKey(used), 0x5c);
    var inner := Digest(f, a + text);
    if |key| > 64 {
      DigestIsRfc3174(f, key);
    }
    DigestIsRfc3174(f, a + text);
    DigestIsRfc3174(f, b + inner);
    MaskedIs(used, 0x36);
    MaskedIs(used, 0x5c);
    assert Rfc2104(f, key, text) == Digest(f, b + inner);
    Rfc2104By(f, key, text, Digest(f, b + inner), used, a, b, inner);
  }

  /** What survives the conversion of a `size_t` length to the `unsigned` of sha1_append. */
  function Truncated(s: seq<byte>): (r: seq<byte>)
    ensures |r| == |s| % 0x1_0000_0000 && r <= s
    ensures |s| < 0x1_0000_0000 ==> r == s
  {
    s[..|s| % 0x1_0000_0000]
  }

  /** The length argument 0 stands for a NUL-terminated string. */
  function StrLen(s: seq<byte>): (n: nat)
    requires 0 in s
    ensures n < |s| && s[n] == 0 && 0 !in s[..n]
  {
    if s[0] == 0 then 0 else
      var n := StrLen(s[1..]);
      assert s[..n + 1] == [s[0]] + s[1..][..n];
      n + 1
  }

  function Argument(s: seq<byte>, len: nat): (r: seq<byte>)
    requires if len == 0 then 0 in s else len <= |s|
    ensures if len == 0 then 0 !in r && r + [0] <= s else |r| == len && r <= s
  {
    if len == 0 then s[..StrLen(s)] else s[..len]
  }

  method DigestOf(f: Transform, a: seq<byte>, b: seq<byte>) returns (digest: seq<byte>)
    requires |a| < 0x1_0000_0000 && |b| < 0x1_0000_0000
    ensures digest == Digest(f, a + b)
  {
    var status;
    status, digest := DigestOfChunks(f, [a, b]);
    assert Concat([a, b]) == a + Concat([b]) == a + b by {
      assert [a, b][1..] == [b] && [b][1..] == [];
      assert Concat([b]) == b + Concat([]);
    }
  }

  method XorPad(key: array<byte>, pad: byte)
    requires key.Length == 65
    modifies key
    ensures key[..64] == XorAll(old(key[..64]), pad)
  {
    for i := 0 to 64
      invariant forall k :: 0 <= k < i ==> key[k] == old(key[k]) ^ pad
      invariant forall k :: i <= k < 65 ==> key[k] == old(key[k])
    {
      key[i] := key[i] ^ pad;
    }
  }

  lemma XorAllTwice(s: seq<byte>)
    ensures XorAll(XorAll(s, 0x36), 0x36 ^ 0x5c) == XorAll(s, 0x5c)
  {
    forall i | 0 <= i < |s|
      ensures (s[i] ^ 0x36) ^ (0x36 ^ 0x5c) == s[i] ^ 0x5c
    {
      XorPads(s[i]);
    }
  }

  lemma XorPads(b: byte)
    ensures (b ^ 0x36) ^ (0x36 ^ 0x5c) == b ^ 0x5c
  {}

  lemma Filled(k: seq<byte>, zeros: seq<byte>, key: seq<byte>)
    requires |k| <= 64 && |zeros| == 65 && (forall i :: 0 <= i < 65 ==> zeros[i] == 0)
    requires key == zeros[..0] + k + zeros[|k|..]
    ensures |key| == 65 && key[..64] == PadKey(k)
  {}

  /** sha1_hmac computes RFC 2104 of the arguments as sha1_append sees them. */
  method Hmac(f: Transform, keyBuf: seq<byte>, keyLen: nat, textBuf: seq<byte>, textLen: nat) returns (digest: seq<byte>)
    requires if keyLen == 0 then 0 in keyBuf else keyLen <= |keyBuf|
    requires if textLen == 0 then 0 in textBuf else textLen <= |textBuf|
    ensures var k, text := Argument(keyBuf, keyLen), Truncated(Argument(textBuf, textLen));
            digest == if |k| <= 64 then Rfc2104(f, k, text)
                      else Rfc2104(f, Digest(f, Truncated(k)), text)
    ensures var k, text := Argument(keyBuf, keyLen), Argument(textBuf, textLen);
            |k| < 0x1_0000_0000 && |text| < 0x1_0000_0000 ==>
              digest == Rfc2104(f, k, text) && Rfc2104Code(f, k, text, digest)
  {
    hide Digest, XorAll, Rfc2104Code;
    var k, text := Argument(keyBuf, keyLen), Argument(textBuf, textLen);
    var key := new byte[65](_ => 0);
    ghost var zeros := key[..];
    if |k| > 64 {
      var d := DigestOf(f, Truncated(k), []);
      assert Truncated(k) + [] == Truncated(k);
      Memcpy(key, 0, d);
      Filled(d, zeros, key[..]);
    } else {
      Memcpy(key, 0, k);
      Filled(k, zeros, key[..]);
    }
    assert key[..][..64] == key[..64];
    ghost var padded := key[..64];
    XorPad(key, 0x36);
    var inner := DigestOf(f, key[..64], Truncated(text));
    XorPad(key, 0x36 ^ 0x5c);
    XorAllTwice(padded);
    digest := DigestOf(f, key[..64], inner);
    if |k| < 0x1_0000_0000 && |text| < 0x1_0000_0000 {
      Rfc2104Is(f, k, text);
    }
  }
}
