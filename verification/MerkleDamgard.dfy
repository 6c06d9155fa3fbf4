/** The iterated hash construction that MD5 and SHA-1 share: 64-byte blocks fed to a
    block function. Every statement holds for every block function `f`. */
module MerkleDamgard {
  import opened Bytes

  /** The number of bytes of an `n`-byte message that lie in complete blocks. */
  function FullLen(n: nat): (k: nat)
    ensures k <= n < k + 64 && k % 64 == 0 && n - k == n % 64
  {
    n / 64 * 64
  }

  function Chain<H>(f: (H, seq<byte>) -> H, h: H, m: seq<byte>): H
    requires |m| % 64 == 0
  {
    if m == [] then h else Chain(f, f(h, m[..64]), m[64..])
  }

  lemma {:induction false} ChainAppend<H>(f: (H, seq<byte>) -> H, h: H, a: seq<byte>, b: seq<byte>)
    requires |a| % 64 == 0 && |b| % 64 == 0
    ensures Chain(f, h, a + b) == Chain(f, Chain(f, h, a), b)
  {
    if a == [] {
      assert a + b == b;
    } else {
      assert (a + b)[..64] == a[..64] && (a + b)[64..] == a[64..] + b;
      ChainAppend(f, f(h, a[..64]), a[64..], b);
    }
  }

  lemma ChainBlock<H>(f: (H, seq<byte>) -> H, h: H, a: seq<byte>, block: seq<byte>)
    requires |a| % 64 == 0 && |block| == 64
    ensures |a + block| % 64 == 0
    ensures Chain(f, h, a + block) == f(Chain(f, h, a), block)
  {
    ChainAppend(f, h, a, block);
    assert block[..64] == block && block[64..] == [];
  }

  /** `hs` are the states between the blocks of `p`: each comes from the one before and the block between. */
  ghost predicate Iterated<H>(f: (H, seq<byte>) -> H, hs: seq<H>, p: seq<byte>) {
    && |p| % 64 == 0 && 64 * (|hs| - 1) == |p|
    && forall t :: 0 < t < |hs| ==> hs[t] == f(hs[t - 1], p[64 * (t - 1)..64 * t])
  }

  lemma {:induction false} ChainStates<H>(f: (H, seq<byte>) -> H, h: H, p: seq<byte>) returns (hs: seq<H>)
    requires |p| % 64 == 0
    ensures |hs| > 0 && hs[0] == h && hs[|hs| - 1] == Chain(f, h, p) && Iterated(f, hs, p)
  {
    if p == [] {
      hs := [h];
    } else {
      var rest := ChainStates(f, f(h, p[..64]), p[64..]);
      hs := [h] + rest;
      forall t | 0 < t < |hs|
        ensures hs[t] == f(hs[t - 1], p[64 * (t - 1)..64 * t])
      {
        if t > 1 {
          assert p[64..][64 * (t - 2)..64 * (t - 1)] == p[64 * (t - 1)..64 * t];
        }
      }
    }
  }

  /** `p` is `m`, the byte 0x80, the fewest zeros that let eight more bytes end a block, and those eight. */
  ghost predicate Padded(m: seq<byte>, p: seq<byte>) {
    && |p| % 64 == 0 && |m| + 9 <= |p| < |m| + 73 && p[..|m|] == m && p[|m|] == 0x80
    && forall i :: |m| < i < |p| - 8 ==> p[i] == 0
  }

  lemma PaddedBy(m: seq<byte>, z: nat, len: seq<byte>, p: seq<byte>)
    requires z < 64 && |len| == 8 && (|m| + 1 + z + 8) % 64 == 0
    requires p == m + ([0x80] + Zeros(z) + len)
    ensures Padded(m, p) && p[|p| - 8..] == len
  {}

  /** `h` is the state after the complete blocks of `m`, and the tail of `m` is what `block` starts with. */
  ghost predicate Absorbed<H>(f: (H, seq<byte>) -> H, iv: H, m: seq<byte>, h: H, block: seq<byte>)
    requires |block| == 64
  {
    var k := FullLen(|m|);
    && h == Chain(f, iv, m[..k])
    && block[..|m| - k] == m[k..]
  }

  lemma FullLenUnique(n: nat, k: nat)
    requires k <= n < k + 64 && k % 64 == 0
    ensures FullLen(n) == k
  {}

  /** Fewer than 64 bytes after whole blocks wait in the block. */
  lemma AbsorbedTail<H>(f: (H, seq<byte>) -> H, iv: H, done: seq<byte>, rest: seq<byte>, h: H, block: seq<byte>)
    requires |done| % 64 == 0 && |rest| < 64 == |block|
    requires h == Chain(f, iv, done) && block[..|rest|] == rest
    ensures Absorbed(f, iv, done + rest, h, block)
  {
    var m := done + rest;
    FullLenUnique(|m|, |done|);
    assert m[..|done|] == done && m[|done|..] == rest;
  }

  /** An absorbed message, taken apart into whole blocks and tail. */
  lemma AbsorbedSplit<H>(f: (H, seq<byte>) -> H, iv: H, m: seq<byte>, h: H, block: seq<byte>)
    returns (done: seq<byte>, rest: seq<byte>)
    requires |block| == 64 && Absorbed(f, iv, m, h, block)
    ensures m == done + rest && |done| % 64 == 0 && |rest| == |m| % 64
    ensures h == Chain(f, iv, done) && block[..|rest|] == rest
  {
    var k := FullLen(|m|);
    done, rest := m[..k], m[k..];
  }

  lemma SplitMiddle<T>(done: seq<T>, rest: seq<T>, data: seq<T>, at: nat, next: nat)
    requires at <= next <= |data|
    ensures done + (rest + data[at..]) == (done + (rest + data[at..next])) + ([] + data[next..])
  {
    assert data[at..] == data[at..next] + data[next..];
  }

  // ---------------------------------------------------------------- padding

  /** How many zeros separate the 0x80 byte from the length, after a tail of `t` bytes. */
  function Gap(t: nat): nat
    requires t < 64
  {
    if t <= 55 then 55 - t else 119 - t
  }

  lemma GapMod(n: nat)
    ensures (55 - n) % 64 == Gap(n % 64)
  {
    var q, t := n / 64, n % 64;
    assert n == q * 64 + t;
    if t <= 55 {
      assert 55 - n == -q * 64 + (55 - t);
    } else {
      assert 55 - n == (-q - 1) * 64 + (119 - t);
    }
  }

  lemma Regroup(done: seq<byte>, rest: seq<byte>, z: seq<byte>, z': seq<byte>, len: seq<byte>)
    ensures done + (rest + [0x80] + z) + (z' + len) == done + (rest + ([0x80] + (z + z') + len))
    ensures done + (rest + [0x80] + z' + len) == done + (rest + ([0x80] + ([] + z') + len))
  {}
}
