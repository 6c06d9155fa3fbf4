/** ArcFour and the encryption of stored passwords (lib/arc.c). */
module Arc {
  import opened ArcFour
  import opened Bytes
  import opened Options

  function Mask(b: byte, k: octet): byte {
    b ^ (k as bv8)
  }

  lemma XorBits(a: bv8, b: bv8)
    ensures (a ^ b) ^ b == a
  {}

  lemma MaskTwice(b: byte, k: octet)
    ensures Mask(Mask(b, k), k) == b
  {
    XorBits(b, k as bv8);
  }

  /** struct arc_state. */
  datatype State = State(s: seq<octet>, i: octet, j: octet)

  /** Each byte occurs once. */
  ghost predicate Permutation(s: seq<octet>) {
    |s| == 256 && forall a, b :: 0 <= a < b < 256 ==> s[a] != s[b]
  }

  function Swap(s: seq<octet>, a: nat, b: nat): (r: seq<octet>)
    requires a < |s| && b < |s|
    ensures |r| == |s|
  {
    s[a := s[b]][b := s[a]]
  }

  lemma SwapKeeps(s: seq<octet>, a: nat, b: nat)
    requires Permutation(s) && a < 256 && b < 256
    ensures Permutation(Swap(s, a, b))
  {}

  /** arc_getbyte: the state afterwards, and the byte. */
  function Step(st: State): (r: State)
    requires |st.s| == 256
    ensures |r.s| == 256
  {
    var i := (st.i + 1) % 256;
    var j := (st.j + st.s[i]) % 256;
    State(Swap(st.s, i, j), i, j)
  }

  function Out(st: State): octet
    requires |st.s| == 256
  {
    var t := Step(st);
    var a: int, b: int := t.s[t.i], t.s[t.j];
    t.s[(a + b) % 256]
  }

  function Steps(st: State, n: nat): (r: State)
    requires |st.s| == 256
    ensures |r.s| == 256
  {
    if n == 0 then st else Step(Steps(st, n - 1))
  }

  /** The first `n` bytes of the generator. */
  function Stream(st: State, n: nat): (r: seq<octet>)
    requires |st.s| == 256
    ensures |r| == n
  {
    if n == 0 then [] else Stream(st, n - 1) + [Out(Steps(st, n - 1))]
  }

  function Identity(): (s: seq<octet>)
    ensures |s| == 256 && forall k :: 0 <= k < 256 ==> s[k] == k
  {
    seq(256, k requires 0 <= k < 256 => k)
  }

  /** The key setup after `n` swaps, with the value of `j`. */
  function Mixed(key: seq<octet>, n: nat): (r: (seq<octet>, octet))
    requires key != [] && n <= 256
    ensures |r.0| == 256
  {
    if n == 0 then (Identity(), 0)
    else
      var (s, j) := Mixed(key, n - 1);
      var k := (j + s[n - 1] + key[(n - 1) % |key|]) % 256;
      (Swap(s, n - 1, k), k)
  }

  lemma MixedNone(key: seq<octet>)
    requires key != []
    ensures Mixed(key, 0) == (Identity(), 0)
  {}

  lemma MixedNext(key: seq<octet>, n: nat)
    requires key != [] && n < 256
    ensures var (s, j) := Mixed(key, n);
            var k: int := (j + s[n] + key[n % |key|]) % 256;
            Mixed(key, n + 1) == (Swap(s, n, k), k)
  {
    hide Swap, Identity;
  }

  function Keyed(key: seq<octet>, cycles: nat): (st: State)
    requires key != []
    ensures |st.s| == 256
  {
    Steps(State(Mixed(key, 256).0, 0, 0), cycles)
  }

  lemma {:induction false} MixedKeeps(key: seq<octet>, n: nat)
    requires key != [] && n <= 256
    ensures Permutation(Mixed(key, n).0)
  {
    if n > 0 {
      MixedKeeps(key, n - 1);
      var (s, j) := Mixed(key, n - 1);
      SwapKeeps(s, n - 1, Mixed(key, n).1);
    }
  }

  lemma {:induction false} StepsKeep(st: State, n: nat)
    requires Permutation(st.s)
    ensures Permutation(Steps(st, n).s)
  {
    if n > 0 {
      StepsKeep(st, n - 1);
      var t := Steps(st, n - 1);
      SwapKeeps(t.s, Step(t).i, Step(t).j);
    }
  }

  /** S is a permutation of all bytes at every point of its use. */
  lemma AlwaysPermutation(key: seq<octet>, cycles: nat, n: nat)
    requires key != []
    ensures Permutation(Steps(Keyed(key, cycles), n).s)
  {
    MixedKeeps(key, 256);
    StepsKeep(State(Mixed(key, 256).0, 0, 0), cycles);
    StepsKeep(Keyed(key, cycles), n);
  }

  // ---------------------------------------------------------------- passwords

  const IV_LEN := 6
  const CYCLES := 1024

  function Octets(s: seq<byte>): (r: seq<octet>)
    ensures |r| == |s|
  {
    seq(|s|, i requires 0 <= i < |s| => s[i] as int)
  }

  function Masked(text: seq<byte>, st: State): (r: seq<byte>)
    requires |st.s| == 256
    ensures |r| == |text|
  {
    seq(|text|, i requires 0 <= i < |text| => Mask(text[i], Stream(st, |text|)[i]))
  }

  lemma MaskedTwice(text: seq<byte>, st: State)
    requires |st.s| == 256
    ensures Masked(Masked(text, st), st) == text
  {
    hide Mask, Stream;
    forall i | 0 <= i < |text|
      ensures Masked(Masked(text, st), st)[i] == text[i]
    {
      MaskTwice(text[i], Stream(st, |text|)[i]);
    }
  }

  /** The text up to the first zero byte. */
  function CString(s: seq<byte>): (r: seq<byte>) {
    if s == [] || s[0] == 0 then [] else [s[0]] + CString(s[1..])
  }

  predicate NulFree(s: seq<byte>) {
    0 !in s
  }

  lemma {:induction false} CStringOf(s: seq<byte>, rest: seq<byte>)
    requires NulFree(s) && (rest == [] || rest[0] == 0)
    ensures CString(s + rest) == s
  {
    if s == [] {
      assert s + rest == rest;
    } else {
      assert (s + rest)[1..] == s[1..] + rest && s[0] in s;
      CStringOf(s[1..], rest);
    }
  }

  /** How many bytes bring a text up to a multiple of `padTo`. */
  function PadLen(n: nat, padTo: int): nat {
    if padTo > 0 && n % padTo > 0 then padTo - n % padTo else 0
  }

  /** A zero byte and random ones after it, or nothing. */
  function Padded(clear: seq<byte>, padTo: int, filler: seq<byte>): (r: seq<byte>)
    requires |filler| == (if PadLen(|clear|, padTo) > 0 then PadLen(|clear|, padTo) - 1 else 0)
  {
    if PadLen(|clear|, padTo) > 0 then clear + [0] + filler else clear
  }

  function Key(password: seq<byte>, iv: seq<byte>): (r: seq<octet>)
    requires |iv| == IV_LEN
    ensures r != []
  {
    Octets(password + iv)
  }

  function Encoded(clear: seq<byte>, password: seq<byte>, iv: seq<byte>): (r: seq<byte>)
    requires |iv| == IV_LEN
  {
    iv + Masked(clear, Keyed(Key(password, iv), CYCLES))
  }

  /** None when there is not even an IV. */
  function Decoded(crypt: seq<byte>, password: seq<byte>): Option<seq<byte>> {
    if |crypt| < IV_LEN then None
    else Some(Masked(crypt[IV_LEN..], Keyed(Key(password, crypt[..IV_LEN]), CYCLES)))
  }

  lemma DecodeEncode(clear: seq<byte>, password: seq<byte>, iv: seq<byte>)
    requires |iv| == IV_LEN
    ensures Decoded(Encoded(clear, password, iv), password) == Some(clear)
  {
    hide Keyed, Masked;
    var st := Keyed(Key(password, iv), CYCLES);
    var crypt := Encoded(clear, password, iv);
    assert crypt[IV_LEN..] == Masked(clear, st) && crypt[..IV_LEN] == iv;
    MaskedTwice(clear, st);
  }

  /** A password without zero bytes comes back as a C string, whatever the padding, the random
      bytes and the key are; the length is a multiple of the padding. */
  lemma PasswordRoundTrip(clear: seq<byte>, password: seq<byte>, padTo: int, filler: seq<byte>, iv: seq<byte>)
    requires NulFree(clear) && |iv| == IV_LEN
    requires |filler| == (if PadLen(|clear|, padTo) > 0 then PadLen(|clear|, padTo) - 1 else 0)
    ensures var crypt := Encoded(Padded(clear, padTo, filler), password, iv);
            && Decoded(crypt, password).Some? && CString(Decoded(crypt, password).value) == clear
            && (padTo > 0 ==> (|crypt| - IV_LEN) % padTo == 0)
  {
    hide Encoded, Decoded;
    var p := Padded(clear, padTo, filler);
    DecodeEncode(p, password, iv);
    if PadLen(|clear|, padTo) > 0 {
      assert p == clear + ([0] + filler);
      CStringOf(clear, [0] + filler);
      PadMod(|clear|, padTo);
    } else {
      assert p == clear + [];
      CStringOf(clear, []);
    }
    EncodedLen(p, password, iv);
  }

  lemma PadMod(n: nat, m: int)
    requires m > 0 && n % m > 0
    ensures (n + (m - n % m)) % m == 0
  {
    var q, r := n / m, n % m;
    assert n == m * q + r;
    assert m * q + m == m * (q + 1);
    MulMod(m, q + 1);
  }

  lemma MulMod(m: int, q: int)
    requires m > 0
    ensures m * q % m == 0
  {
    var x := m * q;
    var k, r := x / m, x % m;
    assert x == m * k + r;
    assert m * (q - k) == r by {
      assert m * (q - k) == m * q - m * k;
    }
    assert m * (k - q) == -r by {
      assert m * (k - q) == m * k - m * q;
    }
    if q - k >= 1 {
      Grows(m, q - k);
    } else if q - k <= -1 {
      Grows(m, k - q);
    }
  }

  lemma Grows(m: int, d: int)
    requires m > 0 && d >= 1
    ensures m * d >= m
  {}

  lemma EncodedLen(clear: seq<byte>, password: seq<byte>, iv: seq<byte>)
    requires |iv| == IV_LEN
    ensures |Encoded(clear, password, iv)| == |clear| + IV_LEN
  {}

  // ---------------------------------------------------------------- in place

  lemma StreamSnoc(st: State, n: nat)
    requires |st.s| == 256
    ensures Stream(st, n + 1) == Stream(st, n) + [Out(Steps(st, n))] && Steps(st, n + 1) == Step(Steps(st, n))
  {}

  /** Bytes already produced do not depend on how many more are asked for. */
  lemma {:induction false} StreamPrefix(st: State, n: nat, m: nat)
    requires |st.s| == 256 && n <= m
    ensures Stream(st, m)[..n] == Stream(st, n)
    decreases m
  {
    hide *;
    if n < m {
      StreamPrefix(st, n, m - 1);
      StreamSnoc(st, m - 1);
      assert Stream(st, m)[..n] == Stream(st, m - 1)[..n];
    }
  }

  lemma StreamAt(st: State, n: nat, m: nat)
    requires |st.s| == 256 && n < m
    ensures Stream(st, m)[n] == Out(Steps(st, n))
  {
    StreamPrefix(st, n + 1, m);
    StreamSnoc(st, n);
    assert Stream(st, m)[n] == Stream(st, m)[..n + 1][n];
  }

  lemma StreamNone(st: State)
    requires |st.s| == 256
    ensures Steps(st, 0) == st
  {}

  lemma MaskedIs(text: seq<byte>, st: State, r: seq<byte>)
    requires |st.s| == 256 && |r| == |text|
    requires forall k :: 0 <= k < |text| ==> r[k] == Mask(text[k], Stream(st, |text|)[k])
    ensures r == Masked(text, st)
  {
    hide Mask, Stream;
  }

  // ---------------------------------------------------------------- the trace of the generator

  lemma SwapExchanges(s: seq<octet>, a: nat, b: nat)
    requires |s| == 256 && a < 256 && b < 256
    ensures Exchanged(s, Swap(s, a, b), a, b)
  {}

  lemma SetupTrace(key: seq<octet>) returns (ss: seq<seq<octet>>, js: seq<octet>)
    requires key != []
    ensures Setup(key, ss, js) && ss[256] == Mixed(key, 256).0
  {
    hide Mixed, Swap, Identity, Exchanged;
    ss := seq(257, t requires 0 <= t < 257 => Mixed(key, t).0);
    js := seq(257, t requires 0 <= t < 257 => Mixed(key, t).1);
    MixedNone(key);
    forall t | 0 <= t < 256
      ensures js[t + 1] == (js[t] as int + ss[t][t] + key[t % |key|]) % 256 && Exchanged(ss[t], ss[t + 1], t, js[t + 1])
    {
      MixedNext(key, t);
      SwapExchanges(ss[t], t, js[t + 1]);
    }
  }

  lemma {:induction false} StepsCount(s: seq<octet>, t: nat)
    requires |s| == 256
    ensures Steps(State(s, 0, 0), t).i == t % 256
  {
    hide Step;
    if t > 0 {
      StepsCount(s, t - 1);
      StepIs(Steps(State(s, 0, 0), t - 1));
      NextMod(t);
    }
  }

  lemma NextMod(t: nat)
    requires t > 0
    ensures ((t - 1) % 256 + 1) % 256 == t % 256
  {}

  lemma StepIs(st: State)
    requires |st.s| == 256
    ensures var r := Step(st);
            && r.i == (st.i + 1) % 256 && r.j == (st.j as int + st.s[r.i]) % 256 && r.s == Swap(st.s, r.i, r.j)
            && Out(st) == r.s[(r.s[r.i] as int + r.s[r.j]) % 256]
  {
    hide Swap;
  }

  lemma TurnOf(s: seq<octet>, t: nat)
    requires |s| == 256
    ensures var st, r := Steps(State(s, 0, 0), t), Steps(State(s, 0, 0), t + 1);
            && r.j == (st.j as int + st.s[(t + 1) % 256]) % 256 && Exchanged(st.s, r.s, (t + 1) % 256, r.j)
            && Out(st) == r.s[(r.s[(t + 1) % 256] as int + r.s[r.j]) % 256]
  {
    hide Swap, Step, Out, Exchanged;
    var st := Steps(State(s, 0, 0), t);
    StepsCount(s, t);
    StepsCount(s, t + 1);
    StepIs(st);
    assert Steps(State(s, 0, 0), t + 1) == Step(st);
    SwapExchanges(st.s, (t + 1) % 256, Step(st).j);
  }

  lemma TurnsTrace(s: seq<octet>, n: nat) returns (ss: seq<seq<octet>>, js: seq<octet>)
    requires |s| == 256
    ensures Turns(s, ss, js) && |ss| == n + 1
    ensures forall t :: 0 <= t < n ==>
              Out(Steps(State(s, 0, 0), t)) == ss[t + 1][(ss[t + 1][(t + 1) % 256] as int + ss[t + 1][js[t + 1]]) % 256]
  {
    hide *;
    ss := seq(n + 1, t requires 0 <= t < n + 1 => Steps(State(s, 0, 0), t).s);
    js := seq(n + 1, t requires 0 <= t < n + 1 => Steps(State(s, 0, 0), t).j);
    assert |Steps(State(s, 0, 0), 0).s| == 256;
    StreamNone(State(s, 0, 0));
    forall t | 0 <= t < n
      ensures js[t + 1] == (js[t] as int + ss[t][(t + 1) % 256]) % 256
      ensures Exchanged(ss[t], ss[t + 1], (t + 1) % 256, js[t + 1])
      ensures Out(Steps(State(s, 0, 0), t)) == ss[t + 1][(ss[t + 1][(t + 1) % 256] as int + ss[t + 1][js[t + 1]]) % 256]
    {
      TurnOf(s, t);
    }
    TurnsMade(s, ss, js);
  }

  lemma TurnsMade(s: seq<octet>, ss: seq<seq<octet>>, js: seq<octet>)
    requires |ss| == |js| > 0 && (forall t :: 0 <= t < |ss| ==> |ss[t]| == 256) && js[0] == 0 && ss[0] == s
    requires forall t :: 0 <= t < |ss| - 1 ==> js[t + 1] == (js[t] as int + ss[t][(t + 1) % 256]) % 256
    requires forall t :: 0 <= t < |ss| - 1 ==> Exchanged(ss[t], ss[t + 1], (t + 1) % 256, js[t + 1])
    ensures Turns(s, ss, js)
  {
    hide Exchanged;
  }

  lemma Streamed(key: seq<octet>, n: nat)
    requires key != []
    ensures Keystream(key, Stream(State(Mixed(key, 256).0, 0, 0), n))
  {
    hide Mixed, Stream, Steps, Out, Setup, Turns;
    var ss, js := SetupTrace(key);
    SetupLength(key, ss, js);
    var ts, ks := TurnsTrace(ss[256], n);
    TurnsLength(ss[256], ts, ks);
    var st := State(Mixed(key, 256).0, 0, 0);
    var out := Stream(st, n);
    forall t | 0 <= t < n
      ensures var s := ts[t + 1]; out[t] == s[(s[(t + 1) % 256] as int + s[ks[t + 1]]) % 256]
    {
      StreamAt(st, t, n);
    }
  }

  lemma SetupLength(key: seq<octet>, ss: seq<seq<octet>>, js: seq<octet>)
    requires key != [] && Setup(key, ss, js)
    ensures |ss| == 257 && |ss[256]| == 256
  {}

  lemma TurnsLength(s: seq<octet>, ss: seq<seq<octet>>, js: seq<octet>)
    requires Turns(s, ss, js)
    ensures |ss| == |js| && forall t :: 0 <= t < |ss| ==> |ss[t]| == 256
  {}

  lemma {:induction false} StepsAppend(st: State, a: nat, b: nat)
    requires |st.s| == 256
    ensures Steps(Steps(st, a), b) == Steps(st, a + b)
    decreases b
  {
    hide Step;
    if b > 0 {
      StepsAppend(st, a, b - 1);
    }
  }

  lemma KeyIs(password: seq<byte>, iv: seq<byte>)
    requires |iv| == 6
    ensures KeyBytes(password, iv, Key(password, iv))
  {}

  /** The masks of `Arc` are such an encipherment. */
  lemma MaskedIsEnciphered(password: seq<byte>, iv: seq<byte>, text: seq<byte>)
    requires |iv| == 6
    ensures Enciphered(password, iv, text, Masked(text, Keyed(Key(password, iv), CYCLES)))
  {
    hide Key, Mixed, Stream, Steps, Out, Keystream, KeyBytes;
    var key := Key(password, iv);
    var st := State(Mixed(key, 256).0, 0, 0);
    KeyIs(password, iv);
    Streamed(key, 1024 + |text|);
    var out := Stream(st, 1024 + |text|);
    var cipher := Masked(text, Keyed(key, CYCLES));
    forall k | 0 <= k < |text|
      ensures cipher[k] == text[k] ^ (out[1024 + k] as byte)
    {
      StreamAt(Steps(st, 1024), k, |text|);
      StepsAppend(st, 1024, k);
      StreamAt(st, 1024 + k, 1024 + |text|);
    }
    assert key != [];
  }

  // ---------------------------------------------------------------- the password matters

  /** Different passwords give different keys, and the IV comes last. */
  lemma KeyInjective(p: seq<byte>, q: seq<byte>, iv: seq<byte>)
    requires |iv| == 6 && Key(p, iv) == Key(q, iv)
    ensures p == q
  {
    hide Key;
    KeyIs(p, iv);
    KeyIs(q, iv);
    forall k | 0 <= k < |p|
      ensures p[k] == q[k]
    {
      SameByte(p[k], q[k]);
    }
  }

  lemma SameByte(a: byte, b: byte)
    requires a as int == b as int
    ensures a == b
  {
    assert (a as int) as byte == a && (b as int) as byte == b;
  }

  lemma {:induction false} MixedAgree(a: seq<octet>, b: seq<octet>, n: nat)
    requires a != [] && |a| == |b| && n <= |a| && n <= 256 && forall i :: 0 <= i < n ==> a[i] == b[i]
    ensures Mixed(a, n) == Mixed(b, n)
  {
    hide Mixed;
    if n == 0 {
      MixedNone(a);
      MixedNone(b);
    } else {
      MixedAgree(a, b, n - 1);
      SmallMod(n - 1, |a|);
      MixedNext(a, n - 1);
      MixedNext(b, n - 1);
    }
  }

  /** Two keys of one length that differ first at `k` part ways in swap `k` of the key setup. */
  lemma KeysDiverge(a: seq<octet>, b: seq<octet>, k: nat)
    requires |a| == |b| <= 256 && k < |a| && a[k] != b[k] && forall i :: 0 <= i < k ==> a[i] == b[i]
    ensures Mixed(a, k) == Mixed(b, k) && Mixed(a, k + 1).1 != Mixed(b, k + 1).1
  {
    hide Mixed;
    MixedAgree(a, b, k);
    MixedNext(a, k);
    MixedNext(b, k);
    SmallMod(k, |a|);
    SumsDiffer(Mixed(a, k).1, Mixed(a, k).0[k], a[k], b[k]);
  }

  lemma SmallMod(k: nat, n: nat)
    requires k < n
    ensures k % n == k
  {}

  lemma SumsDiffer(j: octet, s: octet, a: octet, b: octet)
    requires a != b
    ensures (j as int + s + a) % 256 != (j as int + s + b) % 256
  {}

  /** The text, padded to a multiple by a zero byte and random ones. */
  predicate PaddedTo(clear: seq<byte>, padTo: int, filler: seq<byte>, text: seq<byte>) {
    && (padTo > 0 ==> |text| % padTo == 0 && |text| < |clear| + padTo)
    && (padTo <= 0 ==> text == clear)
    && (text == clear || text == clear + [0] + filler)
  }

  lemma PaddedIs(clear: seq<byte>, padTo: int, filler: seq<byte>)
    requires |filler| == (if PadLen(|clear|, padTo) > 0 then PadLen(|clear|, padTo) - 1 else 0)
    ensures PaddedTo(clear, padTo, filler, Padded(clear, padTo, filler))
  {
    if PadLen(|clear|, padTo) > 0 {
      PadMod(|clear|, padTo);
    }
  }

  lemma EncodedBytes(clear: seq<byte>, password: seq<byte>, padTo: int, iv: seq<byte>, filler: seq<byte>)
    requires |iv| == IV_LEN
    requires |filler| == (if PadLen(|clear|, padTo) > 0 then PadLen(|clear|, padTo) - 1 else 0)
    ensures var text, crypt := Padded(clear, padTo, filler), Encoded(Padded(clear, padTo, filler), password, iv);
            && |crypt| >= 6 && crypt[..6] == iv
            && PaddedTo(clear, padTo, filler, text) && Enciphered(password, iv, text, crypt[6..])
  {
    hide Masked, Keyed, PaddedTo, Enciphered;
    PaddedIs(clear, padTo, filler);
    var text := Padded(clear, padTo, filler);
    MaskedIsEnciphered(password, iv, text);
    assert Encoded(text, password, iv)[6..] == Masked(text, Keyed(Key(password, iv), CYCLES));
  }

  // ---------------------------------------------------------------- the code

  class Cipher {
    const s: array<octet>
    var i: octet
    var j: octet

    ghost predicate Valid()
      reads this
    {
      s.Length == 256
    }

    ghost function Abs(): (st: State)
      requires Valid()
      reads this, s
      ensures |st.s| == 256
    {
      State(s[..], i, j)
    }

    /** arc_keymaker. */
    constructor (key: seq<octet>, cycles: nat)
      requires key != []
      ensures Valid() && fresh(s) && Abs() == Keyed(key, cycles)
    {
      s := new octet[256](k requires 0 <= k < 256 => k);
      i, j := 0, 0;
      new;
      assert s[..] == Identity();
      Schedule(key);
      assert s[..] == Mixed(key, 256).0;
      for n := 0 to cycles
        invariant Valid() && Abs() == Steps(State(Mixed(key, 256).0, 0, 0), n)
      {
        var b := GetByte();
      }
    }

    /** The swaps of the key setup. */
    method Schedule(key: seq<octet>)
      requires Valid() && key != [] && s[..] == Identity()
      modifies s
      ensures s[..] == Mixed(key, 256).0
    {
      hide Mixed, Swap, Identity;
      var k: octet := 0;
      MixedNone(key);
      for n := 0 to 256
        invariant s[..] == Mixed(key, n).0 && k == Mixed(key, n).1
      {
        MixedNext(key, n);
        var e: int, f: int, g: int := k, s[n], key[n % |key|];
        k := (e + f + g) % 256;
        SwapAt(n, k);
      }
    }

    method SwapAt(a: nat, b: nat)
      requires Valid() && a < 256 && b < 256
      modifies s
      ensures s[..] == Swap(old(s[..]), a, b)
    {
      ghost var before := s[..];
      var tmp := s[a];
      s[a] := s[b];
      s[b] := tmp;
      assert s[..] == Swap(before, a, b);
    }

    /** arc_getbyte. */
    method GetByte() returns (b: octet)
      requires Valid()
      modifies this`i, this`j, s
      ensures Abs() == Step(old(Abs())) && b == Out(old(Abs()))
    {
      var e: int := i;
      i := (e + 1) % 256;
      var f: int, g: int := j, s[i];
      j := (f + g) % 256;
      SwapAt(i, j);
      var x: int, y: int := s[i], s[j];
      b := s[(x + y) % 256];
    }

    /** The loops of arc_encode and arc_decode: the next `|text|` bytes of the generator over `text`. */
    method Apply(text: seq<byte>, out: array<byte>, at: nat)
      requires Valid() && at + |text| <= out.Length && (out as object) != s
      modifies this`i, this`j, s, out
      ensures out[..at] == old(out[..at]) && out[at..at + |text|] == Masked(text, old(Abs()))
      ensures out[at + |text|..] == old(out[at + |text|..])
    {
      hide Stream, Out, Steps, Step, Mask, Masked;
      ghost var st := Abs();
      StreamNone(st);
      for n := 0 to |text|
        invariant Abs() == Steps(st, n)
        invariant out[..at] == old(out[..at]) && out[at + |text|..] == old(out[at + |text|..])
        invariant forall k :: 0 <= k < n ==> out[at + k] == Mask(text[k], Stream(st, |text|)[k])
      {
        StreamAt(st, n, |text|);
        StreamSnoc(st, n);
        var k := GetByte();
        out[at + n] := Mask(text[n], k);
      }
      MaskedIs(text, st, out[at..at + |text|]);
    }
  }

  lemma Halves<T>(s: seq<T>, k: nat, n: nat)
    requires k <= n == |s|
    ensures s == s[..k] + s[k..n]
  {}

  /** The padding of arc_encode. */
  method Fill(clear: seq<byte>, padTo: int, filler: seq<byte>) returns (text: seq<byte>)
    requires |filler| == (if PadLen(|clear|, padTo) > 0 then PadLen(|clear|, padTo) - 1 else 0)
    ensures text == Padded(clear, padTo, filler)
  {
    text := clear;
    if padTo > 0 && |clear| % padTo > 0 {
      text := clear + [0] + filler;
    }
  }

  /** arc_encode; `iv` and `filler` are what random_bytes delivers. */
  method Encode(clear: seq<byte>, password: seq<byte>, padTo: int, iv: seq<byte>, filler: seq<byte>)
    returns (crypt: array<byte>)
    requires |iv| == IV_LEN
    requires |filler| == (if PadLen(|clear|, padTo) > 0 then PadLen(|clear|, padTo) - 1 else 0)
    ensures fresh(crypt) && crypt[..] == Encoded(Padded(clear, padTo, filler), password, iv)
    ensures crypt.Length >= 6 && crypt[..6] == iv
    ensures exists text :: PaddedTo(clear, padTo, filler, text) && Enciphered(password, iv, text, crypt[6..])
  {
    EncodedBytes(clear, password, padTo, iv, filler);
    hide Keyed, Masked, Octets, Identity, Mask, PaddedTo, Enciphered, PadLen, Padded;
    var text := Fill(clear, padTo, filler);
    crypt := new byte[|text| + IV_LEN];
    Memcpy(crypt, 0, iv);
    var c := new Cipher(Octets(password + iv), CYCLES);
    c.Apply(text, crypt, IV_LEN);
    Halves(crypt[..], IV_LEN, IV_LEN + |text|);
  }

  /** arc_decode: the text and a zero byte behind it, or -1 with an empty string. */
  method Decode(crypt: seq<byte>, password: seq<byte>) returns (n: int, clear: array<byte>)
    ensures fresh(clear) && (n == -1 <==> Decoded(crypt, password).None?)
    ensures n == -1 ==> clear[..] == [0]
    ensures n != -1 ==> n == |crypt| - IV_LEN && clear[..] == Decoded(crypt, password).value + [0]
    ensures n == -1 <==> |crypt| < 6
    ensures n != -1 ==> n == |crypt| - 6 && clear.Length == n + 1 && Enciphered(password, crypt[..6], crypt[6..], clear[..n])
  {
    if |crypt| >= 6 {
      MaskedIsEnciphered(password, crypt[..6], crypt[6..]);
    }
    hide Enciphered;
    n := |crypt| - IV_LEN;
    if n < 0 {
      n := -1;
      clear := new byte[1](_ => 0);
      return;
    }
    clear := new byte[n + 1];
    var c := new Cipher(Octets(password + crypt[..IV_LEN]), CYCLES);
    c.Apply(crypt[IV_LEN..], clear, 0);
    clear[n] := 0;
    assert clear[..] == clear[0..n] + [0];
  }
}
