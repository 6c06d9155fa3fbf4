/** The acknowledgements of a DCC transfer (dcc.c): how many bytes have come, as big-endian words. */
module DccAcks {
  import opened Bytes

  function WordOf(b: seq<octet>): nat
    requires |b| == 4
  {
    ((b[0] as int * 256 + b[1]) * 256 + b[2]) * 256 + b[3]
  }

  /** The complete words in a stream. */
  function WordsOf(s: seq<octet>): (r: seq<nat>)
    ensures |r| == |s| / 4
  {
    if |s| < 4 then [] else [WordOf(s[..4])] + WordsOf(s[4..])
  }

  /** The words of a stream are its groups of four bytes, the first byte counting most. */
  lemma {:induction false} WordsAre(s: seq<octet>, i: nat)
    requires 4 * i + 4 <= |s|
    ensures WordsOf(s)[i]
         == s[4 * i] as int * 0x100_0000 + s[4 * i + 1] as int * 0x1_0000 + s[4 * i + 2] as int * 0x100 + s[4 * i + 3]
  {
    if i > 0 {
      WordsAre(s[4..], i - 1);
    }
  }

  lemma {:induction false} WordsAppend(a: seq<octet>, b: seq<octet>)
    requires |a| % 4 == 0
    ensures WordsOf(a + b) == WordsOf(a) + WordsOf(b)
  {
    if a == [] {
      assert a + b == b;
    } else {
      assert (a + b)[..4] == a[..4] && (a + b)[4..] == a[4..] + b;
      WordsAppend(a[4..], b);
    }
  }

  lemma WordsOne(w: seq<octet>)
    requires |w| <= 4
    ensures WordsOf(w) == if |w| == 4 then [WordOf(w)] else []
  {
    assert |w| == 4 ==> w[..4] == w;
  }

  /** More bytes behind a stream complete at most one word, when they fit into it. */
  lemma WordsMore(s: seq<octet>, b: seq<octet>)
    requires |s| % 4 + |b| <= 4
    ensures var tail := s[|s| / 4 * 4..] + b;
            WordsOf(s + b) == WordsOf(s) + if |tail| == 4 then [WordOf(tail)] else []
  {
    var n := |s| / 4 * 4;
    var head, rest := s[..n], s[n..];
    assert s == head + rest && s + b == head + (rest + b);
    WordsAppend(head, rest);
    WordsAppend(head, rest + b);
    WordsOne(rest);
    WordsOne(rest + b);
  }

  /** htonl. */
  function Big(n: word): seq<octet> {
    [n / 0x100_0000, n / 0x1_0000 % 256, n / 256 % 256, n % 256]
  }

  lemma Digits(n: nat, a: nat, b: nat, c: nat)
    requires a == n / 256 && b == n / 0x1_0000 && c == n / 0x100_0000 && n < 0x1_0000_0000
    ensures n == ((c * 256 + b % 256) * 256 + a % 256) * 256 + n % 256
  {
    assert b == a / 256 && c == b / 256 && c < 256;
  }

  lemma WordIs(n: word)
    ensures WordOf(Big(n)) == n
  {
    Digits(n, n / 256, n / 0x1_0000, n / 0x100_0000);
  }

  function Sent(ns: seq<word>): seq<octet> {
    if ns == [] then [] else Big(ns[0]) + Sent(ns[1..])
  }

  /** What one side acknowledges the other one reads. */
  lemma {:induction false} AcksArrive(ns: seq<word>)
    ensures WordsOf(Sent(ns)) == ns
  {
    if ns != [] {
      WordIs(ns[0]);
      assert Sent(ns)[..4] == Big(ns[0]) && Sent(ns)[4..] == Sent(ns[1..]);
      AcksArrive(ns[1..]);
    }
  }

  lemma WordComplete(s: seq<octet>, b: seq<octet>)
    requires b != [] && |s| % 4 + |b| <= 4
    ensures |WordsOf(s + b)| > |WordsOf(s)| <==> |s + b| % 4 == 0
  {}

  predicate Nondecreasing(ws: seq<nat>) {
    forall i, j :: 0 <= i < j < |ws| ==> ws[i] <= ws[j]
  }

  function Latest(ws: seq<nat>): nat {
    if ws == [] then 0 else ws[|ws| - 1]
  }

  /** `words` are those of what was received, and `tail` is the beginning of the next one. */
  ghost predicate Caught(received: seq<octet>, words: seq<nat>, tail: seq<octet>) {
    && |tail| == |received| % 4 && tail == received[|received| / 4 * 4..]
    && words == WordsOf(received) && Nondecreasing(words)
  }

  lemma NothingYet()
    ensures Caught([], [], []) && Latest([]) == 0
  {}
}
