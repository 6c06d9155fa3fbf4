/** Zero-terminated strings in buffers. */
module CStrings {
  /** The C string at the start of a buffer. */
  function Text(s: string): (r: string)
    ensures |r| <= |s| && r == s[..|r|] && '\0' !in r
    ensures |r| < |s| ==> s[|r|] == '\0'
  {
    if s == "" || s[0] == '\0' then "" else [s[0]] + Text(s[1..])
  }

  lemma {:induction false} TextIs(s: string, n: nat)
    requires n <= |s| && '\0' !in s[..n] && (n < |s| ==> s[n] == '\0')
    ensures Text(s) == s[..n]
  {
    if n > 0 {
      assert s[0] in s[..n] && s[1..][..n - 1] == s[..n][1..];
      forall c | c in s[1..][..n - 1]
        ensures c in s[..n]
      {
        var k :| 0 <= k < n - 1 && s[1..][k] == c;
        assert s[..n][k + 1] == c;
      }
      TextIs(s[1..], n - 1);
    }
  }

  lemma TextEmpty(s: string)
    requires s != ""
    ensures Text(s) == "" <==> s[0] == '\0'
  {}

  /** The buffer has the string `p` at `at`. */
  ghost predicate Cell(buffer: seq<char>, at: int, p: string) {
    && 0 <= at && at + |p| < |buffer| && buffer[at..at + |p|] == p && buffer[at + |p|] == '\0' && '\0' !in p
  }

  lemma CellText(buffer: seq<char>, at: int, p: string)
    requires Cell(buffer, at, p)
    ensures Text(buffer[at..]) == p && '\0' in buffer[at..]
  {
    assert buffer[at..][..|p|] == p && buffer[at..][|p|] == '\0';
    TextIs(buffer[at..], |p|);
  }

  lemma CellKept(before: seq<char>, after: seq<char>, at: int, p: string, lim: nat)
    requires Cell(before, at, p) && at + |p| < lim <= |before| == |after| && forall m :: 0 <= m < lim ==> after[m] == before[m]
    ensures Cell(after, at, p)
  {
    assert after[at..at + |p|] == before[at..at + |p|];
  }

  lemma CellNew(buffer: seq<char>, b: nat, i: nat, s: string)
    requires b <= i <= |s| && i < |buffer| && buffer[i] == '\0' && '\0' !in s
    requires forall m :: b <= m < i ==> buffer[m] == s[m]
    ensures Cell(buffer, b, s[b..i])
  {
    assert buffer[b..i] == s[b..i];
    forall c | c in s[b..i]
      ensures c != '\0'
    {
      var m :| 0 <= m < i - b && s[b..i][m] == c;
      assert s[b + m] in s;
    }
  }

  /** strlen. */
  method StrLen(a: array<char>) returns (n: nat)
    requires '\0' in a[..]
    ensures n < a.Length && a[n] == '\0' && Text(a[..]) == a[..n]
  {
    n := 0;
    ghost var end :| 0 <= end < a.Length && a[..][end] == '\0';
    while a[n] != '\0'
      invariant n <= end && '\0' !in a[..n]
      decreases end - n
    {
      n := n + 1;
      assert a[..n] == a[..n - 1] + [a[n - 1]];
    }
    assert a[..][..n] == a[..n];
    TextIs(a[..], n);
  }

  /** g_strdup of the string at `from`. */
  method StrDup(a: array<char>, from: nat) returns (r: array<char>)
    requires from < a.Length && '\0' in a[from..]
    ensures fresh(r) && r.Length == |Text(a[from..])| + 1 && '\0' in r[..] && Text(r[..]) == Text(a[from..])
  {
    ghost var s := Text(a[from..]);
    var n := from;
    assert |s| < |a[from..]|;
    while a[n] != '\0'
      invariant from <= n <= from + |s|
      decreases from + |s| - n
    {
      assert a[from..][n - from] == a[n] && a[from..][|s|] == '\0';
      n := n + 1;
    }
    assert forall i :: 0 <= i < |s| ==> s[i] != '\0';
    r := new char[n - from + 1](i requires 0 <= i <= n - from && n < a.Length reads a => a[from + i]);
    assert r[n - from] == '\0' && r[..][n - from] == '\0';
    assert r[..][..n - from] == s;
    TextIs(r[..], n - from);
  }

  /** A zero at `n` ends the string, unless one comes before it. */
  lemma TextCut(s: string, n: nat)
    requires n < |s| && s[n] == '\0'
    ensures Text(s) == Text(s[..n])
  {
    var t := Text(s[..n]);
    assert s[..|t|] == t;
    TextIs(s, |t|);
  }

  /** g_renew and strcpy: the string of `b` behind that of `a`. */
  method Appended(a: array<char>, b: array<char>) returns (r: array<char>)
    requires '\0' in a[..] && '\0' in b[..]
    ensures fresh(r) && '\0' in r[..] && Text(r[..]) == Text(a[..]) + Text(b[..])
  {
    var n := StrLen(a);
    var m := StrLen(b);
    r := new char[n + m + 1];
    for i := 0 to n
      invariant r[..i] == a[..i]
    {
      r[i] := a[i];
    }
    for i := 0 to m
      invariant r[..n] == a[..n] && r[n..n + i] == b[..i]
    {
      r[n + i] := b[i];
    }
    r[n + m] := '\0';
    assert r[..][n + m] == '\0' && r[..][..n + m] == r[..n] + r[n..n + m];
    TextIs(r[..], n + m);
  }

  /** strcat. */
  method StrCat(dest: array<char>, x: string)
    requires '\0' in dest[..] && '\0' !in x && |Text(dest[..])| + |x| < dest.Length
    modifies dest
    ensures '\0' in dest[..] && Text(dest[..]) == old(Text(dest[..])) + x
  {
    ghost var s := Text(dest[..]);
    var n := StrLen(dest);
    for i := 0 to |x|
      invariant dest[..n] == s && dest[n..n + i] == x[..i]
    {
      dest[n + i] := x[i];
    }
    dest[n + |x|] := '\0';
    assert dest[..][n + |x|] == '\0' && dest[..][..n + |x|] == dest[..n] + dest[n..n + |x|];
    assert dest[..][..n + |x|] == s + x;
    TextIs(dest[..], n + |x|);
  }

  /** strcpy of a string that ends at `n` or before. */
  method StrCpy(dest: array<char>, src: array<char>, n: nat)
    requires n < src.Length && src[n] == '\0' && n < dest.Length && dest != src
    modifies dest
    ensures '\0' in dest[..] && Text(dest[..]) == Text(src[..n])
  {
    hide Text;
    TextCut(src[..], n);
    assert src[..][..n] == src[..n] && src[..][n] == '\0';
    var m := StrLen(src);
    ghost var t := Text(src[..]);
    for i := 0 to m + 1
      invariant forall k :: 0 <= k < i ==> dest[k] == src[k]
    {
      dest[i] := src[i];
    }
    assert dest[..][m] == '\0' && dest[..][..m] == src[..m];
    TextIs(dest[..], m);
  }

  // ---------------------------------------------------------------- strcmp

  function Compare(a: string, b: string): int {
    if a == "" then (if b == "" then 0 else -1)
    else if b == "" then 1
    else if a[0] < b[0] then -1
    else if a[0] > b[0] then 1
    else Compare(a[1..], b[1..])
  }

  lemma {:induction false} CompareIs(a: string, b: string)
    ensures Compare(a, b) == 0 <==> a == b
    ensures Compare(a, b) < 0 <==> Compare(b, a) > 0
    decreases |a|
  {
    if a != "" && b != "" {
      CompareIs(a[1..], b[1..]);
      assert a == [a[0]] + a[1..] && b == [b[0]] + b[1..];
    }
  }

  /** Two strings compare as their first different characters do, and an end comes before them all. */
  lemma {:induction false} FirstDifference(a: string, b: string) returns (k: nat)
    requires a != b
    ensures k <= |a| && k <= |b| && a[..k] == b[..k] && (k == |a| || k == |b| || a[k] != b[k])
    ensures Compare(a, b) < 0 <==> k < |b| && (k == |a| || a[k] < b[k])
    decreases |a|
  {
    k := 0;
    if a != "" && b != "" && a[0] == b[0] {
      assert a == [a[0]] + a[1..] && b == [b[0]] + b[1..];
      k := FirstDifference(a[1..], b[1..]);
      assert a[..k + 1] == [a[0]] + a[1..][..k] && b[..k + 1] == [b[0]] + b[1..][..k];
      k := k + 1;
    }
  }

  lemma {:induction false} CompareChain(a: string, b: string, c: string)
    requires Compare(a, b) < 0 && Compare(b, c) < 0
    ensures Compare(a, c) < 0
    decreases |a|
  {
    if a != "" && b != "" && c != "" && a[0] == b[0] == c[0] {
      CompareChain(a[1..], b[1..], c[1..]);
    }
  }

  predicate Sorted(keys: seq<string>) {
    forall i, j :: 0 <= i < j < |keys| ==> Compare(keys[i], keys[j]) < 0
  }

  /** The place of `k`: in front of the first element that does not come before it. */
  predicate Place(keys: seq<string>, k: string, p: nat) {
    && p <= |keys|
    && (forall i :: 0 <= i < p ==> Compare(k, keys[i]) > 0)
    && (p < |keys| ==> Compare(k, keys[p]) <= 0)
  }

  lemma InsertSorted(keys: seq<string>, k: string, p: nat)
    requires Sorted(keys) && Place(keys, k, p)
    ensures Sorted(keys[..p] + [k] + keys[p..]) <==> k !in keys
  {
    hide Compare;
    var all := keys[..p] + [k] + keys[p..];
    assert all[p] == k && (forall i :: 0 <= i < p ==> all[i] == keys[i]) && forall i :: p < i < |all| ==> all[i] == keys[i - 1];
    if k in keys {
      var i :| 0 <= i < |keys| && keys[i] == k;
      CompareIs(k, k);
      assert i >= p;
      assert all[i + 1] == k && Compare(all[p], all[i + 1]) == 0;
    } else {
      forall i, j | 0 <= i < j < |all|
        ensures Compare(all[i], all[j]) < 0
      {
        CompareIs(all[i], k);
        if i == p {
          CompareIs(k, keys[p]);
          if p < j - 1 {
            CompareChain(k, keys[p], keys[j - 1]);
          }
        } else if j != p {
          var x, y := if i < p then i else i - 1, if j < p then j else j - 1;
          assert all[i] == keys[x] && all[j] == keys[y] && x < y;
        }
      }
    }
  }
}
