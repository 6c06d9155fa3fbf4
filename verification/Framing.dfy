/** Cutting what an IRC client sends into lines (irc_process and irc_splitlines of irc.c, and the
    read callback of bitlbee.c). */
module Framing {
  import opened CStrings

  predicate Break(c: char) {
    c == '\r' || c == '\n'
  }

  predicate NoBreak(s: string) {
    forall i :: 0 <= i < |s| ==> !Break(s[i])
  }

  // ---------------------------------------------------------------- what a stream means

  /** The non-empty complete lines of a stream that begins with `cur` in the current line, and the
      current line at its end. */
  function Feed(cur: string, s: string): (r: (seq<string>, string))
    decreases |s|
  {
    if s == "" then ([], cur)
    else if Break(s[0]) then
      var (ls, t) := Feed("", s[1..]);
      ((if cur == "" then [] else [cur]) + ls, t)
    else Feed(cur + [s[0]], s[1..])
  }

  lemma {:induction false} FeedAppend(cur: string, a: string, b: string)
    ensures var (l1, t1) := Feed(cur, a);
            var (l2, t2) := Feed(t1, b);
            Feed(cur, a + b) == (l1 + l2, t2)
    decreases |a|
  {
    if a == "" {
      assert a + b == b;
      assert [] + Feed(cur, b).0 == Feed(cur, b).0;
    } else {
      assert (a + b)[0] == a[0] && (a + b)[1..] == a[1..] + b;
      if Break(a[0]) {
        FeedAppend("", a[1..], b);
        var (l1, t1) := Feed("", a[1..]);
        var (l2, t2) := Feed(t1, b);
        var now := if cur == "" then [] else [cur];
        assert now + l1 + l2 == now + (l1 + l2);
      } else {
        FeedAppend(cur + [a[0]], a[1..], b);
      }
    }
  }

  lemma {:induction false} FeedPlain(cur: string, s: string)
    requires NoBreak(s)
    ensures Feed(cur, s) == ([], cur + s)
    decreases |s|
  {
    if s == "" {
      assert cur + s == cur;
    } else {
      assert !Break(s[0]) && forall i :: 0 <= i < |s[1..]| ==> !Break(s[1..][i]) by {
        assert forall i :: 0 <= i < |s[1..]| ==> s[1..][i] == s[i + 1];
      }
      FeedPlain(cur + [s[0]], s[1..]);
      assert cur + [s[0]] + s[1..] == cur + s;
    }
  }

  lemma {:induction false} FeedTail(cur: string, s: string)
    requires NoBreak(cur)
    ensures NoBreak(Feed(cur, s).1)
    decreases |s|
  {
    if s != "" {
      if Break(s[0]) {
        FeedTail("", s[1..]);
      } else {
        FeedTail(cur + [s[0]], s[1..]);
      }
    }
  }

  /** Lines with separators: one separator in front of each line and one behind the last. */
  ghost function Woven(seps: seq<string>, ls: seq<string>): string
    requires |seps| == |ls| + 1
  {
    if ls == [] then seps[0] else seps[0] + ls[0] + Woven(seps[1..], ls[1..])
  }

  /** Separators are made of CR and LF, only the first one may be empty, and lines have neither. */
  ghost predicate Separated(seps: seq<string>, ls: seq<string>) {
    && |seps| == |ls| + 1
    && (forall i, c :: 0 <= i <= |ls| && c in seps[i] ==> c == '\r' || c == '\n')
    && (forall i :: 0 < i <= |ls| ==> seps[i] != "")
    && forall i :: 0 <= i < |ls| ==> ls[i] != "" && '\r' !in ls[i] && '\n' !in ls[i]
  }

  /** `ls` are the lines of `s`, and `t` is its unfinished end: all runs of characters other than CR and LF
      that end at one, and the run behind the last one. */
  ghost predicate Lines(s: string, ls: seq<string>, t: string) {
    && '\r' !in t && '\n' !in t
    && exists seps :: Separated(seps, ls) && s == Woven(seps, ls) + t
  }

  // ---------------------------------------------------------------- irc_splitlines

  /** The number of characters before the first break, and of the breaks there. */
  function Plain(s: string): (n: nat)
    ensures n <= |s| && NoBreak(s[..n]) && (n < |s| ==> Break(s[n]))
  {
    if s == "" || Break(s[0]) then 0
    else
      var n := Plain(s[1..]);
      assert s[..n + 1] == [s[0]] + s[1..][..n];
      n + 1
  }

  function Breaks(s: string): (n: nat)
    ensures n <= |s| && (forall i :: 0 <= i < n ==> Break(s[i])) && (n < |s| ==> !Break(s[n]))
    ensures s != "" && Break(s[0]) ==> n > 0
  {
    if s == "" || !Break(s[0]) then 0 else 1 + Breaks(s[1..])
  }

  /** The pieces between runs of breaks. */
  function Pieces(s: string): (r: seq<string>)
    ensures r != []
    decreases |s|
  {
    var n := Plain(s);
    if n == |s| then [s] else [s[..n]] + Pieces(s[n + Breaks(s[n..])..])
  }

  /** Breaks before a line do nothing. */
  lemma {:induction false} FeedBreaks(s: string)
    ensures Feed("", s) == Feed("", s[Breaks(s)..])
    decreases |s|
  {
    if s != "" && Break(s[0]) {
      FeedBreaks(s[1..]);
      assert s[Breaks(s)..] == s[1..][Breaks(s[1..])..];
      assert [] + Feed("", s[1..]).0 == Feed("", s[1..]).0;
    }
  }

  function Front(ps: seq<string>): seq<string>
    requires ps != []
  {
    ps[..|ps| - 1]
  }

  function Last(ps: seq<string>): string
    requires ps != []
  {
    ps[|ps| - 1]
  }

  /** A line that ends with a run of breaks. */
  lemma FeedLine(line: string, b: string)
    requires NoBreak(line) && line != "" && b != "" && Break(b[0])
    ensures var (ls, t) := Feed("", b[Breaks(b)..]);
            Feed("", line + b) == ([line] + ls, t)
  {
    FeedPlain("", line);
    assert "" + line == line;
    FeedAppend("", line, b);
    FeedBreaks(b[1..]);
    assert b[1..][Breaks(b[1..])..] == b[Breaks(b)..];
    var (ls, t) := Feed("", b[1..]);
    assert [] + ([line] + ls) == [line] + ls;
  }

  lemma SeparatedMore(sep: string, line: string, seps: seq<string>, ls: seq<string>)
    requires Separated(seps, ls) && seps[0] != "" && NoBreak(line) && line != ""
    requires forall i :: 0 <= i < |sep| ==> Break(sep[i])
    ensures Separated([sep] + seps, [line] + ls)
    ensures Woven([sep] + seps, [line] + ls) == sep + line + Woven(seps, ls)
  {
    var more, all := [sep] + seps, [line] + ls;
    assert more[1..] == seps && all[1..] == ls;
    assert forall i :: 0 < i < |more| ==> more[i] == seps[i - 1];
    assert forall i :: 0 < i < |all| ==> all[i] == ls[i - 1];
  }

  /** The separators of a text. */
  lemma {:induction false} Separators(s: string) returns (seps: seq<string>)
    ensures var (ls, t) := Feed("", s);
            Separated(seps, ls) && s == Woven(seps, ls) + t && seps[0] == s[..Breaks(s)] && NoBreak(t)
    decreases |s|
  {
    hide Plain, Woven, Separated, NoBreak, Break, Breaks, Feed;
    var b := Breaks(s);
    var r := s[b..];
    FeedBreaks(s);
    var n := Plain(r);
    if n == |r| {
      assert r[..n] == r && "" + r == r;
      FeedPlain("", r);
      seps := [s[..b]];
      LastSeparator(s[..b]);
      assert s == s[..b] + r;
    } else {
      var line, rest := r[..n], r[n..];
      NotEmpty(s, b, n);
      var more := Separators(rest);
      seps := [s[..b]] + more;
      AddLine(s, b, line, rest, more);
    }
  }

  lemma NotEmpty(s: string, b: nat, n: nat)
    requires b == Breaks(s) && n == Plain(s[b..]) < |s[b..]|
    ensures n > 0 && var rest := s[b..][n..]; rest != "" && Break(rest[0]) && Breaks(rest) > 0
    ensures s == s[..b] + (s[b..][..n] + s[b..][n..])
  {
    hide NoBreak, Plain, Breaks, Break;
    var r := s[b..];
    assert r[0] == s[b] && r[n..][0] == r[n];
    assert r == r[..n] + r[n..] && s == s[..b] + r;
  }

  lemma AddLine(s: string, b: nat, line: string, rest: string, more: seq<string>)
    requires b == Breaks(s) && s == s[..b] + (line + rest) && NoBreak(line) && line != "" && rest != "" && Break(rest[0])
    requires var (ls, t) := Feed("", rest);
             Separated(more, ls) && rest == Woven(more, ls) + t && more[0] != "" && NoBreak(t)
    ensures var (ls, t) := Feed("", s);
            Separated([s[..b]] + more, ls) && s == Woven([s[..b]] + more, ls) + t && NoBreak(t)
  {
    hide Plain, Woven, Separated, NoBreak, Break, Breaks, Feed;
    var (ls, t) := Feed("", rest);
    FeedBehind(s, b, line, rest);
    SeparatedMore(s[..b], line, more, ls);
    Together(s[..b], line, Woven(more, ls), t);
  }

  lemma Together(a: string, b: string, c: string, d: string)
    ensures a + (b + (c + d)) == (a + b + c) + d
  {}

  lemma FeedBehind(s: string, b: nat, line: string, rest: string)
    requires b == Breaks(s) && s == s[..b] + (line + rest) && NoBreak(line) && line != "" && rest != "" && Break(rest[0])
    ensures Feed("", s) == ([line] + Feed("", rest).0, Feed("", rest).1)
  {
    hide NoBreak, Break, Breaks, Feed;
    FeedBreaks(s);
    assert s[b..] == line + rest;
    FeedLine(line, rest);
    FeedBreaks(rest);
  }

  lemma LastSeparator(sep: string)
    requires forall i :: 0 <= i < |sep| ==> Break(sep[i])
    ensures Separated([sep], []) && Woven([sep], []) == sep
  {}

  /** What is cut out of a text are its lines and its unfinished end. */
  lemma FeedLines(s: string)
    ensures Lines(s, Feed("", s).0, Feed("", s).1)
  {
    hide Separated, Woven, Feed;
    var seps := Separators(s);
  }

  lemma OnePiece(s: string)
    requires Plain(s) == |s|
    ensures Pieces(s) == [s]
  {
    hide Plain, Breaks, NoBreak, Break;
  }

  lemma PieceCut(s: string, n: nat, rest: string)
    requires n == Plain(s) < |s| && rest == s[n + Breaks(s[n..])..]
    ensures Pieces(s) == [s[..n]] + Pieces(rest)
  {
    hide Plain, Breaks, NoBreak, Break;
  }

  lemma PiecesIs(s: string)
    ensures Plain(s) == |s| ==> Pieces(s) == [s]
    ensures var n := Plain(s);
            n < |s| ==> Pieces(s) == [s[..n]] + Pieces(s[n..][Breaks(s[n..])..]) && Breaks(s[n..]) > 0
  {
    hide Pieces, Plain, Breaks, NoBreak, Break;
    var n := Plain(s);
    if n < |s| {
      PieceCut(s, n, s[n + Breaks(s[n..])..]);
      assert s[n..][0] == s[n];
      assert s[n + Breaks(s[n..])..] == s[n..][Breaks(s[n..])..];
    } else {
      OnePiece(s);
    }
  }

  /** Unless it begins with a break, a buffer has its complete lines as pieces, none of them empty,
      and what is left as the last one. */
  lemma {:induction false} PiecesFeed(s: string)
    requires s == "" || !Break(s[0])
    ensures Feed("", s) == (Front(Pieces(s)), Last(Pieces(s)))
    ensures forall k :: 0 <= k < |Pieces(s)| - 1 ==> Pieces(s)[k] != ""
    decreases |s|
  {
    hide Feed, Pieces, Plain, Breaks, NoBreak;
    var n := Plain(s);
    PiecesIs(s);
    if n == |s| {
      assert s[..n] == s && "" + s == s;
      FeedPlain("", s);
    } else {
      var b := s[n..];
      var rest := b[Breaks(b)..];
      assert b[0] == s[n] && s == s[..n] + b;
      FeedLine(s[..n], b);
      PiecesFeed(rest);
      assert Front([s[..n]] + Pieces(rest)) == [s[..n]] + Front(Pieces(rest));
    }
  }

  // ---------------------------------------------------------------- in place

  lemma NoBreakPart(s: string, a: nat, b: nat)
    requires NoBreak(s) && a <= b <= |s|
    ensures NoBreak(s[a..b])
  {
    forall i | 0 <= i < b - a
      ensures !Break(s[a..b][i])
    {
      assert s[a..b][i] == s[a + i];
    }
  }

  lemma NoBreakMore(s: string, a: nat, b: nat)
    requires a <= b < |s| && NoBreak(s[a..b]) && !Break(s[b])
    ensures NoBreak(s[a..b + 1])
  {
    var t := s[a..b + 1];
    forall i | 0 <= i < |t|
      ensures !Break(t[i])
    {
      if i < b - a {
        assert s[a..b][i] == s[a + i];
      }
    }
  }

  lemma {:induction false} PlainIs(s: string, n: nat)
    requires n <= |s| && NoBreak(s[..n]) && (n < |s| ==> Break(s[n]))
    ensures Plain(s) == n
  {
    if n > 0 {
      assert s[..n][0] == s[0] && s[1..][..n - 1] == s[..n][1..];
      NoBreakPart(s[..n], 1, n);
      PlainIs(s[1..], n - 1);
    }
  }

  lemma {:induction false} BreaksIs(s: string, n: nat)
    requires n <= |s| && (forall i :: 0 <= i < n ==> Break(s[i])) && (n < |s| ==> !Break(s[n]))
    ensures Breaks(s) == n
  {
    if n > 0 {
      assert forall i :: 0 <= i < n - 1 ==> s[1..][i] == s[i + 1];
      BreaksIs(s[1..], n - 1);
    }
  }

  /** A line of `s` from `b` to `i`, with breaks up to `k`. */
  lemma NextPiece(s: string, b: nat, i: nat, k: nat)
    requires b <= i < k <= |s| && NoBreak(s[b..i]) && (forall m :: i <= m < k ==> Break(s[m])) && (k < |s| ==> !Break(s[k]))
    ensures Pieces(s[b..]) == [s[b..i]] + Pieces(s[k..])
  {
    hide Pieces, Plain, Breaks, NoBreak, Break;
    var t := s[b..];
    assert t[..i - b] == s[b..i] && t[i - b] == s[i] && t[i - b..] == s[i..];
    PlainIs(t, i - b);
    BreaksPart(s, i, k);
    PiecesIs(t);
    assert s[i..][k - i..] == s[k..];
  }

  lemma BreaksPart(s: string, i: nat, k: nat)
    requires i < k <= |s| && (forall m :: i <= m < k ==> Break(s[m])) && (k < |s| ==> !Break(s[k]))
    ensures Breaks(s[i..]) == k - i
  {
    hide Breaks, Break;
    forall m | 0 <= m < k - i
      ensures Break(s[i..][m])
    {
      assert s[i..][m] == s[i + m];
    }
    assert k < |s| ==> s[i..][k - i] == s[k];
    BreaksIs(s[i..], k - i);
  }

  lemma LastPiece(s: string, b: nat)
    requires b <= |s| && NoBreak(s[b..])
    ensures Pieces(s[b..]) == [s[b..]]
  {
    assert s[b..][..|s| - b] == s[b..];
    PlainIs(s[b..], |s| - b);
    PiecesIs(s[b..]);
  }

  method Grow(lines: array<int>, n: nat) returns (r: array<int>)
    requires lines.Length <= n
    ensures fresh(r) && r.Length == n && r[..lines.Length] == lines[..]
  {
    r := new int[n];
    for i := 0 to lines.Length
      invariant r[..i] == lines[..i]
    {
      r[i] := lines[i];
    }
    assert lines[..lines.Length] == lines[..];
  }

  /** Overwrite the breaks at `i`. */
  method Erase(buffer: array<char>, i: nat, ghost s: string) returns (k: nat)
    requires i < |s| < buffer.Length && Break(buffer[i]) && buffer[|s|] == '\0'
    requires forall m :: i <= m < |s| ==> buffer[m] == s[m]
    modifies buffer
    ensures i < k <= |s| && (forall m :: i <= m < k ==> Break(s[m]) && buffer[m] == '\0') && (k < |s| ==> !Break(s[k]))
    ensures forall m :: 0 <= m < buffer.Length && (m < i || m >= k) ==> buffer[m] == old(buffer[m])
  {
    k := i;
    while Break(buffer[k])
      invariant i <= k <= |s| && (k == i ==> Break(buffer[k]))
      invariant forall m :: i <= m < k ==> Break(s[m]) && buffer[m] == '\0'
      invariant forall m :: 0 <= m < buffer.Length && (m < i || m >= k) ==> buffer[m] == old(buffer[m])
      decreases |s| - k
    {
      buffer[k] := '\0';
      k := k + 1;
    }
  }

  /** irc_splitlines: `lines` holds the starts of the pieces in the buffer, and -1 behind them. */
  method SplitLines(buffer: array<char>) returns (lines: array<int>)
    requires '\0' in buffer[..]
    modifies buffer
    ensures fresh(lines)
    ensures var ps := Pieces(old(Text(buffer[..])));
            && |ps| < lines.Length && lines[|ps|] == -1
            && forall k :: 0 <= k < |ps| ==>
                 0 <= lines[k] < buffer.Length && Text(buffer[lines[k]..]) == ps[k] && '\0' in buffer[lines[k]..]
  {
    hide Pieces, Plain, Breaks, Text, Cell;
    var len := StrLen(buffer);
    ghost var s, done := Text(buffer[..]), [];
    var n := 3;
    lines := new int[n + 1];
    lines[0] := 0;
    var i, j := 0, 0;
    assert s[0..] == s && done + Pieces(s) == Pieces(s);
    while buffer[i] != '\0'
      invariant 0 <= j < n && lines.Length == n + 1 && fresh(lines) && |done| == j
      invariant 0 <= lines[j] <= i <= |s| == len < buffer.Length && buffer[len] == '\0' && '\0' !in s
      invariant forall m :: lines[j] <= m < |s| ==> buffer[m] == s[m]
      invariant NoBreak(s[lines[j]..i])
      invariant done + Pieces(s[lines[j]..]) == Pieces(s)
      invariant forall k :: 0 <= k < j ==> lines[k] + |done[k]| < lines[j] && Cell(buffer[..], lines[k], done[k])
      decreases len - i
    {
      if Break(buffer[i]) {
        var k := Mark(buffer, i, lines, j, s, done);
        done := done + [s[lines[j]..i]];
        j, i := j + 1, k;
        if j >= n {
          n := n * 2;
          lines := Grow(lines, n + 1);
        }
        if buffer[i] == '\0' {
          break;
        }
      } else {
        NoBreakMore(s, lines[j], i);
      }
      if i < len {
        NoBreakMore(s, lines[j], i);
      }
      i := i + 1;
    }
    assert s[lines[j]..i] == s[lines[j]..];
    Finish(buffer, lines, j, s, done);
  }

  /** The last piece and the end of the array. */
  method Finish(buffer: array<char>, lines: array<int>, j: nat, ghost s: string, ghost done: seq<string>)
    requires j + 1 < lines.Length && |done| == j && 0 <= lines[j] <= |s| < buffer.Length && buffer[|s|] == '\0' && '\0' !in s
    requires (forall m :: lines[j] <= m < |s| ==> buffer[m] == s[m]) && NoBreak(s[lines[j]..])
    requires forall k :: 0 <= k < j ==> lines[k] + |done[k]| < lines[j] && Cell(buffer[..], lines[k], done[k])
    requires done + Pieces(s[lines[j]..]) == Pieces(s) && (lines as object) != buffer
    modifies lines
    ensures var ps := Pieces(s);
            && |ps| < lines.Length && lines[|ps|] == -1
            && forall k :: 0 <= k < |ps| ==>
                 0 <= lines[k] < buffer.Length && Text(buffer[lines[k]..]) == ps[k] && '\0' in buffer[lines[k]..]
  {
    hide Pieces, Plain, Breaks, Text, NoBreak;
    LastPiece(s, lines[j]);
    CellNew(buffer[..], lines[j], |s|, s);
    assert s[lines[j]..|s|] == s[lines[j]..];
    ghost var all := done + [s[lines[j]..]];
    forall k | 0 <= k <= j
      ensures 0 <= lines[k] < buffer.Length && Text(buffer[lines[k]..]) == all[k] && '\0' in buffer[lines[k]..]
    {
      CellText(buffer[..], lines[k], all[k]);
      assert buffer[..][lines[k]..] == buffer[lines[k]..];
    }
    lines[j + 1] := -1;
  }

  /** The end of a line: its breaks are erased and the next start is noted. */
  method Mark(buffer: array<char>, i: nat, lines: array<int>, j: nat, ghost s: string, ghost done: seq<string>) returns (k: nat)
    requires j + 1 < lines.Length && |done| == j && 0 <= lines[j] <= i < |s| < buffer.Length && buffer[|s|] == '\0' && '\0' !in s
    requires Break(buffer[i]) && (forall m :: lines[j] <= m < |s| ==> buffer[m] == s[m]) && NoBreak(s[lines[j]..i])
    requires forall k :: 0 <= k < j ==> lines[k] + |done[k]| < lines[j] && Cell(buffer[..], lines[k], done[k])
    requires done + Pieces(s[lines[j]..]) == Pieces(s) && (lines as object) != buffer
    modifies buffer, lines
    ensures i < k <= |s| && lines[j + 1] == k && buffer[|s|] == '\0'
    ensures forall m :: 0 <= m < lines.Length && m != j + 1 ==> lines[m] == old(lines[m])
    ensures forall m :: k <= m < |s| ==> buffer[m] == s[m]
    ensures k < |s| ==> !Break(s[k])
    ensures var all := done + [s[lines[j]..i]];
            && all + Pieces(s[k..]) == Pieces(s)
            && forall m :: 0 <= m < j + 1 ==> lines[m] + |all[m]| < k && Cell(buffer[..], lines[m], all[m])
  {
    hide Pieces, Plain, Breaks, Text, Cell;
    var b := lines[j];
    ghost var was := buffer[..];
    k := Erase(buffer, i, s);
    NextPiece(s, b, i, k);
    assert done + ([s[b..i]] + Pieces(s[k..])) == done + [s[b..i]] + Pieces(s[k..]);
    lines[j + 1] := k;
    CellNew(buffer[..], b, i, s);
    forall m | 0 <= m < j
      ensures Cell(buffer[..], lines[m], done[m])
    {
      CellKept(was, buffer[..], lines[m], done[m], i);
    }
  }

  // ---------------------------------------------------------------- reads

  /** irc_process: a buffer that begins with a break is thrown away; otherwise the complete lines
      are executed and the rest is kept. */
  function Processed(s: string): (seq<string>, string) {
    if s != "" && Break(s[0]) then ([], "") else Feed("", s)
  }

  /** A read when `buf` is in the buffer. */
  function ReadStep(buf: string, r: string): (seq<string>, string) {
    if buf == "" && r != "" && Break(r[0]) then ([], "") else Feed(buf, r)
  }

  lemma ReadStepIs(buf: string, r: string)
    requires NoBreak(buf)
    ensures Processed(buf + r) == ReadStep(buf, r) && NoBreak(ReadStep(buf, r).1)
  {
    FeedTail(buf, r);
    if buf == "" {
      assert buf + r == r;
    } else {
      assert (buf + r)[0] == buf[0] && !Break(buf[0]);
      FeedPlain("", buf);
      assert "" + buf == buf;
      FeedAppend("", buf, r);
      assert [] + Feed(buf, r).0 == Feed(buf, r).0;
    }
  }

  function Reads(buf: string, rs: seq<string>): (seq<string>, string)
    decreases |rs|
  {
    if rs == [] then ([], buf)
    else
      var (l, b) := ReadStep(buf, rs[0]);
      var (m, t) := Reads(b, rs[1..]);
      (l + m, t)
  }

  function Joined(rs: seq<string>): string {
    if rs == [] then "" else rs[0] + Joined(rs[1..])
  }

  predicate AllBreaks(r: string) {
    forall i :: 0 <= i < |r| ==> Break(r[i])
  }

  /** A read that meets an empty buffer and begins with a break has nothing but breaks. */
  predicate Harmless(buf: string, r: string) {
    buf == "" && r != "" && Break(r[0]) ==> AllBreaks(r)
  }

  predicate Lossless(buf: string, rs: seq<string>)
    decreases |rs|
  {
    rs == [] || (Harmless(buf, rs[0]) && Lossless(ReadStep(buf, rs[0]).1, rs[1..]))
  }

  /** The number of characters that are no breaks. */
  function Content(s: string): nat {
    if s == "" then 0 else (if Break(s[0]) then 0 else 1) + Content(s[1..])
  }

  function Weight(ls: seq<string>): nat {
    if ls == [] then 0 else |ls[0]| + Weight(ls[1..])
  }

  lemma {:induction false} WeightAppend(a: seq<string>, b: seq<string>)
    ensures Weight(a + b) == Weight(a) + Weight(b)
  {
    if a == [] {
      assert a + b == b;
    } else {
      assert (a + b)[1..] == a[1..] + b;
      WeightAppend(a[1..], b);
    }
  }

  lemma {:induction false} ContentAppend(a: string, b: string)
    ensures Content(a + b) == Content(a) + Content(b)
  {
    if a == "" {
      assert a + b == b;
    } else {
      assert (a + b)[1..] == a[1..] + b;
      ContentAppend(a[1..], b);
    }
  }

  /** Cutting into lines loses no character. */
  lemma {:induction false} FeedWeight(cur: string, s: string)
    ensures Weight(Feed(cur, s).0) + |Feed(cur, s).1| == |cur| + Content(s)
    decreases |s|
  {
    if s != "" {
      if Break(s[0]) {
        FeedWeight("", s[1..]);
        WeightAppend(if cur == "" then [] else [cur], Feed("", s[1..]).0);
        assert cur != "" ==> Weight([cur]) == |cur| + Weight([cur][1..]);
      } else {
        FeedWeight(cur + [s[0]], s[1..]);
      }
    }
  }

  lemma {:induction false} NoContent(s: string)
    ensures Content(s) == 0 <==> AllBreaks(s)
  {
    if s != "" {
      NoContent(s[1..]);
      assert AllBreaks(s) <==> Break(s[0]) && AllBreaks(s[1..]) by {
        assert forall i :: 0 < i < |s| ==> s[i] == s[1..][i - 1];
        assert forall i :: 0 <= i < |s| - 1 ==> s[1..][i] == s[i + 1];
      }
    }
  }

  lemma {:induction false} FeedAllBreaks(s: string)
    requires AllBreaks(s)
    ensures Feed("", s) == ([], "")
    decreases |s|
  {
    if s != "" {
      assert forall i :: 0 <= i < |s| - 1 ==> s[1..][i] == s[i + 1];
      FeedAllBreaks(s[1..]);
      assert [] + Feed("", s[1..]).0 == [];
    }
  }

  /** Nothing comes out that did not go in, and some characters are lost at the first harmful read. */
  lemma {:induction false} ReadsWeight(buf: string, rs: seq<string>)
    ensures var (l, t) := Reads(buf, rs);
            && Weight(l) + |t| <= |buf| + Content(Joined(rs))
            && (!Lossless(buf, rs) ==> Weight(l) + |t| < |buf| + Content(Joined(rs)))
    decreases |rs|
  {
    hide Feed, Content, Weight, AllBreaks;
    if rs == [] {
      NoWeight();
    } else {
      var (l, b) := ReadStep(buf, rs[0]);
      ReadsWeight(b, rs[1..]);
      WeightAppend(l, Reads(b, rs[1..]).0);
      ContentAppend(rs[0], Joined(rs[1..]));
      FeedWeight(buf, rs[0]);
      NoContent(rs[0]);
      NoWeight();
    }
  }

  lemma NoWeight()
    ensures Weight([]) == 0 && Content("") == 0
  {}

  /** When every read is harmless, cutting the stream into reads makes no difference. */
  lemma {:induction false} ReadsFeed(buf: string, rs: seq<string>)
    requires NoBreak(buf) && Lossless(buf, rs)
    ensures Reads(buf, rs) == Feed(buf, Joined(rs))
    decreases |rs|
  {
    hide Feed, AllBreaks;
    if rs == [] {
      FeedNothing(buf);
    } else {
      if buf == "" && rs[0] != "" && Break(rs[0][0]) {
        FeedAllBreaks(rs[0]);
      }
      ReadStepIs(buf, rs[0]);
      ReadsFeed(ReadStep(buf, rs[0]).1, rs[1..]);
      FeedAppend(buf, rs[0], Joined(rs[1..]));
    }
  }

  lemma FeedNothing(buf: string)
    ensures Feed(buf, "") == ([], buf)
  {}

  /** The executed lines are exactly the non-empty complete lines of the stream, and the buffer holds
      exactly its unfinished end, if and only if no read that meets an empty buffer begins with a
      break and has other characters behind it. */
  lemma Chunking(rs: seq<string>)
    ensures Reads("", rs) == Feed("", Joined(rs)) <==> Lossless("", rs)
  {
    if Lossless("", rs) {
      ReadsFeed("", rs);
    } else {
      ReadsWeight("", rs);
      FeedWeight("", Joined(rs));
    }
  }

  /** A line end that is cut in two loses what follows it in the second read. */
  lemma SplitLineEnd()
    ensures Reads("", ["a\r", "\nb\n"]) == (["a"], "") && Feed("", Joined(["a\r", "\nb\n"])) == (["a", "b"], "")
  {
    hide Feed;
    var r1, r2 := "a\r", "\nb\n";
    FeedOne("a", '\r');
    FeedOne("b", '\n');
    FeedBreaks(r2);
    BreaksIs(r2, 1);
    assert "a" + ['\r'] == r1 && "b" + ['\n'] == r2[1..];
    FeedAppend("", r1, r2);
    JoinedTwo(r1, r2);
    assert Feed("", Joined([r1, r2])) == (["a"] + ["b"], "");
    ReadsTwo(r1, r2);
    assert ReadStep("", r1) == (["a"], "") && ReadStep("", r2) == ([], "");
    assert ["a"] + [] == ["a"] && ["a"] + ["b"] == ["a", "b"];
  }

  lemma JoinedTwo(r1: string, r2: string)
    ensures Joined([r1, r2]) == r1 + r2
  {
    assert [r1, r2][1..] == [r2] && [r2][1..] == [];
    assert Joined([r2]) == r2 + "" == r2;
  }

  lemma ReadsTwo(r1: string, r2: string)
    ensures var (l, b) := ReadStep("", r1);
            var (m, t) := ReadStep(b, r2);
            Reads("", [r1, r2]) == (l + m, t)
  {
    hide ReadStep;
    assert [r1, r2][1..] == [r2] && [r2][1..] == [];
    var (l, b) := ReadStep("", r1);
    var (m, t) := ReadStep(b, r2);
    assert Reads(t, []) == ([], t) && m + [] == m;
    assert Reads(b, [r2]) == (m, t);
  }

  lemma FeedOne(line: string, c: char)
    requires NoBreak(line) && line != "" && Break(c)
    ensures Feed("", line + [c]) == ([line], "")
  {
    FeedLine(line, [c]);
    BreaksIs([c], 1);
    assert [c][1..] == "" && [line] + [] == [line];
    FeedNothing("");
  }

  // ---------------------------------------------------------------- the connection

  const MAX_LINE: nat := 1024

  /** The reading side of an IRC connection. */
  class Client {
    var readbuffer: array?<char>

    ghost predicate Valid()
      reads this, readbuffer
    {
      readbuffer == null || '\0' in readbuffer[..]
    }

    /** What came in and was not executed. */
    ghost function Pending(): string
      requires Valid()
      reads this, readbuffer
    {
      if readbuffer == null then "" else Text(readbuffer[..])
    }

    constructor ()
      ensures Valid() && Pending() == ""
    {
      readbuffer := null;
    }

    /** irc_process; `executed` are the lines that went to irc_exec. */
    method Process() returns (executed: seq<string>)
      requires Valid()
      modifies this, readbuffer
      ensures Valid() && (readbuffer == null || fresh(readbuffer))
      ensures (executed, Pending()) == Processed(old(Pending()))
      ensures readbuffer == null <==> Pending() == ""
    {
      hide Pieces, Processed, NoBreak, Text;
      executed := [];
      ghost var s := Pending();
      if readbuffer != null {
        var buffer := readbuffer;
        var lines := SplitLines(buffer);
        var i;
        executed, i := Execute(buffer, lines, Pieces(s));
        AllExecuted(s, i);
        if buffer[lines[i]] != '\0' {
          readbuffer := StrDup(buffer, lines[i]);
        } else {
          readbuffer := null;
        }
        TextEmpty(buffer[lines[i]..]);
      } else {
        NothingProcessed();
      }
    }

    /** bitlbee_io_current_client_read when read() gave `st` bytes; too long a line closes the
        connection. */
    method Read(line: array<char>, st: nat) returns (executed: seq<string>, abort: bool)
      requires Valid() && NoBreak(Pending()) && st < line.Length && line != readbuffer
      modifies this, readbuffer, line
      ensures Valid() && NoBreak(Pending())
      ensures (executed, Pending()) == ReadStep(old(Pending()), old(Text(line[..st])))
      ensures abort <==> |Pending()| > 1024
    {
      hide NoBreak, ReadStep;
      ghost var s, r := Pending(), Text(line[..st]);
      line[st] := '\0';
      assert line[..][..st] == old(line[..st]) && line[..][st] == '\0';
      TextCut(line[..], st);
      if readbuffer == null {
        assert line[0..] == line[..] && s + r == r;
        readbuffer := StrDup(line, 0);
      } else {
        readbuffer := Appended(readbuffer, line);
      }
      assert Pending() == s + r;
      executed := Process();
      ReadStepIs(s, r);
      abort := false;
      if readbuffer != null {
        var n := StrLen(readbuffer);
        abort := n > MAX_LINE;
      }
    }
  }

  /** The loop of irc_process: it stops at an empty line, and before an unfinished last one. */
  method Execute(buffer: array<char>, lines: array<int>, ghost ps: seq<string>) returns (executed: seq<string>, i: nat)
    requires ps != [] && |ps| < lines.Length && lines[|ps|] == -1
    requires forall k :: 0 <= k < |ps| ==> 0 <= lines[k] < buffer.Length && Text(buffer[lines[k]..]) == ps[k]
    ensures i < |ps| && executed == ps[..i] && forall k :: 0 <= k < i ==> ps[k] != ""
    ensures ps[i] == "" || i == |ps| - 1
  {
    hide Text;
    executed, i := [], 0;
    TextEmpty(buffer[lines[0]..]);
    while buffer[lines[i]] != '\0' && lines[i + 1] != -1
      invariant i < |ps| && executed == ps[..i]
      invariant forall k :: 0 <= k < i ==> ps[k] != ""
      invariant ps[i] == "" <==> buffer[lines[i]] == '\0'
      decreases |ps| - i
    {
      executed := executed + [Text(buffer[lines[i]..])];
      i := i + 1;
      TextEmpty(buffer[lines[i]..]);
    }
  }

  lemma NothingProcessed()
    ensures Processed("") == ([], "")
  {}

  /** Where irc_process stops: at the first empty piece, or at the last one. */
  lemma AllExecuted(s: string, i: nat)
    requires i < |Pieces(s)| && (forall k :: 0 <= k < i ==> Pieces(s)[k] != "")
    requires Pieces(s)[i] == "" || i == |Pieces(s)| - 1
    ensures Processed(s) == (Pieces(s)[..i], Pieces(s)[i])
  {
    hide Pieces, Feed;
    if s != "" && Break(s[0]) {
      PlainIs(s, 0);
      PiecesIs(s);
      assert Pieces(s)[0] == s[..0] && i == 0;
    } else {
      PiecesFeed(s);
    }
  }
}
