/** IRC command lines (irc_parse_line and irc_build_line of irc.c). */
module Lines {
  import opened CStrings
  import Framing

  // ---------------------------------------------------------------- what a line means

  /** The length of the word at the start. */
  function Word(s: string): (n: nat)
    ensures n <= |s| && ' ' !in s[..n] && (n < |s| ==> s[n] == ' ')
  {
    if s == "" || s[0] == ' ' then 0
    else
      var n := Word(s[1..]);
      assert s[..n + 1] == [s[0]] + s[1..][..n];
      n + 1
  }

  /** The number of spaces at the start. */
  function Spaces(s: string): (n: nat)
    ensures n <= |s| && (n < |s| ==> s[n] != ' ') && (s != "" && s[0] == ' ' ==> n > 0)
    ensures forall i :: 0 <= i < n ==> s[i] == ' '
  {
    if s == "" || s[0] != ' ' then 0 else 1 + Spaces(s[1..])
  }

  predicate ColonLed(s: string) {
    s != "" && s[0] == ':'
  }

  /** Words with one space between them; what is behind " :" is one word. */
  function Split(s: string): (r: seq<string>)
    ensures r != []
    decreases |s|
  {
    var n := Word(s);
    if n == |s| then [s]
    else if ColonLed(s[n + 1..]) then [s[..n]] + [s[n + 2..]]
    else [s[..n]] + Split(s[n + 1..])
  }

  /** The line without a prefix and without leading spaces. */
  function Command(line: string): string {
    var t := if ColonLed(line) then line[Word(line)..] else line;
    t[Spaces(t)..]
  }

  /** irc_parse_line; no words stand for the NULL that it returns when there is no command. */
  function Parsed(line: string): seq<string> {
    var t := Command(line);
    if t == "" then [] else Split(t)
  }

  /** irc_build_line without the line end. */
  function Joined(cmd: seq<string>): string
    requires cmd != []
  {
    if |cmd| == 1 then (if ' ' in cmd[0] then ":" else "") + cmd[0]
    else cmd[0] + (" " + Joined(cmd[1..]))
  }

  function Built(cmd: seq<string>): string
    requires cmd != []
  {
    Joined(cmd) + "\r\n"
  }

  // ---------------------------------------------------------------- the round trip

  function Last(cmd: seq<string>): string
    requires cmd != []
  {
    cmd[|cmd| - 1]
  }

  /** Words between the first and the last one. */
  predicate Middle(cmd: seq<string>) {
    forall k :: 0 < k < |cmd| - 1 ==> ' ' !in cmd[k] && !ColonLed(cmd[k])
  }

  predicate Sendable(cmd: seq<string>)
    requires cmd != []
  {
    && cmd[0] != "" && ' ' !in cmd[0] && !ColonLed(cmd[0])
    && Middle(cmd)
    && (|cmd| > 1 ==> ' ' in Last(cmd) || !ColonLed(Last(cmd)))
  }

  lemma {:induction false} WordIs(s: string, n: nat)
    requires n <= |s| && ' ' !in s[..n] && (n < |s| ==> s[n] == ' ')
    ensures Word(s) == n
  {
    if n > 0 {
      assert s[..n][0] == s[0] && s[1..][..n - 1] == s[..n][1..];
      WordIs(s[1..], n - 1);
    }
  }

  lemma SplitIs(word: string, rest: string)
    requires ' ' !in word
    ensures Split(word + (" " + rest)) == if ColonLed(rest) then [word, rest[1..]] else [word] + Split(rest)
    ensures Split(word) == [word]
  {
    var s := word + (" " + rest);
    assert s[..|word|] == word && s[|word|] == ' ' && s[|word| + 1..] == rest;
    WordIs(s, |word|);
    assert ColonLed(rest) ==> s[|word| + 2..] == rest[1..];
    assert word[..|word|] == word;
    WordIs(word, |word|);
  }

  lemma JoinedIs(cmd: seq<string>)
    requires cmd != []
    ensures |cmd| == 1 ==> Joined(cmd) == if ' ' in cmd[0] then ":" + cmd[0] else cmd[0]
    ensures |cmd| > 1 ==> cmd[1..] != [] && Joined(cmd) == cmd[0] + (" " + Joined(cmd[1..]))
  {
    assert "" + cmd[0] == cmd[0];
  }

  lemma JoinedLed(cmd: seq<string>)
    requires cmd != []
    ensures |cmd| == 1 && ' ' in cmd[0] ==> ColonLed(Joined(cmd)) && Joined(cmd)[1..] == cmd[0]
    ensures |cmd| > 1 || ' ' !in cmd[0] ==> (ColonLed(Joined(cmd)) <==> ColonLed(cmd[0]))
  {
    hide Joined;
    JoinedIs(cmd);
  }

  lemma {:induction false} SplitJoined(cmd: seq<string>)
    requires cmd != [] && ' ' !in cmd[0] && Middle(cmd) && (|cmd| > 1 ==> ' ' in Last(cmd) || !ColonLed(Last(cmd)))
    ensures Split(Joined(cmd)) == cmd
    decreases |cmd|
  {
    hide Split, Joined, ColonLed;
    JoinedIs(cmd);
    if |cmd| == 1 {
      SplitIs(cmd[0], "");
    } else {
      var rest := cmd[1..];
      assert cmd == [cmd[0]] + rest && Last(rest) == Last(cmd);
      SplitIs(cmd[0], Joined(rest));
      JoinedLed(rest);
      if |rest| > 1 || ' ' !in rest[0] {
        assert forall k :: 0 < k < |rest| - 1 ==> rest[k] == cmd[k + 1];
        SplitJoined(rest);
      }
    }
  }

  function Size(ws: seq<string>): nat {
    if ws == [] then 0 else |ws[0]| + 1 + Size(ws[1..])
  }

  lemma SizeIs(w: string, ws: seq<string>)
    ensures Size([w] + ws) == |w| + 1 + Size(ws) && Size([w]) == |w| + 1
  {
    assert ([w] + ws)[1..] == ws && [w][1..] == [];
  }

  predicate Marked(w: string) {
    ' ' in w || ColonLed(w)
  }

  lemma SplitCases(s: string)
    ensures var n := Word(s);
            && (n == |s| ==> Split(s) == [s])
            && (n < |s| ==> Split(s) == if ColonLed(s[n + 1..]) then [s[..n]] + [s[n + 2..]] else [s[..n]] + Split(s[n + 1..]))
  {
    hide ColonLed, Word;
  }

  /** The words and the spaces between them fit into the line, and a mark in the last word needs a
      colon as well. */
  lemma {:induction false} SplitSize(s: string)
    ensures var ws := Split(s);
            && Size(ws) <= |s| + 1
            && (|ws| > 1 && Marked(Last(ws)) ==> Size(ws) <= |s|)
    decreases |s|
  {
    hide Split, Size, Word;
    var n := Word(s);
    SplitCases(s);
    if n == |s| {
      SizeIs(s, []);
    } else if ColonLed(s[n + 1..]) {
      SizeIs(s[..n], [s[n + 2..]]);
      SizeIs(s[n + 2..], []);
    } else {
      var t := s[n + 1..];
      SplitSize(t);
      SizeIs(s[..n], Split(t));
      SplitCases(t);
      if |Split(t)| == 1 {
        assert t[..|t|] == t;
      }
    }
  }

  lemma {:induction false} SplitShape(s: string)
    ensures var ws := Split(s);
            Middle(ws) && (|ws| > 1 ==> ' ' !in ws[0]) && ws[0] == s[..Word(s)]
    decreases |s|
  {
    hide Split, Word;
    var n := Word(s);
    SplitCases(s);
    if n == |s| {
      assert s[..n] == s;
    } else if !ColonLed(s[n + 1..]) {
      var t := s[n + 1..];
      SplitShape(t);
      var ws, us := Split(s), Split(t);
      forall k | 0 < k < |ws| - 1
        ensures ' ' !in ws[k] && !ColonLed(ws[k])
      {
        assert ws[k] == us[k - 1];
      }
    }
  }

  lemma {:induction false} JoinedSize(cmd: seq<string>)
    requires cmd != []
    ensures |Joined(cmd)| + 1 == Size(cmd) + if ' ' in Last(cmd) then 1 else 0
    decreases |cmd|
  {
    hide Joined, Size;
    JoinedIs(cmd);
    assert cmd == [cmd[0]] + cmd[1..];
    SizeIs(cmd[0], cmd[1..]);
    if |cmd| == 1 {
      assert cmd == [cmd[0]];
    } else {
      JoinedSize(cmd[1..]);
      assert Last(cmd[1..]) == Last(cmd);
    }
  }

  lemma CommandSize(line: string)
    ensures var t := Command(line);
            && |t| <= |line| && (t != "" ==> t[0] != ' ')
            && (!ColonLed(line) && line != "" && line[0] != ' ' ==> t == line)
            && (ColonLed(line) ==> |t| <= |line| - Word(line) && (Word(line) < |line| ==> |t| < |line| - Word(line)))
  {}

  /** A line gives back the command that it was built from exactly when the first word is not empty,
      has no space and no leading colon, the words in the middle have no space and no leading colon,
      and the last one has a space or no leading colon. */
  lemma RoundTrip(cmd: seq<string>)
    requires cmd != []
    ensures Parsed(Joined(cmd)) == cmd <==> Sendable(cmd)
  {
    hide Joined, Split, Command, Word;
    var line := Joined(cmd);
    CommandSize(line);
    JoinedIs(cmd);
    if Sendable(cmd) {
      assert line[0] == cmd[0][0] && cmd[0][0] in cmd[0];
      SplitJoined(cmd);
    } else if Parsed(line) == cmd {
      Needed(cmd);
    }
  }

  lemma Needed(cmd: seq<string>)
    requires cmd != [] && Parsed(Joined(cmd)) == cmd
    ensures Sendable(cmd)
  {
    hide Joined, Split, Command, Word, Size;
    var line := Joined(cmd);
    var t := Command(line);
    CommandSize(line);
    JoinedIs(cmd);
    JoinedSize(cmd);
    SplitSize(t);
    SplitShape(t);
    assert cmd[0] == t[..Word(t)];
    WordFirst(cmd[0], line);
  }

  /** Words, each with a space behind it. */
  ghost function Spaced(ws: seq<string>): string {
    if ws == [] then "" else ws[0] + " " + Spaced(ws[1..])
  }

  /** What is sent: the words with a space between them, a colon in front of the last one if it has a
      space, and CR and LF behind it. */
  lemma BuiltIs(ws: seq<string>, last: string)
    ensures Built(ws + [last]) == Spaced(ws) + (if ' ' in last then ":" else "") + last + "\r\n"
  {
    JoinedSpaced(ws, last);
  }

  lemma {:induction false} JoinedSpaced(ws: seq<string>, last: string)
    ensures Joined(ws + [last]) == Spaced(ws) + ((if ' ' in last then ":" else "") + last)
  {
    hide Joined;
    var cmd := ws + [last];
    JoinedIs(cmd);
    if ws == [] {
      assert cmd == [last];
    } else {
      assert cmd[1..] == ws[1..] + [last];
      JoinedSpaced(ws[1..], last);
    }
  }

  /** A prefix, which begins with a colon and goes to the first space, is left out, like any spaces in
      front of the command. */
  lemma PrefixDropped(prefix: string, spaces: string, line: string)
    requires ' ' !in prefix && (forall c :: c in spaces ==> c == ' ') && (line == "" || (line[0] != ' ' && line[0] != ':'))
    requires spaces != "" || line == ""
    ensures Parsed(":" + prefix + spaces + line) == Parsed(line)
    ensures Parsed(spaces + line) == Parsed(line)
  {
    hide Word, Spaces, Split;
    var s := ":" + prefix + spaces + line;
    var n := 1 + |prefix|;
    assert s[..n] == ":" + prefix && s[n..] == spaces + line;
    assert forall i :: 0 <= i < |spaces| ==> spaces[i] in spaces;
    assert n < |s| ==> s[n] == (spaces + line)[0];
    WordIs(s, n);
    assert (spaces + line)[|spaces|..] == line;
    SpacesIs(spaces + line, |spaces|);
    SpacesIs(line, 0);
    assert line[0..] == line;
  }

  /** A built line with no line break in its words is cut out and taken apart again on the other
      side. */
  lemma OverTheWire(cmd: seq<string>)
    requires cmd != [] && Framing.NoBreak(Joined(cmd))
    ensures Framing.Processed(Built(cmd)) == (if Joined(cmd) == "" then [] else [Joined(cmd)], "")
    ensures Sendable(cmd) ==> Joined(cmd) != "" && Parsed(Joined(cmd)) == cmd
  {
    hide Joined, Split, Framing.Feed;
    var line, end := Joined(cmd), "\r\n";
    RoundTrip(cmd);
    JoinedIs(cmd);
    if line == "" {
      assert line + end == end;
    } else {
      assert Built(cmd)[0] == line[0];
      Framing.BreaksIs(end, 2);
      Framing.FeedLine(line, end);
      Framing.FeedNothing("");
      assert end[2..] == "" && [line] + [] == [line];
    }
  }

  lemma WordFirst(w: string, line: string)
    requires ' ' !in w
    requires |w| <= |line| && line[..|w|] == w && (|w| < |line| ==> line[|w|] == ' ')
    ensures Word(line) == |w|
  {
    WordIs(line, |w|);
  }

  // ---------------------------------------------------------------- irc_parse_line

  lemma NextWord(s: string, b: nat, i: nat)
    requires b <= i < |s| && ' ' !in s[b..i] && s[i] == ' '
    ensures Split(s[b..]) == if ColonLed(s[i + 1..]) then [s[b..i]] + [s[i + 2..]] else [s[b..i]] + Split(s[i + 1..])
  {
    hide Split;
    assert s[b..] == s[b..i] + (" " + s[i + 1..]);
    SplitIs(s[b..i], s[i + 1..]);
    assert ColonLed(s[i + 1..]) ==> s[i + 1..][1..] == s[i + 2..];
  }

  lemma LastWord(s: string, b: nat)
    requires b <= |s| && ' ' !in s[b..]
    ensures Split(s[b..]) == [s[b..]]
  {
    SplitIs(s[b..], "");
  }

  /** The counting pass. */
  method Count(line: array<char>, at: nat, ghost s: string) returns (j: nat)
    requires at <= |s| < line.Length && line[..|s|] == s && line[|s|] == '\0' && '\0' !in s
    ensures j == |Split(s[at..])|
  {
    hide Split;
    assert forall k :: 0 <= k < |s| ==> line[k] == s[k] && s[k] != '\0';
    j := 1;
    var i := at;
    ghost var b := at;
    while line[i] != '\0'
      invariant at <= b <= i <= |s| && ' ' !in s[b..i]
      invariant j - 1 + |Split(s[b..])| == |Split(s[at..])|
      decreases |s| - i
    {
      if line[i] == ' ' {
        NextWord(s, b, i);
        b := i + 1;
        j := j + 1;
        assert i + 1 < |s| ==> line[i + 1] == s[i + 1];
        if line[i + 1] == ':' {
          return;
        }
      }
      i := i + 1;
      assert b < i ==> s[b..i] == s[b..i - 1] + [s[i - 1]];
    }
    assert s[b..i] == s[b..];
    LastWord(s, b);
  }

  /** The splitting pass: spaces become zeros, and `cmd` gets the starts of the words. */
  method Fill(line: array<char>, at: nat, cmd: array<int>, ghost s: string)
    requires at <= |s| < line.Length && line[..|s|] == s && line[|s|] == '\0' && '\0' !in s
    requires cmd.Length == |Split(s[at..])| + 1 && (cmd as object) != line
    modifies line, cmd
    ensures var ws := Split(s[at..]);
            && cmd[|ws|] == old(cmd[|ws|])
            && forall k :: 0 <= k < |ws| ==> 0 <= cmd[k] < line.Length && Text(line[cmd[k]..]) == ws[k]
  {
    hide Split, Text, Cell;
    ghost var ws, done := Split(s[at..]), [];
    assert forall k :: 0 <= k < |s| ==> line[k] == s[k] && s[k] != '\0';
    cmd[0] := at;
    var i, j := at, 0;
    assert done + Split(s[at..]) == ws;
    while line[i] != '\0'
      invariant |done| == j < |ws| && at <= cmd[j] <= i <= |s| && ' ' !in s[cmd[j]..i]
      invariant cmd[|ws|] == old(cmd[|ws|]) && line[|s|] == '\0'
      invariant forall k :: cmd[j] <= k < |s| ==> line[k] == s[k] && s[k] != '\0'
      invariant done + Split(s[cmd[j]..]) == ws
      invariant forall k :: 0 <= k < j ==> 0 <= cmd[k] && cmd[k] + |done[k]| < cmd[j] && Cell(line[..], cmd[k], done[k])
      decreases |s| - i
    {
      if line[i] == ' ' {
        EndWord(line, i, cmd, j, s, done, ws);
        done := done + [s[cmd[j]..i]];
        j := j + 1;
        if line[i + 1] == ':' {
          return;
        }
      }
      i := i + 1;
      assert cmd[j] < i ==> s[cmd[j]..i] == s[cmd[j]..i - 1] + [s[i - 1]];
    }
    assert s[cmd[j]..i] == s[cmd[j]..];
    EndLine(line, cmd, j, s, done, ws);
  }

  lemma EndLine(line: array<char>, cmd: array<int>, j: nat, s: string, done: seq<string>, ws: seq<string>)
    requires j == |done| < |ws| < cmd.Length && 0 <= cmd[j] <= |s| < line.Length && line[|s|] == '\0' && '\0' !in s
    requires ' ' !in s[cmd[j]..] && (forall k :: cmd[j] <= k < |s| ==> line[k] == s[k])
    requires done + Split(s[cmd[j]..]) == ws
    requires forall k :: 0 <= k < j ==> Cell(line[..], cmd[k], done[k])
    ensures forall k :: 0 <= k < |ws| ==> 0 <= cmd[k] < line.Length && Text(line[cmd[k]..]) == ws[k]
  {
    hide Split, Text, Cell;
    assert s[cmd[j]..|s|] == s[cmd[j]..];
    LastWord(s, cmd[j]);
    CellNew(line[..], cmd[j], |s|, s);
    Texts(line, cmd, ws);
  }

  /** The end of a word; behind a colon comes the last one. */
  method EndWord(line: array<char>, i: nat, cmd: array<int>, j: nat, ghost s: string, ghost done: seq<string>, ghost ws: seq<string>)
    requires j == |done| < |ws| && cmd.Length == |ws| + 1 && (cmd as object) != line && '\0' !in s
    requires 0 <= cmd[j] <= i < |s| < line.Length && ' ' !in s[cmd[j]..i] && line[i] == ' ' && line[|s|] == '\0'
    requires forall k :: cmd[j] <= k < |s| ==> line[k] == s[k] && s[k] != '\0'
    requires done + Split(s[cmd[j]..]) == ws
    requires forall k :: 0 <= k < j ==> 0 <= cmd[k] && cmd[k] + |done[k]| < cmd[j] && Cell(line[..], cmd[k], done[k])
    modifies line, cmd
    ensures cmd[|ws|] == old(cmd[|ws|]) && line[|s|] == '\0' && j + 1 < |ws| && cmd[j] == old(cmd[j])
    ensures forall k :: i < k < line.Length ==> line[k] == old(line[k])
    ensures line[i + 1] != ':' ==>
      var all := done + [s[cmd[j]..i]];
      && cmd[j + 1] == i + 1 && all + Split(s[i + 1..]) == ws
      && forall k :: 0 <= k <= j ==> 0 <= cmd[k] && cmd[k] + |all[k]| < i + 1 && Cell(line[..], cmd[k], all[k])
    ensures line[i + 1] == ':' ==>
      forall k :: 0 <= k < |ws| ==> 0 <= cmd[k] < line.Length && Text(line[cmd[k]..]) == ws[k]
  {
    hide Split, Text, Cell;
    var b := cmd[j];
    NextWord(s, b, i);
    ghost var was, all := line[..], done + [s[b..i]];
    assert line[i + 1] == ':' <==> ColonLed(s[i + 1..]);
    line[i] := '\0';
    Kept(was, line[..], cmd[..j], done, b, i, s);
    cmd[j + 1] := i + 1;
    if line[i + 1] == ':' {
      cmd[j + 1] := cmd[j + 1] + 1;
      assert ws == all + [s[i + 2..]];
      LastCell(line, i + 2, s);
      Texts(line, cmd, ws);
    } else {
      assert ws == all + Split(s[i + 1..]);
    }
  }

  lemma LastCell(line: array<char>, at: nat, s: string)
    requires at <= |s| < line.Length && line[|s|] == '\0' && '\0' !in s && forall k :: at <= k < |s| ==> line[k] == s[k]
    ensures Cell(line[..], at, s[at..])
  {
    hide Cell;
    assert s[at..|s|] == s[at..];
    CellNew(line[..], at, |s|, s);
  }

  lemma Texts(line: array<char>, cmd: array<int>, ws: seq<string>)
    requires |ws| < cmd.Length && forall k :: 0 <= k < |ws| ==> Cell(line[..], cmd[k], ws[k])
    ensures forall k :: 0 <= k < |ws| ==> 0 <= cmd[k] < line.Length && Text(line[cmd[k]..]) == ws[k]
  {
    hide Text;
    forall k | 0 <= k < |ws|
      ensures 0 <= cmd[k] < line.Length && Text(line[cmd[k]..]) == ws[k]
    {
      CellText(line[..], cmd[k], ws[k]);
      assert line[..][cmd[k]..] == line[cmd[k]..];
    }
  }

  /** The space behind a word is overwritten. */
  lemma Kept(was: seq<char>, now: seq<char>, cmd: seq<int>, done: seq<string>, b: nat, i: nat, s: string)
    requires b <= i < |s| < |was| && now == was[i := '\0'] && '\0' !in s
    requires forall k :: b <= k < |s| ==> was[k] == s[k]
    requires |cmd| == |done|
    requires forall k :: 0 <= k < |cmd| ==> 0 <= cmd[k] && cmd[k] + |done[k]| < b && Cell(was, cmd[k], done[k])
    ensures forall k :: 0 <= k < |cmd| ==> Cell(now, cmd[k], done[k])
    ensures Cell(now, b, s[b..i])
  {
    hide Cell;
    forall k | 0 <= k < |cmd|
      ensures Cell(now, cmd[k], done[k])
    {
      CellKept(was, now, cmd[k], done[k], b);
    }
    CellNew(now, b, i, s);
  }

  /** irc_parse_line: the words that the line stands for, in place, and -1 behind them. */
  method ParseLine(line: array<char>) returns (cmd: array?<int>)
    requires '\0' in line[..]
    modifies line
    ensures var ws := Parsed(old(Text(line[..])));
            if ws == [] then cmd == null
            else
              && cmd != null && fresh(cmd) && cmd.Length == |ws| + 1 && cmd[|ws|] == -1
              && forall k :: 0 <= k < |ws| ==> 0 <= cmd[k] < line.Length && Text(line[cmd[k]..]) == ws[k]
  {
    hide Split, Text;
    ghost var s := Text(line[..]);
    var at := Skip(line, s);
    if line[at] == '\0' {
      return null;
    }
    assert s[at..] != "";
    var j := Count(line, at, s);
    cmd := new int[j + 1];
    cmd[j] := -1;
    Fill(line, at, cmd, s);
  }

  /** Where the command starts. */
  method Skip(line: array<char>, ghost s: string) returns (at: nat)
    requires '\0' in line[..] && s == Text(line[..])
    ensures at <= |s| < line.Length && line[..|s|] == s && line[|s|] == '\0' && '\0' !in s
    ensures s[at..] == Command(s)
  {
    hide Word, Spaces, Text, ColonLed;
    TextHead(line, s);
    at := SkipPrefix(line, s);
    at := SkipSpaces(line, at, s);
  }

  method SkipSpaces(line: array<char>, b: nat, ghost s: string) returns (at: nat)
    requires b <= |s| < line.Length && line[|s|] == '\0' && forall k :: 0 <= k < |s| ==> line[k] == s[k]
    ensures b <= at <= |s| && s[at..] == s[b..][Spaces(s[b..])..]
  {
    hide Spaces;
    at := b;
    while line[at] == ' '
      invariant b <= at <= |s| && forall i :: b <= i < at ==> s[i] == ' '
      decreases |s| - at
    {
      at := at + 1;
    }
    ghost var t := s[b..];
    assert forall i :: 0 <= i < |t| ==> t[i] == s[b + i];
    SpacesIs(t, at - b);
    assert t[at - b..] == s[at..];
  }

  method SkipPrefix(line: array<char>, ghost s: string) returns (at: nat)
    requires |s| < line.Length && line[|s|] == '\0' && forall k :: 0 <= k < |s| ==> line[k] == s[k] && s[k] != '\0'
    ensures at <= |s| && s[at..] == if ColonLed(s) then s[Word(s)..] else s
  {
    hide Word;
    at := 0;
    if line[0] == ':' {
      while line[at] != '\0' && line[at] != ' '
        invariant at <= |s| && ' ' !in s[..at]
        decreases |s| - at
      {
        at := at + 1;
        assert s[..at] == s[..at - 1] + [s[at - 1]];
      }
      WordIs(s, at);
    }
  }

  lemma {:induction false} SpacesIs(s: string, n: nat)
    requires n <= |s| && (forall i :: 0 <= i < n ==> s[i] == ' ') && (n < |s| ==> s[n] != ' ')
    ensures Spaces(s) == n
  {
    if n > 0 {
      assert forall i :: 0 <= i < n - 1 ==> s[1..][i] == s[i + 1];
      SpacesIs(s[1..], n - 1);
    }
  }

  lemma TextHead(line: array<char>, s: string)
    requires '\0' in line[..] && s == Text(line[..])
    ensures |s| < line.Length && line[..|s|] == s && line[|s|] == '\0' && '\0' !in s
    ensures forall k :: 0 <= k < |s| ==> line[k] == s[k] && s[k] != '\0'
  {
    assert |s| < line.Length;
    assert line[..][..|s|] == line[..|s|];
  }

  // ---------------------------------------------------------------- irc_build_line

  /** irc_build_line: the printed line and its zero take exactly the space that was counted. */
  method BuildLine(cmd: seq<string>) returns (s: array?<char>)
    requires forall w :: w in cmd ==> '\0' !in w
    ensures cmd == [] ==> s == null
    ensures cmd != [] ==> s != null && fresh(s) && '\0' in s[..] && Text(s[..]) == Built(cmd) && s.Length == |Built(cmd)| + 1
  {
    hide Text, Joined;
    if cmd == [] {
      return null;
    }
    var len := Length(cmd);
    s := new char[len + 1](i => '\0');
    assert s[..][0] == '\0';
    TextIs(s[..], 0);
    for i := 0 to |cmd|
      invariant '\0' in s[..] && Text(s[..]) + Rest(cmd, i) == Joined(cmd)
    {
      PrintWord(s, cmd, i);
    }
    StrCat(s, "\r\n");
  }

  /** The length that irc_build_line computes. */
  method Length(cmd: seq<string>) returns (len: nat)
    requires cmd != []
    ensures len == |Built(cmd)|
  {
    hide Joined, Size;
    len := 1;
    SizeNone(cmd);
    for i := 0 to |cmd|
      invariant len == 1 + Size(cmd[..i])
    {
      len := len + |cmd[i]| + 1;
      assert cmd[..i + 1] == cmd[..i] + [cmd[i]];
      SizeAppend(cmd[..i], cmd[i]);
    }
    assert cmd[..|cmd|] == cmd;
    if ' ' in cmd[|cmd| - 1] {
      len := len + 1;
    }
    JoinedSize(cmd);
  }

  lemma SizeNone(cmd: seq<string>)
    ensures Size(cmd[..0]) == 0
  {}

  method PrintWord(s: array<char>, cmd: seq<string>, i: nat)
    requires i < |cmd| && '\0' in s[..] && (forall w :: w in cmd ==> '\0' !in w)
    requires Text(s[..]) + Rest(cmd, i) == Joined(cmd) && |Joined(cmd)| < s.Length
    modifies s
    ensures '\0' in s[..] && Text(s[..]) + Rest(cmd, i + 1) == Joined(cmd)
  {
    hide Text, Joined, Rest;
    RestIs(cmd, i);
    if i + 1 == |cmd| && ' ' in cmd[i] {
      StrCat(s, ":");
    }
    StrCat(s, cmd[i]);
    if i + 1 < |cmd| {
      StrCat(s, " ");
    }
  }

  /** What is left to print. */
  function Rest(cmd: seq<string>, i: nat): string
    requires cmd != [] && i <= |cmd|
  {
    if i == |cmd| then "" else Joined(cmd[i..])
  }

  lemma RestIs(cmd: seq<string>, i: nat)
    requires i < |cmd|
    ensures i + 1 == |cmd| ==> Rest(cmd, i) == (if ' ' in cmd[i] then ":" else "") + cmd[i] && Rest(cmd, i + 1) == ""
    ensures i + 1 < |cmd| ==> Rest(cmd, i) == cmd[i] + " " + Rest(cmd, i + 1)
  {
    JoinedIs(cmd[i..]);
    assert cmd[i..][1..] == cmd[i + 1..];
  }

  lemma {:induction false} SizeAppend(ws: seq<string>, w: string)
    ensures Size(ws + [w]) == Size(ws) + |w| + 1
  {
    if ws == [] {
      assert [] + [w] == [w] && [w][1..] == [];
    } else {
      assert (ws + [w])[1..] == ws[1..] + [w];
      SizeAppend(ws[1..], w);
    }
  }
}
