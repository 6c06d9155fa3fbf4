/** Nicks that the gateway makes up (nick.c): nick_ok, nick_strip and nick_dedupe. */
module Nick {
  import opened CStrings
  import opened NickChars

  const MAX_LEN: nat := 24

  predicate NickOk(s: string) {
    s != "" && !IsDigit(s[0]) && |s| <= MAX_LEN && forall i :: 0 <= i < |s| ==> IsNickChar(s[i])
  }

  /** A nick of 1 to 24 allowed characters that does not begin with a digit. */
  lemma NickOkIs(s: string)
    ensures NickOk(s) <==>
              && 1 <= |s| <= 24 && s[0] !in "0123456789"
              && forall i :: 0 <= i < |s| ==> IsNickChar(s[i])
  {
    hide IsNickChar;
  }

  // ---------------------------------------------------------------- nick_strip

  function Allowed(s: string): (r: string)
    ensures |r| <= |s|
    ensures forall i :: 0 <= i < |r| ==> IsNickChar(r[i])
  {
    if s == "" then "" else (if IsNickChar(s[0]) then [s[0]] else []) + Allowed(s[1..])
  }

  function Cut(s: string, n: nat): string {
    if |s| <= n then s else s[..n]
  }

  /** The allowed characters, at most 24; a leading digit gets an underscore in front, and then at
      most 23 characters stay. */
  function Stripped(s: string): string {
    var t := Cut(Allowed(s), MAX_LEN);
    if t != "" && IsDigit(t[0]) then Cut("_" + t, MAX_LEN - 1) else t
  }

  /** What is left is a proper nick, or nothing when no character was allowed; a proper nick stays
      as it is. */
  lemma StrippedOk(s: string)
    ensures NickOk(Stripped(s)) || Stripped(s) == ""
    ensures Stripped(s) == "" <==> forall i :: 0 <= i < |s| ==> !IsNickChar(s[i])
    ensures NickOk(s) ==> Stripped(s) == s
  {
    hide IsNickChar;
    NoneAllowed(s);
    if NickOk(s) {
      AllAllowed(s);
    }
    assert IsNickChar('_') by {
      Underscore();
    }
  }

  /** At most 24 allowed characters, or an underscore before at most 22 that begin with a digit. */
  lemma StrippedIs(s: string)
    ensures var t, r := Allowed(s), Stripped(s);
            if t != "" && t[0] in "0123456789" then
              r == "_" + (if |t| <= 22 then t else t[..22])
            else r == if |t| <= 24 then t else t[..24]
  {
    hide IsNickChar, Allowed;
  }

  lemma Underscore()
    ensures IsNickChar('_') && !IsDigit('_') && Fold('_') == '_'
  {
    assert LC_REST[5] == '_';
  }

  lemma {:induction false} NoneAllowed(s: string)
    ensures Allowed(s) == "" <==> forall i :: 0 <= i < |s| ==> !IsNickChar(s[i])
  {
    if s != "" {
      NoneAllowed(s[1..]);
      assert forall i :: 0 < i < |s| ==> s[i] == s[1..][i - 1];
    }
  }

  lemma {:induction false} AllAllowed(s: string)
    requires forall i :: 0 <= i < |s| ==> IsNickChar(s[i])
    ensures Allowed(s) == s
  {
    if s != "" {
      AllAllowed(s[1..]);
    }
  }

  // ---------------------------------------------------------------- nick_dedupe

  /** One change of the loop: an underscore behind, or a higher first character. */
  function Next(s: string): (r: string)
    ensures |r| <= MAX_LEN || |r| <= |s|
  {
    if |s| < MAX_LEN - 1 then s + "_"
    else if s[0] as int >= 255 then ""
    else [(s[0] as int + 1) as char] + s[1..]
  }

  /** A nick that is proper and not the name of anyone else; `taken` holds the keys of the others. */
  predicate Free(s: string, taken: set<string>) {
    NickOk(s) && Lc(s).Folded? && Lc(s).text !in taken
  }

  function Deduped(s: string, taken: set<string>, n: nat, fallback: string): string
    decreases n
  {
    if Free(s, taken) then s else if n == 0 then fallback else Deduped(Next(s), taken, n - 1, fallback)
  }

  function Underscored(s: string, k: nat): (r: string)
    ensures |r| == |s| + k && r[..|s|] == s
    ensures forall i :: |s| <= i < |r| ==> r[i] == '_'
  {
    if k == 0 then s else Underscored(s, k - 1) + "_"
  }

  lemma UnderscoredOk(s: string, k: nat)
    requires NickOk(s) && |s| + k <= MAX_LEN
    ensures NickOk(Underscored(s, k)) && Lc(Underscored(s, k)).Folded? && |Lc(Underscored(s, k)).text| == |s| + k
  {
    hide IsNickChar, Fold;
    Underscore();
    var r := Underscored(s, k);
    assert r[0] == r[..|s|][0] == s[0];
    forall i | 0 <= i < |r|
      ensures IsNickChar(r[i])
    {
      if i < |s| {
        assert r[i] == r[..|s|][i];
      }
    }
  }

  function KeyOf(s: string): string {
    if Lc(s).Folded? then Lc(s).text else ""
  }

  /** The keys of the first `n` candidates. */
  function Keys(s: string, n: nat): (b: set<string>)
    ensures forall k :: k in b ==> |k| < |s| + n
  {
    if n == 0 then {}
    else
      assert |KeyOf(Underscored(s, n - 1))| <= |s| + n - 1;
      Keys(s, n - 1) + {KeyOf(Underscored(s, n - 1))}
  }

  lemma {:induction false} KeysDiffer(s: string, n: nat)
    requires NickOk(s) && |s| + n <= MAX_LEN + 1
    ensures |Keys(s, n)| == n
  {
    hide Lc, NickOk, Underscored;
    if n > 0 {
      KeysDiffer(s, n - 1);
      UnderscoredOk(s, n - 1);
      assert KeyOf(Underscored(s, n - 1)) !in Keys(s, n - 1);
    }
  }

  lemma {:induction false} KeysTaken(s: string, taken: set<string>, n: nat)
    requires NickOk(s) && |s| + n <= MAX_LEN + 1
    requires forall k :: 0 <= k < n ==> !Free(Underscored(s, k), taken)
    ensures Keys(s, n) <= taken
  {
    hide Lc, NickOk, Underscored;
    if n > 0 {
      KeysTaken(s, taken, n - 1);
      UnderscoredOk(s, n - 1);
    }
  }

  lemma {:induction false} Smaller<T>(a: set<T>, b: set<T>)
    requires a <= b
    ensures |a| <= |b|
  {
    if a != {} {
      var x :| x in a;
      Smaller(a - {x}, b - {x});
    }
  }

  /** With fewer other nicks than candidates, some candidate is free. */
  lemma SomeFree(s: string, taken: set<string>, n: nat) returns (k: nat)
    requires NickOk(s) && |s| + n <= MAX_LEN + 1 && |taken| < n
    ensures k < n && Free(Underscored(s, k), taken) && forall j :: 0 <= j < k ==> !Free(Underscored(s, j), taken)
  {
    hide Free;
    if forall j :: 0 <= j < n ==> !Free(Underscored(s, j), taken) {
      KeysTaken(s, taken, n);
      KeysDiffer(s, n);
      Smaller(Keys(s, n), taken);
      assert false;
    }
    var w :| 0 <= w < n && Free(Underscored(s, w), taken);
    k := 0;
    while !Free(Underscored(s, k), taken)
      invariant k <= w && forall j :: 0 <= j < k ==> !Free(Underscored(s, j), taken)
      decreases w - k
    {
      k := k + 1;
    }
  }

  lemma {:induction false} WalkTo(s: string, taken: set<string>, j: nat, k: nat, n: nat, fallback: string)
    requires j <= k && |s| + k < MAX_LEN && k - j <= n
    requires Free(Underscored(s, k), taken) && forall i :: j <= i < k ==> !Free(Underscored(s, i), taken)
    ensures Deduped(Underscored(s, j), taken, n, fallback) == Underscored(s, k)
    decreases k - j
  {
    hide Free;
    if j < k {
      WalkTo(s, taken, j + 1, k, n - 1, fallback);
    }
  }

  /** A proper nick of at most 23 characters, with fewer than 24 minus its length other nicks in
      use, gets the fewest underscores that make it free. */
  lemma DedupeUnderscores(s: string, taken: set<string>, fallback: string) returns (k: nat)
    requires NickOk(s) && |s| <= MAX_LEN - 1 && |taken| < MAX_LEN - |s|
    ensures |s| + k < MAX_LEN && Deduped(s, taken, 256, fallback) == Underscored(s, k)
    ensures Free(Underscored(s, k), taken) && forall j :: 0 <= j < k ==> !Free(Underscored(s, j), taken)
  {
    k := SomeFree(s, taken, MAX_LEN - |s|);
    WalkTo(s, taken, 0, k, 256, fallback);
  }

  function Nth(s: string, n: nat): string
    decreases n
  {
    if n == 0 then s else Nth(Next(s), n - 1)
  }

  /** The candidates: up to 23 characters one underscore more each, and from then on the next first
      character each, until the buffer is empty behind the last one. */
  lemma {:induction false} NthIs(s: string, n: nat)
    ensures |s| + n <= 23 ==> Nth(s, n) == Underscored(s, n)
    ensures |s| >= 23 && s[0] as int + n <= 255 ==> Nth(s, n) == [(s[0] as int + n) as char] + s[1..]
    ensures |s| >= 23 && s[0] as int + n == 256 && n > 0 ==> Nth(s, n) == ""
    decreases n
  {
    if n > 0 {
      NthIs(Next(s), n - 1);
      if |s| + n <= 23 {
        UnderscoredFirst(s, n);
      }
    }
  }

  lemma {:induction false} UnderscoredFirst(s: string, k: nat)
    requires k > 0
    ensures Underscored(s, k) == Underscored(s + "_", k - 1)
  {
    if k > 1 {
      UnderscoredFirst(s, k - 1);
    }
  }

  /** In every case the outcome is a proper nick: the first free one of the 257 that are tried, or,
      when none of them is, the fallback, which may be somebody's. */
  lemma {:induction false} DedupeOk(s: string, taken: set<string>, n: nat, fallback: string)
    requires NickOk(fallback)
    ensures NickOk(Deduped(s, taken, n, fallback))
    ensures (exists k :: 0 <= k <= n && Free(Nth(s, k), taken)) ==> Free(Deduped(s, taken, n, fallback), taken)
    ensures !(exists k :: 0 <= k <= n && Free(Nth(s, k), taken)) ==> Deduped(s, taken, n, fallback) == fallback
    decreases n
  {
    hide NickOk, Next;
    assert Nth(s, 0) == s;
    if !Free(s, taken) && n > 0 {
      DedupeOk(Next(s), taken, n - 1, fallback);
      if exists k :: 0 <= k <= n && Free(Nth(s, k), taken) {
        var k :| 0 <= k <= n && Free(Nth(s, k), taken);
        assert Nth(s, k) == Nth(Next(s), k - 1);
      }
      if exists k :: 0 <= k <= n - 1 && Free(Nth(Next(s), k), taken) {
        var k :| 0 <= k <= n - 1 && Free(Nth(Next(s), k), taken);
        assert Nth(s, k + 1) == Nth(Next(s), k);
      }
    }
    FreeOk(Deduped(s, taken, n, fallback), taken);
  }

  lemma FreeOk(s: string, taken: set<string>)
    ensures Free(s, taken) ==> NickOk(s)
  {}

  // ---------------------------------------------------------------- the buffers

  function HexDigit(n: nat): char
    requires n < 16
  {
    if n < 10 then ('0' as int + n) as char else ('a' as int + n - 10) as char
  }

  function Hex(n: nat): (r: string)
    ensures r != "" && forall i :: 0 <= i < |r| ==> IsDigit(r[i]) || 'a' <= r[i] <= 'f'
  {
    if n < 16 then [HexDigit(n)] else Hex(n / 16) + [HexDigit(n % 16)]
  }

  lemma {:induction false} HexLength(n: nat, d: nat, top: nat)
    requires n < top && top == Power16(d)
    ensures |Hex(n)| <= d || n < 16
  {
    if n >= 16 {
      HexLength(n / 16, d - 1, Power16(d - 1));
    }
  }

  function Power16(d: nat): nat {
    if d == 0 then 1 else 16 * Power16(d - 1)
  }

  /** The nick of last resort; rand() is below 2^31. */
  function Fallback(random: nat): string {
    "xx" + Hex(random)
  }

  /** The number that hexadecimal digits stand for. */
  ghost function Value16(s: string): nat {
    if s == "" then 0
    else
      var c := s[|s| - 1] as int;
      16 * Value16(s[..|s| - 1])
      + if '0' as int <= c <= '9' as int then c - '0' as int
        else if 'a' as int <= c <= 'f' as int then c - 'a' as int + 10 else 0
  }

  lemma {:induction false} HexIs(n: nat)
    ensures Value16(Hex(n)) == n && (n > 0 ==> Hex(n)[0] != '0')
  {
    if n >= 16 {
      HexIs(n / 16);
      assert Hex(n)[..|Hex(n)| - 1] == Hex(n / 16);
    } else {
      assert Hex(n)[..0] == "";
    }
  }

  /** The fallback is "xx" and the number in hexadecimal digits, without leading zeros. */
  lemma FallbackIs(random: nat)
    ensures var s := Fallback(random);
            |s| > 2 && s[..2] == "xx" && Value16(s[2..]) == random && (random > 0 ==> s[2] != '0')
  {
    HexIs(random);
    assert Fallback(random)[2..] == Hex(random);
  }

  lemma FallbackOk(random: nat)
    requires random < 0x8000_0000
    ensures NickOk(Fallback(random))
  {
    assert Power16(8) == 0x1_0000_0000 by {
      assert Power16(2) == 0x100 && Power16(4) == 0x1_0000 && Power16(6) == 0x100_0000;
    }
    HexLength(random, 8, 0x1_0000_0000);
  }

  /** A nick buffer: 24 characters and a zero. */
  predicate Buffer(a: array<char>)
    reads a
  {
    a.Length == MAX_LEN + 1 && '\0' in a[..] && forall i :: 0 <= i < a.Length ==> a[i] as int <= 255
  }

  /** The change at the head of the loop of nick_dedupe. */
  method Change(a: array<char>)
    requires Buffer(a)
    modifies a
    ensures Buffer(a) && Text(a[..]) == Next(old(Text(a[..])))
  {
    hide Text;
    var n := StrLen(a);
    if n < MAX_LEN - 1 {
      Underline(a, n);
    } else {
      Bump(a, n);
    }
  }

  method Underline(a: array<char>, n: nat)
    requires Buffer(a) && n < MAX_LEN - 1 && Text(a[..]) == a[..n]
    modifies a
    ensures Buffer(a) && Text(a[..]) == old(a[..n]) + "_"
  {
    hide Text;
    ghost var s := a[..n];
    a[n + 1] := '\0';
    a[n] := '_';
    assert a[..n + 1] == s + "_";
    assert a[..][n + 1] == '\0' && a[..][..n + 1] == a[..n + 1];
    TextIs(a[..], n + 1);
  }

  method Bump(a: array<char>, n: nat)
    requires Buffer(a) && 0 < n < a.Length && Text(a[..]) == a[..n] && a[n] == '\0'
    modifies a
    ensures Buffer(a)
    ensures Text(a[..]) == if old(a[0]) as int == 255 then "" else [(old(a[0]) as int + 1) as char] + old(a[1..n])
  {
    hide Text;
    ghost var s := a[1..n];
    var c := a[0] as int;
    a[0] := ((c + 1) % 256) as char;
    assert a[..][n] == '\0' && a[..][0] == a[0];
    if a[0] == '\0' {
      TextIs(a[..], 0);
    } else {
      assert a[..n] == [a[0]] + s && a[..][..n] == a[..n];
      TextIs(a[..], n);
    }
  }

  lemma Proper(s: string)
    requires NickOk(s)
    ensures |s| <= MAX_LEN && forall i :: 0 <= i < |s| ==> IsNickChar(s[i])
  {}

  /** nick_dedupe; `random` is what rand() returns. */
  method Dedupe(a: array<char>, taken: set<string>, random: nat)
    requires Buffer(a) && random < 0x8000_0000
    modifies a
    ensures Buffer(a) && Text(a[..]) == Deduped(old(Text(a[..])), taken, 256, Fallback(random))
  {
    hide Free, Next, Text, Fallback, NickOk;
    ghost var s := Text(a[..]);
    var protection := 256;
    var n := StrLen(a);
    while !Free(a[..n], taken)
      invariant Buffer(a) && 0 <= protection <= 256
      invariant 0 <= n < a.Length && Text(a[..]) == a[..n]
      invariant Deduped(Text(a[..]), taken, protection, Fallback(random)) == Deduped(s, taken, 256, Fallback(random))
      decreases protection
    {
      Change(a);
      if protection == 0 {
        FallbackOk(random);
        Proper(Fallback(random));
        Write(a, Fallback(random));
        return;
      }
      protection := protection - 1;
      n := StrLen(a);
    }
  }

  /** g_snprintf into the buffer. */
  method Write(a: array<char>, s: string)
    requires Buffer(a) && |s| <= MAX_LEN && forall i :: 0 <= i < |s| ==> IsNickChar(s[i])
    modifies a
    ensures Buffer(a) && Text(a[..]) == s
  {
    for i := 0 to |s|
      invariant a[..i] == s[..i] && forall k :: 0 <= k < a.Length ==> a[k] as int <= 255
    {
      a[i] := s[i];
      assert s[..i + 1] == s[..i] + [s[i]];
    }
    a[|s|] := '\0';
    assert a[..][|s|] == '\0' && a[..][..|s|] == s;
    TextIs(a[..], |s|);
  }

  lemma {:induction false} AllowedSnoc(s: string, c: char)
    ensures Allowed(s + [c]) == Allowed(s) + if IsNickChar(c) then [c] else []
  {
    hide IsNickChar;
    if s == "" {
      assert s + [c] == [c] && [c][1..] == "";
    } else {
      assert (s + [c])[1..] == s[1..] + [c];
      AllowedSnoc(s[1..], c);
    }
  }

  lemma {:induction false} AllowedMore(s: string, t: string)
    ensures Allowed(s) <= Allowed(s + t)
    decreases |t|
  {
    hide Allowed;
    if t == "" {
      assert s + t == s;
    } else {
      assert s + t == (s + [t[0]]) + t[1..];
      AllowedSnoc(s, t[0]);
      AllowedMore(s + [t[0]], t[1..]);
    }
  }

  /** The first loop of nick_strip: keep the allowed characters, in place. */
  method Squeeze(a: array<char>) returns (j: nat)
    requires a.Length > MAX_LEN && '\0' in a[..]
    modifies a
    ensures j <= MAX_LEN && '\0' in a[..] && a[..j] == Cut(Allowed(old(Text(a[..]))), MAX_LEN)
    ensures j == 0 ==> !IsDigit(a[0])
  {
    hide IsNickChar, Allowed, Text;
    ghost var s := Text(a[..]);
    var n := StrLen(a);
    var i := 0;
    j := 0;
    NothingAllowed();
    while a[i] != '\0' && j < MAX_LEN
      invariant j <= i <= n < a.Length && j <= MAX_LEN && n == |s|
      invariant a[n] == '\0' && forall k :: i <= k < n ==> a[k] == s[k]
      invariant '\0' !in s
      invariant a[..j] == Allowed(s[..i])
      invariant j == 0 && i > 0 ==> !IsNickChar(a[0])
      decreases n - i
    {
      assert i < n;
      assert s[..i + 1] == s[..i] + [s[i]];
      AllowedSnoc(s[..i], s[i]);
      if IsNickChar(a[i]) {
        a[j] := a[i];
        assert a[..j + 1] == a[..j] + [s[i]];
        j := j + 1;
      }
      i := i + 1;
    }
    if i < n {
      assert a[i] == s[i] && s[i] in s;
    }
    assert s == s[..i] + s[i..];
    AllowedMore(s[..i], s[i..]);
    if i == n {
      assert s[..i] == s;
    }
    assert a[..][n] == '\0';
    DigitAllowed(a[0]);
  }

  lemma NothingAllowed()
    ensures Allowed("") == ""
  {}

  lemma DigitAllowed(c: char)
    ensures IsDigit(c) ==> IsNickChar(c)
  {}

  /** g_snprintf( nick, MAX_NICK_LENGTH, "_%s", orig ). */
  method Prefix(a: array<char>)
    requires a.Length > MAX_LEN && '\0' in a[..]
    modifies a
    ensures var r := Cut("_" + old(Text(a[..])), MAX_LEN - 1); a[..|r|] == r && a[|r|] == '\0'
  {
    hide Text, Cut;
    var n := StrLen(a);
    var r := Cut("_" + a[..n], MAX_LEN - 1);
    CutShort("_" + a[..n], MAX_LEN - 1);
    for i := 0 to |r|
      invariant a[..i] == r[..i]
    {
      a[i] := r[i];
      assert r[..i + 1] == r[..i] + [r[i]];
    }
    a[|r|] := '\0';
  }

  lemma CutShort(s: string, n: nat)
    ensures |Cut(s, n)| <= n
  {}

  method Clear(a: array<char>, j: nat)
    requires a.Length > MAX_LEN
    modifies a
    ensures forall k :: 0 <= k < a.Length && (k < j || k > MAX_LEN) ==> a[k] == old(a[k])
    ensures forall k :: j <= k <= MAX_LEN ==> a[k] == '\0'
  {
    var i := j;
    while i <= MAX_LEN
      invariant forall k :: 0 <= k < a.Length && (k < j || k >= i || k > MAX_LEN) ==> a[k] == old(a[k])
      invariant forall k :: j <= k < i && k <= MAX_LEN ==> a[k] == '\0'
      decreases MAX_LEN + 1 - i
    {
      a[i] := '\0';
      i := i + 1;
    }
  }

  /** A text is not empty before its `j`th character when none of those is zero. */
  lemma TextLonger(s: string, t: string)
    requires t <= s && '\0' !in t && '\0' in s
    ensures t <= Text(s)
  {
    assert forall k :: 0 <= k < |t| ==> s[k] == t[k] && t[k] in t;
  }

  lemma AllowedNulFree(s: string)
    ensures '\0' !in Cut(Allowed(s), MAX_LEN)
  {
    forall c | c in Cut(Allowed(s), MAX_LEN)
      ensures c != '\0'
    {
      var k :| 0 <= k < |Cut(Allowed(s), MAX_LEN)| && Cut(Allowed(s), MAX_LEN)[k] == c;
      assert IsNickChar(Allowed(s)[k]);
    }
  }

  lemma CutLonger(t: string, o: string)
    requires t <= o && |t| <= MAX_LEN && '\0' !in o
    ensures var r := Cut("_" + o, MAX_LEN - 1); |r| < MAX_LEN && '\0' !in r
    ensures var r := Cut("_" + o, MAX_LEN - 1);
            Cut("_" + t, MAX_LEN - 1) == if |t| + 1 <= |r| then r[..|t| + 1] else r
  {}

  /** nick_strip: the old characters that are still behind the kept ones are cleared at the end. */
  method Strip(a: array<char>)
    requires a.Length > MAX_LEN && '\0' in a[..]
    modifies a
    ensures Text(a[..]) == Stripped(old(Text(a[..])))
  {
    hide IsNickChar, Allowed, Text, Cut;
    ghost var s := Text(a[..]);
    ghost var t := Cut(Allowed(s), MAX_LEN);
    AllowedNulFree(s);
    var j := Squeeze(a);
    StrippedDef(s);
    if IsDigit(a[0]) {
      assert a[..j] <= a[..];
      TextLonger(a[..], t);
      CutLonger(t, Text(a[..]));
      ghost var r := Cut("_" + Text(a[..]), MAX_LEN - 1);
      Prefix(a);
      j := j + 1;
      Clear(a, j);
      Ending(a[..], r, j);
    } else {
      Clear(a, j);
      assert a[..][j] == '\0' && a[..][..j] == t;
      TextIs(a[..], j);
    }
  }

  lemma StrippedDef(s: string)
    ensures var t := Cut(Allowed(s), MAX_LEN);
            Stripped(s) == if t != "" && IsDigit(t[0]) then Cut("_" + t, MAX_LEN - 1) else t
  {}

  /** The text ends at its own zero, or where the buffer was cleared. */
  lemma Ending(s: string, r: string, j: nat)
    requires |s| > MAX_LEN && |r| < MAX_LEN && '\0' !in r && j <= MAX_LEN + 1
    requires forall k :: 0 <= k < |r| && k < j ==> s[k] == r[k]
    requires |r| < j ==> s[|r|] == '\0'
    requires forall k :: j <= k <= MAX_LEN ==> s[k] == '\0'
    ensures Text(s) == if j <= |r| then r[..j] else r
  {
    var n := if j <= |r| then j else |r|;
    assert s[..n] == r[..n];
    TextIs(s, n);
  }
}
