/** The characters of nicks and how they compare (nick.c). */
module NickChars {
  /** `n` successive characters. */
  function Series(c: char, n: nat): (s: string)
    requires c as int + n < 0x80
    ensures |s| == n && forall i :: 0 <= i < n ==> s[i] as int == c as int + i
  {
    seq(n, i requires 0 <= i < n => (c as int + i) as char)
  }

  const LC_REST := "{}^`-_|"
  const UC_REST := "[]~`-_\\"

  /** nick_lc_chars and nick_uc_chars: digits, letters, and seven others. */
  function LcChars(): string {
    Series('0', 10) + Series('a', 26) + LC_REST
  }

  function UcChars(): string {
    Series('0', 10) + Series('A', 26) + UC_REST
  }

  predicate IsDigit(c: char) {
    '0' <= c <= '9'
  }

  predicate IsNickChar(c: char) {
    IsDigit(c) || 'a' <= c <= 'z' || 'A' <= c <= 'Z' || c in LC_REST || c in UC_REST
  }

  /** The table of nick_lc. */
  function Fold(c: char): char {
    if 'A' <= c <= 'Z' then c - 'A' + 'a'
    else if c == '[' then '{'
    else if c == ']' then '}'
    else if c == '~' then '^'
    else if c == '\\' then '|'
    else c
  }

  /** The two strings are the two columns of that table. */
  lemma Tables(i: nat)
    requires i < |LcChars()|
    ensures |LcChars()| == |UcChars()|
    ensures Fold(LcChars()[i]) == LcChars()[i] && Fold(UcChars()[i]) == LcChars()[i]
  {
    var d, l, u := Series('0', 10), Series('a', 26), Series('A', 26);
    if i < 10 {
      assert LcChars()[i] == d[i] && UcChars()[i] == d[i];
    } else if i < 36 {
      assert LcChars()[i] == l[i - 10] && UcChars()[i] == u[i - 10];
    } else {
      assert LcChars()[i] == LC_REST[i - 36] && UcChars()[i] == UC_REST[i - 36];
    }
  }

  /** Every nick character is in one of the strings. */
  lemma InTables(c: char)
    ensures IsNickChar(c) <==> c in LcChars() || c in UcChars()
  {
    if IsDigit(c) {
      assert Series('0', 10)[c as int - '0' as int] == c;
    } else if 'a' <= c <= 'z' {
      assert Series('a', 26)[c as int - 'a' as int] == c;
    } else if 'A' <= c <= 'Z' {
      assert Series('A', 26)[c as int - 'A' as int] == c;
    }
  }

  /** The allowed characters, written out. */
  lemma Characters(c: char)
    ensures IsNickChar(c) <==>
              || c in "0123456789abcdefghijklmnopqrstuvwxyz{}^`-_|"
              || c in "0123456789ABCDEFGHIJKLMNOPQRSTUVWXYZ[]~`-_\\"
  {
    SmallCharacters(c);
    LargeCharacters(c);
  }

  lemma SmallCharacters(c: char)
    ensures c in "0123456789abcdefghijklmnopqrstuvwxyz{}^`-_|" <==> IsDigit(c) || 'a' <= c <= 'z' || c in LC_REST
  {}

  lemma LargeCharacters(c: char)
    ensures c in "0123456789ABCDEFGHIJKLMNOPQRSTUVWXYZ[]~`-_\\" <==> IsDigit(c) || 'A' <= c <= 'Z' || c in UC_REST
  {}

  /** Two characters count as the same when they are, or are one letter in both cases, or one of the
      four pairs that RFC 1459 names in section 2.2. */
  lemma Alike(c: char, d: char)
    requires IsNickChar(c) && IsNickChar(d)
    ensures Fold(c) == Fold(d) <==>
              || c == d
              || ('a' <= c <= 'z' && c as int == d as int + 32) || ('a' <= d <= 'z' && d as int == c as int + 32)
              || [c, d] in ["[{", "]}", "~^", "\\|"] || [d, c] in ["[{", "]}", "~^", "\\|"]
  {}

  /** nick_lc: Bad when a character is not allowed. */
  datatype Folded = Folded(text: string) | Bad

  function Lc(s: string): (r: Folded)
    ensures r.Folded? ==> |r.text| == |s| && forall i :: 0 <= i < |s| ==> IsNickChar(s[i]) && r.text[i] == Fold(s[i])
    ensures r.Bad? ==> exists i :: 0 <= i < |s| && !IsNickChar(s[i])
  {
    if forall i :: 0 <= i < |s| ==> IsNickChar(s[i])
    then Folded(seq(|s|, i requires 0 <= i < |s| => Fold(s[i])))
    else Bad
  }

  /** nick_cmp compares the first 1023 characters. */
  function Head(s: string): string {
    if |s| <= 1023 then s else s[..1023]
  }

  /** nick_cmp(a, b) == 0. */
  predicate SameNick(a: string, b: string) {
    Lc(Head(a)).Folded? && Lc(Head(a)) == Lc(Head(b))
  }

  lemma SameNickIs(a: string, b: string)
    requires |a| <= 1023 && |b| <= 1023
    ensures SameNick(a, b) <==>
              |a| == |b| && forall i :: 0 <= i < |a| ==> IsNickChar(a[i]) && IsNickChar(b[i]) && Fold(a[i]) == Fold(b[i])
  {
    hide IsNickChar, Fold;
    if |a| == |b| && Lc(a).Folded? && Lc(b).Folded? && (forall i :: 0 <= i < |a| ==> Fold(a[i]) == Fold(b[i])) {
      assert Lc(a).text == Lc(b).text;
    }
  }

  /** A nick of at most 1022 characters is compared in full, whatever it is compared with. */
  lemma SameNickShort(a: string, b: string)
    requires |a| <= 1023 && (|a| < 1023 || |b| <= 1023)
    ensures SameNick(a, b) <==> Lc(b).Folded? && Lc(a) == Lc(b)
  {
    hide IsNickChar, Fold;
  }
}
