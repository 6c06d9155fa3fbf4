/** Percent-encoding (http_encode and http_decode of lib/misc.c). */
module Http {
  import opened CStrings
  import opened Options

  predicate Unreserved(c: char) {
    'A' <= c <= 'Z' || 'a' <= c <= 'z' || '0' <= c <= '9' || c in "._-~"
  }

  function Digit(n: nat): char
    requires n < 16
  {
    if n < 10 then '0' + n as char else 'A' + (n - 10) as char
  }

  function Value(c: char): Option<nat> {
    if '0' <= c <= '9' then Some(c as int - '0' as int)
    else if 'A' <= c <= 'F' then Some(c as int - 'A' as int + 10)
    else if 'a' <= c <= 'f' then Some(c as int - 'a' as int + 10)
    else None
  }

  predicate Bytes(s: string) {
    forall i :: 0 <= i < |s| ==> s[i] as int < 256
  }

  function Escape(c: char): (r: string)
    requires c as int < 256
    ensures 1 <= |r| <= 3
  {
    if Unreserved(c) then [c] else ['%', Digit(c as int / 16), Digit(c as int % 16)]
  }

  function Encoded(s: string): (r: string)
    requires Bytes(s)
    ensures |r| <= 3 * |s|
  {
    if s == "" then "" else Escape(s[0]) + Encoded(s[1..])
  }

  /** What the loop of http_decode makes of a string: a text, nothing at all, or a step past the
      end of the string. */
  datatype Outcome = Good(text: string) | Cleared | Overrun {
    function After(acc: string): Outcome {
      if Good? then Good(acc + text) else this
    }
  }

  /** sscanf("%2x") on what is behind a percent sign; `odd` is what it gives where no two hexadecimal
      digits follow. */
  function Scan(s: string, odd: string -> Option<nat>): Option<nat> {
    if |s| >= 2 && Value(s[0]).Some? && Value(s[1]).Some? then Some(Value(s[0]).value * 16 + Value(s[1]).value) else odd(s)
  }

  function Decoded(s: string, odd: string -> Option<nat>): Outcome
    decreases |s|
  {
    if s == "" then Good("")
    else if s[0] != '%' then Decoded(s[1..], odd).After([s[0]])
    else
      var k := Scan(s[1..], odd);
      if k.None? then Cleared
      else if |s| < 3 then Overrun
      else Decoded(s[3..], odd).After([(k.value % 256) as char])
  }

  lemma DigitBack(n: nat)
    requires n < 16
    ensures Value(Digit(n)) == Some(n) && Unreserved(Digit(n))
  {}

  lemma EscapeBack(c: char, rest: string, odd: string -> Option<nat>)
    requires c as int < 256
    ensures Decoded(Escape(c) + rest, odd) == Decoded(rest, odd).After([c])
    ensures forall i :: 0 <= i < |Escape(c)| ==> Unreserved(Escape(c)[i]) || Escape(c)[i] == '%'
  {
    hide Value, Digit;
    var s := Escape(c) + rest;
    if Unreserved(c) {
      assert s[0] == c && s[1..] == rest;
    } else {
      var a, b: nat := c as int / 16, c as int % 16;
      DigitBack(a);
      DigitBack(b);
      assert s[1..][0] == Digit(a) && s[1..][1] == Digit(b) && s[3..] == rest;
      assert Scan(s[1..], odd) == Some(a * 16 + b);
      assert (c as int % 256) as char == c;
    }
  }

  /** http_decode undoes http_encode. */
  lemma {:induction false} DecodeEncode(s: string, odd: string -> Option<nat>)
    requires Bytes(s)
    ensures Decoded(Encoded(s), odd) == Good(s)
  {
    hide Escape;
    if s != "" {
      EscapeBack(s[0], Encoded(s[1..]), odd);
      DecodeEncode(s[1..], odd);
      assert s == [s[0]] + s[1..];
    }
  }

  /** Only unreserved characters and percent signs come out. */
  lemma {:induction false} EncodedChars(s: string)
    requires Bytes(s)
    ensures forall i :: 0 <= i < |Encoded(s)| ==> Unreserved(Encoded(s)[i]) || Encoded(s)[i] == '%'
  {
    hide Escape, Unreserved;
    if s != "" {
      EscapeBack(s[0], "", s => None);
      EncodedChars(s[1..]);
    }
  }

  /** What a hexadecimal digit of an escape stands for. */
  ghost function Nibble(c: char): int {
    if '0' <= c <= '9' then c as int - '0' as int else if 'A' <= c <= 'F' then c as int - 'A' as int + 10 else -1
  }

  /** Section 2 of RFC 3986: an unreserved character stays as it is, and any other becomes a percent sign
      and its two upper-case hexadecimal digits. */
  lemma Escapes(c: char)
    requires c as int < 256
    ensures var r := Escape(c);
            if c in "ABCDEFGHIJKLMNOPQRSTUVWXYZ" || c in "abcdefghijklmnopqrstuvwxyz" || c in "0123456789-._~" then r == [c]
            else |r| == 3 && r[0] == '%' && Nibble(r[1]) >= 0 && Nibble(r[2]) >= 0
                 && 16 * Nibble(r[1]) + Nibble(r[2]) == c as int
  {
    UnreservedIs(c);
    hide Unreserved;
    if !Unreserved(c) {
      DigitNibble(c as int / 16);
      DigitNibble(c as int % 16);
    }
  }

  lemma UnreservedIs(c: char)
    ensures Unreserved(c) <==> || c in "ABCDEFGHIJKLMNOPQRSTUVWXYZ" || c in "abcdefghijklmnopqrstuvwxyz"
                               || c in "0123456789-._~"
  {}

  lemma DigitNibble(n: nat)
    requires n < 16
    ensures Nibble(Digit(n)) == n
  {}

  /** The digits that are read back: those that are written, and their lower-case forms. */
  lemma Digits(c: char)
    ensures Value(c).Some? <==> c in "0123456789ABCDEFabcdef"
    ensures Nibble(c) >= 0 ==> Value(c) == Some(Nibble(c))
    ensures c in "abcdef" ==> Value(c) == Some(Nibble((c as int - 32) as char))
  {}

  lemma {:induction false} EncodedSnoc(s: string, c: char)
    requires Bytes(s) && c as int < 256
    ensures Bytes(s + [c]) && Encoded(s + [c]) == Encoded(s) + Escape(c)
  {
    hide Escape;
    if s == "" {
      assert "" + [c] == [c] && [c][1..] == "";
      assert Escape(c) + "" == Escape(c);
    } else {
      assert (s + [c])[1..] == s[1..] + [c];
      EncodedSnoc(s[1..], c);
    }
  }

  /** http_encode; the caller has made room. */
  method Encode(s: array<char>)
    requires '\0' in s[..] && Bytes(Text(s[..])) && 3 * |Text(s[..])| < s.Length
    modifies s
    ensures '\0' in s[..] && Text(s[..]) == Encoded(old(Text(s[..])))
  {
    hide Text, Encoded, Escape, Unreserved, Digit;
    ghost var text := Text(s[..]);
    assert s[0..] == s[..];
    var t := StrDup(s, 0);
    var n := StrLen(t);
    var i, j := 0, 0;
    EncodedNothing();
    while t[i] != '\0'
      invariant i <= n == |text| && j <= 3 * i && Bytes(text[..i]) && s[..j] == Encoded(text[..i]) && t[..n] == text && t[n] == '\0'
      decreases n - i
    {
      EncodedSnoc(text[..i], t[i]);
      assert text[..i + 1] == text[..i] + [t[i]];
      j := Put(s, j, t[i]);
      i := i + 1;
    }
    s[j] := '\0';
    assert text[..i] == text;
    Closed(s, j, text);
  }

  /** A character as it is, or a percent sign and two digits. */
  method Put(s: array<char>, j: nat, c: char) returns (k: nat)
    requires c as int < 256 && j + 3 <= s.Length
    modifies s
    ensures j < k <= j + 3 && s[..k] == old(s[..j]) + Escape(c)
  {
    hide Escape, Unreserved, Digit;
    EscapeIs(c);
    k := j + 1;
    if Unreserved(c) {
      s[j] := c;
    } else {
      var n := c as int;
      s[j] := '%';
      s[j + 1] := Digit(n / 16);
      s[j + 2] := Digit(n % 16);
      k := k + 2;
    }
  }

  lemma EncodedNothing()
    ensures Encoded("") == ""
  {}

  lemma EscapeIs(c: char)
    requires c as int < 256
    ensures Escape(c) == if Unreserved(c) then [c] else ['%', Digit(c as int / 16), Digit(c as int % 16)]
  {}

  lemma Closed(s: array<char>, j: nat, text: string)
    requires j < s.Length && s[j] == '\0' && Bytes(text) && s[..j] == Encoded(text)
    ensures '\0' in s[..] && Text(s[..]) == Encoded(text)
  {
    EncodedChars(text);
    assert s[..][j] == '\0' && s[..][..j] == s[..j];
    TextIs(s[..], j);
  }

  /** The percent signs that the loop finds from `from` on, if nothing stops it: it goes on behind the
      two characters that follow one. */
  function Percents(s: string, from: nat): (r: seq<nat>)
    ensures forall k :: 0 <= k < |r| ==> from <= r[k] < |s| && s[r[k]] == '%' && (k < |r| - 1 ==> r[k] + 3 <= |s|)
    decreases |s| - from
  {
    if from >= |s| then []
    else if s[from] != '%' then Percents(s, from + 1)
    else [from] + Percents(s, from + 3)
  }

  /** sscanf finds a number behind every one of them. */
  predicate AllScan(s: string, ps: seq<nat>, odd: string -> Option<nat>) {
    forall k :: 0 <= k < |ps| ==> ps[k] < |s| && Scan(s[ps[k] + 1..], odd).Some?
  }

  lemma PercentsIs(s: string, from: nat)
    requires from < |s|
    ensures s[from] != '%' ==> Percents(s, from) == Percents(s, from + 1)
    ensures s[from] == '%' ==> Percents(s, from) == [from] + Percents(s, from + 3)
  {}

  lemma AllScanIs(s: string, from: nat, ps: seq<nat>, odd: string -> Option<nat>)
    requires from < |s|
    ensures AllScan(s, [from] + ps, odd) <==> Scan(s[from + 1..], odd).Some? && AllScan(s, ps, odd)
  {
    hide Scan;
    var all := [from] + ps;
    assert all[0] == from && forall k :: 0 <= k < |ps| ==> all[k + 1] == ps[k];
    if AllScan(s, all, odd) {
      forall k | 0 <= k < |ps|
        ensures ps[k] < |s| && Scan(s[ps[k] + 1..], odd).Some?
      {
        assert all[k + 1] == ps[k];
      }
    }
    if Scan(s[from + 1..], odd).Some? && AllScan(s, ps, odd) {
      forall k | 0 <= k < |all|
        ensures all[k] < |s| && Scan(s[all[k] + 1..], odd).Some?
      {
        if k > 0 {
          assert all[k] == ps[k - 1];
        }
      }
    }
  }

  lemma {:induction false} DecodedCases(s: string, from: nat, odd: string -> Option<nat>)
    requires from <= |s|
    ensures var d, ps := Decoded(s[from..], odd), Percents(s, from);
            && (d.Cleared? <==> !AllScan(s, ps, odd))
            && (d.Overrun? <==> AllScan(s, ps, odd) && ps != [] && ps[|ps| - 1] + 3 > |s|)
    decreases |s| - from
  {
    hide Decoded, Percents, AllScan, Scan;
    if from == |s| {
      assert s[from..] == "";
      DecodedStart("", odd);
      NoPercents(s, odd);
    } else {
      var t := s[from..];
      DecodedIs(t, odd);
      PercentsIs(s, from);
      AllScanIs(s, from, Percents(s, from + 3), odd);
      assert t[0] == s[from] && t[1..] == s[from + 1..];
      if s[from] != '%' {
        DecodedCases(s, from + 1, odd);
      } else if |t| >= 3 {
        assert t[3..] == s[from + 3..];
        DecodedCases(s, from + 3, odd);
      } else {
        NoPercentsBehind(s, from + 3, odd);
      }
    }
  }

  /** The string is emptied exactly if no number follows some percent sign that the loop finds. If a
      number follows every one, the loop steps past the end exactly if the last one it finds is among
      the last two characters. */
  lemma Outcomes(s: string, odd: string -> Option<nat>)
    ensures var d, ps := Decoded(s, odd), Percents(s, 0);
            && (d.Cleared? <==> !AllScan(s, ps, odd))
            && (d.Overrun? <==> AllScan(s, ps, odd) && ps != [] && ps[|ps| - 1] + 3 > |s|)
  {
    hide Decoded, Percents, AllScan;
    assert s[0..] == s;
    DecodedCases(s, 0, odd);
  }

  lemma NoPercents(s: string, odd: string -> Option<nat>)
    ensures Percents(s, |s|) == [] && AllScan(s, [], odd)
  {}

  lemma NoPercentsBehind(s: string, from: nat, odd: string -> Option<nat>)
    requires from > |s|
    ensures Percents(s, from) == [] && AllScan(s, [], odd)
  {}

  /** A percent sign at the very end makes the loop step past it whenever sscanf reports anything but 0
      on an empty input; it reports -1 there. */
  lemma PercentAtEnd(p: string, odd: string -> Option<nat>)
    requires '%' !in p && odd("").Some?
    ensures Decoded(p + "%", odd).Overrun?
  {
    hide Decoded, AllScan;
    var s := p + "%";
    PercentsFrom(p, 0);
    assert s[|p| + 1..] == "";
    assert AllScan(s, [|p|], odd) by {
      OneScan(s, |p|, odd);
    }
    Outcomes(s, odd);
  }

  lemma OneScan(s: string, n: nat, odd: string -> Option<nat>)
    requires n < |s|
    ensures AllScan(s, [n], odd) <==> Scan(s[n + 1..], odd).Some?
  {
    hide Scan;
    assert [n][0] == n;
  }

  lemma {:induction false} PercentsFrom(p: string, from: nat)
    requires '%' !in p && from <= |p|
    ensures Percents(p + "%", from) == [|p|]
    decreases |p| - from
  {
    if from < |p| {
      assert p[from] in p;
      PercentsFrom(p, from + 1);
    }
  }

  lemma DecodedIs(s: string, odd: string -> Option<nat>)
    requires s != ""
    ensures s[0] != '%' ==> Decoded(s, odd) == Decoded(s[1..], odd).After([s[0]])
    ensures s[0] == '%' && Scan(s[1..], odd).None? ==> Decoded(s, odd) == Cleared
    ensures s[0] == '%' && Scan(s[1..], odd).Some? && |s| < 3 ==> Decoded(s, odd) == Overrun
    ensures s[0] == '%' && Scan(s[1..], odd).Some? && |s| >= 3 ==>
              Decoded(s, odd) == Decoded(s[3..], odd).After([(Scan(s[1..], odd).value % 256) as char])
  {}

  lemma AfterTwice(d: Outcome, a: string, b: string)
    ensures d.After(b).After(a) == d.After(a + b)
  {
    assert d.Good? ==> a + (b + d.text) == a + b + d.text;
  }

  /** http_decode. A percent sign that no number follows empties the string; one so near the end that
      the loop goes on behind the zero is reported, and what the code then reads is not part of this
      model. */
  method Decode(s: array<char>, odd: string -> Option<nat>) returns (overrun: bool)
    requires '\0' in s[..]
    modifies s
    ensures '\0' in s[..]
    ensures var was := old(Text(s[..]));
            match Decoded(was, odd)
            case Good(text) => !overrun && Text(s[..]) == Text(text)
            case Cleared => !overrun && Text(s[..]) == ""
            case Overrun => overrun && Text(s[..]) == was
  {
    hide Text, Decoded, Scan;
    ghost var text := Text(s[..]);
    var n := StrLen(s);
    var t := new char[n + 1];
    var i, j := 0, 0;
    DecodedStart(text, odd);
    assert t[..0] == "" && text[0..] == text;
    while s[i] != '\0'
      invariant j <= i <= n == |text| < s.Length && s[..n] == text && s[n] == '\0'
      invariant Decoded(text, odd) == Decoded(text[i..], odd).After(t[..j])
      decreases n - i
    {
      ghost var acc := t[..j];
      ghost var rest := text[i..];
      DecodedIs(rest, odd);
      assert rest[0] == s[i];
      if s[i] == '%' {
        assert rest[1..] == text[i + 1..] == s[i + 1..n];
        var k := Scan(s[i + 1..n], odd);
        if k.None? {
          t[0] := '\0';
          StrCpy(s, t, 0);
          return false;
        }
        t[j] := (k.value % 256) as char;
        if i + 3 > n {
          return true;
        }
        assert rest[3..] == text[i + 3..];
        i := i + 2;
      } else {
        assert rest[1..] == text[i + 1..];
        t[j] := s[i];
      }
      AfterTwice(Decoded(text[i + 1..], odd), acc, [t[j]]);
      assert t[..j + 1] == acc + [t[j]];
      i := i + 1;
      j := j + 1;
    }
    assert text[i..] == "";
    DecodedStart("", odd);
    assert t[..j] + "" == t[..j];
    t[j] := '\0';
    StrCpy(s, t, j);
    overrun := false;
  }

  lemma DecodedStart(text: string, odd: string -> Option<nat>)
    ensures Decoded(text, odd).After("") == Decoded(text, odd)
    ensures Decoded("", odd) == Good("")
  {
    var d := Decoded(text, odd);
    assert d.Good? ==> "" + d.text == d.text;
  }
}
