/** Parameter lists of OAuth requests and stored tokens (lib/oauth.c). */
module OAuth {
  import opened CStrings
  import opened Http
  import opened Options

  type Odd = string -> Option<nat>

  /** An entry of the list: key, equals sign, value. */
  predicate Item(x: string) {
    '=' in x && '\0' !in x && Bytes(x)
  }

  predicate Items(ps: seq<string>) {
    forall x :: x in ps ==> Item(x)
  }

  /** strchr. */
  function Find(s: string, c: char): (n: nat)
    ensures n <= |s| && c !in s[..n] && (n < |s| ==> s[n] == c)
  {
    if s == "" || s[0] == c then 0
    else
      var n := Find(s[1..], c);
      assert s[..n + 1] == [s[0]] + s[1..][..n];
      n + 1
  }

  lemma {:induction false} FindIs(s: string, c: char, n: nat)
    requires n <= |s| && c !in s[..n] && (n < |s| ==> s[n] == c)
    ensures Find(s, c) == n
  {
    if n > 0 {
      assert s[..n][0] == s[0] && s[1..][..n - 1] == s[..n][1..];
      FindIs(s[1..], c, n - 1);
    }
  }

  // ---------------------------------------------------------------- the list

  predicate Ordered(ps: seq<string>) {
    forall i, j :: 0 <= i < j < |ps| ==> Compare(ps[i], ps[j]) <= 0
  }

  /** g_slist_insert_sorted with strcmp. */
  function Insert(ps: seq<string>, x: string): (r: seq<string>)
    ensures forall y :: y in r <==> y == x || y in ps
  {
    if ps == [] then [x]
    else if Compare(x, ps[0]) <= 0 then [x] + ps
    else
      var r := Insert(ps[1..], x);
      assert ps == [ps[0]] + ps[1..];
      [ps[0]] + r
  }

  lemma AtMost(a: string, b: string, c: string)
    requires Compare(a, b) <= 0 && Compare(b, c) <= 0
    ensures Compare(a, c) <= 0
  {
    hide Compare;
    CompareIs(a, b);
    CompareIs(b, c);
    if Compare(a, b) < 0 && Compare(b, c) < 0 {
      CompareChain(a, b, c);
    }
  }

  lemma {:induction false} InsertOrdered(ps: seq<string>, x: string)
    requires Ordered(ps)
    ensures Ordered(Insert(ps, x))
  {
    hide Compare;
    if ps != [] {
      if Compare(x, ps[0]) <= 0 {
        forall j | 0 <= j < |ps|
          ensures Compare(x, ps[j]) <= 0
        {
          if j > 0 {
            AtMost(x, ps[0], ps[j]);
          }
        }
      } else {
        InsertOrdered(ps[1..], x);
        var r := Insert(ps[1..], x);
        CompareIs(ps[0], x);
        CompareIs(x, ps[0]);
        forall j | 0 <= j < |r|
          ensures Compare(ps[0], r[j]) <= 0
        {
          assert r[j] in r;
          if r[j] != x {
            var k :| 0 <= k < |ps[1..]| && ps[1..][k] == r[j];
            assert ps[k + 1] == r[j];
          }
        }
      }
    }
  }

  /** The next entry in order goes to the end. */
  lemma {:induction false} InsertLast(ps: seq<string>, x: string)
    requires Ordered(ps + [x])
    ensures Insert(ps, x) == ps + [x]
  {
    hide Compare;
    if ps != [] {
      var all := ps + [x];
      assert all[0] == ps[0] && all[|ps|] == x && Compare(all[0], all[|ps|]) <= 0;
      CompareIs(ps[0], x);
      CompareIs(x, ps[0]);
      if Compare(x, ps[0]) <= 0 {
        assert ps[0] == x;
        forall j | 0 <= j < |ps|
          ensures ps[j] == x
        {
          assert Compare(all[j], all[|ps|]) <= 0;
          if j > 0 {
            assert Compare(all[0], all[j]) <= 0;
          }
          CompareIs(ps[j], x);
          CompareIs(x, ps[j]);
        }
        assert [x] + ps == ps + [x];
      } else {
        assert forall i :: 0 <= i < |ps| ==> (ps[1..] + [x])[i] == all[i + 1];
        InsertLast(ps[1..], x);
        assert [ps[0]] + (ps[1..] + [x]) == ps + [x];
      }
    }
  }

  // ---------------------------------------------------------------- printing and parsing

  /** An entry with its value encoded. */
  function Escaped(x: string): string
    requires Bytes(x)
  {
    var n := Find(x, '=');
    if n == |x| then x else x[..n + 1] + Encoded(x[n + 1..])
  }

  function Printed(ps: seq<string>): string
    requires Items(ps)
  {
    if ps == [] then ""
    else
      assert Item(ps[0]);
      if |ps| == 1 then Escaped(ps[0])
      else Escaped(ps[0]) + ("&" + Printed(ps[1..]))
  }

  /** The C string that http_decode leaves. */
  function CText(d: Outcome): string
    requires !d.Overrun?
  {
    if d.Good? then Text(d.text) else ""
  }

  /** oauth_params_parse adds what it finds to `ps`; None where http_decode leaves its string. */
  function Parsed(ps: seq<string>, s: string, odd: Odd): Option<seq<string>>
    decreases |s|
  {
    var n := Find(s, '=');
    if n == |s| then Some(ps)
    else
      var rest := s[n + 1..];
      var m := Find(rest, '&');
      var d := Decoded(rest[..m], odd);
      if d.Overrun? then None
      else
        var more := Insert(ps, s[..n + 1] + CText(d));
        if m == |rest| then Some(more) else Parsed(more, rest[m + 1..], odd)
  }

  lemma FirstItem(x: string, tail: string, odd: Odd)
    requires Item(x) && (tail == "" || tail[0] == '&')
    ensures var s := Escaped(x) + tail;
            var n := Find(s, '=');
            && n < |s| && n < |x| && s[..n + 1] == x[..n + 1]
            && var rest := s[n + 1..];
               var m := Find(rest, '&');
               rest[m..] == tail && Decoded(rest[..m], odd) == Good(x[n + 1..])
  {
    hide Decoded, Encoded, Find;
    var n := Find(x, '=');
    var s := Escaped(x) + tail;
    var v := Encoded(x[n + 1..]);
    assert n < |x|;
    Parts(x, n, v, tail);
    FindIs(s, '=', n);
    FirstValue(x[n + 1..], tail);
    DecodeEncode(x[n + 1..], odd);
  }

  lemma Parts(x: string, n: nat, v: string, tail: string)
    requires n < |x|
    ensures var s := x[..n + 1] + v + tail;
            s[..n] == x[..n] && s[n] == x[n] && s[n + 1..] == v + tail && s[..n + 1] == x[..n + 1]
  {}

  lemma FirstValue(text: string, tail: string)
    requires Bytes(text) && (tail == "" || tail[0] == '&')
    ensures var v := Encoded(text);
            Find(v + tail, '&') == |v| && (v + tail)[..|v|] == v && (v + tail)[|v|..] == tail
  {
    hide Encoded;
    var v := Encoded(text);
    EncodedChars(text);
    assert (v + tail)[..|v|] == v && (v + tail)[|v|..] == tail;
    NoAmpersand(v);
    FindIs(v + tail, '&', |v|);
  }

  lemma NoAmpersand(v: string)
    requires forall i :: 0 <= i < |v| ==> Unreserved(v[i]) || v[i] == '%'
    ensures '&' !in v
  {}

  lemma TextWhole(s: string)
    requires '\0' !in s
    ensures Text(s) == s
  {
    assert s[..|s|] == s;
    TextIs(s, |s|);
  }

  lemma ParseItem(ps: seq<string>, x: string, tail: string, odd: Odd)
    requires Item(x) && (tail == "" || tail[0] == '&')
    ensures Parsed(ps, Escaped(x) + tail, odd) ==
              if tail == "" then Some(Insert(ps, x)) else Parsed(Insert(ps, x), tail[1..], odd)
  {
    hide Decoded, Encoded, Escaped, Insert, Find, Text, Parsed;
    FirstItem(x, tail, odd);
    ParseBy(ps, Escaped(x) + tail, Find(Escaped(x) + tail, '='), x, tail, odd);
  }

  lemma ParseBy(ps: seq<string>, s: string, n: nat, x: string, tail: string, odd: Odd)
    requires n == Find(s, '=') < |s| && n < |x| && s[..n + 1] == x[..n + 1] && '\0' !in x
    requires var rest := s[n + 1..];
             rest[Find(rest, '&')..] == tail && Decoded(rest[..Find(rest, '&')], odd) == Good(x[n + 1..])
    ensures Parsed(ps, s, odd) == if tail == "" then Some(Insert(ps, x)) else Parsed(Insert(ps, x), tail[1..], odd)
  {
    hide Decoded, Insert, Find, Text, Parsed;
    ParsedOnce(ps, s, odd);
    TextWhole(x[n + 1..]);
    assert x[..n + 1] + x[n + 1..] == x;
    Behind(s[n + 1..], Find(s[n + 1..], '&'), tail);
  }

  lemma Behind(rest: string, m: nat, tail: string)
    requires m <= |rest| && rest[m..] == tail
    ensures m == |rest| <==> tail == ""
    ensures tail != "" ==> rest[m + 1..] == tail[1..]
  {
    assert rest == rest[..m] + tail;
  }

  lemma {:induction false} ParseRest(done: seq<string>, ps: seq<string>, odd: Odd)
    requires Items(ps) && Ordered(done + ps)
    ensures Parsed(done, Printed(ps), odd) == Some(done + ps)
    decreases |ps|
  {
    hide Parsed, Escaped, Insert, Compare;
    if ps == [] {
      ParseNothing(done, odd);
      assert done + ps == done;
    } else {
      var x := ps[0];
      assert x in ps && (done + ps)[..|done| + 1] == done + [x];
      OrderedPart(done + ps, |done| + 1);
      InsertLast(done, x);
      if |ps| == 1 {
        assert ps == [x] && Escaped(x) + "" == Escaped(x);
        ParseItem(done, x, "", odd);
      } else {
        var tail := "&" + Printed(ps[1..]);
        assert tail[1..] == Printed(ps[1..]);
        ParseItem(done, x, tail, odd);
        assert done + ps == done + [x] + ps[1..];
        ParseRest(done + [x], ps[1..], odd);
      }
    }
  }

  lemma OrderedPart(ps: seq<string>, n: nat)
    requires Ordered(ps) && n <= |ps|
    ensures Ordered(ps[..n])
  {
    hide Compare;
  }

  lemma ParseNothing(ps: seq<string>, odd: Odd)
    ensures Parsed(ps, "", odd) == Some(ps)
  {}

  lemma {:induction false} ParsedOrdered(ps: seq<string>, s: string, odd: Odd)
    requires Ordered(ps)
    ensures Parsed(ps, s, odd).Some? ==> Ordered(Parsed(ps, s, odd).value)
    decreases |s|
  {
    hide Insert, Compare, Decoded, Find;
    var n := Find(s, '=');
    if n < |s| {
      var rest := s[n + 1..];
      var m := Find(rest, '&');
      var d := Decoded(rest[..m], odd);
      if !d.Overrun? {
        var x := s[..n + 1] + CText(d);
        InsertOrdered(ps, x);
        if m < |rest| {
          ParsedOrdered(Insert(ps, x), rest[m + 1..], odd);
        }
      }
    }
  }

  /** Parsing what was printed gives the list back exactly if the list is in order. */
  lemma RoundTrip(ps: seq<string>, odd: Odd)
    requires Items(ps)
    ensures Parsed([], Printed(ps), odd) == Some(ps) <==> Ordered(ps)
  {
    hide Parsed, Printed, Compare;
    if Ordered(ps) {
      assert [] + ps == ps;
      ParseRest([], ps, odd);
    } else {
      ParsedOrdered([], Printed(ps), odd);
    }
  }

  // ---------------------------------------------------------------- looking up

  /** The first value with this key. */
  function Get(ps: seq<string>, key: string): Option<string> {
    if ps == [] then None
    else if key + "=" <= ps[0] then Some(ps[0][|key| + 1..])
    else Get(ps[1..], key)
  }

  function Del(ps: seq<string>, key: string): (r: seq<string>)
    ensures forall x :: x in r <==> x in ps && !(key + "=" <= x)
  {
    if ps == [] then []
    else
      assert ps == [ps[0]] + ps[1..];
      if key + "=" <= ps[0] then Del(ps[1..], key) else [ps[0]] + Del(ps[1..], key)
  }

  function Add(ps: seq<string>, key: Option<string>, value: Option<string>): seq<string> {
    if key.None? || value.None? then ps else Insert(ps, key.value + "=" + value.value)
  }

  lemma {:induction false} DelOrdered(ps: seq<string>, key: string)
    requires Ordered(ps)
    ensures Ordered(Del(ps, key))
  {
    hide Compare;
    if ps != [] {
      DelOrdered(ps[1..], key);
      var r := Del(ps[1..], key);
      forall j | 0 <= j < |r|
        ensures Compare(ps[0], r[j]) <= 0
      {
        assert r[j] in r;
        var k :| 0 <= k < |ps[1..]| && ps[1..][k] == r[j];
        assert ps[k + 1] == r[j];
      }
    }
  }

  /** Entries that do not begin with the key make no difference. */
  lemma {:induction false} GetOther(ps: seq<string>, key: string)
    requires forall x :: x in ps ==> !(key + "=" <= x)
    ensures Get(ps, key) == None
  {
    if ps != [] {
      assert ps[0] in ps && forall y :: y in ps[1..] ==> y in ps;
      GetOther(ps[1..], key);
    }
  }

  lemma {:induction false} GetInserted(ps: seq<string>, x: string, key: string)
    ensures !(key + "=" <= x) ==> Get(Insert(ps, x), key) == Get(ps, key)
    ensures key + "=" <= x && (forall y :: y in ps ==> !(key + "=" <= y)) ==> Get(Insert(ps, x), key) == Some(x[|key| + 1..])
  {
    hide Compare;
    if ps == [] {
      assert Get([], key) == None;
    } else if Compare(x, ps[0]) <= 0 {
      assert ([x] + ps)[1..] == ps;
    } else {
      GetInserted(ps[1..], x, key);
      assert ([ps[0]] + Insert(ps[1..], x))[1..] == Insert(ps[1..], x);
      assert ps[0] in ps && forall y :: y in ps[1..] ==> y in ps;
    }
  }

  lemma {:induction false} GetDeleted(ps: seq<string>, key: string, other: string)
    requires forall x :: x in ps && key + "=" <= x ==> !(other + "=" <= x)
    ensures Get(Del(ps, key), other) == Get(ps, other)
  {
    if ps != [] {
      assert ps[0] in ps && forall y :: y in ps[1..] ==> y in ps;
      GetDeleted(ps[1..], key, other);
      assert ([ps[0]] + Del(ps[1..], key))[1..] == Del(ps[1..], key);
    }
  }

  /** No text begins with two different keys that have no equals sign. */
  lemma OneKey(x: string, a: string, b: string)
    requires a + "=" <= x && b + "=" <= x && '=' !in a && '=' !in b
    ensures a == b
  {
    assert x[..|a|] == a && x[|a|] == '=' && x[..|b|] == b && x[|b|] == '=';
    FindIs(x, '=', |a|);
    FindIs(x, '=', |b|);
  }

  /** oauth_params_set: the key gets the new value and no other; other keys keep theirs, and the list
      stays in order. */
  lemma SetGet(ps: seq<string>, key: string, value: string, other: string)
    requires Ordered(ps)
    ensures var now := Add(Del(ps, key), Some(key), Some(value));
            && Ordered(now) && Get(now, key) == Some(value)
            && (forall x :: x in now && key + "=" <= x ==> x == key + "=" + value)
            && ('=' !in key && '=' !in other && other != key ==> Get(now, other) == Get(ps, other))
  {
    hide Insert, Get, Del, Compare;
    var x, rest := key + "=" + value, Del(ps, key);
    DelOrdered(ps, key);
    InsertOrdered(rest, x);
    GetInserted(rest, x, key);
    assert x[|key| + 1..] == value && key + "=" <= x;
    if '=' !in key && '=' !in other && other != key {
      forall y | y in ps + [x] && key + "=" <= y
        ensures !(other + "=" <= y)
      {
        if other + "=" <= y {
          OneKey(y, key, other);
        }
      }
      assert x in ps + [x] && forall y :: y in ps ==> y in ps + [x];
      GetInserted(rest, x, other);
      GetDeleted(ps, key, other);
    }
  }

  // ---------------------------------------------------------------- stored tokens

  const TOKEN: string := "oauth_token"
  const SECRET: string := "oauth_token_secret"

  /** The list that oauth_to_string prints. */
  function Tokens(token: Option<string>, secret: Option<string>): seq<string> {
    Add(Add([], Some(TOKEN), token), Some(SECRET), secret)
  }

  predicate Storable(x: Option<string>) {
    x.Some? ==> '\0' !in x.value && Bytes(x.value)
  }

  lemma TokenItem(key: string, value: string)
    requires key == TOKEN || key == SECRET
    requires '\0' !in value && Bytes(value)
    ensures Item(key + "=" + value)
    ensures TOKEN + "=" <= key + "=" + value <==> key == TOKEN
    ensures SECRET + "=" <= key + "=" + value <==> key == SECRET
    ensures (key + "=" + value)[|key| + 1..] == value && TOKEN != SECRET
  {
    var x := key + "=" + value;
    assert '=' !in TOKEN && '=' !in SECRET && |TOKEN| != |SECRET|;
    assert key + "=" <= x && x[|key|] == '=';
    if TOKEN + "=" <= x {
      OneKey(x, TOKEN, key);
    }
    if SECRET + "=" <= x {
      OneKey(x, SECRET, key);
    }
  }

  lemma TokensItems(token: Option<string>, secret: Option<string>)
    requires Storable(token) && Storable(secret)
    ensures Items(Tokens(token, secret)) && Ordered(Tokens(token, secret))
    ensures Get(Tokens(token, secret), TOKEN) == token && Get(Tokens(token, secret), SECRET) == secret
  {
    hide Compare, Insert, Get, Item, TOKEN, SECRET;
    var first := Add([], Some(TOKEN), token);
    GetOther([], TOKEN);
    GetOther([], SECRET);
    if token.Some? {
      var x := TOKEN + "=" + token.value;
      TokenItem(TOKEN, token.value);
      GetInserted([], x, TOKEN);
      GetInserted([], x, SECRET);
      InsertOrdered([], x);
    }
    if secret.Some? {
      var y := SECRET + "=" + secret.value;
      TokenItem(SECRET, secret.value);
      GetInserted(first, y, SECRET);
      GetInserted(first, y, TOKEN);
      InsertOrdered(first, y);
    }
  }

  /** oauth_from_string gets both tokens back from what oauth_to_string printed, a missing one as
      missing. */
  lemma TokensRoundTrip(token: Option<string>, secret: Option<string>, odd: Odd)
    requires Storable(token) && Storable(secret)
    ensures Items(Tokens(token, secret))
    ensures var parsed := Parsed([], Printed(Tokens(token, secret)), odd);
            parsed.Some? && Get(parsed.value, TOKEN) == token && Get(parsed.value, SECRET) == secret
  {
    hide Parsed, Printed, Get, Tokens, Ordered, Item;
    TokensItems(token, secret);
    RoundTrip(Tokens(token, secret), odd);
  }

  lemma EscapedKey(key: string, value: string)
    requires '=' !in key && Bytes(key + "=" + value) && Bytes(value)
    ensures Escaped(key + "=" + value) == key + "=" + Encoded(value)
  {
    var x := key + "=" + value;
    FindIs(x, '=', |key|);
    assert x[..|key| + 1] == key + "=" && x[|key| + 1..] == value;
  }

  lemma TokenKeys()
    ensures TOKEN == "oauth_token" && SECRET == "oauth_token_secret"
    ensures '=' !in TOKEN && '=' !in SECRET && '\0' !in TOKEN && '\0' !in SECRET && Bytes(TOKEN) && Bytes(SECRET)
    ensures |TOKEN| == 11 < |SECRET| && SECRET[..11] == TOKEN && SECRET[11] == '_'
  {}

  /** The token comes before the secret. */
  lemma TokenFirst(token: string, secret: string)
    ensures Compare(SECRET + "=" + secret, TOKEN + "=" + token) > 0
  {
    hide TOKEN, SECRET, Compare;
    TokenKeys();
    var x, y := TOKEN + "=" + token, SECRET + "=" + secret;
    assert x[11] == '=' && y[11] == '_' && x[..11] == y[..11];
    var k := FirstDifference(y, x);
    CompareIs(y, x);
    assert k == 11;
  }

  lemma PrintedTwo(x: string, y: string)
    requires Item(x) && Item(y)
    ensures Items([x]) && Printed([x]) == Escaped(x)
    ensures Items([x, y]) && Printed([x, y]) == Escaped(x) + ("&" + Escaped(y))
  {
    assert [x, y][1..] == [y];
  }

  /** The stored text, written out. */
  lemma TokensText(token: string, secret: string)
    requires '\0' !in token && '\0' !in secret && Bytes(token) && Bytes(secret)
    ensures Items(Tokens(Some(token), Some(secret)))
    ensures Printed(Tokens(Some(token), Some(secret)))
         == "oauth_token=" + Encoded(token) + "&oauth_token_secret=" + Encoded(secret)
    ensures Items(Tokens(Some(token), None)) && Printed(Tokens(Some(token), None)) == "oauth_token=" + Encoded(token)
    ensures Items(Tokens(None, Some(secret))) && Printed(Tokens(None, Some(secret))) == "oauth_token_secret=" + Encoded(secret)
  {
    hide TOKEN, SECRET, Compare, Encoded, Escaped, Item, Printed, Items, Bytes;
    TokenKeys();
    hide Tokens;
    var x, y := TOKEN + "=" + token, SECRET + "=" + secret;
    Named(TOKEN, token);
    Named(SECRET, secret);
    TokensAre(token, secret);
    PrintedTwo(x, y);
    PrintedTwo(y, x);
  }

  lemma TokensAre(token: string, secret: string)
    ensures var x, y := TOKEN + "=" + token, SECRET + "=" + secret;
            && Tokens(Some(token), None) == [x] && Tokens(None, Some(secret)) == [y]
            && Tokens(Some(token), Some(secret)) == [x, y]
  {
    hide TOKEN, SECRET, Compare;
    var x, y := TOKEN + "=" + token, SECRET + "=" + secret;
    TokenFirst(token, secret);
    assert Insert([x], y) == [x] + Insert([x][1..], y) == [x, y];
  }

  lemma Named(key: string, value: string)
    requires '=' !in key && '\0' !in key && Bytes(key) && '\0' !in value && Bytes(value)
    ensures Item(key + "=" + value) && Escaped(key + "=" + value) == key + "=" + Encoded(value)
  {
    var x := key + "=" + value;
    assert x[|key|] == '=';
    EscapedKey(key, value);
  }

  // ---------------------------------------------------------------- lib/oauth.c

  class Params {
    var items: seq<string>

    constructor ()
      ensures items == []
    {
      items := [];
    }

    /** oauth_params_add. */
    method Put(key: Option<string>, value: Option<string>)
      modifies this
      ensures items == Add(old(items), key, value)
    {
      if key.None? || value.None? {
        return;
      }
      var item := key.value + "=" + value.value;
      ghost var was := items;
      var i := 0;
      assert was[0..] == was && was[..0] == [];
      while i < |items| && Compare(item, items[i]) > 0
        invariant i <= |items| && Insert(was, item) == was[..i] + Insert(was[i..], item)
      {
        assert was[..i + 1] == was[..i] + [was[i]] && was[i..][1..] == was[i + 1..];
        i := i + 1;
      }
      assert was[..i] + ([item] + was[i..]) == was[..i] + [item] + was[i..];
      items := items[..i] + [item] + items[i..];
    }

    /** oauth_params_del. */
    method Remove(key: string)
      modifies this
      ensures items == Del(old(items), key)
    {
      ghost var was := items;
      var l := items;
      var kept: seq<string> := [];
      while l != []
        invariant kept + Del(l, key) == Del(was, key)
        decreases |l|
      {
        if !(key + "=" <= l[0]) {
          assert kept + ([l[0]] + Del(l[1..], key)) == kept + [l[0]] + Del(l[1..], key);
          kept := kept + [l[0]];
        }
        l := l[1..];
      }
      items := kept;
    }

    /** oauth_params_set. */
    method Set(key: string, value: string)
      requires Ordered(items)
      modifies this
      ensures Ordered(items) && Get(items, key) == Some(value)
      ensures forall x :: x in items <==> x == key + "=" + value || (x in old(items) && !(key + "=" <= x))
    {
      SetGet(items, key, value, "");
      Remove(key);
      Put(Some(key), Some(value));
    }

    /** oauth_params_get. */
    method Lookup(key: string) returns (value: Option<string>)
      ensures value == Get(items, key)
    {
      var l := items;
      while l != []
        invariant Get(l, key) == Get(items, key)
        decreases |l|
      {
        if key + "=" <= l[0] {
          return Some(l[0][|key| + 1..]);
        }
        l := l[1..];
      }
      value := None;
    }

    /** oauth_params_parse; the input is cut up and put together again. `overrun` reports that
        http_decode left its string. */
    method Parse(input: array<char>, odd: Odd) returns (overrun: bool)
      requires '\0' in input[..]
      modifies this, input
      ensures input[..] == old(input[..])
      ensures var r := Parsed(old(items), old(Text(input[..])), odd);
              (overrun <==> r.None?) && (!overrun ==> r == Some(items))
    {
      hide Parsed, Find, Text, Decoded, Insert;
      ghost var s := Text(input[..]);
      ghost var was := input[..];
      var n := StrLen(input);
      var at := 0;
      assert s[0..] == s;
      while input[at] != '\0'
        invariant at <= n == |s| && input[..] == was && was[..n] == s && was[n] == '\0' && '\0' !in s
        invariant Parsed(items, s[at..], odd) == Parsed(old(items), s, odd)
        decreases n - at
      {
        var eq := StrChr(input, at, '=', s);
        ParsedIs(items, s, at, eq, odd);
        if eq == n {
          return false;
        }
        var amp;
        amp, overrun := Pair(input, at, eq, s, odd);
        if overrun || amp == n {
          return;
        }
        at := amp + 1;
      }
      assert s[at..] == "";
      ParseNothing(items, odd);
      overrun := false;
    }

    /** One key and its value, between `at` and the ampersand at `amp`. */
    method Pair(input: array<char>, at: nat, eq: nat, ghost s: string, odd: Odd) returns (amp: nat, overrun: bool)
      requires at <= eq < |s| < input.Length && input[..|s|] == s && input[|s|] == '\0' && '\0' !in s && s[eq] == '='
      modifies this, input
      ensures input[..] == old(input[..]) && amp == eq + 1 + Find(s[eq + 1..], '&') <= |s|
      ensures var d := Decoded(s[eq + 1..amp], odd);
              && (overrun <==> d.Overrun?)
              && items == if overrun then old(items) else Insert(old(items), s[at..eq + 1] + CText(d))
    {
      hide Find, Text, Decoded, Insert, CText;
      ghost var was := input[..];
      input[eq] := '\0';
      amp := StrChr(input, eq + 1, '&', s);
      var more := input[amp] == '&';
      input[amp] := '\0';
      overrun := Take(input, at, eq, amp, s, odd);
      input[eq] := '=';
      if more {
        input[amp] := '&';
      }
      assert input[..] == was;
    }

    /** Key and value, with a zero behind each. */
    method Take(input: array<char>, at: nat, eq: nat, amp: nat, ghost s: string, odd: Odd) returns (overrun: bool)
      requires at <= eq < amp <= |s| < input.Length && '\0' !in s && s[eq] == '='
      requires input[eq] == '\0' && input[amp] == '\0' && forall i :: at <= i < amp && i != eq ==> input[i] == s[i]
      modifies this
      ensures var d := Decoded(s[eq + 1..amp], odd);
              && (overrun <==> d.Overrun?)
              && items == if overrun then old(items) else Insert(old(items), s[at..eq + 1] + CText(d))
    {
      hide Find, Text, Decoded, Insert;
      Ends(input[..], s, at, eq);
      Ends(input[..], s, eq + 1, amp);
      assert input[..][at..] == input[at..] && input[..][eq + 1..] == input[eq + 1..];
      var key := StrDup(input, at);
      var v := StrDup(input, eq + 1);
      overrun := Decode(v, odd);
      if !overrun {
        ghost var d := Decoded(s[eq + 1..amp], odd);
        TextTwice(d);
        assert s[at..eq + 1] == s[at..eq] + "=";
        var k := StrLen(key);
        var l := StrLen(v);
        Put(Some(key[..k]), Some(v[..l]));
      }
    }

    /** oauth_params_string. */
    method ToString() returns (str: string)
      requires Items(items)
      ensures str == Printed(items)
    {
      hide Printed, Escaped, Encoded, Text, Item;
      str := "";
      RestWhole(items);
      for i := 0 to |items|
        invariant str + Rest(items, i) == Printed(items)
      {
        assert items[i] in items;
        RestIs(items, i);
        var x := PrintItem(items[i]);
        str := str + x;
        if i + 1 < |items| {
          str := str + "&";
        }
      }
      RestWhole(items);
    }
  }

  method PrintItem(x: string) returns (r: string)
    requires Item(x)
    ensures r == Escaped(x)
  {
    hide Encoded, Text;
    var eq := Find(x, '=');
    if eq == |x| {
      return x;
    }
    var v := x[eq + 1..];
    var a := new char[3 * |x| + 1](i requires 0 <= i => if i < |v| then v[i] else '\0');
    assert a[..][|v|] == '\0' && a[..][..|v|] == v;
    TextIs(a[..], |v|);
    Encode(a);
    var n := StrLen(a);
    r := x[..eq + 1] + a[..n];
  }

  /** What is left to print. */
  function Rest(ps: seq<string>, i: nat): string
    requires Items(ps) && i <= |ps|
  {
    Printed(ps[i..])
  }

  lemma RestWhole(ps: seq<string>)
    requires Items(ps)
    ensures Rest(ps, 0) == Printed(ps) && Rest(ps, |ps|) == ""
  {
    assert ps[0..] == ps;
  }

  lemma RestIs(ps: seq<string>, i: nat)
    requires Items(ps) && i < |ps|
    ensures Item(ps[i])
    ensures Rest(ps, i) == Escaped(ps[i]) + if i + 1 == |ps| then "" else "&" + Rest(ps, i + 1)
  {
    hide Escaped;
    assert ps[i] in ps;
    assert Item(ps[i]);
    assert ps[i..][1..] == ps[i + 1..];
    assert Escaped(ps[i]) + "" == Escaped(ps[i]);
  }

  method StrChr(a: array<char>, from: nat, c: char, ghost s: string) returns (k: nat)
    requires from <= |s| < a.Length && a[|s|] == '\0' && '\0' !in s && c != '\0'
    requires forall i :: from <= i < |s| ==> a[i] == s[i]
    ensures k == from + Find(s[from..], c) <= |s|
  {
    hide Find;
    k := from;
    while a[k] != '\0' && a[k] != c
      invariant from <= k <= |s| && forall i :: from <= i < k ==> s[i] != c
      decreases |s| - k
    {
      k := k + 1;
    }
    ghost var t := s[from..];
    assert forall i :: 0 <= i < |t| ==> t[i] == s[from + i];
    assert k < |s| ==> s[k] in s;
    FindIs(t, c, k - from);
  }

  /** A zero at `e` ends the string at `b`. */
  lemma Ends(a: seq<char>, s: string, b: nat, e: nat)
    requires b <= e <= |s| < |a| && a[e] == '\0' && '\0' !in s && forall i :: b <= i < e ==> a[i] == s[i]
    ensures Text(a[b..]) == s[b..e] && '\0' in a[b..]
  {
    assert a[b..][e - b] == '\0' && a[b..][..e - b] == s[b..e];
    forall c | c in s[b..e]
      ensures c in s
    {
      var i :| 0 <= i < e - b && s[b..e][i] == c;
      assert s[b + i] in s;
    }
    TextIs(a[b..], e - b);
  }

  lemma TextTwice(d: Outcome)
    ensures d.Good? ==> Text(Text(d.text)) == Text(d.text)
  {
    if d.Good? {
      TextWhole(Text(d.text));
    }
  }

  lemma ParsedOnce(ps: seq<string>, t: string, odd: Odd)
    ensures var n := Find(t, '=');
            Parsed(ps, t, odd) ==
              if n == |t| then Some(ps)
              else
                var rest := t[n + 1..];
                var m := Find(rest, '&');
                var d := Decoded(rest[..m], odd);
                if d.Overrun? then None
                else
                  var more := Insert(ps, t[..n + 1] + CText(d));
                  if m == |rest| then Some(more) else Parsed(more, rest[m + 1..], odd)
  {
    hide Insert, Decoded, CText, Find;
  }

  lemma ParsedIs(ps: seq<string>, s: string, at: nat, eq: nat, odd: Odd)
    requires at <= |s| && eq == at + Find(s[at..], '=')
    ensures eq <= |s| && (eq < |s| ==> s[eq] == '=')
    ensures eq == |s| ==> Parsed(ps, s[at..], odd) == Some(ps)
    ensures eq < |s| ==>
      var amp := eq + 1 + Find(s[eq + 1..], '&');
      && amp <= |s|
      && var d := Decoded(s[eq + 1..amp], odd);
         Parsed(ps, s[at..], odd) ==
           if d.Overrun? then None
           else
             var more := Insert(ps, s[at..eq + 1] + CText(d));
             if amp == |s| then Some(more) else Parsed(more, s[amp + 1..], odd)
  {
    hide Insert, Decoded, CText, Find, Parsed;
    var t, n := s[at..], eq - at;
    ParsedOnce(ps, t, odd);
    if eq < |s| {
      assert t[n + 1..] == s[eq + 1..] && t[..n + 1] == s[at..eq + 1];
      var rest := s[eq + 1..];
      var m := Find(rest, '&');
      assert rest[..m] == s[eq + 1..eq + 1 + m];
      assert m < |rest| ==> rest[m + 1..] == s[eq + 1 + m + 1..];
    }
  }

  /** oauth_to_string. */
  method TokensToString(token: Option<string>, secret: Option<string>) returns (s: string)
    requires Storable(token) && Storable(secret)
    ensures Items(Tokens(token, secret)) && s == Printed(Tokens(token, secret))
  {
    TokensItems(token, secret);
    var params := new Params();
    params.Put(Some(TOKEN), token);
    params.Put(Some(SECRET), secret);
    s := params.ToString();
  }

  /** oauth_from_string. */
  method TokensFromString(input: array<char>, odd: Odd) returns (token: Option<string>, secret: Option<string>, overrun: bool)
    requires '\0' in input[..]
    modifies input
    ensures input[..] == old(input[..])
    ensures forall t, u :: Storable(t) && Storable(u) && Items(Tokens(t, u)) && old(Text(input[..])) == Printed(Tokens(t, u)) ==>
              !overrun && token == t && secret == u
  {
    ghost var s := Text(input[..]);
    var params := new Params();
    overrun := params.Parse(input, odd);
    token := params.Lookup(TOKEN);
    secret := params.Lookup(SECRET);
    forall t, u | Storable(t) && Storable(u) && Items(Tokens(t, u)) && s == Printed(Tokens(t, u))
      ensures !overrun && token == t && secret == u
    {
      TokensRoundTrip(t, u, odd);
    }
  }
}
