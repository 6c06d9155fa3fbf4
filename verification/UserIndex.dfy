/** The users of a connection: a list in key order and a hash table (irc_user.c), and nick_lc of
    nick.c. */
module UserIndex {
  import opened CStrings
  import opened NickChars

  // ---------------------------------------------------------------- nick_lc in place

  /** Characters are folded up to the first one that no nick may have. */
  function Key(s: string): (r: string)
    ensures |r| == |s|
  {
    if s == "" || !IsNickChar(s[0]) then s else [Fold(s[0])] + Key(s[1..])
  }

  lemma {:induction false} KeyIs(s: string)
    ensures Lc(s).Folded? ==> Lc(s) == Folded(Key(s))
  {
    hide IsNickChar, Fold;
    if s != "" && Lc(s).Folded? {
      assert forall i :: 0 <= i < |s| - 1 ==> s[1..][i] == s[i + 1];
      KeyIs(s[1..]);
      assert forall i :: 0 < i < |s| ==> Key(s)[i] == Key(s[1..])[i - 1];
      assert Lc(s).text == Key(s);
    }
  }

  /** The table that nick_lc fills on its first call. */
  predicate Table(tab: seq<char>) {
    |tab| == 128 && forall c: char :: c as int < 128 ==> tab[c as int] == if IsNickChar(c) then Fold(c) else '\0'
  }

  method MakeTable() returns (tab: array<char>)
    ensures fresh(tab) && Table(tab[..])
  {
    hide IsNickChar, Fold, LcChars, UcChars;
    tab := new char[128](i => '\0');
    TableChars();
    for i := 0 to |LcChars()|
      invariant forall c: char :: c as int < 128 ==> tab[c as int] == (if c in LcChars()[..i] || c in UcChars()[..i] then Fold(c) else '\0')
    {
      Tables(i);
      var l, u := LcChars()[i], UcChars()[i];
      assert LcChars()[..i + 1] == LcChars()[..i] + [l] && UcChars()[..i + 1] == UcChars()[..i] + [u];
      tab[u as int] := l;
      tab[l as int] := l;
    }
    assert LcChars()[..|LcChars()|] == LcChars() && UcChars()[..|LcChars()|] == UcChars();
    forall c: char | c as int < 128
      ensures tab[c as int] == if IsNickChar(c) then Fold(c) else '\0'
    {
      InTables(c);
    }
  }

  lemma TableChars()
    ensures |LcChars()| == |UcChars()|
    ensures forall i :: 0 <= i < |LcChars()| ==> LcChars()[i] as int < 128 && UcChars()[i] as int < 128
  {
    Tables(0);
    forall i | 0 <= i < |LcChars()|
      ensures LcChars()[i] as int < 128 && UcChars()[i] as int < 128
    {
      InTables(LcChars()[i]);
      InTables(UcChars()[i]);
    }
  }

  lemma NickCharSmall(c: char)
    ensures IsNickChar(c) ==> c as int < 128 && c != '\0' && Fold(c) != '\0'
  {}

  /** nick_lc. */
  method Lower(tab: array<char>, nick: array<char>) returns (ok: bool)
    requires Table(tab[..]) && tab != nick && '\0' in nick[..]
    modifies nick
    ensures '\0' in nick[..]
    ensures var s := old(Text(nick[..]));
            Text(nick[..]) == Key(s) && (ok <==> Lc(s).Folded?)
  {
    hide IsNickChar, Fold, Text, Key, Lc;
    ghost var s := Text(nick[..]);
    ghost var tb := tab[..];
    Whole(nick, s);
    var i := 0;
    KeyBy(s, 0);
    while nick[i] != '\0'
      invariant i <= |s| < nick.Length && nick[|s|] == '\0'
      invariant forall k :: 0 <= k < i ==> IsNickChar(s[k]) && nick[k] == Fold(s[k])
      invariant forall k :: i <= k < |s| ==> nick[k] == s[k] && s[k] != '\0'
      decreases |s| - i
    {
      NickCharSmall(s[i]);
      var t := if nick[i] as int < 128 then tab[nick[i] as int] else '\0';
      assert t == if IsNickChar(s[i]) then Fold(s[i]) else '\0';
      if t == '\0' {
        Stopped(nick, s, i);
        return false;
      }
      nick[i] := t;
      i := i + 1;
    }
    Stopped(nick, s, i);
    return true;
  }

  lemma Whole(nick: array<char>, s: string)
    requires s == Text(nick[..]) && '\0' in nick[..]
    ensures |s| < nick.Length && nick[|s|] == '\0' && forall k :: 0 <= k < |s| ==> nick[k] == s[k] && s[k] != '\0'
  {
    assert |s| < nick.Length;
  }

  /** What Key is when the first `i` characters are allowed and the next is not. */
  lemma {:induction false} KeyBy(s: string, i: nat)
    requires i <= |s| && (forall k :: 0 <= k < i ==> IsNickChar(s[k]))
    ensures forall k :: 0 <= k < i ==> Key(s)[k] == Fold(s[k])
    ensures i < |s| && !IsNickChar(s[i]) ==> forall k :: i <= k < |s| ==> Key(s)[k] == s[k]
    ensures (forall k :: 0 <= k < |s| ==> IsNickChar(s[k])) <==> Lc(s).Folded?
  {
    hide IsNickChar, Fold;
    if i > 0 {
      assert forall k :: 0 <= k < |s| - 1 ==> s[1..][k] == s[k + 1];
      KeyBy(s[1..], i - 1);
      assert forall k :: 0 < k < |s| ==> Key(s)[k] == Key(s[1..])[k - 1];
    }
  }

  lemma Stopped(nick: array<char>, s: string, i: nat)
    requires i <= |s| < nick.Length && nick[|s|] == '\0'
    requires forall k :: 0 <= k < i ==> IsNickChar(s[k]) && nick[k] == Fold(s[k])
    requires forall k :: i <= k < |s| ==> nick[k] == s[k] && s[k] != '\0'
    requires i < |s| ==> !IsNickChar(s[i])
    ensures '\0' in nick[..] && Text(nick[..]) == Key(s) && (Lc(s).Folded? <==> i == |s|)
  {
    hide IsNickChar, Fold, Key, Lc, Text;
    KeyBy(s, i);
    assert nick[..][..|s|] == Key(s);
    assert nick[..][|s|] == '\0';
    forall k | 0 <= k < |s|
      ensures nick[k] != '\0'
    {
      NickCharSmall(s[k]);
    }
    TextIs(nick[..], |s|);
  }

  // ---------------------------------------------------------------- keys in order

  function Spot(keys: seq<string>, k: string): (p: nat)
    ensures Place(keys, k, p)
  {
    if keys == [] || Compare(k, keys[0]) <= 0 then 0
    else
      var p := Spot(keys[1..], k);
      assert forall i :: 0 < i < |keys| ==> keys[i] == keys[1..][i - 1];
      p + 1
  }

  lemma {:induction false} SpotIs(keys: seq<string>, k: string, p: nat)
    requires Place(keys, k, p)
    ensures Spot(keys, k) == p
  {
    hide Compare;
    if p > 0 {
      assert forall i :: 0 <= i < |keys| - 1 ==> keys[1..][i] == keys[i + 1];
      SpotIs(keys[1..], k, p - 1);
    }
  }

  lemma RemoveSorted(keys: seq<string>, i: nat)
    requires Sorted(keys) && i < |keys|
    ensures Sorted(keys[..i] + keys[i + 1..]) && keys[i] !in keys[..i] + keys[i + 1..]
  {
    hide Compare;
    var all := keys[..i] + keys[i + 1..];
    forall j | 0 <= j < |all|
      ensures all[j] != keys[i]
    {
      CompareIs(keys[i], keys[i]);
      assert all[j] == keys[if j < i then j else j + 1];
    }
  }

  // ---------------------------------------------------------------- list and table

  class User {
    var nick: string
    var key: string

    constructor (nick: string)
      ensures this.nick == nick && key == Key(nick)
    {
      this.nick, key := nick, Key(nick);
    }
  }

  ghost function KeysOf(users: seq<User>): seq<string>
    reads set u | u in users
  {
    seq(|users|, i requires 0 <= i < |users| reads set u | u in users => users[i].key)
  }

  /** The list is in strict key order, the table has exactly its users under their keys, and every
      key is the lower-cased nick. */
  ghost predicate Agree(users: seq<User>, hash: map<string, User>)
    reads set u | u in users
  {
    && Sorted(KeysOf(users))
    && (forall u :: u in users ==> u.key in hash && hash[u.key] == u && Lc(u.nick) == Folded(u.key))
    && (forall k :: k in hash ==> hash[k] in users && hash[k].key == k)
  }

  lemma InKeys(users: seq<User>, hash: map<string, User>, k: string)
    requires Agree(users, hash)
    ensures k in KeysOf(users) <==> k in hash
  {
    hide Sorted, Lc;
    if k in KeysOf(users) {
      var i :| 0 <= i < |users| && KeysOf(users)[i] == k;
      assert users[i] in users;
    }
    if k in hash {
      var i :| 0 <= i < |users| && users[i] == hash[k];
      assert KeysOf(users)[i] == k;
    }
  }

  lemma Added(users: seq<User>, hash: map<string, User>, u: User, p: nat)
    requires Agree(users, hash) && u !in users && u.key == Key(u.nick) && Place(KeysOf(users), u.key, p)
    ensures Agree(users[..p] + [u] + users[p..], hash[u.key := u]) <==> Lc(u.nick).Folded? && u.key !in hash
  {
    hide Sorted, Lc, Key, Compare;
    var keys, all, table := KeysOf(users), users[..p] + [u] + users[p..], hash[u.key := u];
    KeyIs(u.nick);
    InsertSorted(keys, u.key, p);
    assert KeysOf(all) == keys[..p] + [u.key] + keys[p..];
    InKeys(users, hash, u.key);
    assert u in all && forall v :: v in all <==> v == u || v in users;
    if Lc(u.nick).Folded? && u.key !in hash {
      forall v | v in all
        ensures v.key in table && table[v.key] == v && Lc(v.nick) == Folded(v.key)
      {}
    }
  }

  lemma Removed(users: seq<User>, hash: map<string, User>, i: nat)
    requires Agree(users, hash) && i < |users|
    ensures var rest := users[..i] + users[i + 1..];
            && Agree(rest, hash - {users[i].key}) && users[i] !in rest
            && forall v :: v in users <==> v == users[i] || v in rest
  {
    hide Sorted, Lc, Compare;
    var keys, rest := KeysOf(users), users[..i] + users[i + 1..];
    RemoveSorted(keys, i);
    assert KeysOf(rest) == keys[..i] + keys[i + 1..];
    forall j | 0 <= j < |rest|
      ensures rest[j] != users[i]
    {
      assert KeysOf(rest)[j] == rest[j].key;
    }
    forall v | v in rest
      ensures v.key != users[i].key
    {
      var j :| 0 <= j < |rest| && rest[j] == v;
      assert KeysOf(rest)[j] == v.key;
    }
  }

  // ---------------------------------------------------------------- irc_user.c

  class Index {
    var users: seq<User>
    var hash: map<string, User>

    constructor ()
      ensures Agree(users, hash) && users == []
    {
      users, hash := [], map[];
    }

    /** g_slist_insert_sorted. */
    method Insert(u: User)
      modifies `users
      ensures var p := Spot(old(KeysOf(users)), u.key);
              users == old(users)[..p] + [u] + old(users)[p..]
    {
      var p := 0;
      ghost var keys := KeysOf(users);
      while p < |users| && Compare(u.key, users[p].key) > 0
        invariant p <= |users| && forall i :: 0 <= i < p ==> Compare(u.key, keys[i]) > 0
      {
        p := p + 1;
      }
      SpotIs(keys, u.key, p);
      users := users[..p] + [u] + users[p..];
    }

    /** g_slist_remove and g_hash_table_remove. */
    method Drop(u: User)
      requires Agree(users, hash) && u in users
      modifies this
      ensures Agree(users, hash) && hash == old(hash) - {u.key}
      ensures forall v :: v in users <==> v in old(users) && v != u
    {
      hide Agree;
      var i := 0;
      while users[i] != u
        invariant i < |users| && u in users[i..]
        decreases |users| - i
      {
        i := i + 1;
      }
      Removed(users, hash, i);
      users := users[..i] + users[i + 1..];
      hash := hash - {u.key};
    }

    /** irc_user_new. List and table agree afterwards exactly if the nick is a proper one and nobody
        had it. */
    method New(nick: string) returns (u: User)
      requires Agree(users, hash)
      modifies this
      ensures fresh(u) && u.nick == nick && u.key == Key(nick)
      ensures hash == old(hash)[u.key := u]
      ensures forall v :: v in users <==> v in old(users) || v == u
      ensures Agree(users, hash) <==> Lc(nick).Folded? && Key(nick) !in old(hash)
    {
      hide Agree, Lc, Key, Spot;
      u := new User(nick);
      Added(users, hash, u, Spot(KeysOf(users), u.key));
      hash := hash[u.key := u];
      Insert(u);
    }

    /** irc_user_free, without what irc_user_quit does. */
    method Free(u: User?) returns (freed: bool)
      requires Agree(users, hash) && (u == null || u in users)
      modifies this
      ensures Agree(users, hash) && (freed <==> u != null)
      ensures hash == if u == null then old(hash) else old(hash) - {u.key}
      ensures forall v :: v in users <==> v in old(users) && v != u
    {
      if u == null {
        return false;
      }
      Drop(u);
      return true;
    }

    /** irc_user_by_name finds what a scan of the list with nick_cmp finds. That looks at no more than
        1023 characters, which is enough for the nicks that are registered: they have at most 24. */
    method ByName(nick: string) returns (u: User?)
      requires Agree(users, hash)
      ensures u != null ==> u in users
      ensures forall v :: v in users ==> (v == u <==> Lc(nick).Folded? && Lc(v.nick) == Lc(nick))
      ensures forall v :: v in users && |v.nick| <= 1023 && (|v.nick| < 1023 || |nick| <= 1023) ==> (v == u <==> SameNick(v.nick, nick))
    {
      hide Sorted, Key, Lc, SameNick;
      KeyIs(nick);
      var key := Key(nick);
      u := if Lc(nick).Folded? && key in hash then hash[key] else null;
      forall v | v in users && |v.nick| <= 1023 && (|v.nick| < 1023 || |nick| <= 1023)
        ensures SameNick(v.nick, nick) <==> Lc(nick).Folded? && Lc(v.nick) == Lc(nick)
      {
        SameNickShort(v.nick, nick);
      }
    }

    /** irc_user_set_nick: refused for a nick with a bad character and for one that somebody else
        has. */
    method SetNick(u: User, nick: string) returns (ok: bool)
      requires Agree(users, hash) && u in users
      modifies this, u
      ensures Agree(users, hash)
      ensures ok <==> Lc(nick).Folded? && forall v :: v in old(users) && v != u ==> old(Lc(v.nick)) != Lc(nick)
      ensures ok ==> u.nick == nick && u.key == Key(nick) && hash == (old(hash) - {old(u.key)})[u.key := u]
      ensures !ok ==> users == old(users) && hash == old(hash) && u.nick == old(u.nick) && u.key == old(u.key)
      ensures forall v :: v in users <==> v in old(users)
    {
      hide Sorted, Lc, Key, SameNick;
      KeyIs(nick);
      if Lc(nick).Bad? {
        return false;
      }
      var other := ByName(nick);
      if other != null && other != u {
        return false;
      }
      Rename(u, nick);
      return true;
    }

    method Rename(u: User, nick: string)
      requires Agree(users, hash) && u in users && Lc(nick).Folded? && (Key(nick) in hash ==> hash[Key(nick)] == u)
      modifies this, u
      ensures Agree(users, hash) && u.nick == nick && u.key == Key(nick)
      ensures hash == (old(hash) - {old(u.key)})[u.key := u]
      ensures forall v :: v in users <==> v in old(users)
    {
      hide Agree, Lc, Key, Spot;
      KeyOf(users, hash, u);
      Drop(u);
      u.nick := nick;
      u.key := Key(nick);
      Added(users, hash, u, Spot(KeysOf(users), u.key));
      hash := hash[u.key := u];
      Insert(u);
    }
  }

  lemma KeyOf(users: seq<User>, hash: map<string, User>, u: User)
    requires Agree(users, hash) && u in users
    ensures forall k :: k in hash && hash[k] == u ==> k == u.key
  {}
}
