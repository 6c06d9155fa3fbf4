/** What each step of the IPC master (ipc.c) makes of the fields of the children, when it does not
    use freed memory. */
module IpcRules {
  import opened IpcSpec
  import opened NickChars
  import opened Options

  /** The children that are not `gone`, in their order. */
  function Rest<C(==)>(order: seq<C>, gone: set<C>): (r: seq<C>)
    ensures forall x :: x in r ==> x in order && x !in gone
    ensures forall x :: x in order && x !in gone ==> x in r
  {
    if order == [] then []
    else
      assert order == [order[0]] + order[1..];
      (if order[0] in gone then [] else [order[0]]) + Rest(order[1..], gone)
  }

  /** A child that has no partner any more; its descriptor, if it had one, is closed. */
  predicate Cut<C(==)>(before: Rec<C>, after: Rec<C>) {
    && after.ipcFd == before.ipcFd && after.nick == before.nick && after.password == before.password
    && after.to.None? && after.toFd == if before.toFd >= 0 then -1 else before.toFd
  }

  /** Who is left. */
  ghost predicate Left<C>(s: State<C>, r: State<C>, gone: set<C>) {
    && r.recs.Keys == s.recs.Keys - gone
    && r.order == Rest(s.order, gone)
  }

  /** `c` is gone, and whoever was linked to it has lost link and descriptor. */
  ghost predicate FreeEffect<C>(s: State<C>, c: C, r: State<C>) {
    && Left(s, r, {c})
    && forall x :: x in r.recs ==> if s.recs[x].to == Some(c) then Cut(s.recs[x], r.recs[x]) else r.recs[x] == s.recs[x]
  }

  /** Those of `told` who hold a descriptor, and so are written to, and cannot be. */
  ghost function Broken<C>(s: State<C>, told: set<C>, fails: set<C>): set<C>
    requires told <= s.recs.Keys
  {
    set x | x in told && x in fails && s.recs[x].toFd >= 0
  }

  /** Those of `told` who cannot be written to are gone; the others have lost link and descriptor. */
  ghost predicate FailEffect<C>(s: State<C>, told: set<C>, fails: set<C>, r: State<C>)
    requires told <= s.recs.Keys
  {
    && Left(s, r, Broken(s, told, fails))
    && forall x :: x in r.recs ==> if x in told then Cut(s.recs[x], r.recs[x]) else r.recs[x] == s.recs[x]
  }

  /** All who cannot be written to are gone, and their partners have lost link and descriptor. */
  ghost predicate BroadcastEffect<C>(s: State<C>, fails: set<C>, r: State<C>) {
    && Left(s, r, fails)
    && forall x :: x in r.recs ==>
         if s.recs[x].to.Some? && s.recs[x].to.value in fails then Cut(s.recs[x], r.recs[x]) else r.recs[x] == s.recs[x]
  }

  ghost function Renamed<C>(s: State<C>, c: C, nick: Option<string>): State<C>
    requires c in s.recs
  {
    var a := s.recs[c];
    s.(recs := s.recs[c := Rec(a.ipcFd, nick, a.password, a.to, a.toFd)])
  }

  ghost function Given<C>(s: State<C>, c: C, fd: int): State<C>
    requires c in s.recs
  {
    var a := s.recs[c];
    s.(recs := s.recs[c := Rec(a.ipcFd, a.nick, a.password, a.to, fd)])
  }

  ghost predicate JoinEffect<C>(s: State<C>, c: C, fd: int, front: bool, r: State<C>) {
    && r.order == (if front then [c] + s.order else s.order + [c])
    && r.recs == s.recs[c := Rec(fd, None, None, None, -1)]
  }

  /** A session of this nick with this password. */
  predicate Session<C(==)>(a: Rec<C>, nick: string, password: string) {
    a.nick.Some? && SameNick(a.nick.value, nick) && a.password == Some(password)
  }

  /** The first other session in the list. */
  ghost predicate FirstSession<C>(s: State<C>, c: C, nick: string, password: string, j: nat)
    requires WellFormed(s)
  {
    && j < |s.order| && s.order[j] != c && Session(s.recs[s.order[j]], nick, password)
    && forall i :: 0 <= i < j && s.order[i] != c ==> !Session(s.recs[s.order[i]], nick, password)
  }

  /** Neither the sender nor that session has a partner. */
  ghost predicate Linkable<C>(s: State<C>, c: C, nick: string, password: string, j: nat)
    requires WellFormed(s) && c in s.recs
  {
    s.recs[c].to.None? && FirstSession(s, c, nick, password, j) && s.recs[s.order[j]].to.None?
  }

  /** The password is known, and the sender and `p` are linked. */
  ghost function Linked<C>(s: State<C>, c: C, password: string, p: C): State<C>
    requires c in s.recs && p in s.recs
  {
    var a, b := s.recs[c], s.recs[p];
    s.(recs := s.recs[c := Rec(a.ipcFd, a.nick, Some(password), Some(p), a.toFd)]
                     [p := Rec(b.ipcFd, b.nick, b.password, Some(c), b.toFd)])
  }

  /** The password is known, and the sender has lost its descriptor. */
  ghost function Refused<C>(s: State<C>, c: C, password: string): State<C>
    requires c in s.recs
  {
    var a := s.recs[c];
    s.(recs := s.recs[c := Rec(a.ipcFd, a.nick, Some(password), a.to, -1)])
  }

  /** The answer goes to the sender, which is freed if it cannot be written to. */
  ghost predicate AnswerEffect<C>(s: State<C>, c: C, fails: set<C>, r: State<C>) {
    if c in fails then FreeEffect(s, c, r) else r == s
  }

  ghost predicate IdentifyEffect<C>(s: State<C>, c: C, nick: string, password: string, fails: set<C>, r: State<C>)
    requires WellFormed(s) && c in s.recs
  {
    if s.recs[c].nick != Some(nick) then r == s
    else if exists j: nat :: Linkable(s, c, nick, password, j) then
      exists j: nat :: Linkable(s, c, nick, password, j) && AnswerEffect(Linked(s, c, password, s.order[j]), c, fails, r)
    else AnswerEffect(Refused(s, c, password), c, fails, r)
  }

  /** Sender, partner and command name one nick and one password. */
  predicate Confirmed<C(==)>(a: Rec<C>, b: Rec<C>, nick: Option<string>, password: Option<string>) {
    nick.Some? && a.nick == nick && b.nick == nick && password.Some? && a.password == password && b.password == password
  }

  /** Both have lost the link, and the sender its descriptor; it is gone if the command could not be
      passed on. */
  ghost predicate PartEffect<C>(s: State<C>, c: C, p: C, fails: set<C>, r: State<C>)
    requires c in s.recs && p in s.recs
  {
    && Left(s, r, if p in fails then {c} else {})
    && forall x :: x in r.recs ==>
         var a := s.recs[x];
         r.recs[x] == if x == c then Rec(a.ipcFd, a.nick, a.password, None, -1)
                      else if x == p then Rec(a.ipcFd, a.nick, a.password, None, a.toFd)
                      else a
  }

  ghost predicate TakeoverEffect<C>(s: State<C>, c: C, what: string, nick: Option<string>, password: Option<string>,
                                    fails: set<C>, r: State<C>)
    requires Inv(s) && c in s.recs
  {
    if s.recs[c].to.None? then FailEffect(s, {c}, fails, r)
    else
      var p := s.recs[c].to.value;
      if what == "AUTH" then
        if !Confirmed(s.recs[c], s.recs[p], nick, password) then FailEffect(s, {c, p}, fails, r)
        else if p in fails then FreeEffect(s, c, r)
        else r == s
      else if what == "DONE" || what == "FAIL" then PartEffect(s, c, p, fails, r)
      else r == s
  }

  ghost predicate CommandEffect<C>(s: State<C>, c: C, cmd: Command, fails: set<C>, r: State<C>)
    requires Inv(s) && c in s.recs
  {
    match cmd
    case Hello(host, nick) => r == if host.Some? then Renamed(s, c, nick) else s
    case Nick(name) => r == Renamed(s, c, Some(name))
    case Identify(name, secret) => IdentifyEffect(s, c, name, secret, fails, r)
    case Takeover(what, nick, password) => TakeoverEffect(s, c, what, nick, password, fails, r)
    case Client(alias) => BroadcastEffect(Renamed(s, c, Some(alias)), fails, r)
    case Spread => BroadcastEffect(s, fails, r)
  }

  // ---------------------------------------------------------------- the specification has these effects

  lemma {:induction false} RestNone<C>(order: seq<C>, gone: set<C>)
    requires forall x :: x in order ==> x !in gone
    ensures Rest(order, gone) == order
  {
    if order != [] {
      assert order == [order[0]] + order[1..];
      RestNone(order[1..], gone);
    }
  }

  lemma {:induction false} RestOne<C>(order: seq<C>, c: C)
    requires Distinct(order)
    ensures Rest(order, {c}) == Without(order, c)
  {
    if order != [] {
      assert order == [order[0]] + order[1..];
      DistinctTail(order);
      if order[0] == c {
        RestNone(order[1..], {c});
      } else {
        RestOne(order[1..], c);
      }
    }
  }

  lemma {:induction false} RestRest<C>(order: seq<C>, a: set<C>, b: set<C>)
    ensures Rest(Rest(order, a), b) == Rest(order, a + b)
  {
    if order != [] {
      var x, r := order[0], Rest(order[1..], a);
      RestRest(order[1..], a, b);
      if x !in a {
        assert ([x] + r)[0] == x && ([x] + r)[1..] == r;
      } else {
        assert [] + r == r;
      }
    }
  }

  lemma ReleaseCuts<C>(a: Rec<C>)
    ensures Cut(a, Release(a))
  {}

  lemma DropLeft<C>(s: State<C>, c: C)
    requires WellFormed(s) && c in s.recs
    ensures Left(s, Drop(s, c), {c})
  {
    RestOne(s.order, c);
  }

  lemma PutLeft<C>(s: State<C>, c: C, a: Rec<C>)
    requires WellFormed(s) && c in s.recs
    ensures Left(s, Put(s, c, a), {})
  {
    RestNone(s.order, {});
  }

  lemma FreeHas<C>(s: State<C>, c: C, fails: set<C>)
    requires Inv(s) && c in s.recs && !FreeFaults(s, c, fails)
    ensures FreeEffect(s, c, FreeOne(s, c, fails))
  {
    hide FreeOne, Rest;
    DropLeft(s, c);
    if s.recs[c].to.None? {
      FreeLone(s, c, fails);
    } else {
      var p := s.recs[c].to.value;
      FreeLinked(s, c, p, fails);
      ReleaseCuts(s.recs[p]);
    }
  }

  lemma NobodyElse<C>(s: State<C>, c: C)
    requires Inv(s) && c in s.recs
    ensures forall x :: x in s.recs && s.recs[x].to == Some(c) ==> s.recs[c].to == Some(x)
  {}

  lemma FailHas<C>(s: State<C>, c: C, fails: set<C>)
    requires Inv(s) && c in s.recs && s.recs[c].to.None?
    ensures FailEffect(s, {c}, fails, FailOne(s, c, fails))
  {
    hide FreeOne, FailOne, Rest;
    FailOneIs(s, c, fails);
    NobodyElse(s, c);
    if s.recs[c].toFd > -1 && c in fails {
      FreeHas(s, c, fails);
      assert Broken(s, {c}, fails) == {c};
    } else {
      ReleaseCuts(s.recs[c]);
      PutLeft(s, c, Release(s.recs[c]));
      assert Broken(s, {c}, fails) == {};
    }
  }

  /** Those of two told parties who go. */
  lemma GoneOf<C>(s: State<C>, c: C, p: C, fails: set<C>)
    requires c in s.recs && p in s.recs
    ensures Broken(s, {c, p}, fails) ==
            (if Holds(s, c) && c in fails then {c} else {}) + (if Holds(s, p) && p in fails then {p} else {})
  {}

  /** `p` is freed and `c`, its partner, has been told. */
  lemma FreedPairHas<C>(s: State<C>, c: C, p: C, fails: set<C>)
    requires Inv(s) && c in s.recs && p in s.recs && c != p && Holds(s, p) && p in fails && !(Holds(s, c) && c in fails)
    ensures FailEffect(s, {c, p}, fails, FreedPair(s, p, c, fails))
  {
    hide Rest, Drop, Without;
    GoneOf(s, c, p, fails);
    assert {} + {p} == {p};
    ReleaseCuts(s.recs[c]);
    DropLeft(s, p);
  }

  /** `p` has been told, and `c` has gone or been told. */
  lemma ToldHas<C>(s: State<C>, c: C, p: C, fails: set<C>)
    requires Inv(s) && c in s.recs && p in s.recs && c != p && !(Holds(s, p) && p in fails)
    ensures FailEffect(s, {c, p}, fails, Told(Put(s, p, Release(s.recs[p])), c, fails))
  {
    hide Rest, Drop, Without, Release;
    GoneOf(s, c, p, fails);
    ReleaseCuts(s.recs[c]);
    ReleaseCuts(s.recs[p]);
    var t := Put(s, p, Release(s.recs[p]));
    if Holds(s, c) && c in fails {
      assert {c} + {} == {c};
      DropLeft(t, c);
    } else {
      assert Broken(s, {c, p}, fails) == {};
      RestNone(s.order, {});
    }
  }

  lemma BothHas<C>(s: State<C>, c: C, p: C, fails: set<C>)
    requires Inv(s) && c in s.recs && s.recs[c].to == Some(p) && p in s.recs
    requires !(Holds(s, p) && p in fails && Holds(s, c) && c in fails)
    ensures FailEffect(s, {c, p}, fails, FailBoth(s, c, fails))
  {
    hide FreeOne, FailOne, FailBoth, Told, FreedPair, FailEffect;
    if Holds(s, p) && p in fails {
      FailBothBroken(s, c, p, fails);
      FreedTold(s, c, p, fails);
      FreedPairHas(s, c, p, fails);
    } else {
      FailBothWritten(s, c, p, fails);
      ToldHas(s, c, p, fails);
    }
  }

  lemma PartIs<C>(s: State<C>, c: C, p: C)
    requires Inv(s) && c in s.recs && s.recs[c].to == Some(p) && p in s.recs
    ensures var t, a, b := Part(s, c, p), s.recs[c], s.recs[p];
            && c in t.recs && t.order == s.order && t.recs.Keys == s.recs.Keys
            && t.recs[c] == Rec(a.ipcFd, a.nick, a.password, None, -1)
            && t.recs[p] == Rec(b.ipcFd, b.nick, b.password, None, b.toFd)
            && forall x :: x in t.recs && x != c && x != p ==> t.recs[x] == s.recs[x]
  {}

  lemma PartHas<C>(s: State<C>, c: C, p: C, fails: set<C>)
    requires Inv(s) && c in s.recs && s.recs[c].to == Some(p) && p in s.recs
    ensures c in Part(s, c, p).recs
    ensures PartEffect(s, c, p, fails, if p in fails then FreeOne(Part(s, c, p), c, fails) else Part(s, c, p))
  {
    hide FreeOne, Rest, Part, Drop, Without, Matching;
    var t := Part(s, c, p);
    PartIs(s, c, p);
    PartKeeps(s, c, p);
    if p in fails {
      NobodyElse(t, c);
      FreeLone(t, c, fails);
      DropLeft(t, c);
    } else {
      RestNone(s.order, {});
    }
  }

  lemma TakeoverHas<C>(s: State<C>, c: C, what: string, nick: Option<string>, password: Option<string>, fails: set<C>)
    requires Inv(s) && c in s.recs && !CommandFaults(s, c, Takeover(what, nick, password), fails)
    ensures TakeoverEffect(s, c, what, nick, password, fails, OnTakeover(s, c, what, nick, password, fails))
  {
    hide FreeOne, FailOne, FailBoth, Part, FailEffect, FreeEffect, PartEffect, Matching;
    InvParts(s, c);
    TakeoverIs(s, c, what, nick, password, fails);
    if s.recs[c].to.None? {
      FailHas(s, c, fails);
    } else {
      var p := s.recs[c].to.value;
      ConfirmedIs(s.recs[c], s.recs[p], nick, password);
      if what == "AUTH" {
        if !Agree(s.recs[c], s.recs[p], nick, password) {
          BothHas(s, c, p, fails);
        } else if p in fails {
          FreeHas(s, c, fails);
        }
      } else if what == "DONE" || what == "FAIL" {
        PartHas(s, c, p, fails);
      }
    }
  }

  lemma ConfirmedIs<C>(a: Rec<C>, b: Rec<C>, nick: Option<string>, password: Option<string>)
    ensures Confirmed(a, b, nick, password) <==> Agree(a, b, nick, password)
  {}

  lemma SessionIs<C>(a: Rec<C>, b: Rec<C>, nick: string, password: string)
    requires b.nick == Some(nick) && b.password == Some(password)
    ensures Session(a, nick, password) <==> SameLogin(a, b)
  {
    hide SameNick;
  }

  /** The search finds the first other session of the sender's nick and password. */
  lemma {:induction false} SearchIs<C>(s: State<C>, c: C, nick: string, password: string, i: nat)
    requires WellFormed(s) && c in s.recs && s.recs[c].nick == Some(nick)
    requires s.recs[c].password == Some(password) && i <= |s.order|
    requires forall k :: 0 <= k < i && s.order[k] != c ==> !Session(s.recs[s.order[k]], nick, password)
    ensures var older := OldSession(s, c, i);
            if older.Some? then exists j: nat :: j < |s.order| && FirstSession(s, c, nick, password, j) && s.order[j] == older.value
            else forall j: nat :: !FirstSession(s, c, nick, password, j)
    decreases |s.order| - i
  {
    hide Session, SameLogin;
    OldStep(s, c, i);
    if i < |s.order| {
      SessionIs(s.recs[s.order[i]], s.recs[c], nick, password);
      if s.order[i] != c && SameLogin(s.recs[s.order[i]], s.recs[c]) {
        assert FirstSession(s, c, nick, password, i);
      } else {
        SearchIs(s, c, nick, password, i + 1);
      }
    }
  }

  lemma OneFirst<C>(s: State<C>, c: C, nick: string, password: string, j: nat, k: nat)
    requires WellFormed(s) && FirstSession(s, c, nick, password, j) && FirstSession(s, c, nick, password, k)
    ensures j == k
  {
    hide Session;
  }

  /** Knowing the sender's password does not change who is found. */
  lemma KnownFirst<C>(s: State<C>, c: C, nick: string, password: string, j: nat)
    requires WellFormed(s) && c in s.recs
    ensures FirstSession(Known(s, c, password), c, nick, password, j) <==> FirstSession(s, c, nick, password, j)
  {
    hide Session;
  }

  lemma LinkedIs<C>(s: State<C>, c: C, password: string, p: C)
    requires WellFormed(s) && c in s.recs && p in s.recs && c != p
    ensures p in Known(s, c, password).recs && c in Known(s, c, password).recs
    ensures Linked(s, c, password, p) == Link(Known(s, c, password), c, p)
  {
    var a, b := Linked(s, c, password, p), Link(Known(s, c, password), c, p);
    assert a.recs == b.recs;
  }

  lemma RefusedIs<C>(s: State<C>, c: C, password: string)
    requires WellFormed(s) && c in s.recs
    ensures var k := Known(s, c, password);
            c in k.recs && Refused(s, c, password) == Put(k, c, k.recs[c].(toFd := -1))
  {
    var k := Known(s, c, password);
    assert Refused(s, c, password).recs == Put(k, c, k.recs[c].(toFd := -1)).recs;
  }

  lemma KnownIs<C>(s: State<C>, c: C, password: string)
    requires WellFormed(s) && c in s.recs
    ensures var k := Known(s, c, password);
            && k.order == s.order && k.recs.Keys == s.recs.Keys
            && k.recs[c] == s.recs[c].(password := Some(password))
            && forall x :: x in s.recs && x != c ==> k.recs[x] == s.recs[x]
  {}

  /** The search among the sessions as they are before the password is known. */
  lemma SearchKnown<C>(s: State<C>, c: C, nick: string, password: string)
    requires WellFormed(s) && c in s.recs && s.recs[c].nick == Some(nick)
    ensures c in Known(s, c, password).recs
    ensures var older := OldSession(Known(s, c, password), c, 0);
            if older.Some? then exists j: nat :: j < |s.order| && FirstSession(s, c, nick, password, j) && s.order[j] == older.value
            else forall j: nat :: !FirstSession(s, c, nick, password, j)
  {
    hide FirstSession, Known, OldSession;
    var k := Known(s, c, password);
    KnownIs(s, c, password);
    SearchIs(k, c, nick, password, 0);
    forall j: nat
      ensures FirstSession(k, c, nick, password, j) <==> FirstSession(s, c, nick, password, j)
    {
      KnownFirst(s, c, nick, password, j);
    }
  }

  /** The offer links the sender to the first other session, or refuses. */
  lemma OfferHas<C>(s: State<C>, c: C, nick: string, password: string)
    requires Inv(s) && c in s.recs && s.recs[c].nick == Some(nick)
    ensures c in Known(s, c, password).recs
    ensures var t := Offer(Known(s, c, password), c);
            if exists j: nat :: Linkable(s, c, nick, password, j)
            then exists j: nat :: Linkable(s, c, nick, password, j) && t == Linked(s, c, password, s.order[j])
            else t == Refused(s, c, password)
  {
    hide *;
    InvParts(s, c);
    var k := Known(s, c, password);
    KnownIs(s, c, password);
    SearchKnown(s, c, nick, password);
    OfferIs(k, c);
    RefusedIs(s, c, password);
    var older := OldSession(k, c, 0);
    if older.Some? {
      var j: nat :| j < |s.order| && FirstSession(s, c, nick, password, j) && s.order[j] == older.value;
      LinkedIs(s, c, password, older.value);
      OneLinkable(s, c, nick, password, j);
    } else {
      forall j: nat
        ensures !Linkable(s, c, nick, password, j)
      {
        LinkableFirst(s, c, nick, password, j);
      }
    }
  }

  lemma LinkableFirst<C>(s: State<C>, c: C, nick: string, password: string, j: nat)
    requires WellFormed(s) && c in s.recs
    ensures Linkable(s, c, nick, password, j) ==> FirstSession(s, c, nick, password, j)
  {}

  lemma OneLinkable<C>(s: State<C>, c: C, nick: string, password: string, j: nat)
    requires WellFormed(s) && c in s.recs && j < |s.order| && FirstSession(s, c, nick, password, j)
    ensures s.order[j] in s.recs && s.order[j] != c
    ensures Linkable(s, c, nick, password, j) <==> s.recs[c].to.None? && s.recs[s.order[j]].to.None?
    ensures forall i: nat :: Linkable(s, c, nick, password, i) ==> i == j
  {
    hide Session;
    forall i: nat | Linkable(s, c, nick, password, i)
      ensures i == j
    {
      OneFirst(s, c, nick, password, i, j);
    }
  }

  lemma AnswerHas<C>(t: State<C>, c: C, fails: set<C>)
    requires Inv(t) && c in t.recs && (c in fails ==> !FreeFaults(t, c, fails))
    ensures AnswerEffect(t, c, fails, if c in fails then FreeOne(t, c, fails) else t)
  {
    hide FreeOne, FreeEffect, FreeFaults;
    if c in fails {
      FreeHas(t, c, fails);
    }
  }

  lemma IdentifyHas<C>(s: State<C>, c: C, name: string, secret: string, fails: set<C>)
    requires Inv(s) && c in s.recs && !CommandFaults(s, c, Identify(name, secret), fails)
    ensures IdentifyEffect(s, c, name, secret, fails, OnIdentify(s, c, name, secret, fails))
  {
    IdentifyIs(s, c, name, secret, fails);
    if s.recs[c].nick == Some(name) {
      KnownKeeps(s, c, secret);
      OfferKeeps(Known(s, c, secret), c);
      OfferHas(s, c, name, secret);
      var t := Offer(Known(s, c, secret), c);
      OfferSafe(s, c, name, secret, fails);
      hide *;
      AnswerHas(t, c, fails);
      IdentifyShape(s, c, name, secret, fails, t);
    }
  }

  lemma OfferSafe<C>(s: State<C>, c: C, name: string, secret: string, fails: set<C>)
    requires Inv(s) && c in s.recs && !CommandFaults(s, c, Identify(name, secret), fails) && s.recs[c].nick == Some(name)
    requires c in Known(s, c, secret).recs
    ensures var t := Offer(Known(s, c, secret), c);
            Inv(t) && c in t.recs && (c in fails ==> !FreeFaults(t, c, fails))
  {
    hide Offer, Known, Matching, Only;
    KnownKeeps(s, c, secret);
    OfferKeeps(Known(s, c, secret), c);
    InvParts(Offer(Known(s, c, secret), c), c);
  }

  lemma IdentifyShape<C>(s: State<C>, c: C, name: string, secret: string, fails: set<C>, t: State<C>)
    requires Inv(s) && c in s.recs && s.recs[c].nick == Some(name) && WellFormed(t) && c in t.recs
    requires if exists j: nat :: Linkable(s, c, name, secret, j)
             then exists j: nat :: Linkable(s, c, name, secret, j) && t == Linked(s, c, secret, s.order[j])
             else t == Refused(s, c, secret)
    requires AnswerEffect(t, c, fails, if c in fails then FreeOne(t, c, fails) else t)
    ensures IdentifyEffect(s, c, name, secret, fails, if c in fails then FreeOne(t, c, fails) else t)
  {
    hide AnswerEffect, FreeOne, Linkable, Linked, Refused;
  }

  // ---------------------------------------------------------------- broadcasts

  /** What is left after one child has gone is what a broadcast to the others starts from. */
  lemma BroadcastTwo<C>(s: State<C>, c: C, fails: set<C>, t: State<C>, r: State<C>)
    requires Inv(s) && c in s.recs && c in fails && FreeEffect(s, c, t) && BroadcastEffect(t, fails, r)
    ensures BroadcastEffect(s, fails, r)
  {
    hide Rest;
    RestRest(s.order, {c}, fails);
    assert {c} + fails == fails;
    forall x | x in r.recs
      ensures if s.recs[x].to.Some? && s.recs[x].to.value in fails then Cut(s.recs[x], r.recs[x]) else r.recs[x] == s.recs[x]
    {
      assert x in t.recs;
    }
  }

  lemma {:induction false} BroadcastHas<C>(s: State<C>, i: nat, fails: set<C>)
    requires Inv(s) && forall j :: 0 <= j < i && j < |s.order| ==> s.order[j] !in fails
    requires !BroadcastFaults(s, i, fails)
    ensures BroadcastEffect(s, fails, Broadcast(s, i, fails))
    decreases |s.order|, |s.order| - i
  {
    hide FreeOne, PairFails, Without, Only, Matching, BroadcastFaults, FreeFaults, BroadcastEffect, FreeEffect, Broadcast;
    BroadcastUnfold(s, i, fails);
    if i >= |s.order| {
      NoneBroken(s, fails);
    } else if s.order[i] !in fails {
      SkipFaults(s, i, fails);
      BroadcastHas(s, i + 1, fails);
    } else {
      if FreeFaults(s, s.order[i], fails) {
        FirstFaults(s, i, fails);
      }
      FaultsShift(s, i, fails);
      BroadcastStep(s, i, fails);
      FreeHas(s, s.order[i], fails);
      var t := FreeOne(s, s.order[i], fails);
      BroadcastHas(t, i, fails);
      BroadcastTwo(s, s.order[i], fails, t, Broadcast(t, i, fails));
    }
  }

  lemma NoneBroken<C>(s: State<C>, fails: set<C>)
    requires Inv(s) && forall j :: 0 <= j < |s.order| ==> s.order[j] !in fails
    ensures BroadcastEffect(s, fails, s)
  {
    RestNone(s.order, fails);
  }

  lemma RenamedIs<C>(s: State<C>, c: C, nick: Option<string>)
    requires WellFormed(s) && c in s.recs
    ensures Renamed(s, c, nick) == SetNick(s, c, nick)
  {}

  lemma GivenIs<C>(s: State<C>, c: C, fd: nat)
    requires WellFormed(s) && c in s.recs
    ensures Given(s, c, fd) == Received(s, c, Some(fd)) && Received(s, c, None) == s
  {}

  lemma CommandHas<C>(s: State<C>, c: C, cmd: Command, fails: set<C>)
    requires Inv(s) && c in s.recs && !CommandFaults(s, c, cmd, fails)
    ensures CommandEffect(s, c, cmd, fails, OnCommand(s, c, cmd, fails))
  {
    hide OnIdentify, OnTakeover, Broadcast, BroadcastFaults, SetNick, Renamed, IdentifyEffect, TakeoverEffect, BroadcastEffect;
    match cmd
    case Hello(host, nick) => RenamedIs(s, c, nick);
    case Nick(name) => RenamedIs(s, c, Some(name));
    case Identify(name, secret) => IdentifyHas(s, c, name, secret, fails);
    case Takeover(what, nick, password) => TakeoverHas(s, c, what, nick, password, fails);
    case Client(alias) =>
      RenamedIs(s, c, Some(alias));
      NickKeeps(s, c, Some(alias));
      NickFaults(s, c, Some(alias), fails);
      BroadcastHas(SetNick(s, c, Some(alias)), 0, fails);
    case Spread => BroadcastHas(s, 0, fails);
  }
}
