/** The session-takeover protocol of the IPC master (ipc.c), on values. `C` names the children;
    `fails` holds the children whose pipe is broken while a command runs. */
module IpcSpec {
  import opened NickChars
  import opened Options

  datatype Rec<C> = Rec(ipcFd: int, nick: Option<string>, password: Option<string>, to: Option<C>, toFd: int)

  /** child_list with the fields of every child in it. `fault` is set when freed memory, a child or
      a list cell, has been used; nothing is known after that. */
  datatype State<C> = State(order: seq<C>, recs: map<C, Rec<C>>, fault: bool)

  ghost predicate Distinct<T>(s: seq<T>) {
    forall i, j :: 0 <= i < j < |s| ==> s[i] != s[j]
  }

  ghost predicate WellFormed<C>(s: State<C>) {
    && Distinct(s.order)
    && (forall c :: c in s.recs ==> c in s.order)
    && (forall c :: c in s.order ==> c in s.recs)
  }

  function Without<C(==)>(s: seq<C>, c: C): (r: seq<C>)
    ensures |r| <= |s| && (c in s ==> |r| < |s|)
    ensures forall x :: x in r ==> x in s
  {
    if s == [] then [] else if s[0] == c then s[1..] else [s[0]] + Without(s[1..], c)
  }

  lemma {:induction false} WithoutIs<C>(s: seq<C>, c: C)
    requires Distinct(s)
    ensures Distinct(Without(s, c))
    ensures forall x :: x in Without(s, c) <==> x in s && x != c
    ensures c !in s ==> Without(s, c) == s
  {
    if s != [] {
      DistinctTail(s);
      WithoutIs(s[1..], c);
      if s[0] != c {
        DistinctCons(s[0], Without(s[1..], c));
      }
    }
  }

  lemma DistinctTail<C>(s: seq<C>)
    requires Distinct(s) && s != []
    ensures Distinct(s[1..]) && s[0] !in s[1..]
    ensures forall x :: x in s <==> x == s[0] || x in s[1..]
  {}

  lemma DistinctCons<C>(x: C, s: seq<C>)
    requires Distinct(s) && x !in s
    ensures Distinct([x] + s)
  {}

  /** g_slist_remove, and the fields of `c` are gone. */
  ghost function Drop<C>(s: State<C>, c: C): (r: State<C>)
    requires WellFormed(s)
    ensures WellFormed(r) && |r.order| <= |s.order| && (c in s.recs ==> |r.order| < |s.order|)
    ensures r.order == Without(s.order, c) && r.recs == s.recs - {c} && r.fault == s.fault
  {
    WithoutIs(s.order, c);
    State(Without(s.order, c), s.recs - {c}, s.fault)
  }

  ghost function Put<C>(s: State<C>, c: C, r: Rec<C>): (t: State<C>)
    requires WellFormed(s) && c in s.recs
    ensures WellFormed(t) && t.order == s.order && t.fault == s.fault && t.recs == s.recs[c := r]
  {
    s.(recs := s.recs[c := r])
  }

  ghost function Release<C>(r: Rec<C>): Rec<C> {
    r.(to := None, toFd := if r.toFd > -1 then -1 else r.toFd)
  }

  /** ipc_master_free_one. */
  ghost function FreeOne<C>(s: State<C>, c: C, fails: set<C>): (r: State<C>)
    requires WellFormed(s) && c in s.recs
    ensures WellFormed(r) && |r.order| < |s.order|
    decreases |s.order|, 1, 0
  {
    Walk(Drop(s, c), c, 0, fails)
  }

  /** Its loop over the children that are left. When the one at hand is freed by the nested call,
      the loop goes on from a freed list cell. */
  ghost function Walk<C>(s: State<C>, gone: C, i: nat, fails: set<C>): (r: State<C>)
    requires WellFormed(s)
    ensures WellFormed(r) && |r.order| <= |s.order|
    decreases |s.order|, 3, |s.order| - i
  {
    if i >= |s.order| then s
    else
      var oc := s.order[i];
      if s.recs[oc].to != Some(gone) then Walk(s, gone, i + 1, fails)
      else
        var t := FailOne(s, oc, fails);
        if t.fault then t
        else if oc !in t.recs then t.(fault := true)
        else Walk(t, gone, i + 1, fails)
  }

  lemma FreeOneIs<C>(s: State<C>, c: C, fails: set<C>)
    requires WellFormed(s) && c in s.recs
    ensures FreeOne(s, c, fails) == Walk(Drop(s, c), c, 0, fails)
    ensures |Drop(s, c).order| < |s.order|
  {}

  lemma FailOneIs<C>(s: State<C>, c: C, fails: set<C>)
    requires WellFormed(s) && c in s.recs
    ensures FailOne(s, c, fails) ==
            if s.recs[c].toFd > -1 && c in fails then FreeOne(s, c, fails) else Put(s, c, Release(s.recs[c]))
  {}

  lemma WalkStep<C>(s: State<C>, gone: C, i: nat, fails: set<C>)
    requires WellFormed(s)
    ensures i >= |s.order| ==> Walk(s, gone, i, fails) == s
    ensures i < |s.order| ==> s.order[i] in s.recs
    ensures i < |s.order| && s.recs[s.order[i]].to != Some(gone) ==>
              Walk(s, gone, i, fails) == Walk(s, gone, i + 1, fails)
    ensures i < |s.order| && s.recs[s.order[i]].to == Some(gone) ==>
              var t := FailOne(s, s.order[i], fails);
              Walk(s, gone, i, fails) == if t.fault then t
                                         else if s.order[i] !in t.recs then t.(fault := true)
                                         else Walk(t, gone, i + 1, fails)
  {
    hide FailOne;
  }

  /** ipc_master_takeover_fail for one child of the list. */
  ghost function FailOne<C>(s: State<C>, c: C, fails: set<C>): (r: State<C>)
    requires WellFormed(s) && c in s.recs
    ensures WellFormed(r) && |r.order| <= |s.order|
    decreases |s.order|, 2, 0
  {
    if s.recs[c].toFd > -1 && c in fails then FreeOne(s, c, fails) else Put(s, c, Release(s.recs[c]))
  }

  /** ipc_master_takeover_fail for a child and its partner. */
  ghost function FailBoth<C>(s: State<C>, c: C, fails: set<C>): (r: State<C>)
    requires WellFormed(s) && c in s.recs
    ensures WellFormed(r)
  {
    var p := s.recs[c].to;
    var t := if p.Some? && p.value in s.recs then FailOne(s, p.value, fails) else s;
    if t.fault then t
    else if c !in t.recs then t.(fault := true)
    else FailOne(t, c, fails)
  }

  lemma FailBothIs<C>(s: State<C>, c: C, fails: set<C>)
    requires WellFormed(s) && c in s.recs
    ensures var p := s.recs[c].to;
            var t := if p.Some? && p.value in s.recs then FailOne(s, p.value, fails) else s;
            FailBoth(s, c, fails) == if t.fault then t
                                     else if c !in t.recs then t.(fault := true)
                                     else FailOne(t, c, fails)
  {}

  // ---------------------------------------------------------------- what freeing does

  /** Links go both ways, between two different children of the list. */
  ghost predicate Matching<C>(s: State<C>) {
    forall c :: c in s.recs && s.recs[c].to.Some? ==>
      var p := s.recs[c].to.value;
      p != c && p in s.recs && s.recs[p].to == Some(c)
  }

  lemma {:induction false} WalkNothing<C>(s: State<C>, gone: C, i: nat, fails: set<C>)
    requires WellFormed(s) && forall j :: i <= j < |s.order| ==> s.recs[s.order[j]].to != Some(gone)
    ensures Walk(s, gone, i, fails) == s
    decreases |s.order| - i
  {
    if i < |s.order| {
      WalkNothing(s, gone, i + 1, fails);
    }
  }

  /** A child nobody is linked to is only taken out of the list. */
  lemma FreeLone<C>(s: State<C>, c: C, fails: set<C>)
    requires WellFormed(s) && c in s.recs && forall x :: x in s.recs && x != c ==> s.recs[x].to != Some(c)
    ensures FreeOne(s, c, fails) == Drop(s, c)
  {
    WalkNothing(Drop(s, c), c, 0, fails);
  }

  /** What is left when `c` goes and its partner `p` is told: the partner loses its link and its
      descriptor; if that cannot be written, the partner goes too, and the loop is lost. */
  ghost function FreedPair<C>(s: State<C>, c: C, p: C, fails: set<C>): State<C>
    requires WellFormed(s) && p in s.recs && p != c
  {
    var t := Drop(s, c);
    if s.recs[p].toFd > -1 && p in fails then Drop(t, p).(fault := true) else Put(t, p, Release(s.recs[p]))
  }

  lemma {:induction false} WalkPartner<C>(s: State<C>, gone: C, p: C, i: nat, fails: set<C>)
    requires WellFormed(s) && p in s.recs && !s.fault && gone !in s.recs
    requires s.recs[p].to == Some(gone) && exists j :: i <= j < |s.order| && s.order[j] == p
    requires forall x :: x in s.recs && x != p ==> s.recs[x].to != Some(gone) && s.recs[x].to != Some(p)
    ensures Walk(s, gone, i, fails) ==
            if s.recs[p].toFd > -1 && p in fails then Drop(s, p).(fault := true) else Put(s, p, Release(s.recs[p]))
    decreases |s.order| - i
  {
    if s.order[i] == p {
      if s.recs[p].toFd > -1 && p in fails {
        FreeLone(s, p, fails);
      } else {
        WalkNothing(Put(s, p, Release(s.recs[p])), gone, i + 1, fails);
      }
    } else {
      WalkPartner(s, gone, p, i + 1, fails);
    }
  }

  lemma FreeLinked<C>(s: State<C>, c: C, p: C, fails: set<C>)
    requires WellFormed(s) && !s.fault && Matching(s) && c in s.recs && s.recs[c].to == Some(p)
    ensures p in s.recs && p != c && FreeOne(s, c, fails) == FreedPair(s, c, p, fails)
  {
    var t := Drop(s, c);
    assert p in t.order;
    WalkPartner(t, c, p, 0, fails);
  }

  /** ipc_to_children_str: write to everyone and free those that cannot be written to. The next
      cell is remembered before a child is freed. */
  ghost function Broadcast<C>(s: State<C>, i: nat, fails: set<C>): (r: State<C>)
    requires WellFormed(s)
    ensures WellFormed(r)
    decreases |s.order|, |s.order| - i
  {
    if i >= |s.order| then s
    else if s.order[i] !in fails then Broadcast(s, i + 1, fails)
    else
      var t := FreeOne(s, s.order[i], fails);
      if t.fault then t
      else if i + 1 < |s.order| && s.order[i + 1] !in t.recs then t.(fault := true)
      else Broadcast(t, i, fails)
  }

  // ---------------------------------------------------------------- commands

  /** The commands that reach the takeover state; optional parameters may be missing. */
  datatype Command =
    | Hello(host: Option<string>, nick: Option<string>)
    | Nick(name: string)
    | Identify(name: string, secret: string)
    | Takeover(what: string, nick: Option<string>, password: Option<string>)
    | Client(alias: string)
    | Spread

  ghost function SetNick<C>(s: State<C>, c: C, nick: Option<string>): (r: State<C>)
    requires WellFormed(s) && c in s.recs
    ensures WellFormed(r)
  {
    Put(s, c, s.recs[c].(nick := nick))
  }

  predicate SameLogin<C(==)>(a: Rec<C>, b: Rec<C>) {
    && a.nick.Some? && b.nick.Some? && SameNick(a.nick.value, b.nick.value)
    && a.password.Some? && a.password == b.password
  }

  /** The search of ipc_master_cmd_identify: the first other child with the same login. */
  ghost function OldSession<C>(s: State<C>, c: C, i: nat): (r: Option<C>)
    requires WellFormed(s) && c in s.recs
    ensures r.Some? ==> r.value in s.recs && r.value != c && SameLogin(s.recs[r.value], s.recs[c])
    decreases |s.order| - i
  {
    if i >= |s.order| then None
    else if s.order[i] != c && SameLogin(s.recs[s.order[i]], s.recs[c]) then Some(s.order[i])
    else OldSession(s, c, i + 1)
  }

  ghost function Link<C>(s: State<C>, c: C, p: C): (r: State<C>)
    requires WellFormed(s) && c in s.recs && p in s.recs && c != p
    ensures WellFormed(r)
  {
    Put(Put(s, c, s.recs[c].(to := Some(p))), p, s.recs[p].(to := Some(c)))
  }

  /** Offer a takeover to `c` when an older session without a partner is there. */
  ghost function Offer<C>(s: State<C>, c: C): (r: State<C>)
    requires WellFormed(s) && c in s.recs
    ensures WellFormed(r) && c in r.recs
  {
    var older := OldSession(s, c, 0);
    if older.Some? && s.recs[c].to.None? && s.recs[older.value].to.None? then Link(s, c, older.value)
    else Put(s, c, s.recs[c].(toFd := -1))
  }

  ghost function Known<C>(s: State<C>, c: C, secret: string): (r: State<C>)
    requires WellFormed(s) && c in s.recs
    ensures WellFormed(r)
  {
    Put(s, c, s.recs[c].(password := Some(secret)))
  }

  ghost function OnIdentify<C>(s: State<C>, c: C, nick: string, password: string, fails: set<C>): (r: State<C>)
    requires WellFormed(s) && c in s.recs
    ensures WellFormed(r)
  {
    if s.recs[c].nick != Some(nick) then s
    else
      var t := Offer(Known(s, c, password), c);
      if c in fails then FreeOne(t, c, fails) else t
  }

  /** Both parties and the command name the same nick and password. */
  predicate Agree<C(==)>(a: Rec<C>, b: Rec<C>, nick: Option<string>, password: Option<string>) {
    && a.nick.Some? && a.nick == b.nick && nick == a.nick
    && a.password.Some? && a.password == b.password && password == a.password
  }

  /** Both parties forget each other, and the sender its descriptor. */
  ghost function Part<C>(s: State<C>, c: C, p: C): (r: State<C>)
    requires WellFormed(s) && c in s.recs && p in s.recs
    ensures WellFormed(r)
  {
    var t := Put(s, p, s.recs[p].(to := None));
    Put(t, c, t.recs[c].(to := None, toFd := -1))
  }

  ghost function OnTakeover<C>(s: State<C>, c: C, what: string, nick: Option<string>, password: Option<string>, fails: set<C>):
    (r: State<C>)
    requires WellFormed(s) && c in s.recs
    ensures WellFormed(r)
  {
    if s.recs[c].to.None? || s.recs[c].to.value !in s.recs then FailOne(s, c, fails)
    else
      var p := s.recs[c].to.value;
      if what == "AUTH" then
        if Agree(s.recs[c], s.recs[p], nick, password)
        then if p in fails then FreeOne(s, c, fails) else s
        else FailBoth(s, c, fails)
      else if what == "DONE" || what == "FAIL" then
        var t := Part(s, c, p);
        if p in fails then FreeOne(t, c, fails) else t
      else s
  }

  ghost function OnCommand<C>(s: State<C>, c: C, cmd: Command, fails: set<C>): (r: State<C>)
    requires WellFormed(s) && c in s.recs
    ensures WellFormed(r)
  {
    match cmd
    case Hello(host, nick) => if host.Some? then SetNick(s, c, nick) else s
    case Nick(name) => SetNick(s, c, Some(name))
    case Identify(name, secret) => OnIdentify(s, c, name, secret, fails)
    case Takeover(what, nick, password) => OnTakeover(s, c, what, nick, password, fails)
    case Client(alias) => Broadcast(SetNick(s, c, Some(alias)), 0, fails)
    case Spread => Broadcast(s, 0, fails)
  }

  /** ipc_readline stores a descriptor that comes with a line. */
  ghost function Received<C>(s: State<C>, c: C, fd: Option<nat>): (r: State<C>)
    requires WellFormed(s) && c in s.recs
    ensures WellFormed(r) && c in r.recs
  {
    if fd.Some? then Put(s, c, s.recs[c].(toFd := fd.value)) else s
  }

  ghost function NewChild<C>(s: State<C>, c: C, fd: int, front: bool): (r: State<C>)
    requires WellFormed(s) && c !in s.recs
    ensures WellFormed(r)
  {
    State(if front then [c] + s.order else s.order + [c], s.recs[c := Rec(fd, None, None, None, -1)], s.fault)
  }

  // ---------------------------------------------------------------- the definitions, one step each

  lemma OldStep<C>(s: State<C>, c: C, i: nat)
    requires WellFormed(s) && c in s.recs
    ensures i < |s.order| ==> s.order[i] in s.recs
    ensures OldSession(s, c, i) ==
            if i >= |s.order| then None
            else if s.order[i] != c && SameLogin(s.recs[s.order[i]], s.recs[c]) then Some(s.order[i])
            else OldSession(s, c, i + 1)
  {
    hide SameLogin;
  }

  lemma LoginIs<C>(a: Rec<C>, b: Rec<C>)
    ensures SameLogin(a, b) <==>
              && a.nick.Some? && b.nick.Some? && SameNick(a.nick.value, b.nick.value)
              && a.password.Some? && a.password == b.password
  {}

  lemma IdentifyIs<C>(s: State<C>, c: C, name: string, secret: string, fails: set<C>)
    requires WellFormed(s) && c in s.recs
    ensures s.recs[c].nick != Some(name) ==> OnIdentify(s, c, name, secret, fails) == s
    ensures c in Known(s, c, secret).recs && c in Offer(Known(s, c, secret), c).recs
    ensures s.recs[c].nick == Some(name) ==>
              var t := Offer(Known(s, c, secret), c);
              OnIdentify(s, c, name, secret, fails) == if c in fails then FreeOne(t, c, fails) else t
  {
    hide FreeOne, Offer;
  }

  lemma BroadcastUnfold<C>(s: State<C>, i: nat, fails: set<C>)
    requires WellFormed(s)
    ensures i < |s.order| ==> s.order[i] in s.recs
    ensures i >= |s.order| ==> Broadcast(s, i, fails) == s
    ensures i < |s.order| && s.order[i] !in fails ==> Broadcast(s, i, fails) == Broadcast(s, i + 1, fails)
    ensures i < |s.order| && s.order[i] in fails ==>
              var t := FreeOne(s, s.order[i], fails);
              Broadcast(s, i, fails) == if t.fault then t
                                        else if i + 1 < |s.order| && s.order[i + 1] !in t.recs then t.(fault := true)
                                        else Broadcast(t, i, fails)
  {
    hide FreeOne;
  }

  lemma OfferIs<C>(s: State<C>, c: C)
    requires WellFormed(s) && c in s.recs
    ensures var older := OldSession(s, c, 0);
            && (older.Some? ==> older.value in s.recs && older.value != c)
            && (older.Some? && s.recs[c].to.None? && s.recs[older.value].to.None? ==>
                  Offer(s, c) == Link(s, c, older.value))
            && (!(older.Some? && s.recs[c].to.None? && s.recs[older.value].to.None?) ==>
                  Offer(s, c) == Put(s, c, s.recs[c].(toFd := -1)))
  {}

  lemma LinkAs<C>(s: State<C>, c: C, p: C)
    requires WellFormed(s) && c in s.recs && p in s.recs && c != p
    ensures var t := Put(s, c, s.recs[c].(to := Some(p)));
            p in t.recs && Link(s, c, p) == Put(t, p, t.recs[p].(to := Some(c)))
  {}

  lemma AgreeIs<C>(a: Rec<C>, b: Rec<C>, nick: Option<string>, password: Option<string>)
    ensures Agree(a, b, nick, password) <==>
              && a.nick.Some? && a.nick == b.nick && nick == a.nick
              && a.password.Some? && a.password == b.password && password == a.password
  {}

  lemma TakeoverIs<C>(s: State<C>, c: C, what: string, nick: Option<string>, password: Option<string>, fails: set<C>)
    requires WellFormed(s) && c in s.recs
    ensures s.recs[c].to.None? || s.recs[c].to.value !in s.recs ==>
              OnTakeover(s, c, what, nick, password, fails) == FailOne(s, c, fails)
    ensures s.recs[c].to.Some? && s.recs[c].to.value in s.recs ==>
              var p := s.recs[c].to.value;
              var t := Part(s, c, p);
              && c in t.recs
              && (what == "AUTH" && Agree(s.recs[c], s.recs[p], nick, password) ==>
                    OnTakeover(s, c, what, nick, password, fails) == if p in fails then FreeOne(s, c, fails) else s)
              && (what == "AUTH" && !Agree(s.recs[c], s.recs[p], nick, password) ==>
                    OnTakeover(s, c, what, nick, password, fails) == FailBoth(s, c, fails))
              && (what == "DONE" || what == "FAIL" ==>
                    OnTakeover(s, c, what, nick, password, fails) == if p in fails then FreeOne(t, c, fails) else t)
              && (what != "AUTH" && what != "DONE" && what != "FAIL" ==>
                    OnTakeover(s, c, what, nick, password, fails) == s)
  {
    hide FreeOne, FailOne, FailBoth, Agree;
  }

  /** The order in which the fields are cleared does not matter. */
  lemma PartAs<C>(s: State<C>, c: C, p: C)
    requires WellFormed(s) && c in s.recs && p in s.recs
    ensures var t := Put(s, c, s.recs[c].(toFd := -1));
            && p in t.recs
            && var u := Put(t, p, t.recs[p].(to := None));
               c in u.recs && Part(s, c, p) == Put(u, c, u.recs[c].(to := None))
  {
    var t := Put(s, c, s.recs[c].(toFd := -1));
    var u := Put(t, p, t.recs[p].(to := None));
    assert Part(s, c, p).recs == Put(u, c, u.recs[c].(to := None)).recs;
  }

  // ---------------------------------------------------------------- what every step keeps

  ghost predicate Inv<C>(s: State<C>) {
    WellFormed(s) && Matching(s) && !s.fault
  }

  ghost predicate Holds<C>(s: State<C>, c: C)
    requires c in s.recs
  {
    s.recs[c].toFd > -1
  }

  /** The child and its partner. */
  ghost function Pair<C>(s: State<C>, c: C): set<C>
    requires c in s.recs
  {
    {c} + if s.recs[c].to.Some? then {s.recs[c].to.value} else {}
  }

  /** Nothing outside `pair` has changed, and nobody has come. */
  ghost predicate Only<C>(s: State<C>, r: State<C>, pair: set<C>) {
    && (forall x :: x in s.recs && x !in pair ==> x in r.recs && r.recs[x] == s.recs[x])
    && (forall x :: x in r.recs ==> x in s.recs)
  }

  /** Freeing `c` runs into freed memory exactly when its partner holds a descriptor and cannot be
      written to. */
  ghost predicate FreeFaults<C>(s: State<C>, c: C, fails: set<C>)
    requires Inv(s) && c in s.recs
  {
    s.recs[c].to.Some? && Holds(s, s.recs[c].to.value) && s.recs[c].to.value in fails
  }

  lemma FreeKeeps<C>(s: State<C>, c: C, fails: set<C>)
    requires Inv(s) && c in s.recs
    ensures var r := FreeOne(s, c, fails);
            && (r.fault <==> FreeFaults(s, c, fails))
            && (!r.fault ==> Inv(r) && Only(s, r, Pair(s, c)) && c !in r.recs && r.order == Without(s.order, c))
            && (!r.fault ==> forall x :: x in r.recs && x in Pair(s, c) ==> r.recs[x].to.None? && r.recs[x].toFd < 0)
  {
    if s.recs[c].to.None? {
      FreeLone(s, c, fails);
    } else {
      FreeLinked(s, c, s.recs[c].to.value, fails);
    }
  }

  lemma FailKeeps<C>(s: State<C>, c: C, fails: set<C>)
    requires Inv(s) && c in s.recs && s.recs[c].to.None?
    ensures var r := FailOne(s, c, fails);
            Inv(r) && Only(s, r, {c}) && (c in r.recs ==> r.recs[c].to.None? && r.recs[c].toFd < 0)
  {
    FreeKeeps(s, c, fails);
  }

  /** What is left of `c` once it is told that the takeover failed. */
  ghost function Told<C>(s: State<C>, c: C, fails: set<C>): (r: State<C>)
    requires WellFormed(s) && c in s.recs
    ensures WellFormed(r)
  {
    if Holds(s, c) && c in fails then Drop(s, c) else Put(s, c, Release(s.recs[c]))
  }

  lemma FailBothWritten<C>(s: State<C>, c: C, p: C, fails: set<C>)
    requires Inv(s) && c in s.recs && s.recs[c].to == Some(p) && !(Holds(s, p) && p in fails)
    ensures FailBoth(s, c, fails) == Told(Put(s, p, Release(s.recs[p])), c, fails)
  {
    hide FreeOne, Drop;
    var t := Put(s, p, Release(s.recs[p]));
    if Holds(s, c) && c in fails {
      FreeLone(t, c, fails);
    }
  }

  lemma FailBothBroken<C>(s: State<C>, c: C, p: C, fails: set<C>)
    requires Inv(s) && c in s.recs && s.recs[c].to == Some(p) && Holds(s, p) && p in fails
    ensures FailBoth(s, c, fails) == if Holds(s, c) && c in fails then FreedPair(s, p, c, fails)
                                     else FailOne(FreedPair(s, p, c, fails), c, fails)
  {
    hide FreeOne, Drop;
    FreeLinked(s, p, c, fails);
  }

  lemma ToldKeeps<C>(s: State<C>, c: C, p: C, fails: set<C>)
    requires Inv(s) && c in s.recs && s.recs[c].to == Some(p)
    ensures var r := Told(Put(s, p, Release(s.recs[p])), c, fails);
            && Inv(r) && Only(s, r, {c, p})
            && forall x :: x in r.recs && x in {c, p} ==> r.recs[x].to.None? && r.recs[x].toFd < 0
  {
    var t := Put(s, p, Release(s.recs[p]));
    if Holds(t, c) && c in fails {
      assert Told(t, c, fails) == Drop(t, c);
    } else {
      assert Told(t, c, fails) == Put(t, c, Release(t.recs[c]));
    }
  }

  lemma FreedTold<C>(s: State<C>, c: C, p: C, fails: set<C>)
    requires Inv(s) && c in s.recs && p in s.recs && s.recs[c].to == Some(p) && !(Holds(s, c) && c in fails)
    ensures FailOne(FreedPair(s, p, c, fails), c, fails) == FreedPair(s, p, c, fails)
    ensures c in FreedPair(s, p, c, fails).recs && FreedPair(s, p, c, fails).recs[c].to.None?
    ensures FreedPair(s, p, c, fails).recs[c].toFd < 0
  {
    hide FreeOne;
    var t := FreedPair(s, p, c, fails);
    assert t.recs[c := t.recs[c]] == t.recs;
  }

  /** When both parties of a failed takeover are to be told, freed memory is used exactly when
      both hold a descriptor and neither can be written to. */
  lemma FailBothKeeps<C>(s: State<C>, c: C, p: C, fails: set<C>)
    requires Inv(s) && c in s.recs && s.recs[c].to == Some(p) && p in s.recs
    ensures var r := FailBoth(s, c, fails);
            && (r.fault <==> Holds(s, p) && p in fails && Holds(s, c) && c in fails)
            && (!r.fault ==> Inv(r) && Only(s, r, {c, p}))
            && (!r.fault ==> forall x :: x in r.recs && x in {c, p} ==> r.recs[x].to.None? && r.recs[x].toFd < 0)
  {
    hide FreeOne, FailOne, FailBoth, Told, Drop;
    if Holds(s, p) && p in fails {
      FailBothBroken(s, c, p, fails);
      FreeLinked(s, p, c, fails);
      FreeKeeps(s, p, fails);
      if !(Holds(s, c) && c in fails) {
        FreedTold(s, c, p, fails);
      }
    } else {
      hide Only, Inv, Holds;
      FailBothWritten(s, c, p, fails);
      ToldKeeps(s, c, p, fails);
    }
  }

  lemma LinkKeeps<C>(s: State<C>, c: C, p: C)
    requires Inv(s) && c in s.recs && p in s.recs && c != p && s.recs[c].to.None? && s.recs[p].to.None?
    ensures Inv(Link(s, c, p))
  {}

  lemma PartKeeps<C>(s: State<C>, c: C, p: C)
    requires Inv(s) && c in s.recs && s.recs[c].to == Some(p)
    ensures var r := Part(s, c, p);
            && Inv(r) && Only(s, r, {c, p}) && c in r.recs && p in r.recs
            && r.recs[c].to.None? && r.recs[p].to.None? && !Holds(r, c)
  {}

  lemma PartFree<C>(s: State<C>, c: C, p: C, fails: set<C>)
    requires Inv(s) && c in s.recs && s.recs[c].to == Some(p)
    ensures c in Part(s, c, p).recs
    ensures var r := if p in fails then FreeOne(Part(s, c, p), c, fails) else Part(s, c, p);
            Inv(r) && Only(s, r, {c, p})
  {
    hide FreeOne, Part;
    PartKeeps(s, c, p);
    FreeKeeps(Part(s, c, p), c, fails);
  }

  /** The older session a new one may be linked to. */
  ghost function Offered<C>(s: State<C>, c: C): set<C>
    requires WellFormed(s) && c in s.recs
  {
    var older := OldSession(s, c, 0);
    {c} + if older.Some? then {older.value} else {}
  }

  lemma OfferKeeps<C>(s: State<C>, c: C)
    requires Inv(s) && c in s.recs
    ensures var r := Offer(s, c);
            Inv(r) && Only(s, r, Offered(s, c)) && r.recs.Keys == s.recs.Keys
    ensures var r := Offer(s, c);
            forall x :: x in s.recs ==> (Holds(r, x) ==> Holds(s, x)) && (x != c ==> r.recs[x].toFd == s.recs[x].toFd)
  {
    var older := OldSession(s, c, 0);
    if older.Some? && s.recs[c].to.None? && s.recs[older.value].to.None? {
      LinkKeeps(s, c, older.value);
    }
  }

  // ---------------------------------------------------------------- broadcasts

  /** Two linked children fail, and the later one holds a descriptor. */
  ghost predicate PairFails<C>(s: State<C>, j: nat, k: nat, fails: set<C>)
    requires WellFormed(s) && j < k < |s.order|
  {
    && s.order[j] in fails && s.order[k] in fails
    && s.recs[s.order[j]].to == Some(s.order[k]) && Holds(s, s.order[k])
  }

  ghost predicate BroadcastFaults<C>(s: State<C>, i: nat, fails: set<C>)
    requires WellFormed(s)
  {
    exists j, k :: i <= j < k < |s.order| && PairFails(s, j, k, fails)
  }

  lemma {:induction false} WithoutAt<C>(s: seq<C>, i: nat)
    requires Distinct(s) && i < |s|
    ensures Without(s, s[i]) == s[..i] + s[i + 1..]
  {
    DistinctTail(s);
    if i > 0 {
      WithoutAt(s[1..], i - 1);
      assert s[1..][..i - 1] == s[1..i] && s[1..][i..] == s[i + 1..];
      assert [s[0]] + (s[1..i] + s[i + 1..]) == s[..i] + s[i + 1..];
    }
  }

  lemma PairShift<C>(s: State<C>, t: State<C>, i: nat, j: nat, k: nat, fails: set<C>)
    requires Inv(s) && i < |s.order| && Inv(t) && Only(s, t, Pair(s, s.order[i]))
    requires t.order == s.order[..i] + s.order[i + 1..] && i <= j < k < |t.order|
    requires forall x :: x in t.recs && x in Pair(s, s.order[i]) ==> t.recs[x].to.None?
    ensures PairFails(t, j, k, fails) <==> PairFails(s, j + 1, k + 1, fails)
  {
    var c := s.order[i];
    assert t.order[j] == s.order[j + 1] && t.order[k] == s.order[k + 1];
    assert t.order[j] != c && t.order[k] != c;
  }

  lemma FreeUnlinks<C>(s: State<C>, c: C, fails: set<C>)
    requires Inv(s) && c in s.recs && !FreeFaults(s, c, fails)
    ensures forall x :: x in FreeOne(s, c, fails).recs && x in Pair(s, c) ==> FreeOne(s, c, fails).recs[x].to.None?
  {
    if s.recs[c].to.None? {
      FreeLone(s, c, fails);
    } else {
      FreeLinked(s, c, s.recs[c].to.value, fails);
    }
  }

  /** Freeing the child at hand does not change which of the later pairs will fail. */
  lemma FaultsShift<C>(s: State<C>, i: nat, fails: set<C>)
    requires Inv(s) && i < |s.order| && s.order[i] in fails && !FreeFaults(s, s.order[i], fails)
    ensures BroadcastFaults(FreeOne(s, s.order[i], fails), i, fails) <==> BroadcastFaults(s, i, fails)
  {
    hide FreeOne, PairFails, Without, Only, Matching;
    var c := s.order[i];
    var t := FreeOne(s, c, fails);
    FreeKeeps(s, c, fails);
    FreeUnlinks(s, c, fails);
    WithoutAt(s.order, i);
    if BroadcastFaults(t, i, fails) {
      var j, k :| i <= j < k < |t.order| && PairFails(t, j, k, fails);
      PairShift(s, t, i, j, k, fails);
    }
    if BroadcastFaults(s, i, fails) {
      var j, k :| i <= j < k < |s.order| && PairFails(s, j, k, fails);
      if j == i {
        NotFirst(s, i, k, fails);
      }
      PairShift(s, t, i, j - 1, k - 1, fails);
    }
  }

  lemma NotFirst<C>(s: State<C>, i: nat, k: nat, fails: set<C>)
    requires Inv(s) && i < k < |s.order| && !FreeFaults(s, s.order[i], fails)
    ensures !PairFails(s, i, k, fails)
  {}

  /** A child fails alone: nothing later is linked to it and fails. */
  lemma FirstFaults<C>(s: State<C>, i: nat, fails: set<C>)
    requires Inv(s) && i < |s.order| && s.order[i] in fails && FreeFaults(s, s.order[i], fails)
    requires forall j :: 0 <= j < i ==> s.order[j] !in fails
    ensures BroadcastFaults(s, i, fails)
  {
    var p := s.recs[s.order[i]].to.value;
    var k :| 0 <= k < |s.order| && s.order[k] == p;
    assert PairFails(s, i, k, fails);
  }

  /** A broadcast uses freed memory exactly when two linked children both fail and the later one
      holds a descriptor; otherwise it frees those that fail and no one else. */
  lemma {:induction false} BroadcastKeeps<C>(s: State<C>, i: nat, fails: set<C>)
    requires Inv(s) && forall j :: 0 <= j < i && j < |s.order| ==> s.order[j] !in fails
    ensures var r := Broadcast(s, i, fails);
            && (r.fault <==> BroadcastFaults(s, i, fails))
            && (!r.fault ==> Inv(r) && r.recs.Keys == s.recs.Keys - fails)
    decreases |s.order|, |s.order| - i
  {
    hide FreeOne, PairFails, Without, Only, Matching, BroadcastFaults, FreeFaults;
    if i >= |s.order| {
      BroadcastDone(s, i, fails);
    } else if s.order[i] !in fails {
      BroadcastKeeps(s, i + 1, fails);
      SkipFaults(s, i, fails);
    } else {
      FreeKeeps(s, s.order[i], fails);
      if FreeFaults(s, s.order[i], fails) {
        FirstFaults(s, i, fails);
      } else {
        FaultsShift(s, i, fails);
        BroadcastStep(s, i, fails);
        BroadcastKeeps(FreeOne(s, s.order[i], fails), i, fails);
      }
    }
  }

  lemma BroadcastDone<C>(s: State<C>, i: nat, fails: set<C>)
    requires Inv(s) && i >= |s.order| && forall j :: 0 <= j < |s.order| ==> s.order[j] !in fails
    ensures !BroadcastFaults(s, i, fails) && s.recs.Keys == s.recs.Keys - fails
  {}

  lemma SkipFaults<C>(s: State<C>, i: nat, fails: set<C>)
    requires Inv(s) && i < |s.order| && s.order[i] !in fails
    ensures BroadcastFaults(s, i, fails) <==> BroadcastFaults(s, i + 1, fails)
  {}

  lemma BroadcastStep<C>(s: State<C>, i: nat, fails: set<C>)
    requires Inv(s) && i < |s.order| && s.order[i] in fails && !FreeFaults(s, s.order[i], fails)
    requires forall j :: 0 <= j < i ==> s.order[j] !in fails
    ensures var t := FreeOne(s, s.order[i], fails);
            && !t.fault && Inv(t) && t.recs.Keys - fails == s.recs.Keys - fails
            && (forall j :: 0 <= j < i && j < |t.order| ==> t.order[j] !in fails)
            && (i + 1 < |s.order| ==> s.order[i + 1] in t.recs)
  {
    hide FreeOne, Matching, FreeFaults;
    var c := s.order[i];
    FreeKeeps(s, c, fails);
    WithoutAt(s.order, i);
    WithoutIs(s.order, c);
  }

  /** The children a command may touch: the sender, its partner, and the session it is offered;
      a broadcast may touch everyone. */
  ghost function Parties<C>(s: State<C>, c: C, cmd: Command): set<C>
    requires WellFormed(s) && c in s.recs
  {
    if cmd.Client? || cmd.Spread? then s.recs.Keys
    else Pair(s, c) + if cmd.Identify? then Offered(Known(s, c, cmd.secret), c) else {}
  }

  /** When a command uses freed memory. */
  ghost predicate CommandFaults<C>(s: State<C>, c: C, cmd: Command, fails: set<C>)
    requires Inv(s) && c in s.recs
  {
    match cmd
    case Hello(_, _) => false
    case Nick(_) => false
    case Identify(name, secret) =>
      && s.recs[c].nick == Some(name) && c in fails
      && var t := Offer(Known(s, c, secret), c);
         t.recs[c].to.Some? && var p := t.recs[c].to.value; p in t.recs && Holds(t, p) && p in fails
    case Client(_) => BroadcastFaults(s, 0, fails)
    case Spread => BroadcastFaults(s, 0, fails)
    case Takeover(what, nick, password) =>
      && what == "AUTH" && s.recs[c].to.Some?
      && var p := s.recs[c].to.value;
         && Holds(s, p) && p in fails
         && (Agree(s.recs[c], s.recs[p], nick, password) || (Holds(s, c) && c in fails))
  }

  lemma KnownKeeps<C>(s: State<C>, c: C, secret: string)
    requires Inv(s) && c in s.recs
    ensures var k := Known(s, c, secret);
            Inv(k) && c in k.recs && Only(s, k, {c}) && Pair(k, c) == Pair(s, c)
  {}

  lemma OnlyThen<C>(s: State<C>, t: State<C>, r: State<C>, a: set<C>, b: set<C>, u: set<C>)
    requires Only(s, t, a) && Only(t, r, b) && a <= u && b <= u
    ensures Only(s, r, u)
  {}

  lemma OfferFree<C>(s: State<C>, c: C, fails: set<C>)
    requires Inv(s) && c in s.recs && c in fails
    ensures var t := Offer(s, c);
            var r := FreeOne(t, c, fails);
            && (r.fault <==> t.recs[c].to.Some? && var p := t.recs[c].to.value; p in t.recs && Holds(t, p) && p in fails)
            && (!r.fault ==> Inv(r) && Only(s, r, Pair(s, c) + Offered(s, c)))
  {
    hide FreeOne, Offer, Only, Matching, Offered;
    OfferKeeps(s, c);
    InvParts(Offer(s, c), c);
    FreeKeeps(Offer(s, c), c, fails);
    OfferedPartner(s, c);
    if !FreeOne(Offer(s, c), c, fails).fault {
      OnlyThen(s, Offer(s, c), FreeOne(Offer(s, c), c, fails), Offered(s, c), Pair(Offer(s, c), c), Pair(s, c) + Offered(s, c));
    }
  }

  lemma IdentifyKeeps<C>(s: State<C>, c: C, name: string, secret: string, fails: set<C>)
    requires Inv(s) && c in s.recs
    ensures var r := OnIdentify(s, c, name, secret, fails);
            && (r.fault <==> CommandFaults(s, c, Identify(name, secret), fails))
            && (!r.fault ==> Inv(r) && Only(s, r, Parties(s, c, Identify(name, secret))))
  {
    hide FreeOne, Offer, Offered, Only, Matching, WellFormed, Known;
    if s.recs[c].nick == Some(name) {
      var k := Known(s, c, secret);
      KnownKeeps(s, c, secret);
      OfferKeeps(k, c);
      if c in fails {
        OfferFree(k, c, fails);
        if !FreeOne(Offer(k, c), c, fails).fault {
          OnlyThen(s, k, FreeOne(Offer(k, c), c, fails), {c}, Pair(k, c) + Offered(k, c), Pair(k, c) + Offered(k, c));
        }
      } else {
        OnlyThen(s, k, Offer(k, c), {c}, Offered(k, c), Pair(k, c) + Offered(k, c));
      }
    } else {
      OnlyNothing(s, Parties(s, c, Identify(name, secret)));
    }
  }

  lemma OnlyNothing<C>(s: State<C>, pair: set<C>)
    ensures Only(s, s, pair)
  {}

  /** After an offer the partner is the old one or the session that was found. */
  lemma OfferedPartner<C>(s: State<C>, c: C)
    requires Inv(s) && c in s.recs
    ensures Inv(Offer(s, c)) && Pair(Offer(s, c), c) <= Pair(s, c) + Offered(s, c)
  {
    OfferKeeps(s, c);
  }

  lemma InvParts<C>(s: State<C>, c: C)
    requires Inv(s) && c in s.recs
    ensures WellFormed(s) && !s.fault && Only(s, s, Pair(s, c))
    ensures s.recs[c].to.Some? ==> s.recs[c].to.value in s.recs && s.recs[c].to.value != c
  {}

  lemma TakeoverKeeps<C>(s: State<C>, c: C, what: string, nick: Option<string>, password: Option<string>, fails: set<C>)
    requires Inv(s) && c in s.recs
    ensures var r := OnTakeover(s, c, what, nick, password, fails);
            && (r.fault <==> CommandFaults(s, c, Takeover(what, nick, password), fails))
            && (!r.fault ==> Inv(r) && Only(s, r, Pair(s, c)))
  {
    hide FreeOne, FailOne, FailBoth, Part, Agree, WellFormed, Matching, Only;
    InvParts(s, c);
    if s.recs[c].to.None? {
      FailKeeps(s, c, fails);
      assert Pair(s, c) == {c};
    } else {
      var p := s.recs[c].to.value;
      assert Pair(s, c) == {c, p};
      if what == "AUTH" {
        if Agree(s.recs[c], s.recs[p], nick, password) {
          FreeKeeps(s, c, fails);
        } else {
          FailBothKeeps(s, c, p, fails);
        }
      } else if what == "DONE" || what == "FAIL" {
        PartFree(s, c, p, fails);
      }
    }
  }

  lemma CommandKeeps<C>(s: State<C>, c: C, cmd: Command, fails: set<C>)
    requires Inv(s) && c in s.recs
    ensures var r := OnCommand(s, c, cmd, fails);
            && (r.fault <==> CommandFaults(s, c, cmd, fails))
            && (!r.fault ==> Inv(r) && Only(s, r, Parties(s, c, cmd)))
  {
    hide FreeOne, FailOne, FailBoth, OnIdentify, OnTakeover, Broadcast, BroadcastFaults;
    match cmd
    case Hello(host, nick) => NickKeeps(s, c, nick);
    case Nick(name) => NickKeeps(s, c, Some(name));
    case Identify(name, secret) => IdentifyKeeps(s, c, name, secret, fails);
    case Takeover(what, nick, password) => TakeoverKeeps(s, c, what, nick, password, fails);
    case Client(alias) =>
      NickKeeps(s, c, Some(alias));
      BroadcastKeeps(SetNick(s, c, Some(alias)), 0, fails);
      NickFaults(s, c, Some(alias), fails);
    case Spread => BroadcastKeeps(s, 0, fails);
  }

  lemma NickFaults<C>(s: State<C>, c: C, nick: Option<string>, fails: set<C>)
    requires Inv(s) && c in s.recs
    ensures BroadcastFaults(SetNick(s, c, nick), 0, fails) <==> BroadcastFaults(s, 0, fails)
  {
    var t := SetNick(s, c, nick);
    assert forall j, k :: 0 <= j < k < |s.order| ==> (PairFails(s, j, k, fails) <==> PairFails(t, j, k, fails));
  }

  lemma NickKeeps<C>(s: State<C>, c: C, nick: Option<string>)
    requires Inv(s) && c in s.recs
    ensures Inv(SetNick(s, c, nick)) && Only(s, SetNick(s, c, nick), {c})
  {}
}
