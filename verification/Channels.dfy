/** Control channels as a view of the buddy list (irc_im.c, irc_channel.c). */
module Channels {
  import opened ChannelList
  import opened Options

  /** irc_user_t with the buddy it stands for, if any. */
  class User {
    var buddy: Option<Buddy>

    constructor (buddy: Option<Buddy>)
      ensures this.buddy == buddy
    {
      this.buddy := buddy;
    }
  }

  type Members = seq<Member<User>>

  class Channel {
    const control: bool
    const temp: bool
    var joined: bool
    var users: Members
    var settings: Settings

    constructor (control: bool, temp: bool, settings: Settings, root: User)
      ensures this.control == control && this.temp == temp && !joined && users == [Member(root, 0)]
      ensures this.settings == settings
    {
      this.control, this.temp, joined, users := control, temp, false, [Member(root, 0)];
      this.settings := settings;
    }

    /** irc_channel_has_user. */
    method Find(u: User) returns (i: int)
      requires Once(users)
      ensures -1 <= i < |users| && (i >= 0 <==> u in Listed(users)) && (i >= 0 ==> users[i].user == u)
    {
      ListedHas(users);
      for k := 0 to |users|
        invariant forall j :: 0 <= j < k ==> users[j].user != u
      {
        if users[k].user == u {
          return k;
        }
      }
      i := -1;
    }

    /** irc_channel_user_set_mode. */
    method SetMode(u: User, flags: nat)
      requires Once(users)
      modifies `users
      ensures Once(users)
      ensures Listed(users) == if u in old(Listed(users)) then old(Listed(users))[u := flags] else old(Listed(users))
    {
      var i := Find(u);
      if i < 0 || users[i].flags == flags {
        return;
      }
      Replaced(users, i, flags);
      users := users[i := Member(u, flags)];
    }
  }

  type Flags = map<User, nat>

  /** `u` is listed with the flags `due`, or not at all when they are 0. */
  ghost predicate Right(m: Flags, u: User, due: nat) {
    if due == 0 then u !in m else u in m && m[u] == due
  }

  ghost function FlagsOf(m: Flags, u: User): nat {
    if u in m then m[u] else 0
  }

  lemma RightShown(m: Flags, u: User, st: Settings, b: Buddy)
    ensures Right(m, u, Due(st, b)) <==> Shown(st, b, u in m, FlagsOf(m, u))
  {
    hide Due, Shown;
    ChannelList.ShownIs(st, b, u in m, FlagsOf(m, u));
  }

  datatype OpsSetting = Both | OnlyRoot | OnlyUser | Neither

  class Irc {
    const me: User
    const root: User
    var users: seq<User>
    var channels: seq<Channel>
    var ops: OpsSetting
    var shutdown: bool

    /** Nobody but `u` comes or goes, and no buddy but `u` gets other flags. */
    ghost predicate Changed(before: Flags, after: Flags, u: User) {
      && (forall x :: x in before && x != u ==> x in after && (x == me || x == root || after[x] == before[x]))
      && (forall x :: x in after && x != u ==> x in before)
    }

    ghost predicate Fair(c: Channel)
      reads c`joined, c`users, `users
    {
      && Once(c.users) && (c.joined <==> me in Listed(c.users))
      && forall u :: u in Listed(c.users) ==> u in users
    }

    /** Every buddy but `but` is in the channel as the settings say. */
    ghost predicate ShowsBut(c: Channel, but: User?)
      requires Once(c.users)
      reads c`users, c`settings, `users, users`buddy
    {
      forall u :: u in users && u != but && u.buddy.Some? ==> Right(Listed(c.users), u, Due(c.settings, u.buddy.value))
    }

    /** The channel lists every buddy as Shown says, by the fields of the buddy and the settings. */
    ghost predicate Displays(c: Channel)
      reads c`users, c`settings, `users, users`buddy
    {
      && Once(c.users)
      && forall u :: u in users && u.buddy.Some? ==>
           Shown(c.settings, u.buddy.value, u in Listed(c.users), FlagsOf(Listed(c.users), u))
    }

    lemma ShowsDisplays(c: Channel)
      requires Once(c.users)
      ensures ShowsBut(c, null) <==> Displays(c)
    {
      hide Right, Due, Shown, FlagsOf;
      forall u | u in users && u.buddy.Some?
        ensures Right(Listed(c.users), u, Due(c.settings, u.buddy.value)) <==>
                Shown(c.settings, u.buddy.value, u in Listed(c.users), FlagsOf(Listed(c.users), u))
      {
        RightShown(Listed(c.users), u, c.settings, u.buddy.value);
      }
    }

    /** Every control channel that we are in. */
    lemma ViewDisplays()
      requires View()
      ensures forall c :: c in channels && c.control && c.joined ==> Displays(c)
    {
      hide *;
      ViewNow();
      ViewIs(null);
      forall c | c in channels && c.control && c.joined
        ensures Displays(c)
      {
        ShowsDisplays(c);
      }
    }

    ghost predicate Proper()
      reads `users, `channels, users`buddy
    {
      && me in users && root in users && me != root && me.buddy.None? && root.buddy.None?
      && (forall i, j :: 0 <= i < j < |users| ==> users[i] != users[j])
      && (forall i, j :: 0 <= i < j < |channels| ==> channels[i] != channels[j])
    }

    /** The view, for all buddies but `but`: a channel we are in lists exactly the buddies that its
        settings ask for, each once and with the flags of its state. */
    ghost predicate ViewBut(but: User?)
      reads this, users`buddy, channels`joined, channels`users, channels`settings
    {
      && Proper()
      && (forall c :: c in channels ==> Fair(c))
      && (forall c :: c in channels && c.control && c.joined ==> ShowsBut(c, but))
    }

    ghost predicate View()
      reads this, users`buddy, channels`joined, channels`users, channels`settings
    {
      ViewBut(null)
    }

    constructor ()
      ensures View() && channels == [] && users == [root, me] && !shutdown
    {
      var r := new User(None);
      var m := new User(None);
      me, root, users, channels := m, r, [r, m], [];
      ops, shutdown := Both, false;
    }

    // -------------------------------------------------------------- one channel

    /** irc_channel_update_ops. */
    method UpdateOps(c: Channel)
      requires Once(c.users) && me != root
      modifies c`users
      ensures Once(c.users)
      ensures Listed(c.users).Keys == old(Listed(c.users)).Keys
      ensures forall x :: x in Listed(c.users) && x != me && x != root ==> Listed(c.users)[x] == old(Listed(c.users))[x]
      ensures root in Listed(c.users) ==> Listed(c.users)[root] == if ops.Both? || ops.OnlyRoot? then OP else 0
      ensures me in Listed(c.users) ==> Listed(c.users)[me] == if ops.Both? || ops.OnlyUser? then OP else 0
    {
      hide *;
      ghost var m := Listed(c.users);
      c.SetMode(root, if ops.Both? || ops.OnlyRoot? then OP else 0);
      c.SetMode(me, if ops.Both? || ops.OnlyUser? then OP else 0);
      TwoModes(m, if ops.Both? || ops.OnlyRoot? then OP else 0, if ops.Both? || ops.OnlyUser? then OP else 0);
    }

    lemma TwoModes(m: Flags, f: nat, g: nat)
      requires me != root
      ensures var n := if root in m then m[root := f] else m;
              var r := if me in n then n[me := g] else n;
              && r.Keys == m.Keys && (root in r ==> r[root] == f) && (me in r ==> r[me] == g)
              && forall x :: x in r && x != me && x != root ==> r[x] == m[x]
    {}

    /** irc_channel_add_user. */
    method AddUser(c: Channel, u: User)
      requires Once(c.users) && me != root && (c.joined <==> me in Listed(c.users))
      modifies c`users, c`joined
      ensures Once(c.users) && (c.joined <==> me in Listed(c.users))
      ensures u in Listed(c.users) && Changed(old(Listed(c.users)), Listed(c.users), u)
      ensures u in old(Listed(c.users)) ==> c.users == old(c.users)
      ensures u !in old(Listed(c.users)) && u != me && u != root ==> Listed(c.users)[u] == 0
    {
      hide *;
      var i := c.Find(u);
      ChangedSame(Listed(c.users), u);
      if i >= 0 {
        return;
      }
      ghost var m := Listed(c.users);
      Appended(c.users, u, 0);
      c.users := c.users + [Member(u, 0)];
      UpdateOps(c);
      if u == me || c.joined {
        c.joined := true;
      }
      ChangedAdd(m, Listed(c.users), u);
    }

    lemma ChangedSame(m: Flags, u: User)
      ensures Changed(m, m, u)
    {}

    lemma ChangedAdd(m: Flags, n: Flags, u: User)
      requires n.Keys == m.Keys + {u}
      requires forall x :: x in n && x != me && x != root && x != u ==> n[x] == m[x]
      ensures Changed(m, n, u)
    {}

    /** irc_channel_del_user. */
    method DelUser(c: Channel, u: User)
      requires Once(c.users) && me != root && (c.joined <==> me in Listed(c.users))
      modifies c`users, c`joined
      ensures Once(c.users) && (c.joined <==> me in Listed(c.users)) && u !in Listed(c.users) - {root}
      ensures u != me ==> Listed(c.users) == old(Listed(c.users)) - {u}
      ensures u == me && old(c.joined) && !shutdown && !c.temp ==> Listed(c.users).Keys == {root}
      ensures Listed(c.users).Keys <= old(Listed(c.users)).Keys + {root}
    {
      hide *;
      var i := c.Find(u);
      if i < 0 {
        return;
      }
      Dropped(c.users, i);
      c.users := c.users[..i] + c.users[i + 1..];
      if u == me {
        c.joined := false;
        if !shutdown && !c.temp {
          Nobody();
          c.users := [];
          AddUser(c, root);
          ChangedNone(Listed(c.users), root);
        }
      }
    }

    lemma Nobody()
      ensures Once<User>([]) && Listed<User>([]) == map[]
    {}

    lemma ChangedNone(m: Flags, u: User)
      requires u in m && Changed(map[], m, u)
      ensures m.Keys == {u}
    {}

    /** bee_irc_channel_update for one channel and one buddy. */
    method UpdateOne(c: Channel, u: User)
      requires Once(c.users) && me != root && (c.joined <==> me in Listed(c.users))
      requires u != me && u != root && u.buddy.Some?
      modifies c`users, c`joined
      ensures Once(c.users) && (c.joined <==> me in Listed(c.users)) && c.joined == old(c.joined)
      ensures Right(Listed(c.users), u, Due(c.settings, u.buddy.value))
      ensures Shown(c.settings, u.buddy.value, u in Listed(c.users), FlagsOf(Listed(c.users), u))
      ensures Changed(old(Listed(c.users)), Listed(c.users), u)
    {
      hide *;
      var b, st := u.buddy.value, c.settings;
      ghost var m := Listed(c.users);
      DueIs(st, b);
      if !Wants(st, b) {
        DelUser(c, u);
        ChangedDel(m, u);
      } else {
        var mode := if !b.online then st.modes.offline else if b.away then st.modes.away else st.modes.online;
        if mode == 0 {
          DelUser(c, u);
          ChangedDel(m, u);
        } else {
          AddUser(c, u);
          ghost var n := Listed(c.users);
          c.SetMode(u, mode);
          ChangedSet(m, n, u, mode);
        }
      }
      StillMe(m, Listed(c.users), u);
      RightShown(Listed(c.users), u, st, b);
    }

    lemma DueIs(st: Settings, b: Buddy)
      ensures Due(st, b) == if !Wants(st, b) then 0
                            else if !b.online then st.modes.offline
                            else if b.away then st.modes.away
                            else st.modes.online
    {}

    lemma ChangedDel(m: Flags, u: User)
      ensures Changed(m, m - {u}, u) && Right(m - {u}, u, 0)
    {}

    lemma ChangedSet(m: Flags, n: Flags, u: User, mode: nat)
      requires Changed(m, n, u) && mode != 0 && u in n
      ensures Changed(m, n[u := mode], u) && Right(n[u := mode], u, mode)
    {}

    lemma StillMe(m: Flags, n: Flags, u: User)
      requires Changed(m, n, u) && u != me
      ensures me in m <==> me in n
    {}

    /** bee_irc_channel_update for one channel and everyone. */
    method UpdateAll(c: Channel)
      requires Proper() && Fair(c)
      modifies c`users, c`joined
      ensures Fair(c) && c.joined == old(c.joined) && ShowsBut(c, null)
    {
      hide *;
      FairIs(c);
      ProperIs();
      ghost var m0 := Listed(c.users);
      for i := 0 to |users|
        invariant Once(c.users) && (c.joined <==> me in Listed(c.users)) && c.joined == old(c.joined)
        invariant forall x :: x in Listed(c.users) ==> x in users
        invariant forall j :: 0 <= j < i && users[j].buddy.Some? ==>
                    Right(Listed(c.users), users[j], Due(c.settings, users[j].buddy.value))
      {
        var u := users[i];
        if u.buddy.Some? {
          ghost var m := Listed(c.users);
          UpdateOne(c, u);
          ghost var n := Listed(c.users);
          ChangedIn(m, n, u);
          forall j | 0 <= j < i && users[j].buddy.Some?
            ensures Right(n, users[j], Due(c.settings, users[j].buddy.value))
          {
            RightStays(m, n, u, users[j], Due(c.settings, users[j].buddy.value));
          }
        }
      }
      FairMade(c);
      ShownMade(c);
    }

    lemma ProperIs()
      requires Proper()
      ensures me in users && root in users && me != root && me.buddy.None? && root.buddy.None?
      ensures forall i, j :: 0 <= i < |users| && 0 <= j < |users| && i != j ==> users[i] != users[j]
      ensures forall i, j :: 0 <= i < |channels| && 0 <= j < |channels| && i != j ==> channels[i] != channels[j]
    {}

    lemma FairIs(c: Channel)
      requires Fair(c)
      ensures Once(c.users) && (c.joined <==> me in Listed(c.users))
      ensures forall x :: x in Listed(c.users) ==> x in users
    {}

    lemma FairMade(c: Channel)
      requires Once(c.users) && (c.joined <==> me in Listed(c.users))
      requires forall x :: x in Listed(c.users) ==> x in users
      ensures Fair(c)
    {}

    lemma ChangedIn(m: Flags, n: Flags, u: User)
      requires Changed(m, n, u)
      ensures forall x :: x in n ==> x == u || x in m
    {}

    lemma RightStays(m: Flags, n: Flags, u: User, v: User, due: nat)
      requires Changed(m, n, u) && Right(m, v, due) && v != u && v != me && v != root
      ensures Right(n, v, due)
    {}

    lemma ShownMade(c: Channel)
      requires Once(c.users)
      requires forall j :: 0 <= j < |users| && users[j].buddy.Some? ==>
                 Right(Listed(c.users), users[j], Due(c.settings, users[j].buddy.value))
      ensures ShowsBut(c, null)
    {
      hide Right, Due;
    }

    // -------------------------------------------------------------- one buddy in all channels

    /** UpdateOne on a channel that shows everyone else. */
    method Refresh(c: Channel, u: User)
      requires Proper() && Fair(c) && ShowsBut(c, u) && u in users && u.buddy.Some?
      modifies c`users, c`joined
      ensures Fair(c) && c.joined == old(c.joined) && ShowsBut(c, null)
    {
      hide *;
      FairIs(c);
      ProperIs();
      ghost var m := Listed(c.users);
      ShownIs(c, u);
      UpdateOne(c, u);
      ghost var n := Listed(c.users);
      ChangedIn(m, n, u);
      forall v | v in users && v != u && v.buddy.Some?
        ensures Right(n, v, Due(c.settings, v.buddy.value))
      {
        RightStays(m, n, u, v, Due(c.settings, v.buddy.value));
      }
      FairMade(c);
      ShownBy(c, null);
    }

    lemma ShownIs(c: Channel, but: User?)
      requires Once(c.users) && ShowsBut(c, but)
      ensures forall v :: v in users && v != but && v.buddy.Some? ==> Right(Listed(c.users), v, Due(c.settings, v.buddy.value))
    {}

    lemma ShownBy(c: Channel, but: User?)
      requires Once(c.users)
      requires forall v :: v in users && v != but && v.buddy.Some? ==> Right(Listed(c.users), v, Due(c.settings, v.buddy.value))
      ensures ShowsBut(c, but)
    {}

    lemma ViewIs(but: User?)
      requires ViewBut(but)
      ensures Proper()
      ensures forall c :: c in channels ==> Fair(c) && Once(c.users)
      ensures forall c :: c in channels && c.control && c.joined ==> ShowsBut(c, but)
    {}

    lemma ViewMade(but: User?)
      requires Proper() && (forall c :: c in channels ==> Fair(c) && Once(c.users))
      requires forall c :: c in channels && c.control && c.joined ==> ShowsBut(c, but)
      ensures ViewBut(but) && (but == null ==> View())
    {}

    /** bee_irc_channel_update for one buddy. */
    method UpdateUser(u: User)
      requires ViewBut(u) && u in users && u.buddy.Some?
      modifies (set c | c in channels)`users, (set c | c in channels)`joined
      ensures View()
    {
      hide *;
      ViewIs(u);
      ProperIs();
      for i := 0 to |channels|
        invariant Proper() && forall c :: c in channels ==> Fair(c) && Once(c.users)
        invariant forall j :: i <= j < |channels| && channels[j].control && channels[j].joined ==> ShowsBut(channels[j], u)
        invariant forall j :: 0 <= j < i && channels[j].control && channels[j].joined ==> ShowsBut(channels[j], null)
      {
        var c := channels[i];
        if c.control && c.joined {
          Refresh(c, u);
          FairIs(c);
        }
      }
      ViewMade(null);
    }

    /** irc_user_quit for a buddy. */
    method Quit(u: User)
      requires ViewBut(u) && u in users && u.buddy.Some?
      modifies (set c | c in channels)`users, (set c | c in channels)`joined
      ensures ViewBut(u) && forall c :: c in channels ==> Once(c.users) && u !in Listed(c.users)
    {
      hide *;
      ViewIs(u);
      ProperIs();
      for i := 0 to |channels|
        invariant Proper() && forall c :: c in channels ==> Fair(c) && Once(c.users)
        invariant forall j :: 0 <= j < |channels| && channels[j].control && channels[j].joined ==> ShowsBut(channels[j], u)
        invariant forall j :: 0 <= j < i ==> u !in Listed(channels[j].users)
      {
        var c := channels[i];
        Dismiss(c, u);
        FairIs(c);
      }
      ViewMade(u);
    }

    method Dismiss(c: Channel, u: User)
      requires Proper() && Fair(c) && u in users && u.buddy.Some? && (c.control && c.joined ==> ShowsBut(c, u))
      modifies c`users, c`joined
      ensures Fair(c) && c.joined == old(c.joined) && Once(c.users) && u !in Listed(c.users)
      ensures c.control && c.joined ==> ShowsBut(c, u)
    {
      hide *;
      FairIs(c);
      ProperIs();
      if c.control && c.joined {
        ShownIs(c, u);
      }
      ghost var m := Listed(c.users);
      DelUser(c, u);
      FairMade(c);
      if c.control && c.joined {
        forall v | v in users && v != u && v.buddy.Some?
          ensures Right(m - {u}, v, Due(c.settings, v.buddy.value))
        {
          RightWithout(m, u, v, Due(c.settings, v.buddy.value));
        }
        ShownBy(c, u);
      }
    }

    lemma RightWithout(m: Flags, u: User, v: User, due: nat)
      requires Right(m, v, due) && u != v
      ensures Right(m - {u}, v, due)
    {}

    // -------------------------------------------------------------- events of the buddy list

    /** The flags or the group of a buddy change; the channels have not been told yet. */
    method SetBuddy(u: User, b: Buddy, ghost but: User?)
      requires ViewBut(but) && (but == null || but == u) && u in users && u.buddy.Some?
      modifies u`buddy
      ensures ViewBut(u) && u.buddy == Some(b)
    {
      hide *;
      ViewIs(but);
      ProperIs();
      forall c | c in channels && c.control && c.joined
        ensures forall v :: v in users && v != u && v.buddy.Some? ==> Right(Listed(c.users), v, Due(c.settings, v.buddy.value))
      {
        ShownIs(c, but);
      }
      u.buddy := Some(b);
      ProperMade();
      forall c | c in channels && c.control && c.joined
        ensures ShowsBut(c, u)
      {
        ShownBy(c, u);
      }
      ViewMade(u);
    }

    lemma ProperMade()
      requires me in users && root in users && me != root && me.buddy.None? && root.buddy.None?
      requires forall i, j :: 0 <= i < |users| && 0 <= j < |users| && i != j ==> users[i] != users[j]
      requires forall i, j :: 0 <= i < |channels| && 0 <= j < |channels| && i != j ==> channels[i] != channels[j]
      ensures Proper()
    {}

    /** bee_irc_user_status; `quits` is the setting offline_user_quits. */
    method UserStatus(u: User, online: bool, away: bool, quits: bool)
      requires View() && u in users && u.buddy.Some?
      modifies u`buddy, (set c | c in channels)`users, (set c | c in channels)`joined
      ensures View() && u.buddy == Some(old(u.buddy.value).(online := online, away := away))
      ensures forall c :: c in channels && c.control && c.joined ==> Displays(c)
    {
      hide *;
      ViewNow();
      var b := u.buddy.value;
      SetBuddy(u, b.(online := online, away := away), null);
      if b.online && !online && quits {
        Quit(u);
      }
      UpdateUser(u);
      ViewDisplays();
    }

    lemma ViewNow()
      ensures View() <==> ViewBut(null)
    {}

    /** bee_irc_user_group: the buddy is offline while it may get another nick. */
    method UserGroup(u: User, group: Option<string>)
      requires View() && u in users && u.buddy.Some?
      modifies u`buddy, (set c | c in channels)`users, (set c | c in channels)`joined
      ensures View() && u.buddy == Some(old(u.buddy.value).(group := group))
    {
      hide *;
      ViewNow();
      var b := u.buddy.value.(group := group);
      SetBuddy(u, b.(online := false), null);
      UpdateUser(u);
      if b.online {
        ViewNow();
        SetBuddy(u, b, null);
        UpdateUser(u);
      }
    }

    /** bee_user_new: the new buddy is reported offline at once. */
    method UserNew(b: Buddy) returns (u: User)
      requires View()
      modifies `users, (set c | c in channels)`users, (set c | c in channels)`joined
      ensures View() && fresh(u) && users == old(users) + [u] && u.buddy == Some(b.(online := false, away := false))
    {
      hide *;
      ViewNow();
      u := new User(Some(b));
      Enter(u);
      SetBuddy(u, b.(online := false, away := false), u);
      UpdateUser(u);
    }

    method Enter(u: User)
      requires ViewBut(null) && u !in users && u.buddy.Some?
      modifies `users
      ensures ViewBut(u) && users == old(users) + [u]
    {
      hide *;
      ViewIs(null);
      ProperIs();
      ghost var before := users;
      forall c | c in channels
        ensures Once(c.users) && (c.joined <==> me in Listed(c.users)) && forall x :: x in Listed(c.users) ==> x in before
        ensures c.control && c.joined ==>
                  forall v :: v in before && v.buddy.Some? ==> Right(Listed(c.users), v, Due(c.settings, v.buddy.value))
      {
        FairIs(c);
        if c.control && c.joined {
          ShownIs(c, null);
        }
      }
      users := users + [u];
      ProperMade();
      forall c | c in channels
        ensures Fair(c) && (c.control && c.joined ==> ShowsBut(c, u))
      {
        FairMade(c);
        if c.control && c.joined {
          ShownBy(c, u);
        }
      }
      ViewMade(u);
    }

    /** bee_irc_user_free. */
    method UserFree(u: User)
      requires View() && u in users && u.buddy.Some?
      modifies `users, (set c | c in channels)`users, (set c | c in channels)`joined
      ensures View() && u !in users && forall x :: x in old(users) && x != u ==> x in users
      ensures forall c :: c in channels ==> Once(c.users) && u !in Listed(c.users)
    {
      hide *;
      ViewNow();
      ForgetOne(u);
      Quit(u);
      var i := 0;
      ViewIs(u);
      ProperIs();
      while users[i] != u
        invariant 0 <= i < |users| && forall j :: 0 <= j < i ==> users[j] != u
        decreases |users| - i
      {
        i := i + 1;
      }
      Leave(u, i);
    }

    lemma ForgetOne(u: User)
      requires ViewBut(null)
      ensures ViewBut(u)
    {}

    /** g_slist_remove on irc->users. */
    method Leave(u: User, i: nat)
      requires ViewBut(u) && i < |users| && users[i] == u && u != me && u != root
      requires forall c :: c in channels ==> Once(c.users) && u !in Listed(c.users)
      modifies `users
      ensures View() && u !in users && forall x :: x in old(users) && x != u ==> x in users
    {
      hide *;
      ViewIs(u);
      ProperIs();
      ghost var before := users;
      forall c | c in channels
        ensures Once(c.users) && (c.joined <==> me in Listed(c.users)) && forall x :: x in Listed(c.users) ==> x in before
        ensures c.control && c.joined ==>
                  forall v :: v in before && v != u && v.buddy.Some? ==> Right(Listed(c.users), v, Due(c.settings, v.buddy.value))
      {
        FairIs(c);
        if c.control && c.joined {
          ShownIs(c, u);
        }
      }
      users := users[..i] + users[i + 1..];
      WithoutOne(before, i);
      ProperMade();
      forall c | c in channels
        ensures Fair(c) && (c.control && c.joined ==> ShowsBut(c, null))
      {
        FairMade(c);
        if c.control && c.joined {
          ShownBy(c, null);
        }
      }
      ViewMade(null);
    }

    // -------------------------------------------------------------- events of a channel

    /** New settings, and everyone is looked at again. */
    method Refill(c: Channel, st: Settings)
      requires View() && c in channels && c.control
      modifies c`settings, c`users, c`joined
      ensures View() && c.settings == st && c.joined == old(c.joined) && Once(c.users) && ShowsBut(c, null)
    {
      hide *;
      ViewNow();
      ViewIs(null);
      ProperIs();
      c.settings := st;
      UpdateAll(c);
      FairIs(c);
      ViewMade(null);
    }

    /** New settings that the channel does not use now. */
    method Note(c: Channel, st: Settings)
      requires View() && c in channels && forall b :: Due(st, b) == Due(c.settings, b)
      modifies c`settings
      ensures View() && c.settings == st
    {
      hide *;
      ViewNow();
      ViewIs(null);
      ghost var was := c.settings;
      if c.control && c.joined {
        ShownIs(c, null);
      }
      c.settings := st;
      if c.control && c.joined {
        ShownBy(c, null);
      }
      ViewMade(null);
    }

    /** set_eval_fill_by; a value that is refused changes nothing. */
    method SetFill(c: Channel, value: string) returns (ok: bool)
      requires View() && c in channels && c.control
      modifies c`settings, c`users, c`joined
      ensures View() && c.joined == old(c.joined) && ok == FillOf(value).Some?
      ensures c.settings == if ok then old(c.settings).(fill := FillOf(value).value) else old(c.settings)
      ensures ok <==> value in ["all", "rest", "group", "account", "protocol"]
      ensures ok ==> Displays(c) && (c.settings.fill.Group? <==> value == "group")
      ensures ok ==> (c.settings.fill.Account? <==> value == "account") && (c.settings.fill.Protocol? <==> value == "protocol")
    {
      FillNames(value);
      hide View, ViewBut, Fair, ShowsBut, FillOf;
      var fill := FillOf(value);
      ok := fill.Some?;
      if ok {
        Refill(c, c.settings.(fill := fill.value));
        ShowsDisplays(c);
      }
    }

    /** set_eval_by_group. */
    method SetGroup(c: Channel, group: Option<string>)
      requires View() && c in channels && c.control
      modifies c`settings, c`users, c`joined
      ensures View() && c.settings == old(c.settings).(group := group) && c.joined == old(c.joined)
    {
      hide View, ViewBut, Fair, ShowsBut;
      if c.settings.fill.Group? {
        Refill(c, c.settings.(group := group));
      } else {
        Note(c, c.settings.(group := group));
      }
    }

    /** set_eval_by_account; `account` is what account_get finds, and without one nothing changes. */
    method SetAccount(c: Channel, account: Option<nat>) returns (ok: bool)
      requires View() && c in channels && c.control
      modifies c`settings, c`users, c`joined
      ensures View() && c.joined == old(c.joined) && ok == account.Some?
      ensures c.settings == if ok then old(c.settings).(account := account) else old(c.settings)
    {
      hide View, ViewBut, Fair, ShowsBut;
      if account.None? {
        return false;
      }
      if c.settings.fill.Account? {
        Refill(c, c.settings.(account := account));
      } else {
        Note(c, c.settings.(account := account));
      }
      ok := true;
    }

    /** set_eval_by_protocol; `protocol` is what find_protocol finds, and without one nothing changes. */
    method SetProtocol(c: Channel, protocol: Option<nat>) returns (ok: bool)
      requires View() && c in channels && c.control
      modifies c`settings, c`users, c`joined
      ensures View() && c.joined == old(c.joined) && ok == protocol.Some?
      ensures c.settings == if ok then old(c.settings).(protocol := protocol) else old(c.settings)
    {
      hide View, ViewBut, Fair, ShowsBut;
      if protocol.None? {
        return false;
      }
      if c.settings.fill.Protocol? {
        Refill(c, c.settings.(protocol := protocol));
      } else {
        Note(c, c.settings.(protocol := protocol));
      }
      ok := true;
    }

    /** set_eval_show_users; a value that is refused changes nothing. */
    method SetShowUsers(c: Channel, parts: seq<string>) returns (ok: bool)
      requires View() && c in channels && c.control
      modifies c`settings, c`users, c`joined
      ensures View() && c.joined == old(c.joined) && ok == ShowUsers(parts, Modes(0, 0, 0)).Some?
      ensures c.settings == if ok then old(c.settings).(modes := ShowUsers(parts, Modes(0, 0, 0)).value) else old(c.settings)
    {
      hide View, ViewBut, Fair, ShowsBut, ShowUsers;
      var modes := ShowUsers(parts, Modes(0, 0, 0));
      ok := modes.Some?;
      if ok {
        Refill(c, c.settings.(modes := modes.value));
      }
    }

    /** irc_channel_new for a control channel. */
    method NewChannel(temp: bool) returns (c: Channel)
      requires View()
      modifies `channels
      ensures View() && fresh(c) && channels == old(channels) + [c] && c.control && !c.joined && c.temp == temp
      ensures c.settings == Settings(All, None, None, None, Modes(0, NONE, VOICE))
    {
      hide *;
      ViewNow();
      ViewIs(null);
      ProperIs();
      c := new Channel(true, temp, Settings(All, None, None, None, Modes(0, NONE, VOICE)), root);
      OneMember(root);
      FairMade(c);
      UpdateAll(c);
      FairIs(c);
      channels := channels + [c];
      ProperMade();
      ViewMade(null);
    }

    lemma OneMember(u: User)
      ensures Once([Member(u, 0)]) && Listed([Member(u, 0)]) == map[u := 0]
    {
      var us: Members := [Member(u, 0)];
      assert us[0].user == u;
      ListedIs(us, map[u := 0]);
    }

    /** The JOIN command for a control channel: it is filled before we enter. */
    method Join(c: Channel)
      requires View() && c in channels && c.control
      modifies c`users, c`joined
      ensures View() && c.joined && Once(c.users) && me in Listed(c.users) && ShowsBut(c, null) && Displays(c)
    {
      hide *;
      ViewNow();
      ViewIs(null);
      FairIs(c);
      if c.joined {
        ShowsDisplays(c);
        return;
      }
      UpdateAll(c);
      FairIs(c);
      EnterMe(c);
      FairIs(c);
      ViewMade(null);
      ShowsDisplays(c);
    }

    /** irc_channel_add_user for our own user. */
    method EnterMe(c: Channel)
      requires Proper() && Fair(c)
      modifies c`users, c`joined
      ensures Fair(c) && Once(c.users) && c.joined && me in Listed(c.users)
      ensures old(Once(c.users) && ShowsBut(c, null)) <==> ShowsBut(c, null)
    {
      hide *;
      FairIs(c);
      ProperIs();
      ghost var m, shown := Listed(c.users), ShowsBut(c, null);
      ShownIff(c);
      AddUser(c, me);
      ghost var n := Listed(c.users);
      ChangedIn(m, n, me);
      FairMade(c);
      forall v | v in users && v.buddy.Some?
        ensures Right(m, v, Due(c.settings, v.buddy.value)) <==> Right(n, v, Due(c.settings, v.buddy.value))
      {
        RightSame(m, n, v, Due(c.settings, v.buddy.value));
      }
      SameShown(c, m, shown);
    }

    lemma ShownIff(c: Channel)
      requires Once(c.users)
      ensures ShowsBut(c, null) <==>
              forall v :: v in users && v.buddy.Some? ==> Right(Listed(c.users), v, Due(c.settings, v.buddy.value))
    {}

    lemma RightSame(m: Flags, n: Flags, v: User, due: nat)
      requires Changed(m, n, me) && v != me && v != root
      ensures Right(m, v, due) <==> Right(n, v, due)
    {}

    lemma SameShown(c: Channel, m: Flags, shown: bool)
      requires Once(c.users)
      requires shown <==> forall v :: v in users && v.buddy.Some? ==> Right(m, v, Due(c.settings, v.buddy.value))
      requires forall v :: v in users && v.buddy.Some? ==>
                 (Right(m, v, Due(c.settings, v.buddy.value)) <==> Right(Listed(c.users), v, Due(c.settings, v.buddy.value)))
      ensures shown <==> ShowsBut(c, null)
    {}

    /** irc_channel_auto_joins does not fill the channel: it shows the buddies afterwards exactly
        when it did before. */
    method AutoJoin(c: Channel)
      requires View() && c in channels && c.control
      modifies c`users, c`joined
      ensures c.joined && Once(c.users) && (View() <==> old(Once(c.users) && ShowsBut(c, null)))
    {
      hide *;
      ViewNow();
      ViewIs(null);
      EnterMe(c);
      if ShowsBut(c, null) {
        FairIs(c);
        ViewMade(null);
      } else {
        NotView(c);
      }
    }

    lemma NotView(c: Channel)
      requires Once(c.users) && c in channels && c.control && c.joined && !ShowsBut(c, null)
      ensures !View()
    {}

    /** When only root is listed, the channel shows what it should exactly if no buddy is due there. */
    lemma OnlyRoot(c: Channel)
      requires Proper() && Once(c.users) && Listed(c.users).Keys == {root}
      ensures ShowsBut(c, null) <==> forall v :: v in users && v.buddy.Some? ==> Due(c.settings, v.buddy.value) == 0
    {
      hide Due;
      forall v | v in users && v.buddy.Some?
        ensures v !in Listed(c.users)
      {
        assert v !in Listed(c.users).Keys;
      }
    }

    /** A channel that was left and is joined automatically again shows what it should exactly if it
        should show no buddy at all. */
    method Rejoin(c: Channel)
      requires View() && c in channels && c.control && c.joined && !c.temp && !shutdown
      modifies c`users, c`joined
      ensures c.joined && (View() <==> forall v :: v in users && v.buddy.Some? ==> Due(c.settings, v.buddy.value) == 0)
    {
      hide *;
      Part(c);
      ViewNow();
      ViewIs(null);
      OnlyRoot(c);
      AutoJoin(c);
    }

    /** We leave the channel; unless it is temporary, nobody but root stays on its list. */
    method Part(c: Channel)
      requires View() && c in channels
      modifies c`users, c`joined
      ensures View() && !c.joined && Once(c.users) && me !in Listed(c.users)
      ensures old(c.joined) && !c.temp && !shutdown ==> Listed(c.users).Keys == {root}
    {
      hide *;
      ViewNow();
      ViewIs(null);
      ProperIs();
      FairIs(c);
      DelUser(c, me);
      FairMade(c);
      ViewMade(null);
    }
  }

  /** An online buddy is missing from a channel that was left and joined automatically again. */
  method Unfilled(b: Buddy) returns (irc: Irc)
    ensures !irc.View()
  {
    hide *;
    irc := new Irc();
    var u := irc.UserNew(b);
    assert u in irc.users;
    irc.UserStatus(u, true, false, false);
    var c := irc.NewChannel(false);
    irc.Join(c);
    Voiced(u.buddy.value);
    irc.Rejoin(c);
  }

  lemma Voiced(b: Buddy)
    requires b.online && !b.away
    ensures Due(Settings(All, None, None, None, Modes(0, NONE, VOICE)), b) == VOICE != 0
  {}

  lemma WithoutOne<T>(s: seq<T>, i: nat)
    requires i < |s| && forall j, k :: 0 <= j < |s| && 0 <= k < |s| && j != k ==> s[j] != s[k]
    ensures var r := s[..i] + s[i + 1..];
            && (forall x :: x in r <==> x in s && x != s[i])
            && forall j, k :: 0 <= j < |r| && 0 <= k < |r| && j != k ==> r[j] != r[k]
  {
    var r := s[..i] + s[i + 1..];
    forall j | 0 <= j < |r|
      ensures r[j] in s && r[j] != s[i]
    {
      assert r[j] == s[if j < i then j else j + 1];
    }
    forall x | x in s && x != s[i]
      ensures x in r
    {
      var j :| 0 <= j < |s| && s[j] == x;
      assert r[if j < i then j else j - 1] == x;
    }
    forall j, k | 0 <= j < |r| && 0 <= k < |r| && j != k
      ensures r[j] != r[k]
    {
      var a, b := if j < i then j else j + 1, if k < i then k else k + 1;
      assert r[j] == s[a] && r[k] == s[b] && a != b;
    }
  }
}
