/** Members and settings of a control channel (irc_channel.c), on values. `U` names the users. */
module ChannelList {
  import opened Options

  /** What the buddy list knows of a buddy. */
  datatype Buddy = Buddy(group: Option<string>, account: nat, protocol: nat, online: bool, away: bool)

  datatype Fill = All | Rest | Group | Account | Protocol

  /** The values of fill_by; others are refused. */
  function FillOf(value: string): Option<Fill> {
    if value == "all" then Some(All)
    else if value == "rest" then Some(Rest)
    else if value == "group" then Some(Group)
    else if value == "account" then Some(Account)
    else if value == "protocol" then Some(Protocol)
    else None
  }

  /** The modes for buddies that are offline, away and online; 0 leaves them out. */
  /** The values of fill_by that are accepted. */
  lemma FillNames(value: string)
    ensures FillOf("all") == Some(All) && FillOf("rest") == Some(Rest) && FillOf("group") == Some(Group)
    ensures FillOf("account") == Some(Account) && FillOf("protocol") == Some(Protocol)
    ensures FillOf(value).Some? <==> value in ["all", "rest", "group", "account", "protocol"]
  {}

  datatype Modes = Modes(offline: nat, away: nat, online: nat)

  datatype Settings = Settings(fill: Fill, group: Option<string>, account: Option<nat>, protocol: Option<nat>, modes: Modes)

  const OP: nat := 1
  const HALFOP: nat := 2
  const VOICE: nat := 4
  const NONE: nat := 8

  /** irc_channel_wants_user for a buddy. */
  predicate Wants(st: Settings, b: Buddy) {
    match st.fill
    case Group => b.group == st.group
    case Account => Some(b.account) == st.account
    case Protocol => Some(b.protocol) == st.protocol
    case _ => true
  }

  /** The flags a buddy is to have in the channel; 0 when it is not to be there. */
  function Due(st: Settings, b: Buddy): nat {
    if !Wants(st, b) then 0
    else if !b.online then st.modes.offline
    else if b.away then st.modes.away
    else st.modes.online
  }

  /** How a buddy appears in a control channel with these settings, said by its fields: whether it is
      listed, and with which flags. */
  predicate Shown(st: Settings, b: Buddy, listed: bool, flags: nat) {
    && (st.fill.Group? ==> (listed ==> b.group == st.group))
    && (st.fill.Account? ==> (listed ==> st.account == Some(b.account)))
    && (st.fill.Protocol? ==> (listed ==> st.protocol == Some(b.protocol)))
    && (listed ==>
          flags != 0 && flags == if b.online then (if b.away then st.modes.away else st.modes.online) else st.modes.offline)
    && (!listed ==>
          || (st.fill.Group? && b.group != st.group)
          || (st.fill.Account? && st.account != Some(b.account))
          || (st.fill.Protocol? && st.protocol != Some(b.protocol))
          || (b.online && b.away && st.modes.away == 0)
          || (b.online && !b.away && st.modes.online == 0)
          || (!b.online && st.modes.offline == 0))
  }

  lemma ShownIs(st: Settings, b: Buddy, listed: bool, flags: nat)
    ensures (if Due(st, b) == 0 then !listed else listed && flags == Due(st, b)) <==> Shown(st, b, listed, flags)
  {}

  datatype Member<U> = Member(user: U, flags: nat)

  /** Nobody is listed twice. */
  ghost predicate Once<U>(us: seq<Member<U>>) {
    forall i, j :: 0 <= i < j < |us| ==> us[i].user != us[j].user
  }

  ghost function Listed<U>(us: seq<Member<U>>): (m: map<U, nat>)
    requires Once(us)
    ensures forall i :: 0 <= i < |us| ==> us[i].user in m && m[us[i].user] == us[i].flags
    ensures forall u :: u in m ==> exists i :: 0 <= i < |us| && us[i].user == u
  {
    map i | 0 <= i < |us| :: us[i].user := us[i].flags
  }

  ghost predicate Has<U>(us: seq<Member<U>>, u: U) {
    exists i :: 0 <= i < |us| && us[i].user == u
  }

  lemma ListedIs<U>(us: seq<Member<U>>, m: map<U, nat>)
    requires Once(us)
    requires forall i :: 0 <= i < |us| ==> us[i].user in m && m[us[i].user] == us[i].flags
    requires forall u :: u in m ==> Has(us, u)
    ensures Listed(us) == m
  {
    hide Once;
    var n := Listed(us);
    forall u | u in m
      ensures u in n && n[u] == m[u]
    {
      var i :| 0 <= i < |us| && us[i].user == u;
    }
    assert n.Keys == m.Keys;
  }

  lemma ListedHas<U>(us: seq<Member<U>>)
    requires Once(us)
    ensures forall u :: u in Listed(us) <==> Has(us, u)
    ensures forall i :: 0 <= i < |us| ==> us[i].user in Listed(us) && Listed(us)[us[i].user] == us[i].flags
  {}

  lemma AppendedOnce<U>(us: seq<Member<U>>, u: U, flags: nat)
    requires Once(us) && !Has(us, u)
    ensures Once(us + [Member(u, flags)])
  {}

  lemma Appended<U>(us: seq<Member<U>>, u: U, flags: nat)
    requires Once(us) && u !in Listed(us)
    ensures var r := us + [Member(u, flags)]; Once(r) && Listed(r) == Listed(us)[u := flags]
  {
    ListedHas(us);
    AppendedOnce(us, u, flags);
    hide Once, Listed;
    var r := us + [Member(u, flags)];
    assert r[|us|].user == u;
    forall x | x in Listed(us)
      ensures Has(r, x)
    {
      var i :| 0 <= i < |us| && us[i].user == x;
      assert r[i] == us[i];
    }
    ListedIs(r, Listed(us)[u := flags]);
  }

  lemma ReplacedOnce<U>(us: seq<Member<U>>, i: nat, flags: nat)
    requires Once(us) && i < |us|
    ensures Once(us[i := Member(us[i].user, flags)])
    ensures forall j :: 0 <= j < |us| && j != i ==> us[j].user != us[i].user
  {
    var r := us[i := Member(us[i].user, flags)];
    assert forall j :: 0 <= j < |us| ==> r[j].user == us[j].user;
  }

  lemma Replaced<U>(us: seq<Member<U>>, i: nat, flags: nat)
    requires Once(us) && i < |us|
    ensures var r := us[i := Member(us[i].user, flags)]; Once(r) && Listed(r) == Listed(us)[us[i].user := flags]
  {
    ListedHas(us);
    ReplacedOnce(us, i, flags);
    hide Once, Listed;
    var r := us[i := Member(us[i].user, flags)];
    forall x | x in Listed(us)
      ensures Has(r, x)
    {
      var j :| 0 <= j < |us| && us[j].user == x;
      assert r[j].user == x;
    }
    ListedIs(r, Listed(us)[us[i].user := flags]);
  }

  lemma DroppedOnce<U>(us: seq<Member<U>>, i: nat)
    requires Once(us) && i < |us|
    ensures Once(us[..i] + us[i + 1..])
    ensures forall j :: 0 <= j < |us| && j != i ==> us[j].user != us[i].user
  {
    var r := us[..i] + us[i + 1..];
    assert forall j :: 0 <= j < |r| ==> r[j] == us[if j < i then j else j + 1];
  }

  lemma DroppedHas<U>(us: seq<Member<U>>, i: nat)
    requires i < |us|
    ensures forall x :: Has(us, x) && x != us[i].user ==> Has(us[..i] + us[i + 1..], x)
  {
    hide Once, Listed;
    var r := us[..i] + us[i + 1..];
    forall x | Has(us, x) && x != us[i].user
      ensures Has(r, x)
    {
      var j :| 0 <= j < |us| && us[j].user == x;
      assert r[if j < i then j else j - 1] == us[j];
    }
  }

  lemma Dropped<U>(us: seq<Member<U>>, i: nat)
    requires Once(us) && i < |us|
    ensures var r := us[..i] + us[i + 1..]; Once(r) && Listed(r) == Listed(us) - {us[i].user}
  {
    ListedHas(us);
    DroppedOnce(us, i);
    hide *;
    DroppedHas(us, i);
    var r, m := us[..i] + us[i + 1..], Listed(us) - {us[i].user};
    forall j | 0 <= j < |r|
      ensures r[j].user in m && m[r[j].user] == r[j].flags
    {
      assert r[j] == us[if j < i then j else j + 1];
    }
    forall x | x in m
      ensures Has(r, x)
    {}
    ListedIs(r, m);
  }

  // ---------------------------------------------------------------- the show_users setting

  function ModeOf(c: char): nat {
    if c == '+' then VOICE else if c == '%' then HALFOP else if c == '@' then OP else NONE
  }

  /** Which mode a part of show_users gives to a state: the sign at its end decides. */
  lemma OnlineSigns(t: string, m: Modes)
    ensures ShowUsers(["online" + t + "+"], m) == Some(m.(online := 4))
    ensures ShowUsers(["online" + t + "%"], m) == Some(m.(online := 2))
    ensures ShowUsers(["online" + t + "@"], m) == Some(m.(online := 1))
  {
    hide ShowUsers;
    OnePart("online" + t + "+", "online", '+', m);
    OnePart("online" + t + "%", "online", '%', m);
    OnePart("online" + t + "@", "online", '@', m);
  }

  lemma AwaySigns(t: string, m: Modes)
    ensures ShowUsers(["away" + t + "+"], m) == Some(m.(away := 4))
    ensures ShowUsers(["away" + t + "%"], m) == Some(m.(away := 2))
    ensures ShowUsers(["away" + t + "@"], m) == Some(m.(away := 1))
  {
    hide ShowUsers;
    OnePart("away" + t + "+", "away", '+', m);
    OnePart("away" + t + "%", "away", '%', m);
    OnePart("away" + t + "@", "away", '@', m);
  }

  lemma OfflineSigns(t: string, m: Modes)
    ensures ShowUsers(["offline" + t + "+"], m) == Some(m.(offline := 4))
    ensures ShowUsers(["offline" + t + "%"], m) == Some(m.(offline := 2))
    ensures ShowUsers(["offline" + t + "@"], m) == Some(m.(offline := 1))
  {
    hide ShowUsers;
    OnePart("offline" + t + "+", "offline", '+', m);
    OnePart("offline" + t + "%", "offline", '%', m);
    OnePart("offline" + t + "@", "offline", '@', m);
  }

  /** A part that ends with something else asks for the state to be shown without a sign. */
  lemma NoSign(t: string, c: char, m: Modes)
    requires c != '+' && c != '%' && c != '@'
    ensures ShowUsers(["online" + t + [c]], m) == Some(Modes(m.offline, m.away, 8))
    ensures ShowUsers(["online"], m) == Some(Modes(m.offline, m.away, 8))
    ensures ShowUsers(["away"], m) == Some(Modes(m.offline, 8, m.online))
    ensures ShowUsers(["offline"], m) == Some(Modes(8, m.away, m.online))
  {
    OnePart("online" + t + [c], "online", c, m);
    OnePart("online", "online", 'e', m);
    OnePart("away", "away", 'y', m);
    OnePart("offline", "offline", 'e', m);
  }

  lemma OnePart(p: string, state: string, c: char, m: Modes)
    requires state <= p && p != "" && p[|p| - 1] == c
    ensures state == "online" ==> ShowUsers([p], m) == Some(m.(online := ModeOf(c)))
    ensures state == "away" ==> ShowUsers([p], m) == Some(m.(away := ModeOf(c)))
    ensures state == "offline" ==> ShowUsers([p], m) == Some(m.(offline := ModeOf(c)))
  {
    hide ModeOf;
    Prefixes(p);
    assert [p][1..] == [];
    assert StartsWith(p, state);
  }

  predicate StartsWith(s: string, prefix: string) {
    prefix <= s
  }

  /** set_eval_show_users on the parts between the commas: None when the value is refused. */
  function ShowUsers(parts: seq<string>, modes: Modes): Option<Modes> {
    if parts == [] then Some(modes)
    else
      var p := parts[0];
      if p == "" then None
      else
        var m := ModeOf(p[|p| - 1]);
        if StartsWith(p, "offline") then ShowUsers(parts[1..], modes.(offline := m))
        else if StartsWith(p, "away") then ShowUsers(parts[1..], modes.(away := m))
        else if StartsWith(p, "online") then ShowUsers(parts[1..], modes.(online := m))
        else None
  }

  /** The mode given by the last part with a prefix. */
  function LastMode(parts: seq<string>, prefix: string, default: nat): nat {
    if parts == [] then default
    else if prefix <= parts[0] && parts[0] != "" then LastMode(parts[1..], prefix, ModeOf(parts[0][|parts[0]| - 1]))
    else LastMode(parts[1..], prefix, default)
  }

  predicate Known(p: string) {
    "offline" <= p || "away" <= p || "online" <= p
  }

  /** The value is refused exactly when some part names no state; otherwise each state has the mode
      of the last part that names it, or none at all. */
  lemma {:induction false} ShowUsersIs(parts: seq<string>, m: Modes)
    ensures ShowUsers(parts, m) ==
            if forall i :: 0 <= i < |parts| ==> Known(parts[i])
            then Some(Modes(LastMode(parts, "offline", m.offline), LastMode(parts, "away", m.away), LastMode(parts, "online", m.online)))
            else None
  {
    if parts != [] {
      var p := parts[0];
      assert (forall i :: 0 <= i < |parts| ==> Known(parts[i])) <==>
             Known(p) && forall i :: 0 <= i < |parts[1..]| ==> Known(parts[1..][i]);
      Prefixes(p);
      if Known(p) {
        var c := ModeOf(p[|p| - 1]);
        ShowUsersIs(parts[1..], if "offline" <= p then m.(offline := c) else if "away" <= p then m.(away := c) else m.(online := c));
      }
    }
  }

  /** The three names exclude each other. */
  lemma Prefixes(p: string)
    ensures Known(p) ==> p != ""
    ensures !("offline" <= p && "online" <= p) && !("offline" <= p && "away" <= p) && !("away" <= p && "online" <= p)
  {
    assert "offline"[1] != "online"[1] && "away"[0] == 'a';
  }
}
