/** The IPC master of ipc.c on linked records: every command against its specification. */
module Ipc {
  import opened IpcRun
  import opened IpcSpec
  import opened NickChars
  import opened Options

  function LinkOf(c: Child?): Option<Child> {
    if c == null then None else var d: Child := c; Some(d)
  }

  /** struct bitlbee_child. */
  class Child {
    const ipcFd: int
    var nick: Option<string>
    var password: Option<string>
    var toChild: Child?
    var toFd: int

    constructor (fd: int)
      ensures ipcFd == fd && nick == None && password == None && toChild == null && toFd == -1
    {
      ipcFd, nick, password, toChild, toFd := fd, None, None, null, -1;
    }

    ghost function Fields(): Rec<Child>
      reads this
    {
      Rec(ipcFd, nick, password, LinkOf(toChild), toFd)
    }
  }

  /** child_list. `fault` records that a freed child or a freed list cell was used; the methods
      stop there, since the source's own behaviour is undefined from that point on. */
  class Master {
    var children: seq<Child>
    var fault: bool

    ghost function Abs(): State<Child>
      reads this, children
    {
      State(children, map c | c in children :: c.Fields(), fault)
    }

    ghost predicate Ready()
      reads this, children
    {
      Distinct(children) && !fault
    }

    lemma ReadyIs()
      requires Distinct(children)
      ensures WellFormed(Abs()) && Abs().fault == fault && Abs().order == children
      ensures forall c :: c in children <==> c in Abs().recs
      ensures forall c :: c in children ==> Abs().recs[c] == c.Fields()
      ensures Ready() <==> !fault
    {}

    lemma FieldsOf(c: Child)
      ensures c.Fields() == Rec(c.ipcFd, c.nick, c.password, LinkOf(c.toChild), c.toFd)
      ensures LinkOf(c.toChild) == None <==> c.toChild == null
      ensures c.toChild != null ==> LinkOf(c.toChild).Some? && LinkOf(c.toChild).value == c.toChild
    {}

    /** g_slist_remove. */
    method Remove(c: Child)
      requires Ready()
      modifies this`children
      ensures Ready() && Distinct(children) && WellFormed(old(Abs())) && Abs() == Drop(old(Abs()), c)
      ensures children == Without(old(children), c)
    {
      ReadyIs();
      ghost var s := Abs();
      WithoutIs(children, c);
      children := Without(children, c);
      assert Abs().recs == s.recs - {c};
    }

    /** The fields of `c` were changed and nothing else. */
    twostate lemma Changed(c: Child)
      requires old(Ready()) && c in children
      requires children == old(children) && fault == old(fault)
      requires forall d :: d in children && d != c ==> d.Fields() == old(d.Fields())
      ensures Ready() && WellFormed(old(Abs())) && c in old(Abs()).recs && Abs() == Put(old(Abs()), c, c.Fields())
    {
      assert Abs().recs == old(Abs()).recs[c := c.Fields()];
    }

    method Release(c: Child)
      requires Ready() && c in children
      modifies c
      ensures Ready() && WellFormed(old(Abs())) && c in old(Abs()).recs
      ensures Abs() == Put(old(Abs()), c, IpcSpec.Release(old(c.Fields())))
    {
      if c.toFd > -1 {
        c.toFd := -1;
      }
      c.toChild := null;
      Changed(c);
    }

    method Fault()
      requires Distinct(children)
      modifies this`fault
      ensures fault && WellFormed(old(Abs())) && Abs() == old(Abs()).(fault := true)
    {
      ReadyIs();
      fault := true;
    }

    /** ipc_master_free_one. */
    method FreeOne(c: Child, fails: set<Child>)
      requires Ready() && Distinct(children) && c in children
      modifies this, set d | d in children
      ensures Distinct(children) && |children| <= |old(children)| && forall d :: d in children ==> d in old(children)
      ensures WellFormed(old(Abs())) && c in old(Abs()).recs && Abs() == IpcSpec.FreeOne(old(Abs()), c, fails)
      decreases |children|, 1
    {
      hide *;
      ReadyIs();
      FreeOneIs(Abs(), c, fails);
      Remove(c);
      ReadyIs();
      ghost var s := Abs();
      var i := 0;
      while i < |children|
        invariant 0 <= i && Distinct(children) && !fault && WellFormed(Abs())
        invariant |children| < |old(children)| && forall d :: d in children ==> d in old(children)
        invariant Walk(Abs(), c, i, fails) == Walk(s, c, 0, fails)
        decreases |children| - i
      {
        ReadyIs();
        var oc := children[i];
        FieldsOf(oc);
        WalkStep(Abs(), c, i, fails);
        if oc.toChild == c {
          TakeoverFail(oc, false, fails);
          ReadyIs();
          if fault {
            return;
          }
          if oc !in children {
            Fault();
            return;
          }
        }
        i := i + 1;
      }
      ReadyIs();
      WalkStep(Abs(), c, i, fails);
    }

    /** ipc_master_takeover_fail. */
    method TakeoverFail(child: Child, both: bool, fails: set<Child>)
      requires Ready() && Distinct(children) && child in children
      modifies this, set d | d in children
      ensures Distinct(children) && |children| <= |old(children)| && forall d :: d in children ==> d in old(children)
      ensures WellFormed(old(Abs())) && child in old(Abs()).recs
      ensures Abs() == if both then FailBoth(old(Abs()), child, fails) else FailOne(old(Abs()), child, fails)
      decreases |children|, if both then 3 else 2
    {
      hide *;
      ReadyIs();
      FieldsOf(child);
      FailBothIs(Abs(), child, fails);
      if both && child.toChild != null && child.toChild in children {
        TakeoverFail(child.toChild, false, fails);
        ReadyIs();
        if fault {
          return;
        }
        if child !in children {
          Fault();
          return;
        }
      }
      FailOneIs(Abs(), child, fails);
      FieldsOf(child);
      if child.toFd > -1 && child in fails {
        FreeOne(child, fails);
      } else {
        Release(child);
      }
    }

    // -------------------------------------------------------------- commands

    /** ipc_master_cmd_nick, and the nick of ipc_master_cmd_client. */
    method SetNick(c: Child, nick: Option<string>)
      requires Ready() && c in children
      modifies c`nick
      ensures Ready() && WellFormed(old(Abs())) && c in old(Abs()).recs && Abs() == IpcSpec.SetNick(old(Abs()), c, nick)
    {
      c.nick := nick;
      Changed(c);
    }

    method Password(c: Child, secret: string)
      requires Ready() && c in children
      modifies c`password
      ensures Ready() && WellFormed(old(Abs())) && c in old(Abs()).recs && Abs() == Known(old(Abs()), c, secret)
    {
      c.password := Some(secret);
      Changed(c);
    }

    method Close(c: Child)
      requires Ready() && c in children
      modifies c`toFd
      ensures Ready() && WellFormed(old(Abs())) && c in old(Abs()).recs
      ensures Abs() == Put(old(Abs()), c, old(c.Fields()).(toFd := -1))
    {
      c.toFd := -1;
      Changed(c);
    }

    method Point(c: Child, to: Child?)
      requires Ready() && c in children
      modifies c`toChild
      ensures Ready() && WellFormed(old(Abs())) && c in old(Abs()).recs
      ensures Abs() == Put(old(Abs()), c, old(c.Fields()).(to := LinkOf(to)))
    {
      c.toChild := to;
      Changed(c);
    }

    /** The search for an older session with the same login. */
    method FindOlder(c: Child) returns (r: Child?)
      requires Ready() && Distinct(children) && c in children
      ensures WellFormed(Abs()) && c in Abs().recs && LinkOf(r) == OldSession(Abs(), c, 0)
      ensures r != null ==> r in children && r != c
    {
      hide *;
      ReadyIs();
      var i := 0;
      while i < |children|
        invariant 0 <= i && WellFormed(Abs()) && OldSession(Abs(), c, i) == OldSession(Abs(), c, 0)
      {
        var o := children[i];
        OldStep(Abs(), c, i);
        FieldsOf(o);
        FieldsOf(c);
        LoginIs(o.Fields(), c.Fields());
        if c != o && o.nick.Some? && c.nick.Some? && SameNick(o.nick.value, c.nick.value)
           && o.password.Some? && o.password == c.password {
          LinkIs(o);
          return o;
        }
        i := i + 1;
      }
      OldStep(Abs(), c, i);
      LinkIs(null);
      r := null;
    }

    lemma LinkIs(o: Child?)
      ensures LinkOf(o) == if o == null then None else var d: Child := o; Some(d)
    {}

    /** ipc_master_cmd_identify. */
    method Identify(c: Child, name: string, secret: string, fails: set<Child>)
      requires Ready() && Distinct(children) && c in children
      modifies this, set d | d in children
      ensures Distinct(children) && forall d :: d in children ==> d in old(children)
      ensures WellFormed(old(Abs())) && c in old(Abs()).recs && Abs() == OnIdentify(old(Abs()), c, name, secret, fails)
    {
      hide *;
      ReadyIs();
      FieldsOf(c);
      IdentifyIs(Abs(), c, name, secret, fails);
      if c.nick != Some(name) {
        return;
      }
      Password(c, secret);
      ReadyIs();
      Offer(c);
      ReadyIs();
      if c in fails {
        FreeOne(c, fails);
      }
    }

    method Offer(c: Child)
      requires Ready() && Distinct(children) && c in children
      modifies set d | d in children
      ensures Ready() && WellFormed(old(Abs())) && c in old(Abs()).recs && Abs() == IpcSpec.Offer(old(Abs()), c)
    {
      hide *;
      ReadyIs();
      var older := FindOlder(c);
      OfferIs(Abs(), c);
      FieldsOf(c);
      LinkIs(older);
      if older != null {
        FieldsOf(older);
      }
      if older != null && c.toChild == null && older.toChild == null {
        LinkIs(c);
        ghost var s := Abs();
        Point(c, older);
        ReadyIs();
        Point(older, c);
        LinkAs(s, c, older);
      } else {
        Close(c);
      }
    }

    /** ipc_master_cmd_takeover. */
    method Takeover(c: Child, what: string, nick: Option<string>, password: Option<string>, fails: set<Child>)
      requires Ready() && Distinct(children) && c in children
      modifies this, set d | d in children
      ensures Distinct(children) && forall d :: d in children ==> d in old(children)
      ensures WellFormed(old(Abs())) && c in old(Abs()).recs
      ensures Abs() == OnTakeover(old(Abs()), c, what, nick, password, fails)
    {
      hide *;
      ReadyIs();
      FieldsOf(c);
      TakeoverIs(Abs(), c, what, nick, password, fails);
      if c.toChild == null || c.toChild !in children {
        TakeoverFail(c, false, fails);
        return;
      }
      var p := c.toChild;
      FieldsOf(p);
      if what == "AUTH" {
        AgreeIs(c.Fields(), p.Fields(), nick, password);
        if c.nick.Some? && p.nick.Some? && nick.Some? && c.password.Some? && p.password.Some? && password.Some?
           && c.nick.value == p.nick.value && c.nick.value == nick.value
           && c.password.value == p.password.value && c.password.value == password.value {
          if p in fails {
            FreeOne(c, fails);
          }
        } else {
          TakeoverFail(c, true, fails);
        }
      } else if what == "DONE" || what == "FAIL" {
        PartParties(c, p);
        ReadyIs();
        if p in fails {
          FreeOne(c, fails);
        }
      }
    }

    method PartParties(c: Child, p: Child)
      requires Ready() && Distinct(children) && c in children && p in children
      modifies c, p
      ensures Ready() && WellFormed(old(Abs())) && c in old(Abs()).recs && p in old(Abs()).recs
      ensures Abs() == Part(old(Abs()), c, p)
    {
      hide *;
      ReadyIs();
      ghost var s := Abs();
      Close(c);
      ReadyIs();
      Point(p, null);
      ReadyIs();
      Point(c, null);
      LinkIs(null);
      ReadyIs();
      PartAs(s, c, p);
    }

    /** ipc_to_children_str. The cell after a freed one, which the source has remembered, moves to
        its place. */
    method Broadcast(fails: set<Child>)
      requires Ready() && Distinct(children) && WellFormed(Abs()) && Inv(Abs())
      modifies this, set d | d in children
      ensures Distinct(children) && forall d :: d in children ==> d in old(children)
      ensures Abs() == IpcSpec.Broadcast(old(Abs()), 0, fails)
    {
      hide *;
      ReadyIs();
      var i := 0;
      while i < |children|
        invariant Distinct(children) && !fault && WellFormed(Abs()) && Inv(Abs())
        invariant forall d :: d in children ==> d in old(children)
        invariant 0 <= i && forall j :: 0 <= j < i && j < |children| ==> children[j] !in fails
        invariant IpcSpec.Broadcast(Abs(), i, fails) == IpcSpec.Broadcast(old(Abs()), 0, fails)
        decreases |children|, |children| - i
      {
        ReadyIs();
        BroadcastUnfold(Abs(), i, fails);
        if children[i] in fails {
          FreeKeeps(Abs(), children[i], fails);
          if !FreeFaults(Abs(), children[i], fails) {
            BroadcastStep(Abs(), i, fails);
          }
          FreeOneIs(Abs(), children[i], fails);
          FreeOne(children[i], fails);
          ReadyIs();
          if fault {
            return;
          }
        } else {
          i := i + 1;
        }
      }
      ReadyIs();
      BroadcastUnfold(Abs(), i, fails);
    }

    // -------------------------------------------------------------- events

    /** Proper links, and one child per descriptor. */
    ghost predicate Valid()
      reads this, children
    {
      Ready() && Inv(Abs()) && FdsDiffer()
    }

    ghost predicate FdsDiffer()
      reads this
    {
      forall c, d :: c in children && d in children && c.ipcFd == d.ipcFd ==> c == d
    }

    lemma ValidIs()
      requires Valid()
      ensures Ready() && Distinct(children) && Inv(Abs()) && WellFormed(Abs()) && FdsDiffer()
      ensures forall c :: c in children <==> c in Abs().recs
    {}

    /** The outcome of an event: its specification, and proper links unless freed memory was used. */
    lemma Settled(s: State<Child>, e: Event<Child>, fails: set<Child>)
      requires Inv(s) && Fits(s, e) && Distinct(children) && FdsDiffer() && Abs() == Step(s, e, fails)
      ensures fault <==> StepFaults(s, e, fails)
      ensures !fault ==> Valid()
    {
      hide Step, StepFaults, Matching;
      StepKeeps(s, e, fails);
      ReadyIs();
    }

    constructor ()
      ensures Valid() && children == []
    {
      children, fault := [], false;
    }

    /** new_ipc_client, or a new process of the fork daemon; `fd` is not in use. */
    method NewClient(fd: int, front: bool) returns (c: Child)
      requires Valid() && forall d :: d in children ==> d.ipcFd != fd
      modifies this
      ensures Valid() && fresh(c) && c in children && c.ipcFd == fd
      ensures WellFormed(old(Abs())) && c !in old(Abs()).recs && Abs() == Step(old(Abs()), Join(c, fd, front), {})
    {
      hide *;
      ValidIs();
      ReadyIs();
      ghost var s, before := Abs(), children;
      FdsAre();
      c := new Child(fd);
      FieldsOf(c);
      LinkIs(null);
      assert forall d :: d in children ==> d != c;
      children := if front then [c] + children else children + [c];
      Joined(before, c, front);
      NewAbs(s, before, c, fd, front);
      Settled(s, Join(c, fd, front), {});
    }

    lemma Joined(before: seq<Child>, c: Child, front: bool)
      requires Distinct(before) && c !in before && children == if front then [c] + before else before + [c]
      requires forall d, e :: d in before && e in before && d.ipcFd == e.ipcFd ==> d == e
      requires forall d :: d in before ==> d.ipcFd != c.ipcFd
      ensures Distinct(children) && FdsDiffer()
    {}

    lemma FdsAre()
      requires FdsDiffer()
      ensures forall d, e :: d in children && e in children && d.ipcFd == e.ipcFd ==> d == e
    {}

    lemma NewAbs(s: State<Child>, before: seq<Child>, c: Child, fd: int, front: bool)
      requires WellFormed(s) && s.order == before && c !in before && !s.fault && !fault
      requires children == if front then [c] + before else before + [c]
      requires forall d :: d in before ==> s.recs[d] == d.Fields()
      requires c.Fields() == Rec(fd, None, None, None, -1)
      ensures c !in s.recs && Fits(s, Join(c, fd, front)) && Abs() == Step(s, Join(c, fd, front), {})
    {
      assert forall d :: d in children <==> d == c || d in before;
      assert Abs().recs == s.recs[c := Rec(fd, None, None, None, -1)];
    }

    /** ipc_master_read with a whole line. */
    method ReadLine(c: Child, received: Option<nat>, cmd: Command, fails: set<Child>)
      requires Valid() && c in children
      modifies this, set d | d in children
      ensures WellFormed(old(Abs())) && c in old(Abs()).recs
      ensures Abs() == Step(old(Abs()), Line(c, received, cmd), fails)
      ensures Inv(old(Abs())) && (fault <==> StepFaults(old(Abs()), Line(c, received, cmd), fails))
      ensures !fault ==> Valid()
    {
      hide *;
      ValidIs();
      ReadyIs();
      ghost var s := Abs();
      LineIs(s, c, received, cmd, fails);
      ReceivedKeeps(s, c, received);
      if received.Some? {
        Receive(c, received.value);
        ReadyIs();
      }
      assert Abs() == Received(s, c, received);
      Execute(c, cmd, fails);
      FewerFds(old(children));
      Settled(s, Line(c, received, cmd), fails);
    }

    method Receive(c: Child, fd: nat)
      requires Ready() && c in children
      modifies c`toFd
      ensures Ready() && WellFormed(old(Abs())) && c in old(Abs()).recs && Abs() == Received(old(Abs()), c, Some(fd))
    {
      c.toFd := fd;
      Changed(c);
    }

    /** ipc_command_exec. */
    method Execute(c: Child, cmd: Command, fails: set<Child>)
      requires Ready() && Distinct(children) && c in children && Inv(Abs())
      modifies this, set d | d in children
      ensures Distinct(children) && forall d :: d in children ==> d in old(children)
      ensures WellFormed(old(Abs())) && c in old(Abs()).recs && Abs() == OnCommand(old(Abs()), c, cmd, fails)
    {
      hide *;
      ReadyIs();
      CommandIs(Abs(), c, cmd, fails);
      match cmd
      case Hello(host, nick) =>
        if host.Some? {
          SetNick(c, nick);
        }
      case Nick(name) => SetNick(c, Some(name));
      case Identify(name, secret) => Identify(c, name, secret, fails);
      case Takeover(what, nick, password) => Takeover(c, what, nick, password, fails);
      case Client(alias) =>
        NickKeeps(Abs(), c, Some(alias));
        SetNick(c, Some(alias));
        ReadyIs();
        Broadcast(fails);
      case Spread => Broadcast(fails);
    }

    /** The channel to a child is broken: ipc_master_free_fd. */
    method FreeFd(fd: int, fails: set<Child>)
      requires Valid()
      modifies this, set d | d in children
      ensures (forall c :: c in old(children) ==> c.ipcFd != fd) ==> Abs() == old(Abs())
      ensures WellFormed(old(Abs())) && Inv(old(Abs()))
      ensures forall c :: c in old(children) && c.ipcFd == fd ==>
                && Fits(old(Abs()), Hangup(c)) && Abs() == Step(old(Abs()), Hangup(c), fails)
                && (fault <==> StepFaults(old(Abs()), Hangup(c), fails))
      ensures !fault ==> Valid()
    {
      ValidIs();
      ReadyIs();
      ghost var s, all := Abs(), children;
      for i := 0 to |children|
        invariant Valid() && Abs() == s && children == all
        invariant forall j :: 0 <= j < i ==> children[j].ipcFd != fd
      {
        var c := children[i];
        if c.ipcFd == fd {
          FreeOne(c, fails);
          FewerFds(all);
          Settled(s, Hangup(c), fails);
          return;
        }
      }
    }

    lemma FewerFds(before: seq<Child>)
      requires forall c, d :: c in before && d in before && c.ipcFd == d.ipcFd ==> c == d
      requires forall d :: d in children ==> d in before
      ensures FdsDiffer()
    {}
  }
}
