/** Runs of the IPC master (ipc.c): what any sequence of connections, commands, hang-ups and broken
    pipes keeps, and exactly when freed memory is used. */
module IpcRun {
  import opened IpcRules
  import opened IpcSpec
  import opened NickChars
  import opened Options

  datatype Event<C> =
    | Join(child: C, fd: int, front: bool)
    | Line(child: C, received: Option<nat>, cmd: Command)
    | Hangup(child: C)

  predicate Fits<C(==)>(s: State<C>, e: Event<C>) {
    if e.Join? then e.child !in s.recs else e.child in s.recs
  }

  ghost function Step<C>(s: State<C>, e: Event<C>, fails: set<C>): (r: State<C>)
    requires WellFormed(s) && Fits(s, e)
    ensures WellFormed(r)
  {
    match e
    case Join(c, fd, front) => NewChild(s, c, fd, front)
    case Line(c, received, cmd) => OnCommand(Received(s, c, received), c, cmd, fails)
    case Hangup(c) => FreeOne(s, c, fails)
  }

  lemma LineIs<C>(s: State<C>, c: C, received: Option<nat>, cmd: Command, fails: set<C>)
    requires WellFormed(s) && c in s.recs
    ensures Fits(s, Line(c, received, cmd))
    ensures Step(s, Line(c, received, cmd), fails) == OnCommand(Received(s, c, received), c, cmd, fails)
    ensures received.None? ==> Received(s, c, received) == s
  {}

  lemma CommandIs<C>(s: State<C>, c: C, cmd: Command, fails: set<C>)
    requires WellFormed(s) && c in s.recs
    ensures cmd.Hello? ==> OnCommand(s, c, cmd, fails) == if cmd.host.Some? then SetNick(s, c, cmd.nick) else s
    ensures cmd.Nick? ==> OnCommand(s, c, cmd, fails) == SetNick(s, c, Some(cmd.name))
    ensures cmd.Identify? ==> OnCommand(s, c, cmd, fails) == OnIdentify(s, c, cmd.name, cmd.secret, fails)
    ensures cmd.Takeover? ==> OnCommand(s, c, cmd, fails) == OnTakeover(s, c, cmd.what, cmd.nick, cmd.password, fails)
    ensures cmd.Client? ==> OnCommand(s, c, cmd, fails) == Broadcast(SetNick(s, c, Some(cmd.alias)), 0, fails)
    ensures cmd.Spread? ==> OnCommand(s, c, cmd, fails) == Broadcast(s, 0, fails)
  {
    hide OnIdentify, OnTakeover, Broadcast;
  }

  ghost predicate StepFaults<C>(s: State<C>, e: Event<C>, fails: set<C>)
    requires Inv(s) && Fits(s, e)
  {
    match e
    case Join(_, _, _) => false
    case Line(c, received, cmd) =>
      ReceivedKeeps(s, c, received);
      CommandFaults(Received(s, c, received), c, cmd, fails)
    case Hangup(c) => FreeFaults(s, c, fails)
  }

  lemma ReceivedKeeps<C>(s: State<C>, c: C, fd: Option<nat>)
    requires Inv(s) && c in s.recs
    ensures var r := Received(s, c, fd); Inv(r) && c in r.recs && Only(s, r, {c})
  {}

  ghost function StepParties<C>(s: State<C>, e: Event<C>): set<C>
    requires WellFormed(s) && Fits(s, e)
  {
    match e
    case Join(c, _, _) => {c}
    case Line(c, received, cmd) => {c} + Parties(Received(s, c, received), c, cmd)
    case Hangup(c) => Pair(s, c)
  }

  /** What a step makes of the fields of the children. */
  ghost predicate StepEffect<C>(s: State<C>, e: Event<C>, fails: set<C>, r: State<C>)
    requires Inv(s) && Fits(s, e)
  {
    match e
    case Join(c, fd, front) => JoinEffect(s, c, fd, front, r)
    case Line(c, received, cmd) =>
      ReceivedKeeps(s, c, received);
      if received.Some? then GivenIs(s, c, received.value); CommandEffect(Given(s, c, received.value), c, cmd, fails, r)
      else CommandEffect(s, c, cmd, fails, r)
    case Hangup(c) => FreeEffect(s, c, r)
  }

  lemma StepHas<C>(s: State<C>, e: Event<C>, fails: set<C>)
    requires Inv(s) && Fits(s, e) && !StepFaults(s, e, fails)
    ensures StepEffect(s, e, fails, Step(s, e, fails))
  {
    hide OnCommand, FreeOne, CommandFaults, FreeFaults, CommandEffect, FreeEffect, Received, Given, Matching;
    match e
    case Join(_, _, _) =>
    case Line(c, received, cmd) =>
      ReceivedKeeps(s, c, received);
      CommandHas(Received(s, c, received), c, cmd, fails);
      if received.Some? {
        GivenIs(s, c, received.value);
      } else {
        LineIs(s, c, received, cmd, fails);
      }
    case Hangup(c) => FreeHas(s, c, fails);
  }

  /** One step from a state with proper links: it uses freed memory exactly when StepFaults says
      so; otherwise the links are proper again, nothing outside the parties has changed, and the
      fields of all children are what StepEffect says. */
  lemma StepKeeps<C>(s: State<C>, e: Event<C>, fails: set<C>)
    requires Inv(s) && Fits(s, e)
    ensures var r := Step(s, e, fails);
            && (r.fault <==> StepFaults(s, e, fails))
            && (!r.fault ==>
                  && Inv(r) && (forall x :: x in s.recs && x !in StepParties(s, e) ==> x in r.recs && r.recs[x] == s.recs[x])
                  && (forall x :: x in r.recs ==> x in s.recs || (e.Join? && x == e.child))
                  && StepEffect(s, e, fails, r))
  {
    if !StepFaults(s, e, fails) {
      StepHas(s, e, fails);
    }
    hide StepEffect;
    match e
    case Join(c, fd, front) => JoinKeeps(s, c, fd, front);
    case Line(c, received, cmd) => LineKeeps(s, c, received, cmd, fails);
    case Hangup(c) => FreeKeeps(s, c, fails);
  }

  lemma JoinKeeps<C>(s: State<C>, c: C, fd: int, front: bool)
    requires Inv(s) && c !in s.recs
    ensures Inv(NewChild(s, c, fd, front))
  {}

  lemma LineKeeps<C>(s: State<C>, c: C, received: Option<nat>, cmd: Command, fails: set<C>)
    requires Inv(s) && c in s.recs
    ensures var r := OnCommand(Received(s, c, received), c, cmd, fails);
            && (r.fault <==> StepFaults(s, Line(c, received, cmd), fails))
            && (!r.fault ==> Inv(r) && Only(s, r, {c} + Parties(Received(s, c, received), c, cmd)))
  {
    hide OnCommand, CommandFaults, Received, Parties, Only, Matching, WellFormed;
    var t := Received(s, c, received);
    ReceivedKeeps(s, c, received);
    CommandKeeps(t, c, cmd, fails);
    var r := OnCommand(t, c, cmd, fails);
    if !r.fault {
      OnlyThen(s, t, r, {c}, Parties(t, c, cmd), {c} + Parties(t, c, cmd));
    }
  }

  lemma AtMostOne<C>(fails: set<C>, a: C, b: C)
    requires |fails| <= 1 && a in fails && b in fails
    ensures a == b
  {
    assert b in fails - {a} || a == b;
    assert |fails - {a}| == |fails| - 1;
  }

  lemma NoPairFails<C>(s: State<C>, fails: set<C>)
    requires Inv(s) && |fails| <= 1
    ensures !BroadcastFaults(s, 0, fails)
  {
    if BroadcastFaults(s, 0, fails) {
      var j, k :| 0 <= j < k < |s.order| && PairFails(s, j, k, fails);
      AtMostOne(fails, s.order[j], s.order[k]);
      assert false;
    }
  }

  lemma NoOfferFails<C>(s: State<C>, c: C, name: string, secret: string, fails: set<C>)
    requires Inv(s) && c in s.recs && |fails| <= 1
    ensures !CommandFaults(s, c, Identify(name, secret), fails)
  {
    hide Offer, Known;
    if CommandFaults(s, c, Identify(name, secret), fails) {
      KnownKeeps(s, c, secret);
      OfferKeeps(Known(s, c, secret), c);
      var t := Offer(Known(s, c, secret), c);
      InvParts(t, c);
      AtMostOne(fails, c, t.recs[c].to.value);
      assert false;
    }
  }

  lemma AuthFails<C>(s: State<C>, c: C, received: Option<nat>, what: string, nick: Option<string>, password: Option<string>,
                     fails: set<C>)
    requires Inv(s) && c in s.recs && |fails| <= 1
    ensures StepFaults(s, Line(c, received, Takeover(what, nick, password)), fails) <==>
              && what == "AUTH" && FreeFaults(s, c, fails)
              && Agree(s.recs[c], s.recs[s.recs[c].to.value], nick, password)
  {
    var t := Received(s, c, received);
    ReceivedKeeps(s, c, received);
    InvParts(s, c);
    if s.recs[c].to.Some? {
      var p := s.recs[c].to.value;
      if p in fails && c in fails {
        AtMostOne(fails, p, c);
      }
    }
  }

  /** With at most one broken pipe, freed memory is used only when a child goes whose partner holds
      a descriptor and is the one that cannot be written to: on a hang-up, or when the command
      TAKEOVER AUTH cannot be passed on. */
  lemma OneBroken<C>(s: State<C>, e: Event<C>, fails: set<C>)
    requires Inv(s) && Fits(s, e) && |fails| <= 1
    ensures StepFaults(s, e, fails) <==>
            match e
            case Join(_, _, _) => false
            case Hangup(c) => FreeFaults(s, c, fails)
            case Line(c, received, cmd) =>
              && cmd.Takeover? && cmd.what == "AUTH" && FreeFaults(s, c, fails)
              && Agree(s.recs[c], s.recs[s.recs[c].to.value], cmd.nick, cmd.password)
  {
    hide FreeFaults, Agree, BroadcastFaults, Received, Offer, Known, Matching, WellFormed;
    match e
    case Join(_, _, _) =>
    case Hangup(c) =>
    case Line(c, received, cmd) =>
      ReceivedKeeps(s, c, received);
      match cmd
      case Hello(_, _) =>
      case Nick(_) =>
      case Identify(name, secret) => NoOfferFails(Received(s, c, received), c, name, secret, fails);
      case Takeover(what, nick, password) => AuthFails(s, c, received, what, nick, password, fails);
      case Client(_) => NoPairFails(Received(s, c, received), fails);
      case Spread => NoPairFails(Received(s, c, received), fails);
  }

  // ---------------------------------------------------------------- runs

  type Run<!C> = seq<(Event<C>, set<C>)>

  ghost predicate FitsAll<C>(s: State<C>, run: Run<C>)
    requires WellFormed(s)
    decreases |run|
  {
    run != [] && !s.fault ==> Fits(s, run[0].0) && FitsAll(Step(s, run[0].0, run[0].1), run[1..])
  }

  /** The state after a run; nothing more is said once freed memory has been used. */
  ghost function After<C>(s: State<C>, run: Run<C>): (r: State<C>)
    requires WellFormed(s) && FitsAll(s, run)
    ensures WellFormed(r)
    decreases |run|
  {
    if run == [] || s.fault then s else After(Step(s, run[0].0, run[0].1), run[1..])
  }

  /** The links are proper in every state a run can reach before freed memory is used. */
  lemma {:induction false} RunKeeps<C>(s: State<C>, run: Run<C>)
    requires Inv(s) && FitsAll(s, run)
    ensures var r := After(s, run); r.fault || Inv(r)
    decreases |run|
  {
    if run != [] {
      StepKeeps(s, run[0].0, run[0].1);
      var t := Step(s, run[0].0, run[0].1);
      if !t.fault {
        RunKeeps(t, run[1..]);
      }
    }
  }

  ghost function Nobody<C>(): State<C> {
    State([], map[], false)
  }

  lemma FromTheStart<C>(run: Run<C>)
    requires FitsAll(Nobody<C>(), run)
    ensures var r := After(Nobody<C>(), run); r.fault || Inv(r)
  {
    RunKeeps(Nobody<C>(), run);
  }

  // ---------------------------------------------------------------- a run that uses freed memory

  ghost predicate EndsBadly<C>(s: State<C>, run: Run<C>) {
    && WellFormed(s) && FitsAll(s, run) && After(s, run).fault
    && forall i :: 0 <= i < |run| ==> |run[i].1| <= 1
  }

  lemma Before<C>(s: State<C>, e: Event<C>, fails: set<C>, t: State<C>, run: Run<C>)
    requires WellFormed(s) && !s.fault && Fits(s, e) && Step(s, e, fails) == t && |fails| <= 1
    requires EndsBadly(t, run)
    ensures EndsBadly(s, [(e, fails)] + run)
  {
    hide Step;
    var all := [(e, fails)] + run;
    assert all[0] == (e, fails) && all[1..] == run;
  }

  const NICK := "alice"
  const WORD := "secret"

  ghost function Older(): Rec<nat> {
    Rec(10, Some(NICK), Some(WORD), None, -1)
  }

  ghost function Newer(): Rec<nat> {
    Rec(11, Some(NICK), None, None, -1)
  }

  /** An old session and a new one with the same login, which is linked to it. */
  ghost function Linked(fd: int): State<nat> {
    var m: map<nat, Rec<nat>> := map[0 := Older().(to := Some(1), toFd := fd), 1 := Newer().(password := Some(WORD), to := Some(0))];
    State([1, 0], m, false)
  }

  ghost function Single(r: Rec<nat>): State<nat> {
    State([0], map[0 := r], false)
  }

  ghost function Both(r: Rec<nat>, q: Rec<nat>): State<nat> {
    State([1, 0], map[0 := r, 1 := q], false)
  }

  lemma OfferExample()
    ensures WellFormed(Both(Older(), Newer()))
    ensures Step(Both(Older(), Newer()), Line(1, None, Identify(NICK, WORD)), {}) == Linked(-1)
  {
    var s := Received(Both(Older(), Newer()), 1, None);
    var t := Known(s, 1, WORD);
    assert t == Both(Older(), Newer().(password := Some(WORD)));
    OfferedExample();
    hide Offer, OldSession;
  }

  lemma OfferedExample()
    ensures WellFormed(Both(Older(), Newer().(password := Some(WORD))))
    ensures Offer(Both(Older(), Newer().(password := Some(WORD))), 1) == Linked(-1)
  {
    FoundExample();
    hide OldSession;
  }

  lemma FoundExample()
    ensures WellFormed(Both(Older(), Newer().(password := Some(WORD))))
    ensures OldSession(Both(Older(), Newer().(password := Some(WORD))), 1, 0) == Some(0)
  {
    hide IsNickChar, Fold;
    assert NICK == "alice";
    AliceOk();
    SameNickIs(NICK, NICK);
    assert OldSession(Both(Older(), Newer().(password := Some(WORD))), 1, 1) == Some(0);
  }

  lemma AliceOk()
    ensures forall i :: 0 <= i < |NICK| ==> IsNickChar(NICK[i])
  {}

  lemma HangupExample()
    ensures WellFormed(Linked(12)) && Step(Linked(12), Hangup(1), {0}).fault
  {
    assert Inv(Linked(12));
    StepKeeps(Linked(12), Hangup(1), {0});
  }

  lemma StartExample()
    ensures WellFormed(Nobody<nat>()) && Step(Nobody<nat>(), Join(0, 10, true), {}) == Single(Rec(10, None, None, None, -1))
  {}

  lemma NickExample()
    ensures WellFormed(Single(Rec(10, None, None, None, -1)))
    ensures Step(Single(Rec(10, None, None, None, -1)), Line(0, None, Nick(NICK)), {}) == Single(Rec(10, Some(NICK), None, None, -1))
  {}

  lemma IdentifyExample()
    ensures WellFormed(Single(Rec(10, Some(NICK), None, None, -1)))
    ensures Step(Single(Rec(10, Some(NICK), None, None, -1)), Line(0, None, Identify(NICK, WORD)), {}) == Single(Older())
  {
    var s := Received(Single(Rec(10, Some(NICK), None, None, -1)), 0, None);
    assert Known(s, 0, WORD) == Single(Older());
    assert OldSession(Single(Older()), 0, 0) == None;
  }

  lemma JoinExample()
    ensures WellFormed(Single(Older()))
    ensures Step(Single(Older()), Join(1, 11, true), {}) == Both(Older(), Rec(11, None, None, None, -1))
  {}

  lemma NickAgainExample()
    ensures WellFormed(Both(Older(), Rec(11, None, None, None, -1)))
    ensures Step(Both(Older(), Rec(11, None, None, None, -1)), Line(1, None, Nick(NICK)), {}) == Both(Older(), Newer())
  {}

  lemma DescriptorExample()
    ensures WellFormed(Linked(-1))
    ensures Step(Linked(-1), Line(0, Some(12), Hello(None, None)), {}) == Linked(12)
  {}

  /** One broken pipe is enough: an old session that holds a descriptor and cannot be written to
      when the new one hangs up. */
  lemma FaultReached() returns (run: Run<nat>)
    ensures EndsBadly(Nobody<nat>(), run)
  {
    hide *;
    HangupExample();
    DescriptorExample();
    OfferExample();
    NickAgainExample();
    JoinExample();
    IdentifyExample();
    NickExample();
    StartExample();
    Sound();
    var none: set<nat> := {};
    var last: set<nat> := {0};
    run := [];
    EndHere(Step(Linked(12), Hangup(1), last));
    Before(Linked(12), Hangup(1), last, Step(Linked(12), Hangup(1), last), run);
    run := [(Hangup(1), last)] + run;
    Before(Linked(-1), Line(0, Some(12), Hello(None, None)), none, Linked(12), run);
    run := [(Line(0, Some(12), Hello(None, None)), none)] + run;
    Before(Both(Older(), Newer()), Line(1, None, Identify(NICK, WORD)), none, Linked(-1), run);
    run := [(Line(1, None, Identify(NICK, WORD)), none)] + run;
    Before(Both(Older(), Rec(11, None, None, None, -1)), Line(1, None, Nick(NICK)), none, Both(Older(), Newer()), run);
    run := [(Line(1, None, Nick(NICK)), none)] + run;
    Before(Single(Older()), Join(1, 11, true), none, Both(Older(), Rec(11, None, None, None, -1)), run);
    run := [(Join(1, 11, true), none)] + run;
    Before(Single(Rec(10, Some(NICK), None, None, -1)), Line(0, None, Identify(NICK, WORD)), none, Single(Older()), run);
    run := [(Line(0, None, Identify(NICK, WORD)), none)] + run;
    Before(Single(Rec(10, None, None, None, -1)), Line(0, None, Nick(NICK)), none, Single(Rec(10, Some(NICK), None, None, -1)), run);
    run := [(Line(0, None, Nick(NICK)), none)] + run;
    Before(Nobody<nat>(), Join(0, 10, true), none, Single(Rec(10, None, None, None, -1)), run);
    run := [(Join(0, 10, true), none)] + run;
  }

  /** The states of the example have no fault yet, and name the children they should. */
  lemma Sound()
    ensures forall r, q :: !Both(r, q).fault && 0 in Both(r, q).recs && 1 in Both(r, q).recs
    ensures forall r :: !Single(r).fault && 0 in Single(r).recs && 1 !in Single(r).recs
    ensures !Nobody<nat>().fault && 0 !in Nobody<nat>().recs
    ensures forall fd :: !Linked(fd).fault && 0 in Linked(fd).recs && 1 in Linked(fd).recs
    ensures forall s: State<nat>, e :: Fits(s, e) == if e.Join? then e.child !in s.recs else e.child in s.recs
  {}

  lemma EndHere(s: State<nat>)
    requires WellFormed(s) && s.fault
    ensures EndsBadly(s, [])
  {}
}
