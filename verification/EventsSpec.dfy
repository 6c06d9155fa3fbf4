/** The table of event handlers of lib/events_libevent.c, on values. */
module EventsSpec {
  import opened Options

  /** A registered handler: its descriptor and directions as libevent knows them, and what the last
      registration asked for. A timer has descriptor -1 and no direction. */
  datatype Reg = Reg(fd: int, read: bool, write: bool, repeat: bool, func: nat)

  /** id_next, id_hash, and the ids of the handlers in read_hash and write_hash. */
  datatype State = State(next: nat, ids: map<nat, Reg>, readers: map<int, nat>, writers: map<int, nat>)

  /** The three tables agree: each index entry is a live handler for that descriptor and direction,
      and each live handler is the one its index entries name. */
  ghost predicate Agree(s: State) {
    && (forall id :: id in s.ids ==> id < s.next)
    && (forall fd :: fd in s.readers ==> s.readers[fd] in s.ids && s.ids[s.readers[fd]].fd == fd && s.ids[s.readers[fd]].read)
    && (forall fd :: fd in s.writers ==> s.writers[fd] in s.ids && s.ids[s.writers[fd]].fd == fd && s.ids[s.writers[fd]].write)
    && (forall id :: id in s.ids && s.ids[id].read ==> s.ids[id].fd in s.readers && s.readers[s.ids[id].fd] == id)
    && (forall id :: id in s.ids && s.ids[id].write ==> s.ids[id].fd in s.writers && s.writers[s.ids[id].fd] == id)
  }

  /** The handler that b_input_add takes over. */
  function Hit(s: State, fd: int, r: bool, w: bool): Option<nat> {
    if r && fd in s.readers then Some(s.readers[fd])
    else if w && fd in s.writers then Some(s.writers[fd])
    else None
  }

  function Index(m: map<int, nat>, on: bool, fd: int, id: nat): map<int, nat> {
    if on then m[fd := id] else m
  }

  function Rekey(m: map<nat, Reg>, gone: set<nat>, n: nat, reg: Reg): (r: map<nat, Reg>)
    ensures forall id :: id in r <==> id == n || (id in m && id !in gone)
  {
    (m - gone)[n := reg]
  }

  /** `reg` under the id `s.next`, in place of the ids `gone`. */
  function Enter(s: State, gone: set<nat>, reg: Reg): State {
    State(s.next + 1, Rekey(s.ids, gone, s.next, reg),
          Index(s.readers, reg.read, reg.fd, s.next), Index(s.writers, reg.write, reg.fd, s.next))
  }

  /** b_input_add. */
  function AddInput(s: State, fd: int, r: bool, w: bool, repeat: bool, func: nat): State
    requires Hit(s, fd, r, w).Some? ==> Hit(s, fd, r, w).value in s.ids
  {
    var hit := Hit(s, fd, r, w);
    if hit.Some? then Enter(s, {hit.value}, s.ids[hit.value].(repeat := repeat, func := func))
    else Enter(s, {}, Reg(fd, r, w, repeat, func))
  }

  /** b_timeout_add. */
  function AddTimeout(s: State, func: nat): State {
    Enter(s, {}, Reg(-1, false, false, false, func))
  }

  /** b_event_remove. */
  function Remove(s: State, id: nat): State {
    if id !in s.ids then s
    else
      var reg := s.ids[id];
      State(s.next, s.ids - {id},
            if reg.fd >= 0 && reg.read then s.readers - {reg.fd} else s.readers,
            if reg.fd >= 0 && reg.write then s.writers - {reg.fd} else s.writers)
  }

  /** closesocket. */
  function Close(s: State, fd: int): State {
    var t := if fd in s.readers then Remove(s, s.readers[fd]) else s;
    if fd in t.writers then Remove(t, t.writers[fd]) else t
  }

  // ---------------------------------------------------------------- what the operations keep

  lemma HitLive(s: State, fd: int, r: bool, w: bool)
    requires Agree(s)
    ensures var hit := Hit(s, fd, r, w);
            hit.Some? ==> hit.value in s.ids && s.ids[hit.value].fd == fd && (s.ids[hit.value].read || s.ids[hit.value].write)
  {}

  lemma EnterTaken(s: State, id: nat, reg: Reg)
    requires Agree(s) && id in s.ids && s.ids[id].fd == reg.fd && s.ids[id].read == reg.read && s.ids[id].write == reg.write
    ensures Agree(Enter(s, {id}, reg))
  {}

  lemma EnterNew(s: State, reg: Reg)
    requires Agree(s) && (reg.read ==> reg.fd !in s.readers) && (reg.write ==> reg.fd !in s.writers)
    ensures Agree(Enter(s, {}, reg))
  {}

  lemma AddInputAgree(s: State, fd: int, r: bool, w: bool, repeat: bool, func: nat)
    requires Agree(s)
    ensures Hit(s, fd, r, w).Some? ==> Hit(s, fd, r, w).value in s.ids
    ensures var t := AddInput(s, fd, r, w, repeat, func);
            Agree(t) && t.next == s.next + 1 && s.next in t.ids && t.ids[s.next].fd == fd && t.ids[s.next].func == func
  {
    HitLive(s, fd, r, w);
    var hit := Hit(s, fd, r, w);
    if hit.Some? {
      hide Agree;
      EnterTaken(s, hit.value, s.ids[hit.value].(repeat := repeat, func := func));
    } else {
      hide Agree;
      EnterNew(s, Reg(fd, r, w, repeat, func));
    }
  }

  lemma AddInputIs(s: State, fd: int, r: bool, w: bool, repeat: bool, func: nat)
    requires Agree(s)
    ensures var hit := Hit(s, fd, r, w);
            && (hit.Some? ==>
                  && hit.value in s.ids
                  && AddInput(s, fd, r, w, repeat, func) == Enter(s, {hit.value}, s.ids[hit.value].(repeat := repeat, func := func)))
            && (hit.None? ==> AddInput(s, fd, r, w, repeat, func) == Enter(s, {}, Reg(fd, r, w, repeat, func)))
  {}

  /** A new registration gets every direction it asks for, unless a handler is taken over that
      libevent does not watch in both. */
  lemma Directions(s: State, fd: int, r: bool, w: bool, repeat: bool, func: nat)
    requires Agree(s)
    ensures Hit(s, fd, r, w).Some? ==> Hit(s, fd, r, w).value in s.ids
    ensures var reg := AddInput(s, fd, r, w, repeat, func).ids[s.next];
            ((r ==> reg.read) && (w ==> reg.write)) <==>
            !(r && w && (fd in s.readers || fd in s.writers) && (fd in s.readers ==> fd !in s.writers || s.writers[fd] != s.readers[fd]))
  {}

  /** A handler that reads a descriptor, and then is asked for in both directions, still only reads. */
  lemma OneDirection(fd: nat)
    ensures var s := AddInput(State(1, map[], map[], map[]), fd, true, false, false, 0);
            && Agree(s)
            && Hit(s, fd, true, true) == Some(1) && 1 in s.ids
            && var reg := AddInput(s, fd, true, true, false, 0).ids[2]; reg.read && !reg.write
  {
    AddInputAgree(State(1, map[], map[], map[]), fd, true, false, false, 0);
  }

  lemma AddTimeoutAgree(s: State, func: nat)
    requires Agree(s)
    ensures Agree(AddTimeout(s, func)) && s.next in AddTimeout(s, func).ids
  {
    hide Agree;
    EnterNew(s, Reg(-1, false, false, false, func));
  }

  /** An entry for a handler that is gone. */
  ghost predicate Stale(s: State) {
    (exists fd :: fd in s.readers && s.readers[fd] !in s.ids) || (exists fd :: fd in s.writers && s.writers[fd] !in s.ids)
  }

  /** Removing a handler keeps the tables in agreement exactly when it is a timer, has a proper
      descriptor, or is gone already; otherwise an index keeps a freed handler. */
  lemma RemoveAgree(s: State, id: nat)
    requires Agree(s)
    ensures var bad := id in s.ids && s.ids[id].fd < 0 && (s.ids[id].read || s.ids[id].write);
            (Agree(Remove(s, id)) <==> !bad) && (Stale(Remove(s, id)) <==> bad)
  {
    var t := Remove(s, id);
    if id in s.ids && s.ids[id].fd < 0 && (s.ids[id].read || s.ids[id].write) {
      var fd := s.ids[id].fd;
      assert s.ids[id].read ==> fd in t.readers && t.readers[fd] !in t.ids;
      assert s.ids[id].write ==> fd in t.writers && t.writers[fd] !in t.ids;
    }
  }

  ghost predicate Proper(s: State) {
    Agree(s) && forall id :: id in s.ids && (s.ids[id].read || s.ids[id].write) ==> s.ids[id].fd >= 0
  }

  /** After closesocket nothing is left for that descriptor, and nothing else is gone. */
  lemma CloseAgree(s: State, fd: int)
    requires Proper(s)
    ensures var t := Close(s, fd);
            && Proper(t) && fd !in t.readers && fd !in t.writers && t.next == s.next
            && forall id :: (id in t.ids <==> id in s.ids && !(s.ids[id].fd == fd && (s.ids[id].read || s.ids[id].write)))
                            && (id in t.ids ==> t.ids[id] == s.ids[id])
  {
  }

  lemma CloseIs(s: State, fd: int)
    requires Proper(s)
    ensures var t := if fd in s.readers then Remove(s, s.readers[fd]) else s;
            Proper(t) && Close(s, fd) == if fd in t.writers then Remove(t, t.writers[fd]) else t
  {
    if fd in s.readers {
      RemoveAgree(s, s.readers[fd]);
    }
  }

  // ---------------------------------------------------------------- callbacks

  /** What a callback, or any other code, may do to the table. */
  datatype Op =
    | Input(fd: nat, r: bool, w: bool, repeat: bool, func: nat)
    | Timeout(func: nat)
    | Removal(id: nat)
    | Closing(socket: int)

  function Apply(s: State, op: Op): State
    requires Agree(s)
  {
    match op
    case Input(fd, r, w, repeat, func) => AddInput(s, fd, r, w, repeat, func)
    case Timeout(func) => AddTimeout(s, func)
    case Removal(id) => Remove(s, id)
    case Closing(socket) => Close(s, socket)
  }

  /** Ids are handed out once, in order. */
  ghost predicate Later(s: State, t: State) {
    s.next <= t.next && forall id :: id in t.ids ==> id in s.ids || s.next <= id < t.next
  }

  lemma InputKeeps(s: State, fd: nat, r: bool, w: bool, repeat: bool, func: nat)
    requires Proper(s)
    ensures Proper(AddInput(s, fd, r, w, repeat, func)) && Later(s, AddInput(s, fd, r, w, repeat, func))
  {
    AddInputAgree(s, fd, r, w, repeat, func);
    HitLive(s, fd, r, w);
  }

  lemma ApplyKeeps(s: State, op: Op)
    requires Proper(s)
    ensures Proper(Apply(s, op)) && Later(s, Apply(s, op))
  {
    match op
    case Input(fd, r, w, repeat, func) => InputKeeps(s, fd, r, w, repeat, func);
    case Timeout(func) => AddTimeoutAgree(s, func);
    case Removal(id) => RemoveAgree(s, id);
    case Closing(socket) => CloseAgree(s, socket);
  }

  function ApplyAll(s: State, ops: seq<Op>): (t: State)
    requires Proper(s)
    ensures Proper(t) && Later(s, t)
    decreases |ops|
  {
    if ops == [] then s else
      ApplyKeeps(s, ops[0]);
      ApplyAll(Apply(s, ops[0]), ops[1..])
  }

  /** Where the handler that had an id is now: registered under a newer id, or freed under the last
      id it had. */
  datatype Fate = Alive(id: nat) | Freed(last: nat)

  function FateOf(s: State, op: Op, id: nat): Fate
    requires Agree(s)
  {
    if op.Input? && Hit(s, op.fd, op.r, op.w) == Some(id) then Alive(s.next)
    else if id in Apply(s, op).ids then Alive(id)
    else Freed(id)
  }

  function FateAfter(s: State, ops: seq<Op>, id: nat): Fate
    requires Proper(s)
    decreases |ops|
  {
    if ops == [] then Alive(id)
    else
      ApplyKeeps(s, ops[0]);
      var f := FateOf(s, ops[0], id);
      if f.Freed? then f else FateAfter(Apply(s, ops[0]), ops[1..], f.id)
  }

  lemma {:induction false} FateLive(s: State, ops: seq<Op>, id: nat)
    requires Proper(s) && id in s.ids
    ensures var f := FateAfter(s, ops, id);
            && (f.Alive? ==> f.id in ApplyAll(s, ops).ids)
            && (f == Alive(id) || (f == Freed(id) && id !in ApplyAll(s, ops).ids)
                || (id !in ApplyAll(s, ops).ids && (if f.Alive? then f.id else f.last) >= s.next))
    decreases |ops|
  {
    if ops != [] {
      ApplyKeeps(s, ops[0]);
      var t := Apply(s, ops[0]);
      var f := FateOf(s, ops[0], id);
      FateStep(s, ops[0], id);
      if f.Alive? {
        FateLive(t, ops[1..], f.id);
      }
    }
  }

  lemma FateStep(s: State, op: Op, id: nat)
    requires Proper(s) && id in s.ids
    ensures var f := FateOf(s, op, id);
            && (f.Alive? ==> f.id in Apply(s, op).ids && (f.id == id || (f.id == s.next && id !in Apply(s, op).ids)))
            && (f.Freed? ==> f.last == id && id !in Apply(s, op).ids)
  {
    if op.Input? {
      AddInputAgree(s, op.fd, op.r, op.w, op.repeat, op.func);
    }
  }

  lemma ApplyTimer(s: State, op: Op, id: nat)
    requires Proper(s) && id in s.ids && !s.ids[id].read && !s.ids[id].write
    ensures FateOf(s, op, id) in {Alive(id), Freed(id)}
    ensures id in Apply(s, op).ids ==> Apply(s, op).ids[id] == s.ids[id]
  {
    if op.Input? {
      HitLive(s, op.fd, op.r, op.w);
    } else if op.Closing? {
      CloseAgree(s, op.socket);
    }
  }

  /** A timer never gets a new id. */
  lemma {:induction false} TimerFate(s: State, ops: seq<Op>, id: nat)
    requires Proper(s) && id in s.ids && !s.ids[id].read && !s.ids[id].write
    ensures FateAfter(s, ops, id) in {Alive(id), Freed(id)}
    decreases |ops|
  {
    if ops != [] {
      ApplyKeeps(s, ops[0]);
      ApplyTimer(s, ops[0], id);
      FateStep(s, ops[0], id);
      if FateOf(s, ops[0], id).Alive? {
        TimerFate(Apply(s, ops[0]), ops[1..], id);
      }
    }
  }

  /** The table after a callback, and whether a freed handler was read. */
  datatype Outcome = Outcome(state: State, fault: bool)

  /** b_event_passthrough for the handler `id`, whose callback does `ops` and returns `st`. */
  function Dispatch(s: State, id: nat, ops: seq<Op>, st: bool): Outcome
    requires Proper(s) && id in s.ids
  {
    var t := ApplyAll(s, ops);
    FateLive(s, ops, id);
    match FateAfter(s, ops, id)
    case Freed(last) => Outcome(t, last != id && !st)
    case Alive(now) => Outcome(if !st && !t.ids[now].repeat then Remove(t, id) else t, false)
  }

  lemma DispatchIs(s: State, id: nat, ops: seq<Op>, st: bool)
    requires Proper(s) && id in s.ids
    ensures var f, t := FateAfter(s, ops, id), ApplyAll(s, ops);
            && (f.Freed? ==> Dispatch(s, id, ops, st) == Outcome(t, f.last != id && !st))
            && (f.Alive? ==>
                  && f.id in t.ids
                  && Dispatch(s, id, ops, st) == Outcome(if !st && !t.ids[f.id].repeat then Remove(t, id) else t, false))
  {
    FateLive(s, ops, id);
  }

  /** Whatever a callback does, the tables agree afterwards. When it returns FALSE its own
      registration is gone, unless it is to be repeated, and no other one is touched: in
      particular, a registration the callback has made for its own descriptor stays. */
  lemma DispatchKeeps(s: State, id: nat, ops: seq<Op>, st: bool)
    requires Proper(s) && id in s.ids
    ensures var o, t := Dispatch(s, id, ops, st), ApplyAll(s, ops);
            && Proper(o.state) && Later(s, o.state)
            && (forall j :: j != id ==> (j in o.state.ids <==> j in t.ids) && (j in t.ids ==> o.state.ids[j] == t.ids[j]))
            && (id in o.state.ids <==> id in t.ids && (st || t.ids[id].repeat))
            && (FateAfter(s, ops, id).Alive? && FateAfter(s, ops, id).id != id ==> o.state == t)
  {
    FateLive(s, ops, id);
    var t := ApplyAll(s, ops);
    RemoveAgree(t, id);
  }

  /** The `j`th operation registers the descriptor of the handler again. */
  ghost predicate Renews(s: State, ops: seq<Op>, id: nat, j: nat)
    requires Proper(s)
  {
    && j < |ops| && ops[j].Input? && FateAfter(s, ops[..j], id).Alive?
    && Hit(ApplyAll(s, ops[..j]), ops[j].fd, ops[j].r, ops[j].w) == Some(FateAfter(s, ops[..j], id).id)
  }

  /** The operation removes the handler `h`, which has the id `m`, or closes its descriptor. */
  predicate Ends(op: Op, m: nat, h: Reg) {
    op == Removal(m) || (op == Closing(h.fd) && (h.read || h.write))
  }

  /** The `k`th operation frees the handler. */
  ghost predicate Frees(s: State, ops: seq<Op>, id: nat, k: nat)
    requires Proper(s)
  {
    && k < |ops| && FateAfter(s, ops[..k], id).Alive?
    && var m, ids := FateAfter(s, ops[..k], id).id, ApplyAll(s, ops[..k]).ids;
       m in ids && Ends(ops[k], m, ids[m])
  }

  lemma EndsIs(s: State, op: Op, m: nat)
    requires Proper(s) && m in s.ids
    ensures FateOf(s, op, m).Freed? <==> Ends(op, m, s.ids[m])
  {
    if op.Closing? {
      CloseAgree(s, op.socket);
    } else if op.Input? {
      HitLive(s, op.fd, op.r, op.w);
    }
  }

  lemma {:induction false} RunSnoc(s: State, ops: seq<Op>, op: Op, id: nat)
    requires Proper(s)
    ensures ApplyAll(s, ops + [op]) == Apply(ApplyAll(s, ops), op)
    ensures var f := FateAfter(s, ops, id);
            FateAfter(s, ops + [op], id) == if f.Freed? then f else FateOf(ApplyAll(s, ops), op, f.id)
    decreases |ops|
  {
    hide Agree, FateOf, Apply;
    var all := ops + [op];
    RunStep(s, all, id);
    if ops == [] {
      assert all[0] == op && all[1..] == [];
      RunEnd(s, id);
      var f := FateOf(s, op, id);
      RunEnd(Apply(s, op), if f.Freed? then id else f.id);
    } else {
      assert all[0] == ops[0] && all[1..] == ops[1..] + [op];
      RunStep(s, ops, id);
      var f := FateOf(s, ops[0], id);
      RunSnoc(Apply(s, ops[0]), ops[1..], op, if f.Freed? then id else f.id);
    }
  }

  lemma Handed(s: State, id: nat)
    requires Proper(s) && id in s.ids
    ensures id < s.next
  {}

  /** What the `n`th operation does to the handler. */
  lemma Turn(s: State, ops: seq<Op>, id: nat, n: nat)
    requires Proper(s) && id in s.ids && n < |ops|
    requires FateAfter(s, ops[..n], id).Alive? ==> FateAfter(s, ops[..n], id).id in ApplyAll(s, ops[..n]).ids
    ensures var f, t := FateAfter(s, ops[..n], id), ApplyAll(s, ops[..n]);
            && t.next > id
            && (f.Freed? ==> !Renews(s, ops, id, n) && !Frees(s, ops, id, n) && FateAfter(s, ops[..n + 1], id) == f)
            && (f.Alive? ==>
                  && !(Renews(s, ops, id, n) && Frees(s, ops, id, n))
                  && FateAfter(s, ops[..n + 1], id) ==
                     if Renews(s, ops, id, n) then Alive(t.next) else if Frees(s, ops, id, n) then Freed(f.id) else Alive(f.id))
            && (FateAfter(s, ops[..n + 1], id).Alive? ==>
                  FateAfter(s, ops[..n + 1], id).id in ApplyAll(s, ops[..n + 1]).ids)
  {
    hide FateAfter, ApplyAll, Ends, Agree, Apply;
    var f, t := FateAfter(s, ops[..n], id), ApplyAll(s, ops[..n]);
    Handed(s, id);
    assert ops[..n + 1] == ops[..n] + [ops[n]];
    RunSnoc(s, ops[..n], ops[n], id);
    if f.Alive? {
      EndsIs(t, ops[n], f.id);
      FateStep(t, ops[n], f.id);
    }
  }

  /** What the first `n` operations did to the handler. */
  lemma {:induction false} History(s: State, ops: seq<Op>, id: nat, n: nat)
    requires Proper(s) && id in s.ids && n <= |ops|
    ensures var f := FateAfter(s, ops[..n], id);
            && (f.Alive? ==>
                  && f.id in ApplyAll(s, ops[..n]).ids && (forall k :: 0 <= k < n ==> !Frees(s, ops, id, k))
                  && (f.id != id <==> exists j :: 0 <= j < n && Renews(s, ops, id, j)))
            && (f.Freed? ==> (f.last != id <==> exists j, k :: 0 <= j < k < n && Renews(s, ops, id, j) && Frees(s, ops, id, k)))
  {
    hide FateAfter, ApplyAll, Renews, Frees, Agree;
    if n == 0 {
      assert ops[..0] == [];
      RunEnd(s, id);
    } else {
      History(s, ops, id, n - 1);
      Turn(s, ops, id, n - 1);
    }
  }

  /** A freed handler is read exactly when the callback returns FALSE after one of its operations has
      registered its descriptor again and a later one, a removal or a closesocket, has freed it. */
  lemma DispatchFault(s: State, id: nat, ops: seq<Op>, st: bool)
    requires Proper(s) && id in s.ids
    ensures Dispatch(s, id, ops, st).fault <==>
            !st && exists j, k :: 0 <= j < k < |ops| && Renews(s, ops, id, j) && Frees(s, ops, id, k)
  {
    hide Renews, Frees;
    DispatchIs(s, id, ops, st);
    History(s, ops, id, |ops|);
    assert ops[..|ops|] == ops;
  }

  lemma FaultExample(s: State, id: nat)
    requires Proper(s) && id in s.ids && s.ids[id].read
    ensures Dispatch(s, id, [Input(s.ids[id].fd, true, false, false, 0), Removal(s.next)], false).fault
  {
    var op1, op2 := Input(s.ids[id].fd, true, false, false, 0), Removal(s.next);
    var ops := [op1, op2];
    assert ops[1..] == [op2] && [op2][1..] == [];
    ApplyKeeps(s, op1);
    var t := Apply(s, op1);
    assert FateOf(s, op1, id) == Alive(s.next);
    assert FateOf(t, op2, s.next) == Freed(s.next);
    FateLive(s, ops, id);
  }

  lemma ApplyIs(s: State, op: Op)
    requires Agree(s)
    ensures op.Input? ==> Apply(s, op) == AddInput(s, op.fd, op.r, op.w, op.repeat, op.func)
    ensures op.Timeout? ==> Apply(s, op) == Enter(s, {}, Reg(-1, false, false, false, op.func))
    ensures op.Removal? ==> Apply(s, op) == Remove(s, op.id)
    ensures op.Closing? ==> Apply(s, op) == Close(s, op.socket)
  {}

  lemma FateStepIs(s: State, op: Op, id: nat)
    requires Agree(s)
    ensures FateOf(s, op, id) ==
            if op.Input? && Hit(s, op.fd, op.r, op.w) == Some(id) then Alive(s.next)
            else if id in Apply(s, op).ids then Alive(id) else Freed(id)
  {}

  lemma RunStep(s: State, ops: seq<Op>, id: nat)
    requires Proper(s) && ops != []
    ensures Proper(Apply(s, ops[0])) && ApplyAll(s, ops) == ApplyAll(Apply(s, ops[0]), ops[1..])
    ensures var f := FateOf(s, ops[0], id);
            FateAfter(s, ops, id) == if f.Freed? then f else FateAfter(Apply(s, ops[0]), ops[1..], f.id)
  {
    ApplyKeeps(s, ops[0]);
  }

  lemma RunEnd(s: State, id: nat)
    requires Proper(s)
    ensures ApplyAll(s, []) == s && FateAfter(s, [], id) == Alive(id)
  {}

  // ---------------------------------------------------------------- runs

  datatype Event = Outside(op: Op) | Fire(id: nat, ops: seq<Op>, st: bool) | FireQuitting(id: nat)

  predicate Fits(s: State, e: Event) {
    e.Outside? || e.id in s.ids
  }

  function Step(s: State, e: Event): State
    requires Proper(s) && Fits(s, e)
  {
    match e
    case Outside(op) => Apply(s, op)
    case Fire(id, ops, st) => Dispatch(s, id, ops, st).state
    case FireQuitting(id) => Remove(s, id)
  }

  /** `o` is the handler that a registration takes over: the one that reads the descriptor when reading
      is asked for, and else the one that writes it when writing is. */
  ghost predicate Takes(s: State, fd: int, r: bool, w: bool, o: nat) {
    && o in s.ids && s.ids[o].fd == fd
    && if r && exists p :: p in s.ids && s.ids[p].fd == fd && s.ids[p].read then s.ids[o].read else w && s.ids[o].write
  }

  /** All registrations but `id` were there before. */
  ghost predicate Apart(s: State, t: State, id: nat) {
    forall k :: k != id && k in t.ids ==> k in s.ids && t.ids[k] == s.ids[k]
  }

  /** What is left is as before. */
  ghost predicate Left(s: State, t: State) {
    t.next == s.next && forall k :: k in t.ids ==> k in s.ids && t.ids[k] == s.ids[k]
  }

  ghost predicate InputEffect(s: State, fd: int, r: bool, w: bool, repeat: bool, func: nat, t: State) {
    && t.next == s.next + 1 && s.next in t.ids && Apart(s, t, s.next)
    && var e := t.ids[s.next];
    && e.fd == fd && e.repeat == repeat && e.func == func
    && (forall k :: k in s.ids ==> (k in t.ids <==> !Takes(s, fd, r, w, k)))
    && (forall o :: Takes(s, fd, r, w, o) ==> e.read == s.ids[o].read && e.write == s.ids[o].write)
    && ((forall o :: o in s.ids ==> !Takes(s, fd, r, w, o)) ==> e.read == r && e.write == w)
  }

  ghost predicate OpEffect(s: State, op: Op, t: State) {
    match op
    case Input(fd, r, w, repeat, func) => InputEffect(s, fd, r, w, repeat, func, t)
    case Timeout(func) =>
      && t.next == s.next + 1 && s.next in t.ids && t.ids[s.next] == Reg(-1, false, false, false, func)
      && Apart(s, t, s.next) && forall k :: k in s.ids ==> k in t.ids
    case Removal(id) => Left(s, t) && forall k :: k in t.ids <==> k in s.ids && k != id
    case Closing(socket) =>
      && Left(s, t)
      && forall k :: k in t.ids <==> k in s.ids && (s.ids[k].fd != socket || (!s.ids[k].read && !s.ids[k].write))
  }

  /** The operations of a callback, one after the other. */
  ghost predicate OpsEffect(s: State, ops: seq<Op>, t: State)
    decreases |ops|
  {
    if ops == [] then s == t else exists m :: Agree(m) && OpEffect(s, ops[0], m) && OpsEffect(m, ops[1..], t)
  }

  /** What a step of the dispatcher does to the registrations, without the functions above. */
  ghost predicate StepEffect(s: State, e: Event, t: State) {
    match e
    case Outside(op) => OpEffect(s, op, t)
    case Fire(id, ops, st) =>
      exists m :: Agree(m) && OpsEffect(s, ops, m) && Left(m, t)
        && forall k :: k in t.ids <==> k in m.ids && (k != id || st || m.ids[k].repeat)
    case FireQuitting(id) => OpEffect(s, Removal(id), t)
  }

  lemma TakesHit(s: State, fd: int, r: bool, w: bool, o: nat)
    requires Agree(s)
    ensures Takes(s, fd, r, w, o) <==> Hit(s, fd, r, w) == Some(o)
  {
    if r && fd in s.readers {
      assert s.readers[fd] in s.ids;
    }
  }

  lemma InputHas(s: State, fd: int, r: bool, w: bool, repeat: bool, func: nat)
    requires Agree(s)
    ensures InputEffect(s, fd, r, w, repeat, func, AddInput(s, fd, r, w, repeat, func))
  {
    HitLive(s, fd, r, w);
    forall o: nat
      ensures Takes(s, fd, r, w, o) <==> Hit(s, fd, r, w) == Some(o)
    {
      TakesHit(s, fd, r, w, o);
    }
    NextNew(s);
    hide Takes, Hit, Agree;
  }

  lemma NextNew(s: State)
    requires Agree(s)
    ensures s.next !in s.ids
  {}

  lemma OpHas(s: State, op: Op)
    requires Proper(s)
    ensures OpEffect(s, op, Apply(s, op))
  {
    NextNew(s);
    match op
    case Input(fd, r, w, repeat, func) => InputHas(s, fd, r, w, repeat, func);
    case Timeout(func) =>
    case Removal(id) =>
    case Closing(socket) => CloseAgree(s, socket);
  }

  lemma {:induction false} OpsHave(s: State, ops: seq<Op>)
    requires Proper(s)
    ensures OpsEffect(s, ops, ApplyAll(s, ops))
    decreases |ops|
  {
    hide OpEffect, Apply;
    if ops != [] {
      ApplyKeeps(s, ops[0]);
      OpHas(s, ops[0]);
      OpsHave(Apply(s, ops[0]), ops[1..]);
    }
  }

  lemma FireHas(s: State, id: nat, ops: seq<Op>, st: bool)
    requires Proper(s) && id in s.ids
    ensures StepEffect(s, Fire(id, ops, st), Dispatch(s, id, ops, st).state)
  {
    hide OpsEffect, Agree, Dispatch;
    var m, t := ApplyAll(s, ops), Dispatch(s, id, ops, st).state;
    DispatchKeeps(s, id, ops, st);
    DispatchIs(s, id, ops, st);
    OpsHave(s, ops);
    assert Agree(m) && OpsEffect(s, ops, m);
  }

  lemma StepKeeps(s: State, e: Event)
    requires Proper(s) && Fits(s, e)
    ensures Proper(Step(s, e)) && Later(s, Step(s, e)) && StepEffect(s, e, Step(s, e))
  {
    hide StepEffect, OpEffect;
    match e
    case Outside(op) =>
      ApplyKeeps(s, op);
      OpHas(s, op);
      OutsideHas(s, op);
    case Fire(id, ops, st) =>
      DispatchKeeps(s, id, ops, st);
      FireHas(s, id, ops, st);
    case FireQuitting(id) =>
      RemoveAgree(s, id);
      OpHas(s, Removal(id));
      QuitHas(s, id);
  }

  lemma OutsideHas(s: State, op: Op)
    requires Proper(s) && OpEffect(s, op, Apply(s, op))
    ensures StepEffect(s, Outside(op), Apply(s, op))
  {
    hide OpEffect;
  }

  lemma QuitHas(s: State, id: nat)
    requires Proper(s) && OpEffect(s, Removal(id), Apply(s, Removal(id)))
    ensures StepEffect(s, FireQuitting(id), Remove(s, id))
  {
    hide OpEffect;
  }

  ghost predicate FitsAll(s: State, run: seq<Event>)
    requires Proper(s)
    decreases |run|
  {
    run == [] || (Fits(s, run[0]) && (StepKeeps(s, run[0]); FitsAll(Step(s, run[0]), run[1..])))
  }

  function After(s: State, run: seq<Event>): (t: State)
    requires Proper(s) && FitsAll(s, run)
    ensures Proper(t) && Later(s, t)
    decreases |run|
  {
    if run == [] then s else
      StepKeeps(s, run[0]);
      After(Step(s, run[0]), run[1..])
  }

  /** Once an id is gone it stays gone, over any run, and removing it does nothing. */
  lemma GoneForever(s: State, run: seq<Event>, id: nat)
    requires Proper(s) && FitsAll(s, run) && id < s.next && id !in s.ids
    ensures var t := After(s, run); id !in t.ids && Remove(t, id) == t && !Fits(t, Fire(id, [], true))
  {}
}
