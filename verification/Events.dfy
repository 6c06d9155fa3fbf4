/** The event-handler table of lib/events_libevent.c: three tables of pointers to the same records. */
module Events {
  import opened EventsSpec
  import opened Options

  /** struct b_event_data; the descriptor and the directions are those of its libevent entry. */
  class Handler {
    const fd: int
    const read: bool
    const write: bool
    var id: nat
    var func: nat
    var repeat: bool

    constructor (fd: int, read: bool, write: bool, id: nat, func: nat, repeat: bool)
      ensures this.fd == fd && this.read == read && this.write == write
      ensures this.id == id && this.func == func && this.repeat == repeat
    {
      this.fd, this.read, this.write := fd, read, write;
      this.id, this.func, this.repeat := id, func, repeat;
    }

    ghost function Entry(): Reg
      reads this`repeat, this`func
    {
      Reg(fd, read, write, repeat, func)
    }
  }

  type Ids = map<nat, Handler>
  type Fds = map<int, Handler>

  ghost function Entries(ids: Ids): (r: map<nat, Reg>)
    reads ids.Values`repeat, ids.Values`func
    ensures forall id :: id in r <==> id in ids
    ensures forall id :: id in ids ==> r[id] == ids[id].Entry()
  {
    map id | id in ids :: ids[id].Entry()
  }

  ghost function Names(fds: Fds): (r: map<int, nat>)
    reads fds.Values`id
    ensures forall fd :: fd in r <==> fd in fds
    ensures forall fd :: fd in fds ==> r[fd] == fds[fd].id
  {
    map fd | fd in fds :: fds[fd].id
  }

  /** Every handler is in the table under its own id. */
  ghost predicate OwnIds(ids: Ids)
    reads ids.Values`id
  {
    forall id :: id in ids ==> ids[id].id == id
  }

  /** The pointers of an index are those of live handlers. */
  ghost predicate Points(fds: Fds, ids: Ids) {
    forall fd :: fd in fds ==> fds[fd] in ids.Values
  }

  /** libevent has exactly the live handlers, but for a timer that is firing. */
  ghost predicate Watched(ids: Ids, armed: set<Handler>, firing: Handler?) {
    && armed <= ids.Values && firing !in armed
    && (forall id :: id in ids && ids[id] != firing ==> ids[id] in armed)
    && (firing != null ==> !firing.read && !firing.write && firing.fd == -1)
  }

  // ---------------------------------------------------------------- removing a handler

  lemma RemovedEntries(ids: Ids, id: nat)
    ensures Entries(ids - {id}) == Entries(ids) - {id}
  {}

  lemma RemovedNames(fds: Fds, fd: int)
    ensures Names(fds - {fd}) == Names(fds) - {fd}
  {}

  lemma RemovedOwn(ids: Ids, id: nat)
    requires OwnIds(ids)
    ensures OwnIds(ids - {id})
  {}

  lemma Kept(ids: Ids, id: nat, h: Handler)
    requires h in ids.Values && (id in ids ==> h != ids[id])
    ensures h in (ids - {id}).Values
  {
    var k :| k in ids && ids[k] == h;
    assert k in ids - {id} && (ids - {id})[k] == h;
  }

  lemma RemovedPoints(fds: Fds, ids: Ids, id: nat, left: Fds)
    requires OwnIds(ids) && Points(fds, ids)
    requires forall fd :: fd in left ==> fd in fds && left[fd] == fds[fd] && fds[fd].id != id
    ensures Points(left, ids - {id})
  {
    forall fd | fd in left
      ensures left[fd] in (ids - {id}).Values
    {
      Kept(ids, id, left[fd]);
    }
  }

  lemma RemovedWatched(ids: Ids, armed: set<Handler>, firing: Handler?, id: nat)
    requires OwnIds(ids) && Watched(ids, armed, firing) && id in ids
    ensures Watched(ids - {id}, armed - {ids[id]}, firing)
  {
    forall h | h in armed - {ids[id]}
      ensures h in (ids - {id}).Values
    {
      Kept(ids, id, h);
    }
    assert forall k :: k in ids && k != id ==> ids[k] != ids[id];
  }

  /** In an index that agrees with the table, only the entry of its own descriptor leads to `h`. */
  lemma OnlyEntry(s: State, ids: Ids, readers: Fds, writers: Fds, id: nat)
    requires Agree(s) && s.ids == Entries(ids) && s.readers == Names(readers) && s.writers == Names(writers) && id in ids
    ensures forall fd :: fd in readers && readers[fd].id == id ==> ids[id].read && fd == ids[id].fd
    ensures forall fd :: fd in writers && writers[fd].id == id ==> ids[id].write && fd == ids[id].fd
  {
    assert forall fd :: fd in readers && readers[fd].id == id ==> s.readers[fd] == id;
    assert forall fd :: fd in writers && writers[fd].id == id ==> s.writers[fd] == id;
    assert s.ids[id] == ids[id].Entry();
  }

  // ---------------------------------------------------------------- taking a handler over

  /** The table apart from the handler that had the id `was`. */
  ghost predicate Others(s: State, ids: Ids, was: nat)
    reads ids.Values
  {
    forall id :: id in ids && id != was ==> id in s.ids && ids[id].id == id && ids[id].Entry() == s.ids[id]
  }

  /** An index apart from the entry for `h`, which is there when `on`. */
  ghost predicate OtherNames(before: map<int, nat>, fds: Fds, h: Handler, on: bool)
    reads fds.Values`id
  {
    && (forall fd :: fd in before <==> fd in fds) && (on ==> h.fd in fds)
    && (forall fd :: fd in fds ==> (fds[fd] == h <==> on && fd == h.fd))
    && (forall fd :: fd in fds && fds[fd] != h ==> fds[fd].id == before[fd])
  }

  lemma TakenOwn(s: State, ids: Ids, h: Handler, was: nat)
    requires Others(s, ids, was) && h.id !in ids
    ensures var left: Ids := ids - {was};
            OwnIds(left[h.id := h])
  {}

  lemma TakenEntries(s: State, ids: Ids, h: Handler, was: nat)
    requires Others(s, ids, was) && h.id !in ids && (forall id :: id in s.ids <==> id in ids)
    ensures var left: Ids := ids - {was};
            Entries(left[h.id := h]) == Rekey(s.ids, {was}, h.id, h.Entry())
  {
    var left: Ids := ids - {was};
    var now, due := Entries(left[h.id := h]), Rekey(s.ids, {was}, h.id, h.Entry());
    assert forall id :: id in now ==> now[id] == due[id];
    assert now == due;
  }

  lemma TakenNames(before: map<int, nat>, fds: Fds, h: Handler, on: bool)
    requires OtherNames(before, fds, h, on)
    ensures Names(fds) == Index(before, on, h.fd, h.id)
  {
    var now := Names(fds);
    assert forall fd :: fd in fds ==> now[fd] == if on && fd == h.fd then h.id else before[fd];
    var due := Index(before, on, h.fd, h.id);
    assert forall fd :: fd in now <==> fd in due;
    assert now == due;
  }

  lemma Moved(ids: Ids, was: nat, n: nat, g: Handler)
    requires was in ids && g in ids.Values
    ensures g in (ids - {was})[n := ids[was]].Values || n in ids
  {
    var left := (ids - {was})[n := ids[was]];
    var k :| k in ids && ids[k] == g;
    if k == was {
      assert n in left && left[n] == g;
    } else if n !in ids {
      assert k in left && left[k] == g;
    }
  }

  lemma TakenPoints(fds: Fds, ids: Ids, was: nat, n: nat)
    requires was in ids && n !in ids && Points(fds, ids)
    ensures Points(fds, (ids - {was})[n := ids[was]])
  {
    forall fd | fd in fds
      ensures fds[fd] in (ids - {was})[n := ids[was]].Values
    {
      Moved(ids, was, n, fds[fd]);
    }
  }

  lemma TakenWatched(ids: Ids, armed: set<Handler>, firing: Handler?, was: nat, n: nat)
    requires was in ids && n !in ids && Watched(ids, armed, firing)
    ensures Watched((ids - {was})[n := ids[was]], armed, firing)
  {
    forall g | g in armed
      ensures g in (ids - {was})[n := ids[was]].Values
    {
      Moved(ids, was, n, g);
    }
  }

  /** The tables once the handler `h` has its new id. */
  lemma Retaken(s: State, ids: Ids, readers: Fds, writers: Fds, h: Handler, was: nat)
    requires Others(s, ids, was) && h.id == s.next && s.next !in ids && (forall id :: id in s.ids <==> id in ids)
    requires OtherNames(s.readers, readers, h, h.read) && OtherNames(s.writers, writers, h, h.write)
    ensures var left: Ids := ids - {was};
            var now: Ids := left[h.id := h];
            OwnIds(now) && State(s.next + 1, Entries(now), Names(readers), Names(writers)) == Enter(s, {was}, h.Entry())
  {
    hide *;
    TakenOwn(s, ids, h, was);
    TakenEntries(s, ids, h, was);
    TakenNames(s.readers, readers, h, h.read);
    TakenNames(s.writers, writers, h, h.write);
    EntryIs(h);
    EnterIs(s, {was}, h.Entry());
  }

  /** Which entries lead to a handler. */
  lemma EntriesOf(s: State, ids: Ids, readers: Fds, writers: Fds, h: Handler)
    requires Agree(s) && s.ids == Entries(ids) && s.readers == Names(readers) && s.writers == Names(writers)
    requires OwnIds(ids) && Points(readers, ids) && Points(writers, ids) && h.id in ids && ids[h.id] == h
    ensures Others(s, ids, h.id) && OtherNames(s.readers, readers, h, h.read) && OtherNames(s.writers, writers, h, h.write)
    ensures s.next !in ids && forall id :: id in s.ids <==> id in ids
  {
    assert s.ids[h.id] == h.Entry();
    OnlyEntry(s, ids, readers, writers, h.id);
    assert h.read ==> s.readers[h.fd] == h.id && readers[h.fd].id == h.id;
    assert h.write ==> s.writers[h.fd] == h.id && writers[h.fd].id == h.id;
  }

  /** The globals. `armed` is what libevent has been given; `firing` is the timer whose callback is
      running, which libevent has dropped. `fault` records that a freed handler was read. */
  class Table {
    var next: nat
    var cur: nat
    var dead: bool
    var quitting: bool
    var fault: bool
    var ids: Ids
    var readers: Fds
    var writers: Fds
    var armed: set<Handler>
    ghost var firing: Handler?

    ghost function Abs(): State
      reads `next, `ids, `readers, `writers
      reads ids.Values`repeat, ids.Values`func, readers.Values`id, writers.Values`id
    {
      State(next, Entries(ids), Names(readers), Names(writers))
    }

    ghost predicate Valid()
      reads `next, `ids, `readers, `writers, `armed, `firing
      reads ids.Values, readers.Values`id, writers.Values`id, armed`id
    {
      && OwnIds(ids) && Points(readers, ids) && Points(writers, ids) && Watched(ids, armed, firing)
      && Proper(Abs())
    }

    constructor ()
      ensures Valid() && Abs() == State(1, map[], map[], map[]) && armed == {} && firing == null && !fault && !quitting
    {
      next, cur, dead, quitting, fault := 1, 0, false, false, false;
      ids, readers, writers, armed, firing := map[], map[], map[], {}, null;
    }

    lemma Facts()
      requires Valid()
      ensures OwnIds(ids) && Points(readers, ids) && Points(writers, ids) && Watched(ids, armed, firing)
      ensures Proper(Abs()) && Agree(Abs())
      ensures Abs() == State(next, Entries(ids), Names(readers), Names(writers))
    {}

    lemma Made()
      requires OwnIds(ids) && Points(readers, ids) && Points(writers, ids) && Watched(ids, armed, firing)
      requires Proper(State(next, Entries(ids), Names(readers), Names(writers)))
      ensures Valid() && Abs() == State(next, Entries(ids), Names(readers), Names(writers))
    {}

    method Store(next: nat, ids: Ids, readers: Fds, writers: Fds, armed: set<Handler>)
      requires OwnIds(ids) && Points(readers, ids) && Points(writers, ids) && Watched(ids, armed, firing)
      requires Proper(State(next, Entries(ids), Names(readers), Names(writers)))
      modifies this`next, this`ids, this`readers, this`writers, this`armed
      ensures this.next == next && this.ids == ids && this.readers == readers && this.writers == writers && this.armed == armed
      ensures Valid() && Abs() == old(State(next, Entries(ids), Names(readers), Names(writers)))
    {
      hide *;
      this.next, this.ids, this.readers, this.writers, this.armed := next, ids, readers, writers, armed;
      Made();
    }

    /** b_event_remove. */
    method Remove(id: nat)
      requires Valid()
      modifies this`dead, this`next, this`ids, this`readers, this`writers, this`armed
      ensures Valid() && Abs() == EventsSpec.Remove(old(Abs()), id)
      ensures dead == (old(dead) || (id == cur && id in old(ids)))
      ensures ids == old(ids) - {id} && next == old(next)
    {
      hide *;
      Facts();
      RemoveKeeps(Abs(), id, ids, readers, writers);
      if id !in ids {
        return;
      }
      var h := ids[id];
      OwnId(ids, id);
      RemovedOwn(ids, id);
      RemovedWatched(ids, armed, firing, id);
      var r := if h.fd >= 0 && h.read then readers - {h.fd} else readers;
      var w := if h.fd >= 0 && h.write then writers - {h.fd} else writers;
      RemovedPoints(readers, ids, id, r);
      RemovedPoints(writers, ids, id, w);
      Store(next, ids - {h.id}, r, w, armed - {h});
      if id == cur {
        dead := true;
      }
    }

    /** b_input_add when a handler is there for the descriptor: it keeps its libevent entry and
        gets a new id. */
    method TakeOver(h: Handler, repeat: bool, func: nat)
      requires Valid() && h.id in ids && ids[h.id] == h && (h.read || h.write)
      modifies this`next, this`ids, h`id, h`repeat, h`func
      ensures Valid() && next == old(next) + 1 && h.id == old(next)
      ensures Abs() == Enter(old(Abs()), {old(h.id)}, old(h.Entry()).(repeat := repeat, func := func))
      ensures ids == (old(ids) - {old(h.id)})[h.id := h]
    {
      hide *;
      Facts();
      ghost var was, s, ids0 := h.id, Abs(), ids;
      EntriesOf(s, ids, readers, writers, h);
      NotFiring(ids, armed, firing, h);
      TakenProper(s, was, repeat, func);
      var left := ids - {h.id};
      TakenPoints(readers, ids, was, next);
      TakenPoints(writers, ids, was, next);
      TakenWatched(ids, armed, firing, was, next);
      Rename(h, next, repeat, func, s, ids, readers, writers);
      EntryIs(h);
      Retaken(s, ids, readers, writers, h, was);
      Renew(left[next := h], next + 1);
    }

    method Renew(ids: Ids, next: nat)
      requires OwnIds(ids) && Points(readers, ids) && Points(writers, ids) && Watched(ids, armed, firing)
      requires Proper(State(next, Entries(ids), Names(readers), Names(writers)))
      modifies this`ids, this`next
      ensures this.ids == ids && this.next == next
      ensures Valid() && Abs() == old(State(next, Entries(ids), Names(readers), Names(writers)))
    {
      hide *;
      this.ids, this.next := ids, next;
      Made();
    }

    /** b_input_add when there is no handler for the descriptor, and b_timeout_add. */
    method Enroll(fd: int, r: bool, w: bool, repeat: bool, func: nat) returns (h: Handler)
      requires Valid() && (r ==> fd !in readers) && (w ==> fd !in writers) && (r || w ==> fd >= 0)
      modifies this`next, this`ids, this`readers, this`writers, this`armed
      ensures Valid() && next == old(next) + 1 && h.id == old(next) && fresh(h)
      ensures Abs() == Enter(old(Abs()), {}, Reg(fd, r, w, repeat, func))
      ensures ids == old(ids)[h.id := h]
    {
      hide *;
      Facts();
      ghost var s := Abs();
      EnterIs(s, {}, Reg(fd, r, w, repeat, func));
      NewProper(s, Reg(fd, r, w, repeat, func), readers, writers);
      Unused(s, ids);
      h := new Handler(fd, r, w, next, func, repeat);
      EntryIs(h);
      EnrolledIds(ids, h, armed, firing);
      EnrolledEntries(ids, h);
      EnrolledNames(readers, fd, h, r);
      EnrolledNames(writers, fd, h, w);
      EnrolledPoints(readers, fd, h, r, ids);
      EnrolledPoints(writers, fd, h, w, ids);
      Store(next + 1, ids[next := h], Insert(readers, fd, h, r), Insert(writers, fd, h, w), armed + {h});
    }

    /** b_input_add. */
    method AddInput(fd: int, r: bool, w: bool, repeat: bool, func: nat) returns (id: nat)
      requires Valid() && fd >= 0
      modifies this`next, this`ids, this`readers, this`writers, this`armed, ids.Values
      ensures Valid() && id == old(next) && Agree(old(Abs()))
      ensures Abs() == EventsSpec.AddInput(old(Abs()), fd, r, w, repeat, func)
      ensures var hit := Hit(old(Abs()), fd, r, w);
              && (hit.Some? ==> hit.value in old(ids) && ids == (old(ids) - {hit.value})[id := old(ids[hit.value])])
              && (hit.None? ==> id in ids && fresh(ids[id]) && ids == old(ids)[id := ids[id]])
    {
      hide *;
      Facts();
      HitIs(Abs(), ids, readers, writers, fd, r, w);
      AddInputIs(Abs(), fd, r, w, repeat, func);
      var h: Handler? := null;
      if r && fd in readers {
        h := readers[fd];
      } else if w && fd in writers {
        h := writers[fd];
      }
      if h != null {
        TakeOver(h, repeat, func);
      } else {
        h := Enroll(fd, r, w, repeat, func);
      }
      id := h.id;
    }

    /** closesocket, up to closing the descriptor. */
    method CloseSocket(fd: int)
      requires Valid()
      modifies this`dead, this`next, this`ids, this`readers, this`writers, this`armed
      ensures Valid() && Abs() == Close(old(Abs()), fd) && next == old(next)
      ensures dead == (old(dead) || (cur in old(ids) && cur !in ids))
      ensures forall id :: id in ids ==> id in old(ids) && ids[id] == old(ids)[id]
    {
      hide *;
      Indexed(fd);
      CloseIs(Abs(), fd);
      if fd in readers {
        Remove(readers[fd].id);
      }
      Indexed(fd);
      if fd in writers {
        Remove(writers[fd].id);
      }
    }

    lemma Indexed(fd: int)
      requires Valid()
      ensures Proper(Abs()) && (fd in readers <==> fd in Abs().readers) && (fd in writers <==> fd in Abs().writers)
      ensures fd in readers ==> Abs().readers[fd] == readers[fd].id && readers[fd].id in ids
      ensures fd in writers ==> Abs().writers[fd] == writers[fd].id && writers[fd].id in ids
    {
      var s := Abs();
      if fd in readers {
        assert s.readers[fd] == readers[fd].id && s.readers[fd] in s.ids;
      }
      if fd in writers {
        assert s.writers[fd] == writers[fd].id && s.writers[fd] in s.ids;
      }
    }

    ghost predicate Live(h: Handler)
      reads `ids, h`id
    {
      h.id in ids && ids[h.id] == h
    }

    ghost function HitOf(op: Op): Option<nat>
      reads `next, `ids, `readers, `writers
      reads ids.Values`repeat, ids.Values`func, readers.Values`id, writers.Values`id
    {
      if op.Input? then Hit(Abs(), op.fd, op.r, op.w) else None
    }

    /** One step of other code. */
    method Carry(op: Op)
      requires Valid()
      modifies this`dead, this`next, this`ids, this`readers, this`writers, this`armed, ids.Values
      ensures Valid() && Agree(old(Abs())) && Abs() == Apply(old(Abs()), op)
      ensures Moves(old(ids), ids, old(HitOf(op)), old(next))
      ensures old(next) in ids && ids[old(next)] !in old(ids.Values) ==> fresh(ids[old(next)])
      ensures dead == (old(dead) || (cur in old(ids) && cur !in ids && old(HitOf(op)) != Some(cur)))
      ensures op.Input? ==> forall id :: id in old(ids) ==> id in ids || old(HitOf(op)) == Some(id)
      ensures !op.Input? ==> forall g :: g in old(ids.Values) ==> g.id == old(g.id)
    {
      hide *;
      Facts();
      ghost var s, before := Abs(), ids;
      ApplyIs(s, op);
      Unused(s, ids);
      NoHit(op);
      match op {
        case Input(fd, r, w, repeat, func) =>
          var id := AddInput(fd, r, w, repeat, func);
          MovesInput(before, ids, Hit(s, fd, r, w), s.next);
        case Timeout(func) =>
          var g := Enroll(-1, false, false, false, func);
          MovesMore(before, ids, s.next);
        case Removal(id) =>
          Remove(id);
          MovesLess(before, ids, s.next);
        case Closing(fd) =>
          CloseSocket(fd);
          MovesLess(before, ids, s.next);
      }
    }

    lemma NoHit(op: Op)
      ensures HitOf(op) == if op.Input? then Hit(Abs(), op.fd, op.r, op.w) else None
    {}

    /** One step of other code, seen from the handler `h`. */
    method Perform(op: Op, ghost h: Handler)
      requires Valid()
      modifies this`dead, this`next, this`ids, this`readers, this`writers, this`armed, ids.Values
      ensures Valid() && Agree(old(Abs())) && Abs() == Apply(old(Abs()), op)
      ensures forall g :: g in ids.Values ==> g in old(ids.Values) || fresh(g)
      ensures dead == (old(dead) || (cur in old(ids) && FateOf(old(Abs()), op, cur).Freed?))
      ensures old(Live(h)) ==> FateOf(old(Abs()), op, old(h.id)) == if Live(h) then Alive(h.id) else Freed(h.id)
      ensures !old(Live(h)) ==> !Live(h)
    {
      hide *;
      Facts();
      ghost var s, before, was, hit := Abs(), ids, h.id, HitOf(op);
      NoHit(op);
      OldHandler(h);
      Keys(s, ids);
      Injective(ids);
      Unused(s, ids);
      Carry(op);
      Facts();
      Keys(Abs(), ids);
      OldHandler(h);
      MovesValues(before, ids, hit, s.next);
      if was in before && before[was] == h {
        Follow(s, op, before, ids, h, was);
      }
      Freeing(s, op, before, ids, cur);
    }

    /** id_cur still stands for `h`, and id_dead says that `h` was freed under that id. */
    ghost predicate Tracks(h: Handler)
      reads `next, `cur, `dead, `ids, h`id
    {
      cur < next && (cur in ids ==> ids[cur] == h) && (dead <==> !Live(h) && h.id == cur)
    }

    lemma TracksIs(h: Handler)
      ensures Tracks(h) <==> cur < next && (cur in ids ==> ids[cur] == h) && (dead <==> !Live(h) && h.id == cur)
    {}

    method Advance(op: Op, ghost h: Handler)
      requires Valid() && Tracks(h)
      modifies this`dead, this`next, this`ids, this`readers, this`writers, this`armed, ids.Values
      ensures Valid() && Tracks(h) && Agree(old(Abs())) && Abs() == Apply(old(Abs()), op)
      ensures forall g :: g in ids.Values ==> g in old(ids.Values) || fresh(g)
      ensures old(Live(h)) ==> FateOf(old(Abs()), op, old(h.id)) == if Live(h) then Alive(h.id) else Freed(h.id)
      ensures !old(Live(h)) ==> !Live(h) && h.id == old(h.id)
    {
      hide *;
      TracksIs(h);
      OldHandler(h);
      Facts();
      Keys(Abs(), ids);
      FateStepIs(Abs(), op, cur);
      FateStepIs(Abs(), op, h.id);
      if cur in ids {
        FateStep(Abs(), op, cur);
      }
      OwnAt(ids, cur);
      ApplyKeeps(Abs(), op);
      LaterIs(Abs(), Apply(Abs(), op));
      Perform(op, h);
      Facts();
      Keys(Abs(), ids);
      OldHandler(h);
      OwnAt(ids, cur);
      TracksIs(h);
    }

    /** The code of a callback, while `h` is the handler being dispatched. */
    method Callback(ops: seq<Op>, ghost h: Handler)
      requires Valid() && Live(h) && h.id == cur && !dead
      modifies this`dead, this`next, this`ids, this`readers, this`writers, this`armed, ids.Values
      ensures Valid() && Proper(old(Abs())) && Abs() == ApplyAll(old(Abs()), ops)
      ensures FateAfter(old(Abs()), ops, cur) == if Live(h) then Alive(h.id) else Freed(h.id)
      ensures dead <==> !Live(h) && h.id == cur
    {
      hide *;
      Facts();
      OldHandler(h);
      Younger(Abs(), ids);
      TracksIs(h);
      ghost var s, all := Abs(), ids.Values;
      assert ops[0..] == ops;
      for i := 0 to |ops|
        invariant Valid() && Tracks(h) && Proper(Abs()) && ApplyAll(Abs(), ops[i..]) == ApplyAll(s, ops)
        invariant FateAfter(s, ops, cur) == if Live(h) then FateAfter(Abs(), ops[i..], h.id) else Freed(h.id)
        invariant forall g :: g in ids.Values ==> g in all || fresh(g)
      {
        Facts();
        assert ops[i..][0] == ops[i] && ops[i..][1..] == ops[i + 1..];
        RunStep(Abs(), ops[i..], h.id);
        Advance(ops[i], h);
      }
      assert ops[|ops|..] == [];
      RunEnd(Abs(), h.id);
      TracksIs(h);
    }

    /** libevent drops a timer when it fires. */
    method Expire(h: Handler)
      requires Valid() && h in armed && firing == null
      modifies `armed, `firing
      ensures Valid() && Abs() == old(Abs()) && Live(h)
      ensures firing == (if h.fd == -1 then h else null)
    {
      hide *;
      Facts();
      OldHandler(h);
      InTable(ids, armed, firing, h);
      Direction(Abs(), ids, h);
      if h.fd == -1 {
        ExpiredWatch(ids, armed, h);
        armed := armed - {h};
        firing := h;
      }
      Made();
    }

    /** What libevent has is changed, and nothing else. */
    method Arm(armed: set<Handler>, ghost firing: Handler?)
      requires Valid() && Watched(ids, armed, firing)
      modifies `armed, `firing
      ensures Valid() && Abs() == old(Abs()) && this.firing == firing
    {
      hide *;
      Facts();
      this.armed, this.firing := armed, firing;
      Made();
    }

    /** A timer is set again, or nothing is left of it. */
    method Rest(h: Handler, again: bool)
      requires Valid() && firing == (if h.fd == -1 then h else null) && (h.fd == -1 ==> again == Live(h))
      modifies `armed, `firing
      ensures Valid() && Abs() == old(Abs()) && firing == null
    {
      hide *;
      if h.fd == -1 {
        Facts();
        OldHandler(h);
        RestWatch(ids, armed, h);
        Arm(if again then armed + {h} else armed, null);
      }
    }

    /** b_event_passthrough: `ops` is what the callback does, `st` what it returns. */
    method Passthrough(h: Handler, ops: seq<Op>, st: bool)
      requires Valid() && h in armed && firing == null
      modifies this, ids.Values
      ensures Valid() && firing == null && Proper(old(Abs())) && old(h.id) in old(Abs()).ids
      ensures old(quitting) ==> Abs() == EventsSpec.Remove(old(Abs()), old(h.id))
      ensures !old(quitting) ==>
                var o := Dispatch(old(Abs()), old(h.id), ops, st); Abs() == o.state && fault == (old(fault) || o.fault)
    {
      hide *;
      Expire(h);
      EntryAt(h);
      ghost var s := Abs();
      cur, dead := h.id, false;
      if quitting {
        Discard(h);
        return;
      }
      DispatchIs(s, cur, ops, st);
      if h.fd == -1 {
        TimerFate(s, ops, cur);
      }
      Callback(ops, h);
      EntryAt(h);
      Finish(h, st);
    }

    lemma Gone(h: Handler)
      requires Valid() && h.id !in ids
      ensures !Live(h)
    {}

    lemma EntryAt(h: Handler)
      requires Valid()
      ensures Proper(Abs()) && (h.fd == -1 && Live(h) ==> !h.read && !h.write)
      ensures Live(h) ==> h.id in Abs().ids && Abs().ids[h.id] == Reg(h.fd, h.read, h.write, h.repeat, h.func)
    {
      if Live(h) {
        assert Abs().ids[h.id] == h.Entry();
      }
    }

    /** A handler that fires while the program quits is removed. */
    method Discard(h: Handler)
      requires Valid() && Live(h) && h.id == cur && firing == (if h.fd == -1 then h else null)
      modifies this`dead, this`next, this`ids, this`readers, this`writers, this`armed, this`firing
      ensures Valid() && firing == null && Abs() == EventsSpec.Remove(old(Abs()), cur)
    {
      hide *;
      EntryAt(h);
      Remove(cur);
      Gone(h);
      Rest(h, false);
    }

    /** The end of b_event_passthrough. */
    method Finish(h: Handler, st: bool)
      requires Valid() && firing == (if h.fd == -1 then h else null)
      requires (dead <==> !Live(h) && h.id == cur) && (h.fd == -1 ==> h.id == cur)
      modifies this`dead, this`fault, this`next, this`ids, this`readers, this`writers, this`armed, this`firing
      ensures Valid() && firing == null
      ensures Abs() == if old(Live(h)) && !st && !h.repeat then EventsSpec.Remove(old(Abs()), cur) else old(Abs())
      ensures fault == (old(fault) || (!st && old(!Live(h)) && h.id != cur))
    {
      hide *;
      OldHandler(h);
      if dead {
        Rest(h, false);
      } else if !st && h !in ids.Values {
        fault := true;
        Rest(h, false);
      } else if !st && !h.repeat {
        Remove(cur);
        if h.id == cur {
          Gone(h);
        }
        Rest(h, false);
      } else {
        Rest(h, true);
      }
    }

    lemma OldHandler(h: Handler)
      requires Valid()
      ensures Live(h) <==> h in ids.Values
      ensures Live(h) <==> h.id in ids && ids[h.id] == h
    {
      if h in ids.Values {
        var k :| k in ids && ids[k] == h;
      }
    }
  }

  lemma InTable(ids: Ids, armed: set<Handler>, firing: Handler?, h: Handler)
    requires Watched(ids, armed, firing) && h in armed
    ensures h in ids.Values && h != firing
  {}

  /** Only timers have descriptor -1. */
  lemma Direction(s: State, ids: Ids, h: Handler)
    requires Proper(s) && s.ids == Entries(ids) && h in ids.Values
    ensures h.fd == -1 ==> !h.read && !h.write
  {
    var k :| k in ids && ids[k] == h;
    assert s.ids[k] == h.Entry();
  }

  lemma ExpiredWatch(ids: Ids, armed: set<Handler>, h: Handler)
    requires Watched(ids, armed, null) && h.fd == -1 && !h.read && !h.write
    ensures Watched(ids, armed - {h}, h)
  {}

  lemma RestWatch(ids: Ids, armed: set<Handler>, h: Handler)
    requires Watched(ids, armed, h)
    ensures h in ids.Values ==> Watched(ids, armed + {h}, null)
    ensures h !in ids.Values ==> Watched(ids, armed, null)
  {}

  lemma OwnAt(ids: Ids, id: nat)
    requires OwnIds(ids)
    ensures id in ids ==> ids[id].id == id
  {}

  lemma Injective(ids: Ids)
    requires OwnIds(ids)
    ensures forall j, k :: j in ids && k in ids && ids[j] == ids[k] ==> j == k
  {}

  /** How one step changes the id table: the handler found moves to the new id `n`; otherwise
      handlers go, and at most a new one comes. */
  ghost predicate Moves(before: Ids, after: Ids, hit: Option<nat>, n: nat) {
    if hit.Some? then hit.value in before && after == (before - {hit.value})[n := before[hit.value]]
    else forall id :: id in after ==>
           (id in before && after[id] == before[id]) || (id == n && after[id] !in before.Values)
  }

  lemma MovesInput(before: Ids, after: Ids, hit: Option<nat>, n: nat)
    requires hit.Some? ==> hit.value in before && after == (before - {hit.value})[n := before[hit.value]]
    requires hit.None? ==> n in after && after[n] !in before.Values && after == before[n := after[n]]
    ensures Moves(before, after, hit, n)
    ensures forall id :: id in before ==> id in after || hit == Some(id)
  {}

  lemma MovesMore(before: Ids, after: Ids, n: nat)
    requires n in after && after[n] !in before.Values && after == before[n := after[n]]
    ensures Moves(before, after, None, n)
  {}

  lemma MovesLess(before: Ids, after: Ids, n: nat)
    requires forall id :: id in after ==> id in before && after[id] == before[id]
    ensures Moves(before, after, None, n)
  {}

  lemma MovesValues(before: Ids, after: Ids, hit: Option<nat>, n: nat)
    requires Moves(before, after, hit, n)
    ensures forall g :: g in after.Values ==> g in before.Values || (n in after && g == after[n])
  {
    forall g | g in after.Values
      ensures g in before.Values || (n in after && g == after[n])
    {
      var k :| k in after && after[k] == g;
      assert k in before ==> before[k] in before.Values;
    }
  }

  lemma Freeing(s: State, op: Op, before: Ids, after: Ids, id: nat)
    requires Agree(s) && forall k :: k in s.ids <==> k in before
    requires forall k :: k in Apply(s, op).ids <==> k in after
    ensures FateOf(s, op, id).Freed? <==> id !in after && !(op.Input? && Hit(s, op.fd, op.r, op.w) == Some(id))
  {
    hide Apply, Agree, Hit;
    FateStepIs(s, op, id);
  }

  /** A handler's fate can be read off its own id. */
  lemma Follow(s: State, op: Op, before: Ids, after: Ids, h: Handler, was: nat)
    requires Agree(s) && s.next !in before && (forall id :: id in s.ids <==> id in before)
    requires forall id :: id in Apply(s, op).ids <==> id in after
    requires OwnIds(after) && forall j, k :: j in before && k in before && before[j] == before[k] ==> j == k
    requires Moves(before, after, if op.Input? then Hit(s, op.fd, op.r, op.w) else None, s.next)
    requires was in before && before[was] == h
    requires if op.Input? then was in after || Hit(s, op.fd, op.r, op.w) == Some(was) else h.id == was
    ensures FateOf(s, op, was) == if h.id in after && after[h.id] == h then Alive(h.id) else Freed(h.id)
  {
    hide Apply, Agree, Hit;
    FateStepIs(s, op, was);
    var hit := if op.Input? then Hit(s, op.fd, op.r, op.w) else None;
    if hit == Some(was) {
      assert after[s.next] == h;
    } else if was in after {
      assert after[was] == h;
    } else {
      assert h.id == was;
    }
  }

  lemma Keys(s: State, ids: Ids)
    requires s.ids == Entries(ids)
    ensures forall id :: id in s.ids <==> id in ids
  {}

  /** The lookup in the two indexes finds a live handler of the table. */
  lemma HitIs(s: State, ids: Ids, readers: Fds, writers: Fds, fd: int, r: bool, w: bool)
    requires Agree(s) && s.ids == Entries(ids) && s.readers == Names(readers) && s.writers == Names(writers)
    requires OwnIds(ids) && Points(readers, ids) && Points(writers, ids)
    ensures var h: Handler? := if r && fd in readers then readers[fd] else if w && fd in writers then writers[fd] else null;
            && (h == null <==> Hit(s, fd, r, w).None?)
            && (h != null ==> h.id in ids && ids[h.id] == h && (h.read || h.write) && h.fd == fd
                              && Hit(s, fd, r, w) == Some(h.id) && s.ids[h.id] == h.Entry())
  {
  }

  function Insert(fds: Fds, fd: int, h: Handler, on: bool): Fds {
    if on then fds[fd := h] else fds
  }

  lemma Younger(s: State, ids: Ids)
    requires Agree(s) && s.ids == Entries(ids)
    ensures forall id :: id in ids ==> id < s.next
  {}

  lemma LaterIs(s: State, t: State)
    requires Later(s, t)
    ensures s.next <= t.next && forall id :: id in t.ids ==> id in s.ids || s.next <= id < t.next
  {}

  lemma Unused(s: State, ids: Ids)
    requires Agree(s) && s.ids == Entries(ids)
    ensures s.next !in ids
  {}

  lemma NewProper(s: State, reg: Reg, readers: Fds, writers: Fds)
    requires Proper(s) && s.readers == Names(readers) && s.writers == Names(writers)
    requires (reg.read ==> reg.fd !in readers) && (reg.write ==> reg.fd !in writers) && (reg.read || reg.write ==> reg.fd >= 0)
    ensures Proper(Enter(s, {}, reg))
  {
    hide Agree;
    EnterNew(s, reg);
  }

  lemma EnrolledIds(ids: Ids, h: Handler, armed: set<Handler>, firing: Handler?)
    requires OwnIds(ids) && h.id !in ids && Watched(ids, armed, firing) && h != firing
    ensures var all: Ids := ids[h.id := h];
            OwnIds(all) && Watched(all, armed + {h}, firing)
  {
    var all: Ids := ids[h.id := h];
    forall g | g in armed + {h}
      ensures g in all.Values
    {
      if g == h {
        assert h.id in all && all[h.id] == h;
      } else {
        var k :| k in ids && ids[k] == g;
        assert k in all && all[k] == g;
      }
    }
  }

  lemma EnrolledEntries(ids: Ids, h: Handler)
    ensures var all: Ids := ids[h.id := h];
            Entries(all) == Rekey(Entries(ids), {}, h.id, h.Entry())
  {
    var all: Ids := ids[h.id := h];
    var now, due := Entries(all), Rekey(Entries(ids), {}, h.id, h.Entry());
    assert forall id :: id in now ==> now[id] == due[id];
    assert now == due;
  }

  lemma EnrolledNames(fds: Fds, fd: int, h: Handler, on: bool)
    ensures Names(Insert(fds, fd, h, on)) == Index(Names(fds), on, fd, h.id)
  {}

  lemma EnrolledPoints(fds: Fds, fd: int, h: Handler, on: bool, ids: Ids)
    requires Points(fds, ids) && h.id !in ids
    ensures var all: Ids := ids[h.id := h];
            Points(Insert(fds, fd, h, on), all)
  {
    var all: Ids, ins := ids[h.id := h], Insert(fds, fd, h, on);
    forall f | f in ins
      ensures ins[f] in all.Values
    {
      if f in fds && ins[f] == fds[f] {
        var k :| k in ids && ids[k] == fds[f];
        assert k in all && all[k] == fds[f];
      } else {
        assert h.id in all && all[h.id] == h;
      }
    }
  }

  /** New values for a handler leave all others as they are. */
  method Rename(h: Handler, n: nat, repeat: bool, func: nat, ghost s: State, ghost ids: Ids, ghost readers: Fds,
                ghost writers: Fds)
    requires h.id in ids && ids[h.id] == h && OwnIds(ids) && Others(s, ids, h.id)
    requires OtherNames(s.readers, readers, h, h.read) && OtherNames(s.writers, writers, h, h.write)
    modifies h`id, h`func, h`repeat
    ensures h.id == n && h.func == func && h.repeat == repeat
    ensures Others(s, ids, old(h.id))
    ensures OtherNames(s.readers, readers, h, h.read) && OtherNames(s.writers, writers, h, h.write)
  {
    ghost var was := h.id;
    assert forall id :: id in ids && id != was ==> ids[id] != h;
    h.id, h.func, h.repeat := n, func, repeat;
  }

  lemma EntryIs(h: Handler)
    ensures h.Entry() == Reg(h.fd, h.read, h.write, h.repeat, h.func)
  {}

  lemma NotFiring(ids: Ids, armed: set<Handler>, firing: Handler?, h: Handler)
    requires Watched(ids, armed, firing) && (h.read || h.write)
    ensures h != firing
  {}

  lemma EnterIs(s: State, gone: set<nat>, reg: Reg)
    ensures Enter(s, gone, reg) ==
            State(s.next + 1, Rekey(s.ids, gone, s.next, reg),
                  Index(s.readers, reg.read, reg.fd, s.next), Index(s.writers, reg.write, reg.fd, s.next))
  {}

  /** Registering again what is registered keeps the tables in agreement. */
  lemma TakenProper(s: State, id: nat, repeat: bool, func: nat)
    requires Proper(s) && id in s.ids && (s.ids[id].read || s.ids[id].write)
    ensures Proper(Enter(s, {id}, s.ids[id].(repeat := repeat, func := func)))
  {
    var reg := s.ids[id];
    AddInputAgree(s, reg.fd, reg.read, reg.write, repeat, func);
    HitLive(s, reg.fd, reg.read, reg.write);
  }

  lemma OwnId(ids: Ids, id: nat)
    requires OwnIds(ids) && id in ids
    ensures ids[id].id == id
  {}

  /** What b_event_remove makes of the tables, and that they still agree. */
  lemma RemoveKeeps(s: State, id: nat, ids: Ids, readers: Fds, writers: Fds)
    requires Proper(s) && s == State(s.next, Entries(ids), Names(readers), Names(writers))
    ensures id !in ids ==> EventsSpec.Remove(s, id) == s
    ensures id in ids ==>
              var h := ids[id];
              var r := if h.fd >= 0 && h.read then readers - {h.fd} else readers;
              var w := if h.fd >= 0 && h.write then writers - {h.fd} else writers;
              && EventsSpec.Remove(s, id) == State(s.next, Entries(ids - {id}), Names(r), Names(w))
              && Proper(EventsSpec.Remove(s, id))
              && (forall fd :: fd in r ==> fd in readers && r[fd] == readers[fd] && readers[fd].id != id)
              && (forall fd :: fd in w ==> fd in writers && w[fd] == writers[fd] && writers[fd].id != id)
  {
    hide Entries, Names, Agree;
    if id in ids {
      var h := ids[id];
      RemovedEntries(ids, id);
      RemovedNames(readers, h.fd);
      RemovedNames(writers, h.fd);
      OnlyEntry(s, ids, readers, writers, id);
      RemoveAgree(s, id);
    }
  }
}
