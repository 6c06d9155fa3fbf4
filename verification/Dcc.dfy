/** A DCC file transfer (dcc.c and the file transfer callbacks of irc_im.c). */
module Dcc {
  import opened Bytes
  import opened DccAcks
  import opened DccCourse

  const PACKET_SIZE: nat := 1024

  datatype Flag = Listening | Transferring | Finished | Canceled | Connecting

  /** How a transfer ended: dcc_finish, dcc_abort, or dcc_close on behalf of the IM protocol. */
  datatype Outcome = Completed | Aborted | Withdrawn

  class Transfer {
    const sending: bool
    const fileSize: nat
    var status: set<Flag>
    var transferred: nat
    /** The socket; 0 until there is one. */
    var fd: int
    var watchIn: nat
    var watchOut: nat
    var progress: nat
    var progressLast: nat
    var sent: nat
    const acked: array<octet>
    var ackedLen: nat
    var protoFinished: bool
    var freed: bool

    /** The next id that b_input_add gives. */
    var nextId: nat

    /** The event handlers that have this transfer as their data. */
    var live: set<nat>
    ghost var outcomes: seq<Outcome>
    /** The descriptors the transfer has opened and not closed, those among them it has lost sight of,
        those of others that it has closed, and whether it ever had a socket. */
    ghost var owned: set<int>
    ghost var lost: set<int>
    ghost var stray: set<int>
    ghost var begun: bool
    /** All bytes that the peer sent as acknowledgements, and the words in them. */
    ghost var received: seq<octet>
    ghost var words: seq<nat>
    /** The acknowledgements that were sent to the peer. */
    ghost var replies: seq<word>
    /** imcb_file_finished was called. */
    ghost var done: bool

    /** The handlers are those that the transfer knows. */
    ghost predicate Watched()
      reads `live, `watchIn, `watchOut, `progress, `nextId
    {
      && 0 !in live && (forall h :: h in live ==> h == watchIn || h == watchOut || h == progress)
      && watchIn < nextId && watchOut < nextId && progress < nextId
    }

    /** The acknowledgements so far are the words of what was received, and the beginning of the next
        one is in the buffer. */
    ghost predicate Acks()
      reads `ackedLen, `received, `words, `transferred, acked
    {
      && acked.Length == 4 && ackedLen < 4 && Caught(received, words, acked[..ackedLen])
      && (sending ==> transferred == Latest(words))
    }

    /** The open descriptors are the socket and those that are lost. */
    ghost predicate Held()
      reads `fd, `owned, `lost, `stray, `begun
    {
      stray == {} && fd !in lost && owned == lost + if begun && fd != -1 then {fd} else {}
    }

    ghost predicate Open()
      reads this, acked
    {
      && !freed && outcomes == [] && Watched() && Acks() && ackedLen < 4
      && Held() && lost == {} && (if begun then fd >= 0 else fd == 0)
      && transferred <= sent && (!sending ==> sent - transferred <= 1024 && (sent >= fileSize ==> transferred == sent))
      && (protoFinished <==> done) && (done ==> transferred < fileSize)
      && Finished !in status && Canceled !in status
    }

    /** After its one end nothing refers to the transfer, and all its descriptors are closed that are
        not lost. */
    ghost predicate Closed()
      reads this
    {
      && freed && live == {} && |outcomes| == 1
      && owned == lost && (begun ==> stray == {})
      && (outcomes[0] == Completed ==> done && transferred >= fileSize && Finished in status)
      && (outcomes[0] == Aborted ==> Canceled in status)
    }

    ghost predicate Valid()
      reads this, acked
    {
      if freed then Closed() else Open()
    }

    constructor (sending: bool, fileSize: nat, nextId: nat)
      ensures this.sending == sending && this.fileSize == fileSize && this.nextId == nextId && fresh(acked)
      ensures live == {} && outcomes == [] && status == {} && !freed && !protoFinished && !done
      ensures watchIn == watchOut == progress == transferred == sent == 0
      ensures acked.Length == 4 && ackedLen == |received| == |words| == 0
      ensures fd == 0 && owned == lost == stray == {} && !begun
    {
      this.sending, this.fileSize, this.nextId := sending, fileSize, nextId;
      status, transferred, watchIn, watchOut, progress, progressLast, sent := {}, 0, 0, 0, 0, 0, 0;
      acked := new octet[4];
      ackedLen, protoFinished, freed := 0, false, false;
      live, outcomes, received, words, replies, done := {}, [], [], [], [], false;
      fd, owned, lost, stray, begun := 0, {}, {}, {}, false;
    }

    /** dcc_alloc_transfer. */
    static method Alloc(sending: bool, fileSize: nat, nextId: nat) returns (t: Transfer)
      requires nextId > 0
      ensures fresh(t) && fresh(t.acked) && t.Valid() && !t.freed
      ensures t.sending == sending && t.fileSize == fileSize && t.nextId == nextId
      ensures t.sent == 0 && t.live == {} && t.status == {} && !t.done && t.watchIn == t.watchOut == 0 && !t.begun
      ensures t.received == []
    {
      hide *;
      t := new Transfer(sending, fileSize, nextId);
      t.NoneWatched();
      t.NothingRead();
      t.Begun();
    }

    lemma NoneWatched()
      requires |live| == watchIn == watchOut == progress == 0 < nextId
      ensures Watched()
    {}

    lemma NothingRead()
      requires acked.Length == 4 && ackedLen == |received| == |words| == transferred == 0
      ensures Acks()
    {
      hide Caught, Latest;
      assert acked[..0] == [] == received && words == [];
      NothingYet();
    }

    lemma Begun()
      requires ackedLen == 0 && transferred == 0 && sent == 0 && Acks() && Watched()
      requires fd == 0 && owned == lost == stray == {} && !begun
      requires !freed && |outcomes| == 0 && !protoFinished && !done && Finished !in status && Canceled !in status
      ensures Valid()
    {
      hide Acks, Watched;
    }

    /** b_input_add for reading. */
    method WatchIn()
      requires Watched() && nextId > 0 && (watchIn == 0 || watchIn !in live)
      modifies `watchIn, `nextId, `live
      ensures watchOut != watchIn && progress != watchIn
      ensures Watched() && watchIn == old(nextId) > 0 && nextId == watchIn + 1 && live == old(live) + {watchIn}
      ensures old(watchIn) !in live
    {
      watchIn := nextId;
      nextId := nextId + 1;
      live := live + {watchIn};
    }

    /** b_input_add for writing. */
    method WatchOut()
      requires Watched() && nextId > 0 && (watchOut == 0 || watchOut !in live)
      modifies `watchOut, `nextId, `live
      ensures watchIn != watchOut && progress != watchOut
      ensures Watched() && watchOut == old(nextId) > 0 && nextId == watchOut + 1 && live == old(live) + {watchOut}
      ensures old(watchOut) !in live
    {
      watchOut := nextId;
      nextId := nextId + 1;
      live := live + {watchOut};
    }

    /** b_timeout_add. */
    method SetTimer()
      requires Watched() && nextId > 0 && (progress == 0 || progress !in live)
      modifies `progress, `nextId, `live
      ensures watchIn != progress && watchOut != progress
      ensures Watched() && progress == old(nextId) > 0 && nextId == progress + 1 && live == old(live) + {progress}
      ensures old(progress) !in live
    {
      progress := nextId;
      nextId := nextId + 1;
      live := live + {progress};
    }

    lemma Given()
      requires Watched()
      ensures watchIn < nextId
    {}

    method Unwatch(id: nat)
      requires Watched()
      modifies `live
      ensures Watched() && live == old(live) - {id}
    {
      live := live - {id};
    }

    /** The writing handler goes away and is forgotten. */
    method ForgetOut()
      requires Watched()
      modifies `live, `watchOut
      ensures Watched() && watchOut == 0 && live == old(live) - {old(watchOut)} && old(watchOut) < nextId
    {
      live := live - {watchOut};
      watchOut := 0;
    }

    /** So is the reading handler, which is not called any more. */
    method ForgetIn()
      requires Watched() && watchIn !in live
      modifies `watchIn
      ensures Watched() && watchIn == 0
    {
      watchIn := 0;
    }

    /** The socket could not be had. */
    method Miss()
      requires Held() && !begun && lost == {}
      modifies `fd
      ensures Held() && fd == -1
    {
      fd := -1;
    }

    /** The first socket. */
    method Hold(socket: int)
      requires Held() && !begun && lost == {} && socket >= 0
      modifies `fd, `owned, `begun
      ensures Held() && begun && fd == socket
    {
      fd, owned, begun := socket, {socket}, true;
    }

    /** The connected socket in place of the listening one, which is closed. */
    method Swap(peer: int)
      requires Held() && begun && lost == {} && 0 <= peer != fd
      modifies `fd, `owned
      ensures Held() && fd == peer
    {
      var was := fd;
      fd := peer;
      owned := owned + {peer};
      owned := owned - {was};
    }

    /** The socket is overwritten and stays open. */
    method Lose()
      requires Held() && begun && lost == {} && fd >= 0
      modifies `fd, `lost
      ensures Held() && fd == -1 && lost == {old(fd)}
    {
      lost := {fd};
      fd := -1;
    }

    /** dcc_close. */
    method Close(ghost how: Outcome)
      requires !freed && Watched() && outcomes == [] && Held()
      modifies `live, `freed, `outcomes, `owned, `stray
      ensures freed && live == {} && outcomes == [how]
      ensures owned == lost && stray == if begun || fd < 0 then {} else {fd}
    {
      if fd >= 0 && fd !in owned {
        stray := stray + {fd};
      }
      owned := owned - {fd};
      if watchIn != 0 {
        Unwatch(watchIn);
      }
      if watchOut != 0 {
        Unwatch(watchOut);
      }
      if progress != 0 {
        Unwatch(progress);
      }
      freed := true;
      outcomes := outcomes + [how];
    }

    /** dcc_abort. */
    method Abort()
      requires !freed && Watched() && outcomes == [] && Held()
      modifies `live, `freed, `owned, `stray, `outcomes, `status
      ensures Closed() && outcomes == [Aborted]
      ensures stray == if begun || fd < 0 then {} else {fd}
    {
      status := status + {Canceled};
      Close(Aborted);
    }

    /** dcc_finish. */
    method Finish()
      requires !freed && Watched() && outcomes == [] && Held() && done && transferred >= fileSize
      modifies `live, `freed, `owned, `stray, `outcomes, `status
      ensures Closed() && outcomes == [Completed]
    {
      status := status + {Finished};
      Close(Completed);
    }

    /** bee_irc_ft_finished: the protocol has nothing more. */
    method ProtoFinished()
      requires Valid() && !freed
      modifies `live, `freed, `owned, `stray, `outcomes, `status, `protoFinished, `done
      ensures Valid() && done
      ensures if transferred >= fileSize then outcomes == [Completed] else !freed && protoFinished
      ensures !freed ==> live == old(live) && status == old(status)
    {
      hide Acks, Held, Watched;
      done := true;
      if transferred >= fileSize {
        Finish();
      } else {
        protoFinished := true;
      }
    }

    /** bee_irc_ft_close. A transfer that ends before it has a socket closes descriptor 0. */
    method FtClose()
      requires Valid() && !freed
      modifies `live, `freed, `owned, `stray, `outcomes
      ensures Valid() && outcomes == [Withdrawn]
      ensures stray == if begun then {} else {0}
    {
      Close(Withdrawn);
    }

    /** dccs_send_write. */
    method SendWrite(len: nat, ret: int)
      requires Valid() && !freed && sending && nextId > 0
      requires -1 <= ret <= len
      modifies `live, `freed, `owned, `stray, `outcomes, `status, `watchOut, `sent, `nextId
      ensures Valid() && nextId >= old(nextId)
      ensures sent == if old(watchOut) == 0 && ret == len && ret > 0 then old(sent) + len else old(sent)
      ensures freed <==> old(watchOut) != 0 || ret < len || ret == 0
      ensures freed ==> outcomes == [Aborted]
      ensures !freed ==> status == old(status)
      ensures !freed ==>
        if sent < fileSize then watchOut == old(nextId) != watchIn && live == old(live) + {watchOut}
        else watchOut == 0 && live == old(live)
    {
      hide Acks, Watched;
      if watchOut != 0 {
        Abort();
        return;
      }
      if ret == -1 {
        Abort();
        return;
      }
      if ret == 0 {
        Abort();
        return;
      }
      if ret < len {
        Abort();
        return;
      }
      sent := sent + ret;
      if sent < fileSize {
        WatchOut();
      }
    }

    /** A callback of the IM protocol. */
    method Protocol(act: Act)
      requires Valid() && !freed && nextId > 0
      requires act.Write? ==> sending && -1 <= act.ret <= act.len
      modifies `live, `freed, `owned, `stray, `outcomes, `status, `watchOut, `sent, `nextId, `protoFinished, `done
      ensures Valid() && nextId >= old(nextId)
      ensures sent == old(sent) +
                if act.Write? && old(watchOut) == 0 && act.ret == act.len && act.ret > 0 then act.len else 0
      ensures !act.Write? ==> nextId == old(nextId)
      ensures !freed && !act.Write? ==> live == old(live) && watchOut == old(watchOut)
      ensures !freed && act.Write? ==>
        if sent < fileSize then watchOut == old(nextId) != watchIn && live == old(live) + {watchOut}
        else watchOut == 0 && live == old(live)
      ensures freed <==>
                || act.Cancel?
                || (act.Done? && transferred >= fileSize)
                || (act.Write? && (old(watchOut) != 0 || act.ret < act.len || act.ret == 0))
      ensures freed ==> outcomes == [if act.Cancel? then Withdrawn else if act.Done? then Completed else Aborted]
      ensures done == (old(done) || act.Done?) && (!freed ==> status == old(status))
    {
      hide Acks, Held, Watched;
      match act
      case Nothing =>
      case Done => ProtoFinished();
      case Cancel => FtClose();
      case Write(len, ret) => SendWrite(len, ret);
    }

    // -------------------------------------------------------------- sending to the IRC client

    /** dccs_send_start; `listener` is the socket, or -1, and the request may fail. */
    static method SendStart(fileSize: nat, maxSize: nat, listener: int, requested: bool, nextId: nat) returns (t: Transfer?)
      requires nextId > 0 && listener >= -1
      ensures t != null <==> fileSize <= maxSize && listener != -1 && requested
      ensures t != null ==>
        && fresh(t) && fresh(t.acked) && t.Valid() && !t.freed && t.sending && t.fileSize == fileSize
        && t.status == {Listening} && t.live == {t.watchIn, t.progress} && t.sent == 0 && t.nextId > nextId
        && t.begun && t.fd == listener && t.watchOut == 0 && t.received == [] && !t.done
    {
      hide *;
      if fileSize > maxSize {
        return null;
      }
      t := Alloc(true, fileSize, nextId);
      var ok := t.Listen(listener, requested);
      if !ok {
        t := null;
      }
    }

    method Listen(listener: int, requested: bool) returns (ok: bool)
      requires Valid() && !freed && sending && nextId > 0 && live == {} && !begun && listener >= -1
      modifies `live, `freed, `owned, `stray, `outcomes, `status, `watchIn, `progress, `nextId, `fd, `begun
      ensures Valid() && (ok <==> !freed) && (ok <==> listener != -1 && requested)
      ensures ok ==> status == {Listening} && live == {watchIn, progress} && begun && fd == listener && nextId > old(nextId)
      ensures freed ==> outcomes == [Aborted] && owned == {} && stray == {}
    {
      hide Acks, Watched, Held;
      ok := false;
      if listener == -1 {
        Miss();
        Abort();
        return;
      }
      Hold(listener);
      ok := Offer(requested);
    }

    method Offer(requested: bool) returns (ok: bool)
      requires Valid() && !freed && nextId > 0 && live == {} && begun
      modifies `live, `freed, `owned, `stray, `outcomes, `status, `watchIn, `progress, `nextId
      ensures Valid() && nextId >= old(nextId) && ok == requested == !freed
      ensures ok ==> status == {Listening} && live == {watchIn, progress} && nextId > old(nextId)
      ensures freed ==> outcomes == [Aborted]
    {
      hide Acks, Watched, Held;
      if !requested {
        Abort();
        return false;
      }
      status := {Listening};
      WatchIn();
      SetTimer();
      ok := true;
    }

    /** The readable callback of dccs_send_proto on the listening socket; `peer` is what accept() gives.
        When that fails, the listening socket is lost. An accept callback that ends the transfer leaves
        the code with freed memory. */
    method Accept(peer: int, act: Act) returns (fault: bool)
      requires Valid() && !freed && sending && begun && nextId > 0 && Listening in status
      requires peer >= -1 && peer != fd
      requires act.Write? ==> -1 <= act.ret <= act.len
      modifies `live, `freed, `owned, `stray, `outcomes, `status, `watchOut, `sent, `nextId, `protoFinished, `done, `watchIn, `fd, `lost
      ensures Valid() && nextId >= old(nextId)
      ensures sent == old(sent) +
                if peer != -1 && act.Write? && old(watchOut) == 0 && act.ret == act.len && act.ret > 0 then act.len
                else 0
      ensures lost == if peer == -1 then {old(fd)} else {}
      ensures peer == -1 ==> outcomes == [Aborted] && !fault
      ensures peer != -1 ==> (fault <==> freed)
      ensures done == (old(done) || (peer != -1 && act.Done?))
      ensures peer != -1 ==>
        (fault <==>
           || act.Cancel?
           || (act.Done? && old(transferred) >= fileSize)
           || (act.Write? && (old(watchOut) != 0 || act.ret < act.len || act.ret == 0)))
      ensures !freed ==> Listening !in status && Transferring in status && watchIn in live && old(watchIn) !in live && fd == peer
      ensures !freed ==> watchIn != watchOut && (if act.Write? && sent < fileSize then watchOut in live
                                                 else if act.Write? then watchOut == 0 else watchOut == old(watchOut))
    {
      hide Acks, Watched, Held;
      fault := false;
      if peer == -1 {
        Lose();
        Abort();
        return;
      }
      Swap(peer);
      Unwatch(watchIn);
      status := {Transferring};
      Welcome(act);
      fault := freed;
    }

    /** The accept callback and the new watch. */
    method Welcome(act: Act)
      requires Valid() && !freed && sending && nextId > 0 && watchIn !in live && status == {Transferring}
      requires act.Write? ==> -1 <= act.ret <= act.len
      modifies `live, `freed, `owned, `stray, `outcomes, `status, `watchOut, `sent, `nextId, `protoFinished, `done, `watchIn
      ensures Valid() && nextId >= old(nextId)
      ensures sent == old(sent) +
                if act.Write? && old(watchOut) == 0 && act.ret == act.len && act.ret > 0 then act.len else 0
      ensures freed <==>
                || act.Cancel?
                || (act.Done? && transferred >= fileSize)
                || (act.Write? && (old(watchOut) != 0 || act.ret < act.len || act.ret == 0))
      ensures !freed ==> status == {Transferring} && watchIn in live && old(watchIn) !in live
      ensures !freed ==> watchIn != watchOut && (if act.Write? && sent < fileSize then watchOut in live
                                                 else if act.Write? then watchOut == 0 else watchOut == old(watchOut))
      ensures done == (old(done) || act.Done?)
    {
      hide Acks, Held, Watched;
      Given();
      Protocol(act);
      if !freed {
        WatchIn();
      }
    }

    /** The readable callback of dccs_send_proto during the transfer. */
    method Ack(r: Recv) returns (keep: bool)
      requires Valid() && !freed && sending
      requires r.Data? ==> 0 < |r.bytes| <= 4 - ackedLen
      modifies `ackedLen, `received, `words, `transferred, `live, `freed, `owned, `stray, `outcomes, `status, acked
      ensures Valid() && transferred >= old(transferred)
      ensures received == old(received) + if r.Data? then r.bytes else []
      ensures old(words) <= words && (r.Data? ==> words == WordsOf(received))
      ensures freed ==> outcomes == [Aborted] || outcomes == [Completed]
      ensures !freed ==> live == old(live) && status == old(status)
      ensures var seen := r.Data? && |words| > |old(words)|;
              var refused := seen && (Latest(words) > sent || Latest(words) < old(transferred));
              && (outcomes == [Aborted] <==> !r.Data? || refused)
              && (outcomes == [Completed] <==> seen && !refused && Latest(words) >= fileSize && protoFinished)
              && transferred == (if seen && !refused then Latest(words) else old(transferred))
              && (keep <==> r.Data? && (seen ==> !refused && transferred < fileSize))
    {
      hide WordOf, WordsOf, Held, Watched;
      match r
      case Error =>
        Abort();
        keep := false;
      case Eof =>
        Abort();
        keep := false;
      case Data(bytes) =>
        Store(bytes);
        if ackedLen > 0 {
          return true;
        }
        keep := Judge();
    }

    /** The rest of it when a word is complete; `acked` is left in the order of a little-endian
        host. */
    method Judge() returns (keep: bool)
      requires !freed && outcomes == [] && Watched() && Finished !in status && Canceled !in status
      requires Held() && lost == {} && (if begun then fd >= 0 else fd == 0)
      requires acked.Length == 4 && ackedLen == 0 == |received| % 4 && sending
      requires words != [] && words == WordsOf(received) && words[|words| - 1] == WordOf(acked[..])
      requires Nondecreasing(words[..|words| - 1]) && transferred == Latest(words[..|words| - 1]) <= sent
      requires (protoFinished <==> done) && (done ==> transferred < fileSize)
      modifies `live, `freed, `owned, `stray, `outcomes, `status, `transferred, acked
      ensures Valid()
      ensures freed ==> outcomes == [Aborted] || outcomes == [Completed]
      ensures !freed ==> live == old(live) && status == old(status)
      ensures var n := Latest(words);
              var refused := n > sent || n < old(transferred);
              && (outcomes == [Aborted] <==> refused)
              && (outcomes == [Completed] <==> !refused && n >= fileSize && protoFinished)
              && transferred == (if refused then old(transferred) else n)
              && (keep <==> !refused && transferred < fileSize)
    {
      hide WordOf, WordsOf, Held, Watched;
      var n := WordOf(acked[..]);
      acked[0], acked[1], acked[2], acked[3] := acked[3], acked[2], acked[1], acked[0];
      if n > sent {
        Abort();
        return false;
      }
      if n < transferred {
        Abort();
        return false;
      }
      transferred := n;
      assert Acks();
      if transferred >= fileSize {
        if protoFinished {
          Finish();
        }
        return false;
      }
      keep := true;
    }

    /** recv() puts the bytes behind those of an unfinished word. */
    method Store(bytes: seq<octet>)
      requires Acks() && 0 < |bytes| <= 4 - ackedLen
      modifies this`ackedLen, this`received, this`words, acked
      ensures received == old(received) + bytes && words == WordsOf(received) && ackedLen == |received| % 4
      ensures ackedLen > 0 ==> words == old(words) && acked[..ackedLen] == received[|received| / 4 * 4..]
      ensures ackedLen == 0 ==> words == old(words) + [WordOf(acked[..])]
    {
      hide WordOf, WordsOf;
      ghost var was, tail := received, acked[..ackedLen] + bytes;
      for i := 0 to |bytes|
        modifies acked
        invariant acked[..ackedLen] == old(acked[..ackedLen]) && acked[ackedLen..ackedLen + i] == bytes[..i]
      {
        acked[ackedLen + i] := bytes[i];
      }
      assert acked[..ackedLen + |bytes|] == acked[..ackedLen] + acked[ackedLen..ackedLen + |bytes|] == tail;
      WordsMore(was, bytes);
      received := received + bytes;
      words := WordsOf(received);
      Tail(was, bytes);
      ackedLen := (ackedLen + |bytes|) % 4;
      assert ackedLen == 0 ==> acked[..4] == acked[..];
    }

    /** dccs_send_can_write; its handler goes away. */
    method CanWrite(act: Act)
      requires Valid() && !freed && sending && nextId > 0
      requires act.Write? ==> -1 <= act.ret <= act.len
      modifies `live, `freed, `owned, `stray, `outcomes, `status, `watchOut, `sent, `nextId, `protoFinished, `done
      ensures Valid() && nextId >= old(nextId)
      ensures sent == old(sent) + if act.Write? && act.ret == act.len && act.ret > 0 then act.len else 0
      ensures freed <==>
                || act.Cancel?
                || (act.Done? && transferred >= fileSize)
                || (act.Write? && (act.ret < act.len || act.ret == 0))
      ensures freed ==> outcomes == [if act.Cancel? then Withdrawn else if act.Done? then Completed else Aborted]
      ensures done == (old(done) || act.Done?) && old(watchOut) !in live
      ensures !freed ==>
        && status == old(status) && (watchIn in live <==> watchIn in old(live) && watchIn != old(watchOut))
        && (if act.Write? && sent < fileSize then watchOut in live && watchOut != watchIn else watchOut == 0)
    {
      hide Acks, Held, Watched;
      ForgetOut();
      Protocol(act);
    }

    /** dcc_progress. */
    method Progress() returns (keep: bool)
      requires Valid() && !freed
      modifies `live, `freed, `owned, `stray, `outcomes, `status, `progressLast
      ensures Valid() && (keep <==> !freed) && (freed <==> sent == old(progressLast)) && (freed ==> outcomes == [Aborted])
    {
      hide Acks, Held, Watched;
      if sent == progressLast {
        Abort();
        return false;
      }
      progressLast := sent;
      return true;
    }

    // -------------------------------------------------------------- receiving from the IRC client

    /** dccs_recv_start; `socket` is the new socket, or -1. */
    method RecvStart(hasWrite: bool, socket: int, connected: bool) returns (ok: bool)
      requires Valid() && !freed && !sending && nextId > 0 && live == {} && watchIn == 0 && !begun && socket >= -1
      modifies `live, `freed, `owned, `stray, `outcomes, `status, `watchOut, `progress, `nextId, `fd, `begun
      ensures Valid() && nextId >= old(nextId) && (ok <==> !freed) && (ok <==> hasWrite && socket != -1 && connected)
      ensures ok ==> status == {Connecting} && live == {watchOut, progress} && begun && watchOut != 0
      ensures freed ==> outcomes == [Aborted]
      ensures freed ==> stray == if hasWrite then {} else {0}
    {
      hide Acks, Watched, Held;
      ok := false;
      if !hasWrite {
        Abort();
      } else if socket == -1 {
        Miss();
        Abort();
      } else {
        Hold(socket);
        ok := Connect(connected);
      }
    }

    method Connect(connected: bool) returns (ok: bool)
      requires Valid() && !freed && nextId > 0 && live == {} && begun
      modifies `live, `freed, `owned, `stray, `outcomes, `status, `watchOut, `progress, `nextId
      ensures Valid() && nextId >= old(nextId) && ok == connected == !freed
      ensures ok ==> status == {Connecting} && live == {watchOut, progress} && watchOut != 0
      ensures freed ==> outcomes == [Aborted]
    {
      hide Acks, Watched, Held;
      if !connected {
        Abort();
        return false;
      }
      status := {Connecting};
      WatchOut();
      SetTimer();
      ok := true;
    }

    /** The writable callback of dccs_recv_proto. */
    method Connected() returns (keep: bool)
      requires Valid() && !freed
      modifies `status, `watchOut, `live
      ensures Valid() && !freed && (keep <==> Connecting !in old(status))
      ensures keep ==> live == old(live) && status == old(status) && watchOut == old(watchOut)
      ensures !keep ==> status == {Transferring} && watchOut == 0 && live == old(live) - {old(watchOut)}
    {
      hide Acks, Held, Watched;
      if Connecting in status {
        status := {Transferring};
        ForgetOut();
        return false;
      }
      keep := true;
    }

    /** dccs_recv_write_request. */
    method WriteRequest() returns (ok: bool)
      requires Valid() && !freed && nextId > 0
      modifies `live, `freed, `owned, `stray, `outcomes, `status, `watchIn, `nextId
      ensures Valid() && nextId >= old(nextId) && (ok <==> !freed) && (ok <==> old(watchIn) == 0)
      ensures ok ==> watchIn == old(nextId) != watchOut && live == old(live) + {watchIn}
      ensures freed ==> outcomes == [Aborted]
    {
      hide Acks, Held, Watched;
      if watchIn != 0 {
        Abort();
        return false;
      }
      WatchIn();
      return true;
    }

    /** The readable callback of dccs_recv_proto, with what the protocol does in its write function
        and what that returns, and what send() gives for the acknowledgement. Its handler goes away.
        The code uses freed memory exactly if the write function ended the transfer and yet reported
        success, or the whole file is there, acknowledged, and the protocol had already finished. */
    method Receive(r: Recv, act: Act, ok: bool, ackRet: int) returns (fault: bool)
      requires Valid() && !freed && !sending && nextId > 0 && !act.Write?
      requires r.Data? ==> 0 < |r.bytes|
      modifies `live, `freed, `owned, `stray, `outcomes, `status, `watchOut, `sent, `nextId, `protoFinished, `done
      modifies `watchIn, `transferred, `replies
      ensures Valid() && nextId == old(nextId) && transferred >= old(transferred) && done == (old(done) || (r.Data? && act.Done?))
      ensures !r.Data? ==> outcomes == [Aborted] && !fault
      ensures r.Data? && !ok ==> !fault && sent == old(sent)
      ensures r.Data? && ok ==>
        var ended := act.Cancel? || (act.Done? && old(transferred) >= fileSize);
        var size := old(sent) + |r.bytes|;
        var acks := size - old(transferred) > 1024 || size >= fileSize;
        && (fault <==> ended || (size >= fileSize && ackRet == 4 && (old(protoFinished) || act.Done?)))
        && (!ended ==>
              && sent == size && transferred == (if acks then size else old(transferred))
              && replies == old(replies) + (if acks && ackRet == 4 then [size % 0x1_0000_0000] else [])
              && (outcomes == [Aborted] <==> acks && ackRet != 4)
              && (outcomes == [Completed] <==> fault)
              && (!freed <==> outcomes != [Aborted] && outcomes != [Completed]) && (!freed ==> watchIn == 0))
      ensures r.Data? && ok && act.Done? && old(transferred) >= fileSize ==> outcomes == [Completed]
      ensures !freed ==> old(watchIn) !in live && sent - transferred <= 1024
      ensures fault ==> freed
    {
      hide Acks, Held, Watched;
      fault := false;
      if !r.Data? {
        Abort();
        return;
      }
      Protocol(act);
      if !ok {
        if !freed {
          Unwatch(watchIn);
        }
        return;
      }
      if freed {
        return true;
      }
      Unwatch(watchIn);
      fault := Counted(|r.bytes|, ackRet);
    }

    /** What follows a successful write. */
    method Counted(n: nat, ackRet: int) returns (fault: bool)
      requires Valid() && !freed && !sending && n > 0 && watchIn !in live
      modifies `live, `freed, `owned, `stray, `outcomes, `status, `sent, `transferred, `replies, `watchIn
      ensures Valid()
      ensures sent == old(sent) + n && live <= old(live)
      ensures var acks := sent - old(transferred) > PACKET_SIZE || sent >= fileSize;
              && transferred == (if acks then sent else old(transferred))
              && replies == old(replies) + (if acks && ackRet == 4 then [sent % 0x1_0000_0000] else [])
              && (outcomes == [Aborted] <==> acks && ackRet != 4)
              && (outcomes == [Completed] <==> fault)
              && (fault <==> sent >= fileSize && ackRet == 4 && old(protoFinished))
              && (!freed <==> outcomes != [Aborted] && outcomes != [Completed])
      ensures !freed ==> watchIn == 0
    {
      hide Caught, Latest, Held, Watched;
      sent := sent + n;
      var complete := sent >= fileSize;
      if sent - transferred > PACKET_SIZE || complete {
        transferred := sent;
        if ackRet != 4 {
          Abort();
          return false;
        }
        replies := replies + [sent % 0x1_0000_0000];
      }
      fault := Settle(complete);
    }

    /** The end of a read: the last one finishes the transfer if the protocol is done. */
    method Settle(complete: bool) returns (fault: bool)
      requires !freed && Watched() && outcomes == [] && Held() && watchIn !in live
      requires complete <==> transferred >= fileSize
      requires protoFinished ==> done
      modifies `live, `freed, `owned, `stray, `outcomes, `status, `watchIn
      ensures if complete && protoFinished then fault && Closed() && outcomes == [Completed] else !fault && !freed
      ensures !fault ==> Watched() && Held() && outcomes == [] && status == old(status) && watchIn == 0 && live <= old(live)
      ensures live <= old(live)
    {
      hide Watched, Held;
      if complete {
        if watchOut != 0 {
          Unwatch(watchOut);
        }
        if protoFinished {
          Finish();
          return true;
        }
      }
      ForgetIn();
      fault := false;
    }
  }

  // ---------------------------------------------------------------- runs

  predicate Possible(sending: bool, act: Act) {
    act.Write? ==> sending && -1 <= act.ret <= act.len
  }

  /** recv() gives some bytes, and send() takes no more than it was given. */
  predicate Plausible(sending: bool, e: Event) {
    match e
    case Readable(peer, r, act, _, _) => peer >= -1 && Possible(sending, act) && (r.Data? ==> r.bytes != [])
    case Writable(act) => Possible(sending, act)
    case Calls(act) => Possible(sending, act)
    case _ => true
  }

  function Limited(r: Recv, n: nat): (q: Recv)
    requires n > 0
    ensures (r.Data? && r.bytes != []) ==> q.Data? && 0 < |q.bytes| <= n
    ensures r.Data? && |r.bytes| <= n ==> q == r
  {
    if r.Data? && |r.bytes| > n then Data(r.bytes[..n]) else r
  }

  /** The protocol does nothing when it is called, and is not done before a file has been received. */
  predicate Polite(sending: bool, e: Event) {
    (e.Readable? ==> e.act.Nothing?) && (!sending && e.Calls? ==> !e.act.Done?)
  }

  /** The transfer is where course `c` has come to: it waits for what it should, or is completed. */
  ghost predicate On(t: Transfer, c: Course)
    reads t
  {
    if t.freed then t.outcomes == [Completed] && c.done && Through(t.sending, t.fileSize, c)
    else
      && t.done == c.done && t.sent == c.bytes && (t.watchIn == 0 || t.watchIn != t.watchOut)
      && (if t.sending then
            && Listening !in t.status && (if c.waits then t.watchOut in t.live else t.watchOut == 0)
            && (if t.watchIn in t.live then t.received == c.acks
                else t.transferred >= t.fileSize && Through(true, t.fileSize, c))
          else if c.waits then t.watchIn in t.live else t.watchIn == 0)
  }

  lemma AckedLength(t: Transfer)
    requires t.Acks() && t.Watched()
    ensures 0 !in t.live
    ensures t.ackedLen == |t.received| % 4 && t.words == WordsOf(t.received)
    ensures t.sending ==> t.transferred == Latest(WordsOf(t.received))
  {}

  ghost predicate Started(t: Transfer, e: Event)
    reads t, t.acked
  {
    t.Valid() && !t.freed && t.begun && t.nextId > 0 && Plausible(t.sending, e)
  }

  /** What every event keeps. */
  twostate predicate Kept(t: Transfer, e: Event, fault: bool)
    reads t, t.acked
  {
    && t.Valid() && t.begun && (!t.freed ==> t.nextId > 0) && t.transferred >= old(t.transferred) && (fault ==> t.freed)
    && old(t.received) <= t.received && old(t.words) <= t.words
    && ((t.sending || !old(t.done)) && Polite(t.sending, e) ==> !fault && (t.sending || !t.done))
    && ((e.Readable? ==> e.peer != -1) ==> t.lost == old(t.lost))
  }

  lemma Ignored(t: Transfer, e: Event, c: Course)
    requires Started(t, e) && On(t, c) && Smooth(t.sending, c, e)
    requires (e.Readable? && t.watchIn !in t.live) || (e.Writable? && (!t.sending || t.watchOut !in t.live))
          || (e.Request? && t.sending)
    ensures On(t, After(t.sending, t.fileSize, c, e))
  {
    hide Transfer.Acks, Transfer.Held, Transfer.Watched, Smooth, Through, WordsOf, Latest;
    if Through(t.sending, t.fileSize, c) {
      ThroughStays(t.sending, t.fileSize, c, e);
    }
  }

  /** A readable event for a sender; accept() does not give the listening socket. */
  method Heard(t: Transfer, e: Event, ghost c: Course) returns (fault: bool)
    requires Started(t, e) && t.sending && e.Readable? && t.watchIn in t.live
    modifies t, t.acked
    ensures Kept(t, e, fault)
    ensures old(On(t, c)) && Smooth(t.sending, c, e) ==> On(t, After(t.sending, t.fileSize, c, e))
  {
    hide Transfer.Acks, Transfer.Held, Transfer.Watched, WordsOf, Latest;
    fault := false;
    if Listening in t.status {
      if e.peer != t.fd {
        fault := t.Accept(e.peer, e.act);
      }
    } else {
      Acked(t, e, c);
    }
  }

  /** Acknowledgements. */
  method Acked(t: Transfer, e: Event, ghost c: Course)
    requires Started(t, e) && t.sending && e.Readable? && t.watchIn in t.live && Listening !in t.status
    modifies t, t.acked
    ensures Kept(t, e, false)
    ensures old(On(t, c)) && Smooth(t.sending, c, e) ==> On(t, After(t.sending, t.fileSize, c, e))
  {
    hide Transfer.Acks, Transfer.Held, Transfer.Watched, WordsOf, Latest;
    AckedLength(t);
    if e.r.Data? && e.r.bytes != [] && |t.received| % 4 + |e.r.bytes| <= 4 {
      WordComplete(t.received, e.r.bytes);
    }
    var keep := t.Ack(Limited(e.r, 4 - t.ackedLen));
    if !keep && !t.freed {
      t.Unwatch(t.watchIn);
    }
  }

  /** A readable event for a receiver. */
  method Came(t: Transfer, e: Event, ghost c: Course) returns (fault: bool)
    requires Started(t, e) && !t.sending && e.Readable? && t.watchIn in t.live
    modifies t, t.acked
    ensures Kept(t, e, fault)
    ensures old(On(t, c)) && Smooth(t.sending, c, e) ==> On(t, After(t.sending, t.fileSize, c, e))
  {
    hide Transfer.Acks, Transfer.Held, Transfer.Watched, WordsOf, Latest;
    AckedLength(t);
    fault := t.Receive(e.r, e.act, e.ok, e.ackRet);
  }

  /** A writable event. */
  method Went(t: Transfer, e: Event, ghost c: Course)
    requires Started(t, e) && e.Writable? && t.watchOut in t.live
    modifies t, t.acked
    ensures Kept(t, e, false)
    ensures old(On(t, c)) && Smooth(t.sending, c, e) ==> On(t, After(t.sending, t.fileSize, c, e))
  {
    hide Transfer.Acks, Transfer.Held, Transfer.Watched, WordsOf, Latest;
    AckedLength(t);
    if t.sending {
      t.CanWrite(e.act);
    } else {
      var _ := t.Connected();
    }
  }

  /** The protocol does something of its own accord. */
  method Acts(t: Transfer, e: Event, ghost c: Course)
    requires Started(t, e) && (e.Calls? || (e.Request? && !t.sending))
    modifies t, t.acked
    ensures Kept(t, e, false)
    ensures old(On(t, c)) && Smooth(t.sending, c, e) ==> On(t, After(t.sending, t.fileSize, c, e))
  {
    hide Transfer.Acks, Transfer.Held, Transfer.Watched, WordsOf, Latest;
    AckedLength(t);
    if e.Calls? {
      t.Protocol(e.act);
    } else {
      var _ := t.WriteRequest();
    }
  }

  /** An event; a handler that is gone is not called. */
  method Step(t: Transfer, e: Event, ghost c: Course) returns (fault: bool)
    requires Started(t, e)
    modifies t, t.acked
    ensures Kept(t, e, fault)
    ensures old(On(t, c)) && Smooth(t.sending, c, e) ==> On(t, After(t.sending, t.fileSize, c, e))
  {
    hide Transfer.Acks, Transfer.Held, Transfer.Watched, On, Smooth, After;
    fault := false;
    if On(t, c) && Smooth(t.sending, c, e) && !(e.Calls? || e.Timer? || (e.Request? && !t.sending)) {
      if (e.Readable? && t.watchIn !in t.live) || (e.Writable? && t.watchOut !in t.live) || e.Request? {
        Ignored(t, e, c);
      }
    }
    match e
    case Readable(_, _, _, _, _) =>
      if t.watchIn in t.live {
        if t.sending {
          fault := Heard(t, e, c);
        } else {
          fault := Came(t, e, c);
        }
      }
    case Writable(_) =>
      if t.watchOut in t.live {
        Went(t, e, c);
      }
    case Timer =>
      NotSmooth(t.sending, c, e);
      if t.progress in t.live {
        var _ := t.Progress();
      }
    case Calls(_) =>
      Acts(t, e, c);
    case Request =>
      if !t.sending {
        Acts(t, e, c);
      }
  }

  lemma NotSmooth(sending: bool, c: Course, e: Event)
    requires e.Timer?
    ensures !Smooth(sending, c, e)
  {}

  /** Where the run is on the way from course `c` through `script`. */
  ghost predicate Passing(t: Transfer, c: Course, d: Course, script: seq<Event>, rest: seq<Event>)
    reads t
  {
    && On(t, d) && AllSmooth(t.sending, t.fileSize, d, rest)
    && Along(t.sending, t.fileSize, d, rest) == Along(t.sending, t.fileSize, c, script)
  }

  lemma Passed(sending: bool, size: nat, d: Course, rest: seq<Event>)
    requires rest != [] && AllSmooth(sending, size, d, rest)
    ensures Smooth(sending, d, rest[0])
    ensures var n := After(sending, size, d, rest[0]);
            && AllSmooth(sending, size, n, rest[1..])
            && Along(sending, size, n, rest[1..]) == Along(sending, size, d, rest)
  {
    hide Smooth, After;
  }

  lemma NotYet(t: Transfer, c: Course)
    requires t.Valid() && !t.freed && On(t, c) && c.done
    ensures !Through(t.sending, t.fileSize, c)
  {
    hide Transfer.Held, Latest, WordsOf;
    hide Transfer.Watched, Transfer.Acks;
    AckedLength(t);
  }

  /** A run that has gone through a smooth script is completed exactly if its course is. */
  lemma Arrived(t: Transfer, c: Course, d: Course, script: seq<Event>, rest: seq<Event>)
    requires t.Valid() && Passing(t, c, d, script, rest) && (t.freed || rest == [])
    ensures var e := Along(t.sending, t.fileSize, c, script);
            if e.done && Through(t.sending, t.fileSize, e) then t.freed && t.outcomes == [Completed] else !t.freed
  {
    if t.freed {
      ThroughToTheEnd(t.sending, t.fileSize, d, rest);
    } else if d.done {
      NotYet(t, d);
    }
  }

  /** Over every run of events a started transfer has at most one end, after which no handler is left
      and, unless accept() has failed, no descriptor is open; it closes no other's descriptor; the
      acknowledged size never goes down; and freed memory is not used while the protocol is polite.
      When nothing goes wrong, the transfer completes exactly if the protocol is done and everything has
      gone through, to the knowledge of the peer when sending; otherwise it goes on. */
  method Run(t: Transfer, script: seq<Event>, ghost c: Course) returns (fault: bool)
    requires t.Valid() && !t.freed && t.begun && t.nextId > 0 && forall e :: e in script ==> Plausible(t.sending, e)
    modifies t, t.acked
    ensures t.Valid() && t.transferred >= old(t.transferred) && t.stray == {}
    ensures old(t.received) <= t.received && old(t.words) <= t.words
    ensures (t.sending || !old(t.done)) && (forall e :: e in script ==> Polite(t.sending, e)) ==> !fault
    ensures t.freed && (forall e :: e in script && e.Readable? ==> e.peer != -1) ==> t.owned == {}
    ensures old(On(t, c)) && AllSmooth(t.sending, t.fileSize, c, script) ==>
              var d := Along(t.sending, t.fileSize, c, script);
              if d.done && Through(t.sending, t.fileSize, d) then t.freed && t.outcomes == [Completed] else !t.freed
  {
    hide Transfer.Acks, Transfer.Watched, Polite, On, AllSmooth, Along, Through, Smooth, After;
    fault := false;
    ghost var smooth, d := On(t, c) && AllSmooth(t.sending, t.fileSize, c, script), c;
    var i := 0;
    while i < |script| && !t.freed
      invariant t.Valid() && t.begun && (!t.freed ==> t.nextId > 0) && t.transferred >= old(t.transferred)
      invariant old(t.received) <= t.received && old(t.words) <= t.words
      invariant (t.sending || !old(t.done)) && (forall e :: e in script ==> Polite(t.sending, e)) ==> !fault && (t.sending || !t.done)
      invariant (forall e :: e in script && e.Readable? ==> e.peer != -1) ==> t.lost == {}
      invariant i <= |script| && (smooth ==> Passing(t, c, d, script, script[i..]))
      decreases |script| - i
    {
      assert script[i] in script;
      if smooth {
        Passed(t.sending, t.fileSize, d, script[i..]);
      }
      assert script[i..][0] == script[i] && script[i..][1..] == script[i + 1..];
      fault := Step(t, script[i], d);
      d := After(t.sending, t.fileSize, d, script[i]);
      i := i + 1;
    }
    if smooth {
      Arrived(t, c, d, script, script[i..]);
    }
  }

  /** A file that is offered and accepted is sent, in whatever writes and however the acknowledgements come. */
  method Sends(size: nat, listener: int, peer: int, script: seq<Event>) returns (over: bool, fault: bool)
    requires listener >= 0 && peer >= 0 && listener != peer
    requires AllSmooth(true, size, Course(0, false, [], false), script)
    requires forall e :: e in script ==> Plausible(true, e)
    ensures var d := Along(true, size, Course(0, false, [], false), script);
            over <==> d.done && Latest(WordsOf(d.acks)) >= size
  {
    hide Transfer.Acks, Transfer.Held, Transfer.Watched, AllSmooth, Along, WordsOf, Latest;
    var t := Transfer.SendStart(size, size, listener, true, 1);
    fault := t.Accept(peer, Nothing);
    fault := Run(t, script, Course(0, false, [], false));
    over := t.freed;
  }

  /** So is a file received. */
  method Receives(size: nat, socket: int, script: seq<Event>) returns (over: bool, fault: bool)
    requires socket >= 0
    requires AllSmooth(false, size, Course(0, false, [], false), script)
    requires forall e :: e in script ==> Plausible(false, e)
    ensures var d := Along(false, size, Course(0, false, [], false), script);
            over <==> d.done && d.bytes >= size
  {
    hide Transfer.Acks, Transfer.Held, Transfer.Watched, AllSmooth, Along, WordsOf, Latest;
    var t := Transfer.Alloc(false, size, 1);
    var ok := t.RecvStart(true, socket, true);
    fault := Run(t, script, Course(0, false, [], false));
    over := t.freed;
  }

  /** A protocol that is done when it is given the last bytes of a file: freed memory is used. */
  method LastBytes(bytes: seq<octet>, socket: int) returns (t: Transfer, fault: bool)
    requires bytes != [] && socket >= 0
    ensures fault && t.outcomes == [Completed]
  {
    hide Transfer.Acks, Transfer.Held, Transfer.Watched;
    t := Transfer.Alloc(false, |bytes|, 1);
    var ok := t.RecvStart(true, socket, true);
    var keep := t.Connected();
    ok := t.WriteRequest();
    fault := t.Receive(Data(bytes), Done, true, 4);
  }

  lemma Tail(s: seq<octet>, b: seq<octet>)
    requires |s| % 4 + |b| <= 4
    ensures |s + b| % 4 == (|s| % 4 + |b|) % 4
    ensures |s| % 4 + |b| < 4 ==> (s + b)[|s + b| / 4 * 4..] == s[|s| / 4 * 4..] + b
    ensures |s| % 4 + |b| == 4 ==> (s + b)[|s + b| / 4 * 4..] == []
  {
    if |s| % 4 + |b| < 4 {
      assert |s + b| / 4 == |s| / 4;
    } else {
      assert |s + b| / 4 == |s| / 4 + 1;
    }
  }
}
