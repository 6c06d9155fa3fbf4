/** What happens to a DCC transfer from outside, and the course of a transfer to which nothing bad does. */
module DccCourse {
  import opened Bytes
  import opened DccAcks

  /** What recv() gave. */
  datatype Recv = Error | Eof | Data(bytes: seq<octet>)

  /** What the IM protocol does when it is called: nothing, imcb_file_finished, imcb_file_canceled,
      or one or more writes; `ret` is what send() gives for `len` bytes. */
  datatype Act = Nothing | Done | Cancel | Write(len: nat, ret: int)

  datatype Event =
    | Readable(peer: int, r: Recv, act: Act, ok: bool, ackRet: int)
    | Writable(act: Act)
    | Timer
    | Calls(act: Act)
    | Request

  /** The bytes that went through; whether a callback is awaited, to write more when sending and to read
      more when receiving; the acknowledgements of the peer; whether the protocol is done. */
  datatype Course = Course(bytes: nat, waits: bool, acks: seq<octet>, done: bool)

  function Acted(size: nat, c: Course, act: Act): Course {
    match act
    case Done => c.(done := true)
    case Write(len, _) => c.(bytes := c.bytes + len, waits := c.bytes + len < size)
    case _ => c
  }

  function After(sending: bool, size: nat, c: Course, e: Event): Course {
    match e
    case Readable(_, Data(b), act, _, _) =>
      if sending then c.(acks := c.acks + b)
      else if c.waits then c.(bytes := c.bytes + |b|, waits := false, done := c.done || act.Done?) else c
    case Writable(act) => if sending && c.waits then Acted(size, c.(waits := false), act) else c
    case Calls(act) => Acted(size, c, act)
    case Request => if sending then c else c.(waits := true)
    case _ => c
  }

  /** What the protocol does is no cancellation, and a write takes all its bytes. */
  predicate Sound(act: Act) {
    !act.Cancel? && (act.Write? ==> 0 < act.len == act.ret)
  }

  /** Nothing goes wrong: reads, writes and acknowledgements succeed, the peer acknowledges no more than it
      was sent and no less than before, nobody writes or reads ahead of the callback, and no timer expires. */
  predicate Smooth(sending: bool, c: Course, e: Event) {
    match e
    case Readable(_, r, act, ok, ackRet) =>
      && r.Data? && r.bytes != []
      && (if sending then
            && |c.acks| % 4 + |r.bytes| <= 4
            && (|c.acks + r.bytes| % 4 == 0 ==>
                  Latest(WordsOf(c.acks)) <= Latest(WordsOf(c.acks + r.bytes)) <= c.bytes)
          else !act.Cancel? && !act.Write? && ok && ackRet == 4)
    case Writable(act) => Sound(act)
    case Timer => false
    case Calls(act) => Sound(act) && (act.Write? ==> sending && !c.waits)
    case Request => sending || !c.waits
  }

  function Along(sending: bool, size: nat, c: Course, script: seq<Event>): Course
    decreases script
  {
    if script == [] then c else Along(sending, size, After(sending, size, c, script[0]), script[1..])
  }

  predicate AllSmooth(sending: bool, size: nat, c: Course, script: seq<Event>)
    decreases script
  {
    script == [] ||
    (Smooth(sending, c, script[0]) && AllSmooth(sending, size, After(sending, size, c, script[0]), script[1..]))
  }

  /** Everything went through, when sending also according to the peer. */
  predicate Through(sending: bool, size: nat, c: Course) {
    if sending then Latest(WordsOf(c.acks)) >= size else c.bytes >= size
  }

  /** A file sent in one write, acknowledged in one word, the protocol being done before or after that. */
  lemma WholeFile(size: word, early: bool)
    requires size > 0
    ensures var write, ack := Calls(Write(size, size)), Readable(0, Data(Big(size)), Nothing, true, 0);
            var script := if early then [write, Calls(Done), ack] else [write, ack, Calls(Done)];
            var c := Course(0, false, [], false);
            && AllSmooth(true, size, c, script)
            && Along(true, size, c, script) == Course(size, false, Big(size), true)
            && Latest(WordsOf(Big(size))) == size
  {
    WordIs(size);
    WordsOne(Big(size));
    hide WordOf, WordsOf, Big;
    var c, d := Course(0, false, [], false), Course(size, false, [], false);
    var write, ack := Calls(Write(size, size)), Readable(0, Data(Big(size)), Nothing, true, 0);
    assert [] + Big(size) == Big(size) && WordsOf([]) == [] by {
      WordsOne([]);
    }
    if early {
      assert [write, Calls(Done), ack][1..] == [Calls(Done), ack] && [Calls(Done), ack][1..] == [ack] && [ack][1..] == [];
      assert After(true, size, c, write) == d && After(true, size, d, Calls(Done)) == d.(done := true);
      assert AllSmooth(true, size, d.(done := true), [ack]);
      assert AllSmooth(true, size, d, [Calls(Done), ack]);
      assert After(true, size, d.(done := true), ack) == Course(size, false, Big(size), true);
      assert Along(true, size, d.(done := true), [ack]) == Course(size, false, Big(size), true);
      assert Along(true, size, d, [Calls(Done), ack]) == Course(size, false, Big(size), true);
    } else {
      assert [write, ack, Calls(Done)][1..] == [ack, Calls(Done)] && [ack, Calls(Done)][1..] == [Calls(Done)];
      assert After(true, size, c, write) == d && After(true, size, d, ack) == d.(acks := Big(size));
      assert AllSmooth(true, size, d.(acks := Big(size)), [Calls(Done)]);
      assert AllSmooth(true, size, d, [ack, Calls(Done)]);
      assert After(true, size, d.(acks := Big(size)), Calls(Done)) == Course(size, false, Big(size), true);
      assert Along(true, size, d.(acks := Big(size)), [Calls(Done)]) == Course(size, false, Big(size), true);
      assert Along(true, size, d, [ack, Calls(Done)]) == Course(size, false, Big(size), true);
    }
  }

  lemma LatestMore(s: seq<octet>, b: seq<octet>)
    requires |s| % 4 + |b| <= 4
    ensures |s + b| % 4 != 0 ==> WordsOf(s + b) == WordsOf(s)
  {
    WordsMore(s, b);
  }

  lemma ThroughStays(sending: bool, size: nat, c: Course, e: Event)
    requires Smooth(sending, c, e) && Through(sending, size, c)
    ensures Through(sending, size, After(sending, size, c, e))
    ensures c.done ==> After(sending, size, c, e).done
  {
    hide WordsOf, Latest;
    if e.Readable? && sending {
      LatestMore(c.acks, e.r.bytes);
    }
  }

  lemma {:induction false} ThroughToTheEnd(sending: bool, size: nat, c: Course, script: seq<Event>)
    requires AllSmooth(sending, size, c, script) && Through(sending, size, c) && c.done
    ensures Through(sending, size, Along(sending, size, c, script)) && Along(sending, size, c, script).done
    decreases script
  {
    hide Smooth, Through, After;
    if script != [] {
      ThroughStays(sending, size, c, script[0]);
      ThroughToTheEnd(sending, size, After(sending, size, c, script[0]), script[1..]);
    }
  }
}
