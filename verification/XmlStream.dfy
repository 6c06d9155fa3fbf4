/** Runs of the stream parser (lib/xmltree.c): batches of events, each followed by xt_handle and
    xt_cleanup at depth 1, dispatch what a parser that keeps the whole document would hold. */
module XmlStream {
  import opened Options
  import opened XmlTree

  function RootOf(d: Doc): Option<Tree>
    requires WellFormed(d)
  {
    match d
    case Empty => None
    case Open(fs) => Some(Plug(fs))
    case Closed(t) => Some(t)
  }

  // ---------------------------------------------------------------- closed children

  /** A tree as the builder leaves it: complete and not yet seen. */
  predicate Fresh(t: Tree) {
    t.complete && !t.seen
  }

  predicate AllFresh(ts: seq<Tree>) {
    forall i :: 0 <= i < |ts| ==> Fresh(ts[i])
  }

  function MarkAll(ts: seq<Tree>): (r: seq<Tree>)
    ensures |r| == |ts|
    ensures forall i :: 0 <= i < |ts| ==> r[i] == ts[i].(seen := true)
  {
    seq(|ts|, i requires 0 <= i < |ts| => ts[i].(seen := true))
  }

  /** The calls that a sequence of children of `parent` causes, in document order. */
  function ChildCalls(h: Handlers, parent: string, ts: seq<Tree>): seq<Call> {
    if ts == [] then [] else Calls(h, 0, Some(parent), ts[0]) + ChildCalls(h, parent, ts[1..])
  }

  lemma {:induction false} ChildCallsAppend(h: Handlers, parent: string, a: seq<Tree>, b: seq<Tree>)
    ensures ChildCalls(h, parent, a + b) == ChildCalls(h, parent, a) + ChildCalls(h, parent, b)
  {
    if a == [] {
      assert a + b == b;
    } else {
      assert (a + b)[1..] == a[1..] + b;
      ChildCallsAppend(h, parent, a[1..], b);
    }
  }

  /** The first child for which a handler aborts; the number of children when there is none. */
  function FirstAbort(h: Handlers, parent: string, ts: seq<Tree>): (k: nat)
    ensures k <= |ts| && (k < |ts| ==> Aborts(h, 0, Some(parent), ts[k]))
    ensures forall i :: 0 <= i < k ==> !Aborts(h, 0, Some(parent), ts[i])
  {
    if ts == [] || Aborts(h, 0, Some(parent), ts[0]) then 0 else FirstAbort(h, parent, ts[1..]) + 1
  }

  lemma FirstAbortCons(h: Handlers, parent: string, ts: seq<Tree>)
    requires ts != []
    ensures FirstAbort(h, parent, ts) == if Aborts(h, 0, Some(parent), ts[0]) then 0 else FirstAbort(h, parent, ts[1..]) + 1
  {
    hide Aborts;
  }

  lemma {:induction false} FirstAbortAppend(h: Handlers, parent: string, a: seq<Tree>, b: seq<Tree>)
    requires FirstAbort(h, parent, a) == |a|
    ensures FirstAbort(h, parent, a + b) == |a| + FirstAbort(h, parent, b)
  {
    hide Aborts, FirstAbort;
    if a == [] {
      assert a + b == b;
    } else {
      assert (a + b)[1..] == a[1..] + b && (a + b)[0] == a[0];
      FirstAbortCons(h, parent, a);
      FirstAbortCons(h, parent, a + b);
      FirstAbortAppend(h, parent, a[1..], b);
    }
  }

  /** The children that are dispatched: up to the first for which a handler aborts. */
  function Tried(h: Handlers, parent: string, ts: seq<Tree>): seq<Tree> {
    var k := FirstAbort(h, parent, ts);
    if k < |ts| then ts[..k + 1] else ts
  }

  function MarkFirst(ts: seq<Tree>, k: nat): seq<Tree>
    requires k <= |ts|
  {
    MarkAll(ts[..k]) + ts[k..]
  }

  lemma HandleFresh(h: Handlers, parent: Option<string>, t: Tree)
    requires Fresh(t)
    ensures var aborts := Aborts(h, 0, parent, t);
            Handle(h, parent, t, 0) == Outcome(t.(seen := !aborts), Calls(h, 0, parent, t), !aborts)
  {
    assert t.(kids := t.kids) == t;
    assert [] + Calls(h, 0, parent, t) == Calls(h, 0, parent, t);
  }

  /** At depth 0 the fresh children are dispatched once, in order, up to the first for which a
      handler aborts; those before it are marked and an open last child is left alone. */
  lemma {:induction false} HandleFreshKids(h: Handlers, parent: string, ts: seq<Tree>, last: seq<Tree>)
    requires AllFresh(ts)
    requires |last| <= 1 && (|last| == 1 ==> !last[0].complete)
    ensures var k := FirstAbort(h, parent, ts);
            HandleKids(h, parent, ts + last, 0) ==
            Outcome(MarkFirst(ts, k) + last, ChildCalls(h, parent, Tried(h, parent, ts)), k == |ts|)
  {
    if ts == [] {
      NoneFresh(h, parent, last);
      assert ts + last == last;
    } else {
      hide *;
      HandleFresh(h, Some(parent), ts[0]);
      KidsCons(h, parent, ts[0], ts[1..] + last);
      assert [ts[0]] + (ts[1..] + last) == ts + last;
      FreshTail(ts);
      if FirstAbort(h, parent, ts) == 0 {
        MarkNone(h, parent, ts, last);
      } else {
        MarkCons(h, parent, ts, last);
        HandleFreshKids(h, parent, ts[1..], last);
        TriedCons(h, parent, ts);
      }
    }
  }

  lemma FreshTail(ts: seq<Tree>)
    requires ts != [] && AllFresh(ts)
    ensures Fresh(ts[0]) && AllFresh(ts[1..])
  {}

  lemma NoneFresh(h: Handlers, parent: string, last: seq<Tree>)
    requires |last| <= 1 && (|last| == 1 ==> !last[0].complete)
    ensures FirstAbort(h, parent, []) == 0
    ensures HandleKids(h, parent, last, 0) ==
            Outcome(MarkFirst([], 0) + last, ChildCalls(h, parent, Tried(h, parent, [])), true)
  {
    assert MarkFirst([], 0) + last == last;
    if |last| == 1 {
      OpenLast(h, parent, last[0]);
      assert last[1..] == [] && [last[0]] + [] == last;
    }
  }

  /** A handler aborts for the first of the children. */
  lemma MarkNone(h: Handlers, parent: string, ts: seq<Tree>, last: seq<Tree>)
    requires ts != [] && Fresh(ts[0]) && FirstAbort(h, parent, ts) == 0
    ensures Aborts(h, 0, Some(parent), ts[0])
    ensures [ts[0].(seen := false)] + (ts[1..] + last) == MarkFirst(ts, 0) + last
    ensures ChildCalls(h, parent, Tried(h, parent, ts)) == Calls(h, 0, Some(parent), ts[0])
  {
    hide *;
    TriedFirst(h, parent, ts);
    OneCall(h, parent, ts[0]);
    MarkedNone(ts);
    assert Fresh(ts[0]) ==> ts[0].(seen := false) == ts[0] by {
      FreshIs(ts[0]);
    }
    assert [ts[0]] + (ts[1..] + last) == ts + last;
  }

  lemma FreshIs(t: Tree)
    ensures Fresh(t) ==> t.(seen := false) == t
  {}

  lemma TriedFirst(h: Handlers, parent: string, ts: seq<Tree>)
    requires ts != [] && FirstAbort(h, parent, ts) == 0
    ensures Aborts(h, 0, Some(parent), ts[0]) && Tried(h, parent, ts) == [ts[0]]
  {
    hide Aborts, FirstAbort;
  }

  lemma OneCall(h: Handlers, parent: string, t: Tree)
    ensures ChildCalls(h, parent, [t]) == Calls(h, 0, Some(parent), t)
  {
    hide Calls;
    assert [t][1..] == [];
  }

  lemma MarkedNone(ts: seq<Tree>)
    ensures MarkFirst(ts, 0) == ts
  {
    assert ts[..0] == [] && [] + ts[0..] == ts;
  }

  /** None does. */
  lemma MarkCons(h: Handlers, parent: string, ts: seq<Tree>, last: seq<Tree>)
    requires ts != [] && FirstAbort(h, parent, ts) > 0
    ensures var k := FirstAbort(h, parent, ts);
            && !Aborts(h, 0, Some(parent), ts[0])
            && [ts[0].(seen := true)] + (MarkFirst(ts[1..], k - 1) + last) == MarkFirst(ts, k) + last
  {
    hide Aborts, FirstAbort;
    var k := FirstAbort(h, parent, ts);
    MarkedCons(ts, k);
    assert [ts[0].(seen := true)] + (MarkFirst(ts[1..], k - 1) + last) == [ts[0].(seen := true)] + MarkFirst(ts[1..], k - 1) + last;
  }

  lemma MarkedCons(ts: seq<Tree>, k: nat)
    requires 0 < k <= |ts|
    ensures MarkFirst(ts, k) == [ts[0].(seen := true)] + MarkFirst(ts[1..], k - 1)
  {
    assert ts[1..][k - 1..] == ts[k..] && ts[..k][1..] == ts[1..][..k - 1];
    assert MarkAll(ts[..k]) == [ts[0].(seen := true)] + MarkAll(ts[1..][..k - 1]);
  }

  lemma OpenLast(h: Handlers, parent: string, t: Tree)
    requires !t.complete
    ensures Handle(h, Some(parent), t, 0) == Outcome(t, [], true)
  {
    assert t.(kids := t.kids) == t;
  }

  lemma KidsCons(h: Handlers, parent: string, t: Tree, ts: seq<Tree>)
    ensures var first := Handle(h, Some(parent), t, 0);
            HandleKids(h, parent, [t] + ts, 0) ==
            if !first.ok then Outcome([first.value] + ts, first.calls, false)
            else
              var rest := HandleKids(h, parent, ts, 0);
              Outcome([first.value] + rest.value, first.calls + rest.calls, rest.ok)
  {
    hide Handle;
    assert ([t] + ts)[1..] == ts;
  }

  lemma TriedCons(h: Handlers, parent: string, ts: seq<Tree>)
    requires FirstAbort(h, parent, ts) > 0
    ensures |ts| > 0 && FirstAbort(h, parent, ts) == FirstAbort(h, parent, ts[1..]) + 1
    ensures Tried(h, parent, ts) == [ts[0]] + Tried(h, parent, ts[1..])
    ensures ChildCalls(h, parent, Tried(h, parent, ts)) ==
            Calls(h, 0, Some(parent), ts[0]) + ChildCalls(h, parent, Tried(h, parent, ts[1..]))
  {
    hide Aborts, Calls;
    assert ([ts[0]] + Tried(h, parent, ts[1..]))[1..] == Tried(h, parent, ts[1..]);
  }

  /** Cleaning drops every marked child and keeps an open last child untouched at depth 0. */
  lemma {:induction false} CleanMarkedKids(ts: seq<Tree>, last: seq<Tree>, depth: int)
    requires |last| <= 1 && (|last| == 1 ==> !last[0].seen)
    ensures CleanKids(MarkAll(ts) + last, depth) == CleanKids(last, depth)
  {
    if ts == [] {
      assert MarkAll(ts) + last == last;
    } else {
      assert (MarkAll(ts) + last)[1..] == MarkAll(ts[1..]) + last;
      CleanMarkedKids(ts[1..], last, depth);
    }
  }

  lemma {:induction false} CleanUnseenKids(ts: seq<Tree>)
    requires forall i :: 0 <= i < |ts| ==> !ts[i].seen
    ensures CleanKids(ts, 0) == ts
  {
    if ts != [] {
      CleanUnseenKids(ts[1..]);
    }
  }

  // ---------------------------------------------------------------- one round

  /** `d` with the finished children of the root taken out. */
  function Drained(d: Doc): (r: Doc)
    requires WellFormed(d)
    ensures WellFormed(r)
  {
    match d
    case Open(fs) => Open(fs[0 := fs[0].(closed := [])])
    case _ => Empty
  }

  /** Below the root nothing has been marked. */
  predicate Untouched(d: Doc)
    requires WellFormed(d)
  {
    match d
    case Empty => true
    case Open(fs) => forall i :: 0 <= i < |fs| ==> AllFresh(fs[i].closed)
    case Closed(t) => Fresh(t) && AllFresh(t.kids)
  }

  /** The calls of one xt_handle on an untouched document. */
  function DocCalls(h: Handlers, d: Doc): seq<Call>
    requires WellFormed(d)
  {
    match d
    case Empty => []
    case Open(fs) => ChildCalls(h, fs[0].name, Tried(h, fs[0].name, fs[0].closed))
    case Closed(t) =>
      ChildCalls(h, t.name, Tried(h, t.name, t.kids)) +
      if FirstAbort(h, t.name, t.kids) < |t.kids| then [] else Calls(h, 0, None, RootAt(t, 0))
  }

  /** The root as its own handlers get it when the children from the `k`th on are still attached. */
  function RootAt(t: Tree, k: nat): Tree
    requires k <= |t.kids|
  {
    t.(kids := MarkAll(t.kids[k..]))
  }

  /** A handler aborts in this round. */
  predicate Aborted(h: Handlers, d: Doc)
    requires WellFormed(d)
  {
    match d
    case Empty => false
    case Open(fs) => FirstAbort(h, fs[0].name, fs[0].closed) < |fs[0].closed|
    case Closed(t) => FirstAbort(h, t.name, t.kids) < |t.kids| || Aborts(h, 0, None, RootAt(t, 0))
  }

  /** What an aborted round leaves: the marks of the children before the one that aborted it. */
  function Halted(h: Handlers, d: Doc): (r: Doc)
    requires WellFormed(d)
    ensures WellFormed(r)
  {
    match d
    case Empty => Empty
    case Open(fs) =>
      Open(fs[0 := fs[0].(closed := MarkFirst(fs[0].closed, FirstAbort(h, fs[0].name, fs[0].closed)))])
    case Closed(t) => Closed(t.(kids := MarkFirst(t.kids, FirstAbort(h, t.name, t.kids))))
  }

  /** Handling and cleaning an open document at depth 1: every finished child of the root is
      dispatched, in order, and freed; the elements still open stay as they are. */
  lemma OpenRound(h: Handlers, fs: seq<Frame>)
    requires fs != [] && Untouched(Open(fs))
    ensures var o := Handle(h, None, Plug(fs), 1);
            && o.ok == !Aborted(h, Open(fs)) && o.calls == DocCalls(h, Open(fs))
            && !o.value.seen
            && (!o.ok ==> o.value == Plug(Halted(h, Open(fs)).frames))
            && (|fs| > 1 ==> o.value.kids != [] && o.value.kids[|o.value.kids| - 1] == Plug(fs[1..]))
            && (o.ok ==> Clean(o.value, 1) == Plug(Drained(Open(fs)).frames))
  {
    hide Tried, FirstAbort, ChildCalls;
    var t := Plug(fs);
    var last := if |fs| == 1 then [] else [Plug(fs[1..])];
    HandleFreshKids(h, t.name, fs[0].closed, last);
    var o := Handle(h, None, t, 1);
    var k := FirstAbort(h, t.name, fs[0].closed);
    assert o.value == t.(kids := MarkFirst(fs[0].closed, k) + last);
    if o.ok {
      assert MarkFirst(fs[0].closed, k) == MarkAll(fs[0].closed) by {
        assert fs[0].closed[..k] == fs[0].closed;
      }
      CleanMarkedKids(fs[0].closed, last, 1);
      var gs := Drained(Open(fs)).frames;
      assert gs[1..] == fs[1..];
      if |fs| > 1 {
        CleanOpen(fs[1..]);
        assert CleanKids(last, 1) == [Plug(fs[1..])] by {
          assert last[1..] == [];
        }
      }
    } else {
      assert Halted(h, Open(fs)).frames[1..] == fs[1..];
    }
  }

  /** An element that is still open is not changed by cleaning at depth 0. */
  lemma CleanOpen(fs: seq<Frame>)
    requires fs != [] && AllFresh(fs[0].closed)
    ensures Clean(Plug(fs), 0) == Plug(fs)
  {
    CleanUnseenKids(Plug(fs).kids);
  }

  lemma ClosedRound(h: Handlers, t: Tree)
    requires Untouched(Closed(t))
    ensures var o := Handle(h, None, t, 1);
            && o.ok == !Aborted(h, Closed(t)) && o.calls == DocCalls(h, Closed(t))
            && o.value.seen == o.ok && (!o.ok ==> o.value == Halted(h, Closed(t)).root)
  {
    hide Tried, FirstAbort, ChildCalls, Calls, Aborts;
    HandleFreshKids(h, t.name, t.kids, []);
    var k := FirstAbort(h, t.name, t.kids);
    assert t.kids + [] == t.kids && MarkFirst(t.kids, k) + [] == MarkFirst(t.kids, k);
    assert k == |t.kids| ==> MarkFirst(t.kids, k) == RootAt(t, 0).kids by {
      assert t.kids[..|t.kids|] == t.kids && t.kids[0..] == t.kids;
    }
    assert ChildCalls(h, t.name, Tried(h, t.name, t.kids)) + [] == ChildCalls(h, t.name, Tried(h, t.name, t.kids));
  }

  /** Without a root there is nothing to handle, which xt_handle reports like an abort: so it is
      exactly while no element has begun. */
  lemma {:induction false} NothingBegun(es: seq<Event>)
    requires AcceptsAll(Empty, es)
    ensures FeedAll(Empty, es).Empty? <==> forall i :: 0 <= i < |es| ==> !es[i].Start?
    decreases |es|
  {
    if es != [] {
      if es[0].Start? {
        FeedAllExtends(Feed(Empty, es[0]), es[1..]);
      } else {
        NothingBegun(es[1..]);
        assert forall i :: 0 < i < |es| ==> es[i] == es[1..][i - 1];
        assert forall i :: 0 <= i < |es| - 1 ==> es[1..][i] == es[i + 1];
      }
    }
  }

  // ---------------------------------------------------------------- completeness

  /** An element whose whole content has arrived. */
  predicate Finished(t: Tree) {
    t.complete && forall i :: 0 <= i < |t.kids| ==> Finished(t.kids[i])
  }

  predicate AllFinished(ts: seq<Tree>) {
    forall i :: 0 <= i < |ts| ==> Finished(ts[i])
  }

  /** Only the elements on the way to the current one are incomplete. */
  predicate Tidy(d: Doc)
    requires WellFormed(d)
  {
    match d
    case Empty => true
    case Open(fs) => forall i :: 0 <= i < |fs| ==> AllFinished(fs[i].closed)
    case Closed(t) => Finished(t)
  }

  lemma FeedTidy(d: Doc, e: Event)
    requires WellFormed(d) && Accepts(d, e) && Tidy(d)
    ensures Tidy(Feed(d, e))
  {}

  lemma DrainedTidy(d: Doc)
    requires WellFormed(d) && Tidy(d)
    ensures Tidy(Drained(d))
  {}

  // ---------------------------------------------------------------- runs

  /** `p` is `dom` without the first `k` children of the root. */
  ghost predicate Behind(dom: Doc, p: Doc, k: nat)
    requires WellFormed(dom) && WellFormed(p)
  {
    match dom
    case Empty => p.Empty? && k == 0
    case Open(fs) => k <= |fs[0].closed| && p == Open(fs[0 := fs[0].(closed := fs[0].closed[k..])])
    case Closed(t) => k <= |t.kids| && p == Closed(t.(kids := t.kids[k..]))
  }

  lemma FeedUntouched(d: Doc, e: Event)
    requires WellFormed(d) && Accepts(d, e) && Untouched(d)
    ensures Untouched(Feed(d, e))
  {}

  /** Dropping handled children early does not change what later events do. */
  lemma FeedBehind(dom: Doc, p: Doc, k: nat, e: Event)
    requires WellFormed(dom) && WellFormed(p) && Accepts(dom, e) && Behind(dom, p, k)
    ensures Accepts(p, e) && Behind(Feed(dom, e), Feed(p, e), k)
  {
    if dom.Open? {
      var fs := dom.frames;
      var n := |fs| - 1;
      var g := fs[0].(closed := fs[0].closed[k..]);
      if e.End? {
        var t := Seal(fs[n]);
        if n == 1 {
          assert (fs[0].closed + [t])[k..] == fs[0].closed[k..] + [t];
        }
        if n > 0 {
          assert fs[0 := g][..n] == fs[..n][0 := g];
        }
      }
    } else if dom.Empty? && e.Start? {
      assert Feed(dom, e) == Open([Frame(e.name, e.attrs, None, [])]);
    }
  }

  lemma {:induction false} FeedAllBehind(dom: Doc, p: Doc, k: nat, es: seq<Event>)
    requires WellFormed(dom) && WellFormed(p) && AcceptsAll(dom, es) && Behind(dom, p, k) && Untouched(p)
    ensures AcceptsAll(p, es) && Behind(FeedAll(dom, es), FeedAll(p, es), k) && Untouched(FeedAll(p, es))
    decreases |es|
  {
    if es != [] {
      FeedBehind(dom, p, k, es[0]);
      FeedUntouched(p, es[0]);
      FeedAllBehind(Feed(dom, es[0]), Feed(p, es[0]), k, es[1..]);
    }
  }

  /** A root that was handled and freed: only text may follow, and it is ignored. */
  lemma {:induction false} FeedAllAfterRoot(dom: Doc, es: seq<Event>)
    requires dom.Closed? && AcceptsAll(dom, es)
    ensures FeedAll(dom, es) == dom
    ensures AcceptsAll(Empty, es) && FeedAll(Empty, es) == Empty
    decreases |es|
  {
    if es != [] {
      FeedAllAfterRoot(dom, es[1..]);
    }
  }

  /** What a run owes the document `dom` it has been fed: each finished child of the root was
      dispatched once, complete, in document order; the root itself after all of them; and
      the parser has kept nothing but the elements that are still open. */
  ghost predicate Follows(h: Handlers, dom: Doc, p: Doc, log: seq<Call>)
    requires WellFormed(dom)
  {
    match dom
    case Empty => p == Empty && log == []
    case Open(fs) =>
      && p == Drained(dom) && log == ChildCalls(h, fs[0].name, fs[0].closed)
      && FirstAbort(h, fs[0].name, fs[0].closed) == |fs[0].closed|
    case Closed(t) =>
      && p == Empty && FirstAbort(h, t.name, t.kids) == |t.kids|
      && exists k :: RootCalls(h, t, k, log, false)
  }

  /** What a run that a handler aborted owes it: the finished children up to the first for which
      a handler aborts, or all of them and the root, for which one does. */
  ghost predicate Broken(h: Handlers, dom: Doc, log: seq<Call>)
    requires WellFormed(dom)
  {
    if FirstAbort(h, RootName(dom), RootKids(dom)) < |RootKids(dom)| then
      log == ChildCalls(h, RootName(dom), Tried(h, RootName(dom), RootKids(dom)))
    else
      dom.Closed? && exists k :: RootCalls(h, dom.root, k, log, true)
  }

  /** At the root's own dispatch the children since the `k`th are still attached. */
  ghost predicate RootCalls(h: Handlers, t: Tree, k: nat, log: seq<Call>, aborts: bool) {
    && k <= |t.kids| && log == ChildCalls(h, t.name, t.kids) + Calls(h, 0, None, RootAt(t, k))
    && Aborts(h, 0, None, RootAt(t, k)) == aborts
  }

  function RootName(d: Doc): string
    requires WellFormed(d)
  {
    match d
    case Empty => ""
    case Open(fs) => fs[0].name
    case Closed(t) => t.name
  }

  function RootKids(d: Doc): seq<Tree>
    requires WellFormed(d)
  {
    match d
    case Empty => []
    case Open(fs) => fs[0].closed
    case Closed(t) => t.kids
  }

  /** Events only add finished children to the root, behind the ones it has. */
  lemma {:induction false} FeedAllExtends(d: Doc, es: seq<Event>)
    requires WellFormed(d) && AcceptsAll(d, es)
    ensures RootKids(d) <= RootKids(FeedAll(d, es))
    ensures d.Empty? || (RootName(FeedAll(d, es)) == RootName(d) && !FeedAll(d, es).Empty?)
    decreases |es|
  {
    if es != [] {
      FeedAllExtends(Feed(d, es[0]), es[1..]);
    }
  }

  /** A round pays for the children from the `k`th on. */
  lemma RoundPays(h: Handlers, dom: Doc, p: Doc, log: seq<Call>, k: nat)
    requires WellFormed(dom) && WellFormed(p) && Behind(dom, p, k) && k <= |RootKids(dom)|
    requires log == ChildCalls(h, RootName(dom), RootKids(dom)[..k])
    requires FirstAbort(h, RootName(dom), RootKids(dom)[..k]) == k
    ensures if Aborted(h, p) then Broken(h, dom, log + DocCalls(h, p))
            else Follows(h, dom, Drained(p), log + DocCalls(h, p))
  {
    hide ChildCalls, Calls, Aborts, FirstAbort;
    var kids, name := RootKids(dom), RootName(dom);
    TriedFrom(h, name, kids, k);
    match dom
    case Empty =>
      assert log + [] == log && kids[..k] == [];
      NoChildCalls(h, name);
    case Open(fs) =>
    case Closed(t) =>
      if FirstAbort(h, name, kids) < |kids| {
        assert DocCalls(h, p) == ChildCalls(h, name, Tried(h, name, kids[k..])) + [];
      } else {
        var root, paid := RootAt(t, k), ChildCalls(h, name, kids[k..]);
        assert p.root.kids[0..] == kids[k..];
        assert RootAt(p.root, 0) == root;
        assert log + (paid + Calls(h, 0, None, root)) == log + paid + Calls(h, 0, None, root);
        assert RootCalls(h, t, k, log + DocCalls(h, p), Aborts(h, 0, None, root));
      }
  }

  /** The children dispatched before the `k`th and those tried from there on. */
  lemma TriedFrom(h: Handlers, name: string, kids: seq<Tree>, k: nat)
    requires k <= |kids| && FirstAbort(h, name, kids[..k]) == k
    ensures FirstAbort(h, name, kids) == k + FirstAbort(h, name, kids[k..])
    ensures ChildCalls(h, name, Tried(h, name, kids)) ==
            ChildCalls(h, name, kids[..k]) + ChildCalls(h, name, Tried(h, name, kids[k..]))
  {
    hide ChildCalls, FirstAbort;
    assert kids == kids[..k] + kids[k..];
    FirstAbortAppend(h, name, kids[..k], kids[k..]);
    ChildCallsAppend(h, name, kids[..k], Tried(h, name, kids[k..]));
    assert Tried(h, name, kids) == kids[..k] + Tried(h, name, kids[k..]);
  }

  lemma NoChildCalls(h: Handlers, name: string)
    ensures ChildCalls(h, name, []) == []
  {}

  /** What has been paid so far, seen from a later point of the document. */
  lemma PaidSoFar(h: Handlers, dom: Doc, p: Doc, log: seq<Call>, later: Doc)
    requires WellFormed(dom) && WellFormed(later) && !dom.Closed? && Follows(h, dom, p, log)
    requires RootKids(dom) <= RootKids(later) && (dom.Empty? || RootName(later) == RootName(dom))
    ensures log == ChildCalls(h, RootName(later), RootKids(later)[..|RootKids(dom)|])
    ensures FirstAbort(h, RootName(later), RootKids(later)[..|RootKids(dom)|]) == |RootKids(dom)|
  {
    assert RootKids(later)[..|RootKids(dom)|] == RootKids(dom);
  }

  /** One batch and one round of handling and cleaning keep that debt paid, unless a handler
      aborts: then everything up to there has been paid. */
  lemma RoundFollows(h: Handlers, dom: Doc, p: Doc, log: seq<Call>, batch: seq<Event>)
    requires WellFormed(dom) && WellFormed(p) && Follows(h, dom, p, log) && Untouched(p)
    requires AcceptsAll(dom, batch)
    ensures AcceptsAll(p, batch) && Untouched(FeedAll(p, batch))
    ensures Untouched(Drained(FeedAll(p, batch)))
    ensures var held, whole := FeedAll(p, batch), FeedAll(dom, batch);
            if Aborted(h, held) then Broken(h, whole, log + DocCalls(h, held))
            else Follows(h, whole, Drained(held), log + DocCalls(h, held))
    ensures FeedAll(p, batch).Empty? <==> FeedAll(dom, batch).Empty? || dom.Closed?
  {
    if dom.Closed? {
      FeedAllAfterRoot(dom, batch);
      assert log + [] == log;
    } else {
      var k := |RootKids(dom)|;
      assert RootKids(dom)[k..] == [];
      FeedAllBehind(dom, p, k, batch);
      FeedAllExtends(dom, batch);
      PaidSoFar(h, dom, p, log, FeedAll(dom, batch));
      RoundPays(h, FeedAll(dom, batch), FeedAll(p, batch), log, k);
    }
  }
}
