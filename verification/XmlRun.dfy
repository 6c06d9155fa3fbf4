/** Whole runs of the stream parser (lib/xmltree.c) on the linked tree. */
module XmlRun {
  import opened Options
  import opened XmlRules
  import opened XmlTree
  import opened XmlStream
  import opened XmlNode
  import opened XmlParser

  // ---------------------------------------------------------------- which nodes are incomplete

  lemma {:induction false} FinishedNodes(n: Node)
    requires n.Valid() && Finished(n.tree)
    ensures forall m :: m in n.repr ==> m.complete
    decreases n.repr
  {
    SeenIs(n);
    forall m | m in n.repr
      ensures m.complete
    {
      if m != n {
        var i := BelowKid(n, m);
        FinishedNodes(n.kids[i]);
      }
    }
  }

  lemma BelowKid(n: Node, m: Node) returns (i: nat)
    requires n.Valid() && m in n.repr && m != n
    ensures i < |n.kids| && m in n.kids[i].repr && n.kids[i].Valid() && n.kids[i].repr < n.repr
  {
    n.Open();
    n.First();
    n.Whole();
    i := InUnion(n.kids, m);
    n.Kid(i);
  }

  lemma {:induction false} InUnion(ks: seq<Node>, m: Node) returns (i: nat)
    requires m in Union(ks)
    ensures i < |ks| && m in ks[i].repr
  {
    if m in ks[0].repr {
      i := 0;
    } else {
      i := InUnion(ks[1..], m);
      i := i + 1;
    }
  }

  /** A node below an open element is in a finished child or below the open one at the end. */
  lemma BelowOpen(n: Node, fs: seq<Frame>, m: Node) returns (last: bool)
    requires fs != [] && n.Valid() && n.tree == Plug(fs) && AllFinished(fs[0].closed) && m in n.repr && m != n
    ensures last ==> |fs| > 1 && n.kids != [] && m in LastOf(n.kids).repr
    ensures !last ==> m.complete && (|fs| > 1 ==> n.kids != [] && m !in LastOf(n.kids).repr)
  {
    SeenIs(n);
    var i := BelowKid(n, m);
    last := i == |fs[0].closed|;
    if !last {
      assert n.kids[i].tree == fs[0].closed[i];
      FinishedNodes(n.kids[i]);
      n.Open();
      n.First();
      if |fs| > 1 {
        KidsApart(n, i, |n.kids| - 1, m);
      }
    }
  }

  lemma KidsApart(n: Node, i: nat, j: nat, m: Node)
    requires n.Shell() && i < j < |n.kids| && m in n.kids[i].repr
    ensures m !in n.kids[j].repr
  {
    n.First();
  }

  /** The nodes without XT_COMPLETE are exactly the path from the root to the current element. */
  lemma {:induction false} IncompletePath(ups: seq<Node>, leaf: Node, fs: seq<Frame>, m: Node)
    requires |ups| + 1 == |fs| && PathTo(ups, leaf) && m in TopOf(ups, leaf).repr
    requires TopOf(ups, leaf).Valid() && TopOf(ups, leaf).tree == Plug(fs)
    requires forall i :: 0 <= i < |fs| ==> AllFinished(fs[i].closed)
    ensures !m.complete <==> m in ups + [leaf]
    decreases |ups|
  {
    hide *;
    var top := TopOf(ups, leaf);
    TopIs(ups, leaf);
    SeenIs(top);
    OpenHead(top, fs);
    if ups == [] {
      if m != top {
        var last := BelowOpen(top, fs, m);
      }
    } else {
      var us := ups[1..];
      PathTail(ups, leaf);
      OpenTail(top, TopOf(us, leaf), fs);
      assert ups + [leaf] == [top] + (us + [leaf]);
      OnPathInside(us, leaf, fs[1..]);
      if m != top {
        var last := BelowOpen(top, fs, m);
        if last {
          IncompletePath(us, leaf, fs[1..], m);
        }
      }
    }
  }

  lemma OpenHead(n: Node, fs: seq<Frame>)
    requires fs != [] && n.Valid() && n.tree == Plug(fs)
    ensures !n.complete
  {}

  lemma OpenTail(n: Node, c: Node, fs: seq<Frame>)
    requires |fs| > 1 && n.Valid() && n.tree == Plug(fs) && LastIs(n.kids, c)
    ensures c.Valid() && c.tree == Plug(fs[1..]) && n.kids != [] && LastOf(n.kids) == c
  {
    SeenIs(n);
  }

  lemma OnPathInside(ups: seq<Node>, leaf: Node, fs: seq<Frame>)
    requires |ups| + 1 == |fs| && PathTo(ups, leaf)
    requires TopOf(ups, leaf).Valid() && TopOf(ups, leaf).tree == Plug(fs)
    ensures forall m :: m in ups + [leaf] ==> m in TopOf(ups, leaf).repr
  {
    hide *;
    var spine := ups + [leaf];
    TopIs(ups, leaf);
    PathIs(ups, leaf);
    Descend(spine, fs);
    NestedIn(spine, Reprs(spine));
  }

  /** The elements that are still open. */
  ghost function OpenNodes(p: Parser): set<Node>
    reads p
  {
    if p.cur == null then {} else set n | n in p.ups + [p.cur]
  }

  /** In every valid state the allocated nodes without XT_COMPLETE are the open elements. */
  lemma Incomplete(p: Parser)
    requires p.Valid() && Tidy(p.doc)
    ensures forall m :: m in p.live ==> (!m.complete <==> m in OpenNodes(p))
  {
    match p.doc
    case Empty =>
    case Closed(t) =>
      FinishedNodes(p.root);
    case Open(fs) =>
      p.OpenParts(fs);
      forall m | m in p.live
        ensures !m.complete <==> m in OpenNodes(p)
      {
        IncompletePath(p.ups, p.cur, fs, m);
      }
  }

  /** After a round an open root has at most one child, which is still open. */
  lemma OneChild(p: Parser, fs: seq<Frame>)
    requires p.Valid() && p.doc == Open(fs) && fs != [] && fs[0].closed == []
    ensures p.root != null && |p.root.kids| == (if |fs| > 1 then 1 else 0)
    ensures |fs| > 1 ==> !p.root.kids[0].complete
  {
    p.OpenParts(fs);
    SeenIs(p.root);
    if |fs| > 1 {
      SeenIs(p.root.kids[0]);
    }
  }

  // ---------------------------------------------------------------- runs

  function Concat<T>(parts: seq<seq<T>>): seq<T> {
    if parts == [] then [] else parts[0] + Concat(parts[1..])
  }

  lemma {:induction false} AcceptsAppend(d: Doc, a: seq<Event>, b: seq<Event>)
    requires WellFormed(d) && AcceptsAll(d, a + b)
    ensures AcceptsAll(d, a) && AcceptsAll(FeedAll(d, a), b)
    ensures FeedAll(d, a + b) == FeedAll(FeedAll(d, a), b)
    decreases |a|
  {
    if a == [] {
      assert a + b == b;
    } else {
      assert (a + b)[1..] == a[1..] + b && (a + b)[0] == a[0];
      AcceptsAppend(Feed(d, a[0]), a[1..], b);
    }
  }

  lemma {:induction false} FeedAllTidy(d: Doc, es: seq<Event>)
    requires WellFormed(d) && AcceptsAll(d, es) && Tidy(d)
    ensures Tidy(FeedAll(d, es))
    decreases |es|
  {
    if es != [] {
      FeedTidy(d, es[0]);
      FeedAllTidy(Feed(d, es[0]), es[1..]);
    }
  }

  /** One callback of GMarkup. */
  method Callback(p: Parser, e: Event)
    requires p.Valid() && Accepts(p.doc, e)
    modifies p, p.live
    ensures p.Valid() && p.doc == Feed(old(p.doc), e)
    ensures forall n :: n in p.live ==> n in old(p.live) || fresh(n)
  {
    hide *;
    match e
    case Start(name, attrs) => p.StartElement(name, attrs);
    case Text(chars) => p.TextEvent(chars);
    case End => p.EndElement();
  }

  /** xt_feed. */
  method FeedBatch(p: Parser, es: seq<Event>)
    requires p.Valid() && WellFormed(p.doc) && AcceptsAll(p.doc, es)
    modifies p, p.live
    ensures p.Valid() && WellFormed(p.doc) && p.doc == FeedAll(old(p.doc), es)
    ensures forall n :: n in p.live ==> n in old(p.live) || fresh(n)
  {
    hide *;
    ghost var d := p.doc;
    for i := 0 to |es|
      invariant p.Valid() && WellFormed(p.doc) && AcceptsAll(p.doc, es[i..])
      invariant FeedAll(p.doc, es[i..]) == FeedAll(d, es)
      invariant forall n :: n in p.live ==> n in old(p.live) || fresh(n)
    {
      FeedStep(p.doc, es, i);
      Callback(p, es[i]);
    }
    FeedDone(p.doc, es[|es|..]);
  }

  lemma FeedStep(d: Doc, es: seq<Event>, i: nat)
    requires WellFormed(d) && i < |es| && AcceptsAll(d, es[i..])
    ensures Accepts(d, es[i]) && WellFormed(Feed(d, es[i])) && AcceptsAll(Feed(d, es[i]), es[i + 1..])
    ensures FeedAll(Feed(d, es[i]), es[i + 1..]) == FeedAll(d, es[i..])
  {
    assert es[i..][0] == es[i] && es[i..][1..] == es[i + 1..];
  }

  lemma FeedDone(d: Doc, es: seq<Event>)
    requires WellFormed(d) && es == []
    ensures AcceptsAll(d, es) && FeedAll(d, es) == d
  {}

  lemma Beginning(h: Handlers)
    ensures WellFormed(Empty) && Untouched(Empty) && Tidy(Empty) && Follows(h, Empty, Empty, [])
    ensures Concat<Event>([]) == [] && AcceptsAll(Empty, []) && FeedAll(Empty, []) == Empty
  {}

  lemma {:induction false} ConcatAppend<T>(a: seq<seq<T>>, b: seq<seq<T>>)
    ensures Concat(a + b) == Concat(a) + Concat(b)
  {
    if a == [] {
      assert a + b == b && [] + Concat(b) == Concat(b);
    } else {
      assert (a + b)[1..] == a[1..] + b && (a + b)[0] == a[0];
      ConcatAppend(a[1..], b);
      assert a[0] + (Concat(a[1..]) + Concat(b)) == a[0] + Concat(a[1..]) + Concat(b);
    }
  }

  /** The document that the first `j` batches make. */
  ghost function DocAt(batches: seq<seq<Event>>, j: nat): (d: Doc)
    requires AcceptsAll(Empty, Concat(batches)) && j <= |batches|
    ensures WellFormed(d)
  {
    PrefixAccepted(batches, j);
    FeedAll(Empty, Concat(batches[..j]))
  }

  lemma PrefixAccepted(batches: seq<seq<Event>>, j: nat)
    requires AcceptsAll(Empty, Concat(batches)) && j <= |batches|
    ensures AcceptsAll(Empty, Concat(batches[..j]))
  {
    assert batches == batches[..j] + batches[j..];
    ConcatAppend(batches[..j], batches[j..]);
    AcceptsAppend(Empty, Concat(batches[..j]), Concat(batches[j..]));
  }

  lemma NextBatch(batches: seq<seq<Event>>, j: nat)
    requires AcceptsAll(Empty, Concat(batches)) && j < |batches|
    ensures AcceptsAll(DocAt(batches, j), batches[j])
    ensures DocAt(batches, j + 1) == FeedAll(DocAt(batches, j), batches[j])
  {
    PrefixAccepted(batches, j + 1);
    assert batches[..j + 1] == batches[..j] + [batches[j]];
    ConcatAppend(batches[..j], [batches[j]]);
    assert [batches[j]][1..] == [] && Concat([batches[j]]) == batches[j];
    AcceptsAppend(Empty, Concat(batches[..j]), batches[j]);
  }

  /** After the `j`th batch there is nothing to handle: no element has begun, or the root was
      complete before that batch. */
  ghost predicate Idle(batches: seq<seq<Event>>, j: nat)
    requires AcceptsAll(Empty, Concat(batches)) && j <= |batches|
  {
    j > 0 && (DocAt(batches, j).Empty? || DocAt(batches, j - 1).Closed?)
  }

  /** No handler aborts for a child of the root that is finished in the first `j` batches. */
  ghost predicate Quiet(h: Handlers, batches: seq<seq<Event>>, j: nat)
    requires AcceptsAll(Empty, Concat(batches)) && j <= |batches|
  {
    var d := DocAt(batches, j);
    FirstAbort(h, RootName(d), RootKids(d)) == |RootKids(d)|
  }

  lemma FollowsQuiet(h: Handlers, batches: seq<seq<Event>>, j: nat, p: Doc, log: seq<Call>)
    requires AcceptsAll(Empty, Concat(batches)) && j <= |batches| && Follows(h, DocAt(batches, j), p, log)
    ensures Quiet(h, batches, j)
  {
    hide DocAt;
  }

  lemma StartsQuiet(h: Handlers, batches: seq<seq<Event>>)
    requires AcceptsAll(Empty, Concat(batches))
    ensures DocAt(batches, 0) == Empty && Quiet(h, batches, 0) && !Idle(batches, 0)
  {
    assert batches[..0] == [];
  }

  /** One turn of the read callback of the jabber module: a batch, and a round. */
  method Turn(p: Parser, batches: seq<seq<Event>>, i: nat, log: seq<Call>) returns (all: seq<Call>, ok: bool)
    requires AcceptsAll(Empty, Concat(batches)) && i < |batches|
    requires p.Valid() && WellFormed(p.doc) && Untouched(p.doc) && Tidy(p.doc)
    requires Follows(p.h, DocAt(batches, i), p.doc, log)
    modifies p, p.live
    ensures p.Valid() && WellFormed(p.doc) && forall n :: n in p.live ==> n in old(p.live) || fresh(n)
    ensures ok ==> Untouched(p.doc) && Tidy(p.doc) && Follows(p.h, DocAt(batches, i + 1), p.doc, all)
    ensures ok ==> !Idle(batches, i + 1)
    ensures !ok ==> if Idle(batches, i + 1) then p.doc == Empty && Follows(p.h, DocAt(batches, i + 1), p.doc, all)
                    else Broken(p.h, DocAt(batches, i + 1), all)
    ensures Tidy(p.doc)
  {
    hide *;
    ghost var dom, was := DocAt(batches, i), p.doc;
    NextBatch(batches, i);
    RoundFollows(p.h, dom, p.doc, log, batches[i]);
    FeedAllTidy(p.doc, batches[i]);
    FeedBatch(p, batches[i]);
    ghost var held := p.doc;
    DrainedTidy(held);
    HaltedTidy(p.h, held);
    IdleIs(batches, i, held);
    var calls;
    calls, ok := p.Round();
    all := log + calls;
    HeldEmpty(p.h, held);
  }

  lemma IdleIs(batches: seq<seq<Event>>, i: nat, held: Doc)
    requires AcceptsAll(Empty, Concat(batches)) && i < |batches|
    requires held.Empty? <==> DocAt(batches, i + 1).Empty? || DocAt(batches, i).Closed?
    ensures Idle(batches, i + 1) == held.Empty?
  {}

  lemma HeldEmpty(h: Handlers, d: Doc)
    requires WellFormed(d)
    ensures d.Empty? ==> !Aborted(h, d) && Drained(d) == d && Halted(h, d) == d
  {}

  lemma HaltedTidy(h: Handlers, d: Doc)
    requires WellFormed(d) && Tidy(d)
    ensures Tidy(Halted(h, d))
  {
    match d
    case Empty =>
    case Open(fs) => MarkedFinished(fs[0].closed, FirstAbort(h, fs[0].name, fs[0].closed));
    case Closed(t) => MarkedFinished(t.kids, FirstAbort(h, t.name, t.kids));
  }

  lemma MarkedFinished(ts: seq<Tree>, k: nat)
    requires AllFinished(ts) && k <= |ts|
    ensures AllFinished(MarkFirst(ts, k))
  {
    forall i | 0 <= i < |ts|
      ensures Finished(MarkFirst(ts, k)[i])
    {
      assert Finished(ts[i]);
    }
  }

  // ---------------------------------------------------------------- the log, by names

  /** `parts` are the calls for the nodes `ts` below an element `parent`. */
  ghost predicate PartsFor(h: Handlers, parent: string, ts: seq<Tree>, parts: seq<seq<Call>>) {
    |parts| == |ts| && forall k :: 0 <= k < |ts| ==> CallsFor(h, Some(parent), ts[k], parts[k])
  }

  lemma {:induction false} ChildParts(h: Handlers, parent: string, ts: seq<Tree>) returns (parts: seq<seq<Call>>)
    ensures PartsFor(h, parent, ts, parts) && Concat(parts) == ChildCalls(h, parent, ts)
  {
    hide CallsFor, Calls;
    if ts == [] {
      parts := [];
    } else {
      CallsRule(h, Some(parent), ts[0]);
      var rest := ChildParts(h, parent, ts[1..]);
      parts := [Calls(h, 0, Some(parent), ts[0])] + rest;
      assert parts[1..] == rest;
    }
  }

  /** The first `n` finished children of the root were dispatched, and then, if `top`, the root, as
      it was with its children from the `k`th on: a handler stopped the last of these dispatches
      exactly if `stopped`, and none before. */
  ghost predicate Account(h: Handlers, d: Doc, n: nat, top: bool, k: nat, parts: seq<seq<Call>>, last: seq<Call>, stopped: bool)
    requires WellFormed(d)
  {
    var kids, name := RootKids(d), RootName(d);
    && n <= |kids| && PartsFor(h, name, kids[..n], parts)
    && (forall i :: 0 <= i < n ==> (Stops(h, Some(name), kids[i]) <==> stopped && !top && i == n - 1))
    && (stopped && !top ==> n > 0)
    && (top ==> d.Closed? && k <= |kids| && CallsFor(h, None, RootAt(d.root, k), last)
                && (Stops(h, None, RootAt(d.root, k)) <==> stopped))
    && (!top ==> last == [])
    && (top || !stopped ==> n == |kids| && (d.Closed? ==> top))
  }

  /** The log of a run as the names in the table and in the document have it. */
  ghost predicate Logged(h: Handlers, d: Doc, log: seq<Call>, stopped: bool)
    requires WellFormed(d)
  {
    exists n, top, k, parts, last :: Account(h, d, n, top, k, parts, last, stopped) && log == Concat(parts) + last
  }

  lemma NoStop(h: Handlers, parent: string, ts: seq<Tree>, n: nat)
    requires n <= FirstAbort(h, parent, ts)
    ensures forall i :: 0 <= i < n ==> !Stops(h, Some(parent), ts[i])
  {
    hide Stops, Aborts;
    forall i | 0 <= i < n
      ensures !Stops(h, Some(parent), ts[i])
    {
      CallsRule(h, Some(parent), ts[i]);
    }
  }

  lemma FollowsLogged(h: Handlers, d: Doc, p: Doc, log: seq<Call>)
    requires WellFormed(d) && Follows(h, d, p, log)
    ensures Logged(h, d, log, false)
  {
    hide Stops, Aborts, CallsFor, ChildCalls, Calls, FirstAbort;
    var kids, name := RootKids(d), RootName(d);
    var parts := ChildParts(h, name, kids);
    assert kids[..|kids|] == kids;
    NoKids(h, name);
    NoStop(h, name, kids, |kids|);
    match d
    case Empty =>
      assert Concat(parts) + [] == log;
      assert Account(h, d, |kids|, false, 0, parts, [], false);
    case Open(fs) =>
      assert Concat(parts) + [] == log;
      assert Account(h, d, |kids|, false, 0, parts, [], false);
    case Closed(t) =>
      var k :| RootCalls(h, t, k, log, false);
      CallsRule(h, None, RootAt(t, k));
      assert Account(h, d, |kids|, true, k, parts, Calls(h, 0, None, RootAt(t, k)), false);
  }

  lemma NoKids(h: Handlers, name: string)
    ensures ChildCalls(h, name, []) == [] && FirstAbort(h, name, []) == 0
  {}

  lemma BrokenLogged(h: Handlers, d: Doc, log: seq<Call>)
    requires WellFormed(d) && Broken(h, d, log)
    ensures Logged(h, d, log, true)
  {
    hide Stops, Aborts, CallsFor, ChildCalls, Calls, FirstAbort;
    var kids, name := RootKids(d), RootName(d);
    var m := FirstAbort(h, name, kids);
    NoStop(h, name, kids, m);
    if m < |kids| {
      CallsRule(h, Some(name), kids[m]);
      var parts := ChildParts(h, name, kids[..m + 1]);
      assert Concat(parts) + [] == log;
      assert Account(h, d, m + 1, false, 0, parts, [], true);
    } else {
      var parts := ChildParts(h, name, kids);
      assert kids[..|kids|] == kids;
      var k :| RootCalls(h, d.root, k, log, true);
      CallsRule(h, None, RootAt(d.root, k));
      assert Account(h, d, |kids|, true, k, parts, Calls(h, 0, None, RootAt(d.root, k)), true);
    }
  }

  lemma RunLogged(h: Handlers, d: Doc, p: Doc, log: seq<Call>, stopped: bool)
    requires WellFormed(d) && if stopped then Broken(h, d, log) else Follows(h, d, p, log)
    ensures Logged(h, d, log, stopped)
  {
    if stopped {
      BrokenLogged(h, d, log);
    } else {
      FollowsLogged(h, d, p, log);
    }
  }

  /** Any document, cut into any batches, each followed by a round of handling and cleaning at
      depth 1, until a round has nothing to handle or a handler aborts it: what was dispatched and
      what is left is what the document says. */
  method Run(h: Handlers, batches: seq<seq<Event>>) returns (p: Parser, log: seq<Call>, fed: nat, ok: bool)
    requires AcceptsAll(Empty, Concat(batches))
    ensures fresh(p) && p.Valid() && fed <= |batches| && (ok ==> fed == |batches|)
    ensures forall j :: 0 <= j < fed || (ok && j == fed) ==> Quiet(h, batches, j) && !Idle(batches, j)
    ensures var d := DocAt(batches, fed);
            if ok then Follows(h, d, p.doc, log)
            else if Idle(batches, fed) then p.doc == Empty && Follows(h, d, p.doc, log)
            else Broken(h, d, log)
    ensures Logged(h, DocAt(batches, fed), log, !ok && !Idle(batches, fed))
    ensures forall m :: m in p.live ==> (!m.complete <==> m in OpenNodes(p))
  {
    hide *;
    p := new Parser(h);
    log, fed, ok := [], 0, true;
    Beginning(h);
    StartsQuiet(h, batches);
    while ok && fed < |batches|
      invariant fed <= |batches| && p.Valid() && p.h == h && WellFormed(p.doc) && Tidy(p.doc)
      invariant forall j :: 0 <= j < fed || (ok && j == fed) ==> Quiet(h, batches, j) && !Idle(batches, j)
      invariant ok ==> Untouched(p.doc) && Follows(h, DocAt(batches, fed), p.doc, log)
      invariant !ok ==>
                  if Idle(batches, fed) then p.doc == Empty && Follows(h, DocAt(batches, fed), p.doc, log)
                  else Broken(h, DocAt(batches, fed), log)
      invariant fresh(p) && forall n :: n in p.live ==> fresh(n)
      decreases |batches| - fed, ok
    {
      log, ok := Turn(p, batches, fed, log);
      fed := fed + 1;
      if ok {
        FollowsQuiet(h, batches, fed, p.doc, log);
      }
    }
    Incomplete(p);
    RunLogged(h, DocAt(batches, fed), p.doc, log, !ok && !Idle(batches, fed));
  }

  /** The read callback of the jabber module takes a round that answers false for an aborted one.
      The first read does that, with no handler called, exactly if it begins no element. */
  lemma NoHandlerAborted(h: Handlers, batches: seq<seq<Event>>)
    requires AcceptsAll(Empty, Concat(batches)) && batches != []
    ensures AcceptsAll(Empty, batches[0])
    ensures Idle(batches, 1) <==> forall i :: 0 <= i < |batches[0]| ==> !batches[0][i].Start?
  {
    NextBatch(batches, 0);
    StartsQuiet(h, batches);
    NothingBegun(batches[0]);
  }
}
