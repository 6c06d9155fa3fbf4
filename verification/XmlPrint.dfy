/** Printing, replaying and copying trees: xt_to_string_real and xt_dup of lib/xmltree.c. */
module XmlPrint {
  import opened Options
  import opened XmlNode
  import opened XmlParser
  import opened XmlRun
  import opened XmlStream
  import opened XmlTree

  // ---------------------------------------------------------------- printing and replaying

  /** GMarkup may hand over a text in any pieces. */
  type Cutter = string -> seq<string>

  function Flat(pieces: seq<string>): string {
    if pieces == [] then "" else pieces[0] + Flat(pieces[1..])
  }

  ghost predicate Cuts(cut: Cutter) {
    forall s :: Flat(cut(s)) == s
  }

  function Texts(pieces: seq<string>): seq<Event> {
    if pieces == [] then [] else [Text(pieces[0])] + Texts(pieces[1..])
  }

  /** What is printed for the text of a node: nothing when there is none or it is empty. */
  function TextOf(t: Option<string>): string {
    if t.None? then "" else t.value
  }

  function TextEvents(t: Option<string>, cut: Cutter): seq<Event> {
    if TextOf(t) == "" then [] else Texts(cut(TextOf(t)))
  }

  /** The markup that is printed for a tree, as the events it is read back as. */
  function Printed(t: Tree, cut: Cutter): seq<Event>
    decreases t, 1
  {
    [Start(t.name, t.attrs)] + TextEvents(t.text, cut) + PrintedKids(t.kids, cut) + [End]
  }

  function PrintedKids(ts: seq<Tree>, cut: Cutter): seq<Event>
    decreases ts, 0
  {
    if ts == [] then [] else Printed(ts[0], cut) + PrintedKids(ts[1..], cut)
  }

  /** `t` as the parser would have built it: complete, not seen, and no empty text. */
  function Rebuilt(t: Tree): Tree
    decreases t, 1
  {
    Tree(t.name, t.attrs, if TextOf(t.text) == "" then None else t.text, true, false, RebuiltKids(t.kids))
  }

  function RebuiltKids(ts: seq<Tree>): (r: seq<Tree>)
    decreases ts, 0
  {
    if ts == [] then [] else [Rebuilt(ts[0])] + RebuiltKids(ts[1..])
  }

  /** `t` becomes the next finished child of the current element, or the root. */
  function AddTree(d: Doc, t: Tree): Doc
    requires WellFormed(d) && !d.Closed?
  {
    if d.Empty? then Closed(t)
    else
      var n := |d.frames| - 1;
      Open(d.frames[n := d.frames[n].(closed := d.frames[n].closed + [t])])
  }

  /** Feeding `es` is accepted and leads from `d` to `r`. */
  ghost predicate Feeds(d: Doc, es: seq<Event>, r: Doc) {
    WellFormed(d) && WellFormed(r) && AcceptsAll(d, es) && FeedAll(d, es) == r
  }

  lemma {:induction false} FeedsAppend(d: Doc, a: seq<Event>, m: Doc, b: seq<Event>, r: Doc)
    requires Feeds(d, a, m) && Feeds(m, b, r)
    ensures Feeds(d, a + b, r)
    decreases |a|
  {
    if a == [] {
      assert a + b == b;
    } else {
      assert (a + b)[1..] == a[1..] + b && (a + b)[0] == a[0];
      FeedsAppend(Feed(d, a[0]), a[1..], m, b, r);
    }
  }

  lemma FeedsOne(d: Doc, e: Event)
    requires WellFormed(d) && Accepts(d, e)
    ensures Feeds(d, [e], Feed(d, e))
  {
    assert [e][1..] == [];
  }

  /** The pieces of a text add up. */
  lemma {:induction false} FeedsTexts(fs: seq<Frame>, f: Frame, pieces: seq<string>)
    requires Flat(pieces) != "" || f.text.Some?
    ensures Feeds(Open(fs + [f]), Texts(pieces), Open(fs + [f.(text := Some(TextOf(f.text) + Flat(pieces)))]))
    decreases |pieces|
  {
    if pieces == [] {
      assert TextOf(f.text) + "" == TextOf(f.text);
      assert f.(text := f.text) == f;
    } else {
      var d, e := Open(fs + [f]), Text(pieces[0]);
      var g := f.(text := AddText(f.text, pieces[0]));
      assert (fs + [f])[|fs| := g] == fs + [g];
      assert Feed(d, e) == Open(fs + [g]);
      FeedsOne(d, e);
      FeedsTexts(fs, g, pieces[1..]);
      assert TextOf(g.text) + Flat(pieces[1..]) == TextOf(f.text) + Flat(pieces);
      FeedsAppend(d, [e], Open(fs + [g]), Texts(pieces[1..]), Open(fs + [f.(text := Some(TextOf(f.text) + Flat(pieces)))]));
    }
  }

  lemma FeedsText(fs: seq<Frame>, f: Frame, text: Option<string>, cut: Cutter)
    requires Cuts(cut) && f.text == None
    ensures Feeds(Open(fs + [f]), TextEvents(text, cut),
                  Open(fs + [f.(text := if TextOf(text) == "" then None else text)]))
  {
    var s := TextOf(text);
    if s == "" {
      assert f.(text := None) == f;
    } else {
      assert Flat(cut(s)) == s;
      FeedsTexts(fs, f, cut(s));
      assert "" + s == s;
    }
  }

  lemma FeedsEnd(d: Doc, fs: seq<Frame>, f: Frame)
    requires WellFormed(d) && !d.Closed? && fs == (if d.Open? then d.frames else [])
    ensures Feeds(Open(fs + [f]), [End], AddTree(d, Seal(f)))
  {
    var o := Open(fs + [f]);
    FeedsOne(o, End);
    assert (fs + [f])[..|fs|] == fs && (fs + [f])[|fs|] == f;
    if fs != [] {
      assert (fs + [f])[|fs| - 1] == fs[|fs| - 1];
    }
  }

  lemma FeedsStart(d: Doc, fs: seq<Frame>, name: string, attrs: Attrs)
    requires WellFormed(d) && !d.Closed? && fs == (if d.Open? then d.frames else [])
    ensures Feeds(d, [Start(name, attrs)], Open(fs + [Frame(name, attrs, None, [])]))
  {
    FeedsOne(d, Start(name, attrs));
  }

  /** Reading back what is printed for a tree adds the same tree. */
  lemma {:induction false} Replay(d: Doc, t: Tree, cut: Cutter)
    requires WellFormed(d) && !d.Closed? && Cuts(cut)
    ensures Feeds(d, Printed(t, cut), AddTree(d, Rebuilt(t)))
    decreases t, 1
  {
    hide Feeds, Texts, TextEvents, Feed, AddTree;
    var fs := if d.Open? then d.frames else [];
    var f0 := Frame(t.name, t.attrs, None, []);
    var f1 := f0.(text := if TextOf(t.text) == "" then None else t.text);
    var f2 := f1.(closed := RebuiltKids(t.kids));
    FeedsStart(d, fs, t.name, t.attrs);
    FeedsText(fs, f0, t.text, cut);
    ReplayKids(fs, f1, t.kids, cut);
    assert f1.closed + RebuiltKids(t.kids) == RebuiltKids(t.kids);
    FeedsEnd(d, fs, f2);
    assert Seal(f2) == Rebuilt(t);
    FeedsAppend(d, [Start(t.name, t.attrs)], Open(fs + [f0]), TextEvents(t.text, cut), Open(fs + [f1]));
    FeedsAppend(d, [Start(t.name, t.attrs)] + TextEvents(t.text, cut), Open(fs + [f1]), PrintedKids(t.kids, cut), Open(fs + [f2]));
    FeedsAppend(d, [Start(t.name, t.attrs)] + TextEvents(t.text, cut) + PrintedKids(t.kids, cut), Open(fs + [f2]),
                [End], AddTree(d, Rebuilt(t)));
  }

  lemma {:induction false} ReplayKids(fs: seq<Frame>, f: Frame, ts: seq<Tree>, cut: Cutter)
    requires Cuts(cut)
    ensures Feeds(Open(fs + [f]), PrintedKids(ts, cut), Open(fs + [f.(closed := f.closed + RebuiltKids(ts))]))
    decreases ts, 0
  {
    hide Feeds, Printed, Rebuilt, AddTree, Feed, FeedAll, AcceptsAll, Accepts;
    if ts == [] {
      assert f.closed + [] == f.closed && f.(closed := f.closed) == f;
      FeedsNone(Open(fs + [f]));
    } else {
      var d := Open(fs + [f]);
      var g := f.(closed := f.closed + [Rebuilt(ts[0])]);
      Replay(d, ts[0], cut);
      AddTreeOpen(fs, f, Rebuilt(ts[0]));
      ReplayKids(fs, g, ts[1..], cut);
      assert g.closed + RebuiltKids(ts[1..]) == f.closed + RebuiltKids(ts);
      FeedsAppend(d, Printed(ts[0], cut), Open(fs + [g]), PrintedKids(ts[1..], cut),
                  Open(fs + [f.(closed := f.closed + RebuiltKids(ts))]));
    }
  }

  lemma AddTreeOpen(fs: seq<Frame>, f: Frame, t: Tree)
    ensures AddTree(Open(fs + [f]), t) == Open(fs + [f.(closed := f.closed + [t])])
  {
    assert (fs + [f])[|fs| := f.(closed := f.closed + [t])] == fs + [f.(closed := f.closed + [t])];
  }

  lemma FeedsNone(d: Doc)
    requires WellFormed(d)
    ensures Feeds(d, [], d)
  {}

  /** A tree that the parser has built is read back as it was, up to the mark of the dispatcher. */
  predicate Clear(t: Tree) {
    t.complete && !t.seen && t.text != Some("") && forall i :: 0 <= i < |t.kids| ==> Clear(t.kids[i])
  }

  lemma {:induction false} RebuiltClear(t: Tree)
    requires Clear(t)
    ensures Rebuilt(t) == t
    decreases t, 1
  {
    RebuiltClearKids(t.kids);
  }

  lemma {:induction false} RebuiltClearKids(ts: seq<Tree>)
    requires forall i :: 0 <= i < |ts| ==> Clear(ts[i])
    ensures RebuiltKids(ts) == ts
    decreases ts, 0
  {
    hide Clear, Rebuilt;
    if ts != [] {
      assert ts[0] in ts && ts == [ts[0]] + ts[1..];
      RebuiltClear(ts[0]);
      RebuiltClearKids(ts[1..]);
    }
  }

  // ---------------------------------------------------------------- on the linked nodes

  /** xt_to_string_real. */
  method Print(n: Node, cut: Cutter) returns (es: seq<Event>)
    requires n.Valid()
    ensures es == Printed(n.tree, cut)
    decreases n.repr
  {
    hide *;
    n.Open();
    n.First();
    PrintedIs(n.tree, cut);
    es := [Start(n.name, n.attrs)];
    var c := n.children;
    if n.text == None && c == null {
      NothingInside(n.tree, cut);
      return es + [End];
    }
    es := es + TextEvents(n.text, cut);
    ghost var i, head, ts := 0, es, Trees(n.kids);
    PrintedNone(cut);
    while c != null
      invariant 0 <= i <= |n.kids| && c == (if i < |n.kids| then n.kids[i] else null)
      invariant es + PrintedKids(ts[i..], cut) == head + PrintedKids(ts, cut)
      decreases |n.kids| - i
    {
      n.Kid(i);
      var more := Print(c, cut);
      PrintedStep(ts, i, cut);
      assert es + (more + PrintedKids(ts[i + 1..], cut)) == es + more + PrintedKids(ts[i + 1..], cut);
      es := es + more;
      c := c.next;
      i := i + 1;
    }
    assert ts[i..] == [];
    es := es + [End];
  }

  lemma PrintedIs(t: Tree, cut: Cutter)
    ensures Printed(t, cut) == [Start(t.name, t.attrs)] + TextEvents(t.text, cut) + PrintedKids(t.kids, cut) + [End]
  {}

  lemma PrintedNone(cut: Cutter)
    ensures PrintedKids([], cut) == []
  {}

  lemma PrintedStep(ts: seq<Tree>, i: nat, cut: Cutter)
    requires i < |ts|
    ensures PrintedKids(ts[i..], cut) == Printed(ts[i], cut) + PrintedKids(ts[i + 1..], cut)
  {
    assert ts[i..][0] == ts[i] && ts[i..][1..] == ts[i + 1..];
  }

  lemma NothingInside(t: Tree, cut: Cutter)
    requires t.text == None && t.kids == []
    ensures TextEvents(t.text, cut) == [] && PrintedKids(t.kids, cut) == []
  {}

  /** xt_from_string on markup that GMarkup accepts. */
  method Parse(es: seq<Event>) returns (n: Node?)
    requires AcceptsAll(Empty, es)
    ensures n == null <==> FeedAll(Empty, es).Empty?
    ensures n != null ==> n.Valid() && fresh(n.repr) && Some(n.tree) == RootOf(FeedAll(Empty, es))
  {
    var p := new Parser(Handlers([], (id, t) => Handled));
    FeedBatch(p, es);
    n := p.root;
  }

  /** Printing a tree and parsing the result gives a new tree with the same names, attributes,
      texts and children. */
  method Reparse(n: Node, cut: Cutter) returns (m: Node?)
    requires n.Valid() && Cuts(cut)
    ensures m != null && m.Valid() && fresh(m.repr) && m.tree == Rebuilt(n.tree)
  {
    hide *;
    var es := Print(n, cut);
    ReplayRoot(n.tree, cut);
    m := Parse(es);
  }

  lemma ReplayRoot(t: Tree, cut: Cutter)
    requires Cuts(cut)
    ensures AcceptsAll(Empty, Printed(t, cut)) && FeedAll(Empty, Printed(t, cut)) == Closed(Rebuilt(t))
    ensures RootOf(FeedAll(Empty, Printed(t, cut))) == Some(Rebuilt(t))
  {
    Replay(Empty, t, cut);
  }
}
