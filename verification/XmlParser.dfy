/** The parser object of lib/xmltree.c: its callbacks build, dispatch and free the linked tree. */
module XmlParser {
  import opened Options
  import opened XmlNode
  import opened XmlStream
  import opened XmlTree

  /** `t` below the open elements `fs`. */
  function Graft(fs: seq<Frame>, t: Tree): Tree {
    if fs == [] then t
    else Tree(fs[0].name, fs[0].attrs, fs[0].text, false, false, fs[0].closed + [Graft(fs[1..], t)])
  }

  lemma {:induction false} PlugGraft(fs: seq<Frame>, gs: seq<Frame>)
    requires gs != []
    ensures Plug(fs + gs) == Graft(fs, Plug(gs))
  {
    if fs == [] {
      assert fs + gs == gs;
    } else {
      assert (fs + gs)[1..] == fs[1..] + gs;
      PlugGraft(fs[1..], gs);
    }
  }

  lemma {:induction false} GraftSnoc(fs: seq<Frame>, f: Frame, t: Tree)
    ensures Graft(fs + [f], t) == Graft(fs, Tree(f.name, f.attrs, f.text, false, false, f.closed + [t]))
  {
    if fs == [] {
      assert fs + [f] == [f] && [f][1..] == [];
    } else {
      assert (fs + [f])[1..] == fs[1..] + [f];
      GraftSnoc(fs[1..], f, t);
    }
  }

  /** What each event does to the tree, seen from the element it touches. */
  lemma FeedText(d: Doc, n: nat, chars: string, was: Tree, now: Tree) returns (r: Doc)
    requires d.Open? && n + 1 == |d.frames|
    requires was == Plug([d.frames[n]]) && now == was.(text := AddText(was.text, chars))
    ensures WellFormed(d) && Accepts(d, Text(chars)) && r == Feed(d, Text(chars))
    ensures r.Open? && |r.frames| == |d.frames|
    ensures Plug(r.frames) == Graft(d.frames[..n], now)
  {
    var fs := d.frames;
    var g := fs[n].(text := AddText(fs[n].text, chars));
    r := Feed(d, Text(chars));
    PlugGraft(fs[..n], [g]);
    assert fs[n := g] == fs[..n] + [g];
  }

  lemma FeedStart(d: Doc, n: nat, name: string, attrs: Attrs, was: Tree, now: Tree) returns (r: Doc)
    requires d.Open? && n + 1 == |d.frames|
    requires was == Plug([d.frames[n]]) && now == was.(kids := was.kids + [Tree(name, attrs, None, false, false, [])])
    ensures WellFormed(d) && Accepts(d, Start(name, attrs)) && r == Feed(d, Start(name, attrs))
    ensures r.Open? && |r.frames| == |d.frames| + 1
    ensures Plug(r.frames) == Graft(d.frames[..n], now)
  {
    var fs := d.frames;
    var g := Frame(name, attrs, None, []);
    r := Feed(d, Start(name, attrs));
    PlugGraft(fs[..n], [fs[n], g]);
    assert fs + [g] == fs[..n] + [fs[n], g];
    assert [fs[n], g][1..] == [g];
    assert fs[n].closed + [] == fs[n].closed;
    assert Plug([g]) == Tree(name, attrs, None, false, false, []);
  }

  lemma FeedEnd(d: Doc, n: nat, was: Tree, now: Tree) returns (r: Doc)
    requires d.Open? && n + 1 == |d.frames|
    requires was == Plug([d.frames[n]]) && now == was.(complete := true)
    ensures WellFormed(d) && Accepts(d, End) && r == Feed(d, End)
    ensures if n == 0 then r == Closed(Graft(d.frames[..n], now))
            else r.Open? && |r.frames| == n && Plug(r.frames) == Graft(d.frames[..n], now)
  {
    var fs := d.frames;
    r := Feed(d, End);
    var t := Seal(fs[n]);
    assert t == Plug([fs[n]]).(complete := true) by {
      assert fs[n].closed + [] == fs[n].closed;
    }
    if n > 0 {
      EndGraft(fs, t);
    }
  }

  lemma EndGraft(fs: seq<Frame>, t: Tree)
    requires |fs| > 1
    ensures var n := |fs| - 1;
            var f := fs[n - 1].(closed := fs[n - 1].closed + [t]);
            Plug(fs[..n][n - 1 := f]) == Graft(fs[..n], t)
  {
    hide *;
    var n := |fs| - 1;
    var f := fs[n - 1];
    var g := f.(closed := f.closed + [t]);
    GraftSnoc(fs[..n - 1], f, t);
    assert fs[..n] == fs[..n - 1] + [f];
    PlugGraft(fs[..n - 1], [g]);
    assert fs[..n][n - 1 := g] == fs[..n - 1] + [g];
    PlugOne(g);
  }

  lemma PlugOne(f: Frame)
    ensures Plug([f]) == Tree(f.name, f.attrs, f.text, false, false, f.closed)
  {
    assert f.closed + [] == f.closed;
  }

  // ---------------------------------------------------------------- the path of open elements

  /** `spine` leads from the root along last children. */
  ghost predicate Path(spine: seq<Node>)
    reads spine`kids
  {
    spine != [] &&
    forall i :: 0 <= i < |spine| - 1 ==> spine[i].kids != [] && spine[i + 1] == LastOf(spine[i].kids)
  }

  function LastOf<T>(s: seq<T>): T
    requires s != []
  {
    s[|s| - 1]
  }

  ghost function Reprs(spine: seq<Node>): (r: seq<set<Node>>)
    reads spine`repr
    ensures |r| == |spine|
    ensures forall i :: 0 <= i < |spine| ==> r[i] == spine[i].repr
  {
    if spine == [] then [] else [spine[0].repr] + Reprs(spine[1..])
  }

  /** Each subtree on the path lies inside the one above it. */
  ghost predicate Nested(spine: seq<Node>, was: seq<set<Node>>) {
    && |was| == |spine|
    && (forall i, j :: 0 <= i <= j < |spine| ==> was[j] <= was[i] && spine[j] in was[i])
    && (forall i, j :: 0 <= i < j < |spine| ==> spine[i] !in was[j])
  }

  /** One step down the path. */
  lemma Down(spine: seq<Node>, fs: seq<Frame>)
    requires Path(spine) && |spine| == |fs| > 1
    requires spine[0].Valid() && spine[0].tree == Plug(fs)
    ensures var c := spine[1];
            && spine[0].Lent(c.repr) && spine[0].Holds(fs[0])
            && c.Valid() && c.tree == Plug(fs[1..]) && c.parent == spine[0]
            && c.repr <= spine[0].repr && spine[0] !in c.repr && c in c.repr
    ensures Path(spine[1..])
  {
    var n := spine[0];
    n.Lend();
    n.Open();
    var c := spine[1];
    assert n.kids == FrontOf(n.kids) + [c];
    assert spine[1..][0] == c;
    forall i | 0 <= i < |spine| - 2
      ensures spine[1..][i].kids != [] && spine[1..][i + 1] == LastOf(spine[1..][i].kids)
    {
      assert spine[1..][i] == spine[i + 1];
    }
    NoLoop(n, c);
    PlugUnfold(fs);
    assert Trees(FrontOf(n.kids)) + [c.tree] == fs[0].closed + [Plug(fs[1..])];
    LastEqual(Trees(FrontOf(n.kids)), c.tree, fs[0].closed, Plug(fs[1..]));
  }

  lemma NoLoop(n: Node, c: Node)
    requires n.Lent(c.repr)
    ensures n !in c.repr
  {}

  lemma PlugUnfold(fs: seq<Frame>)
    requires |fs| > 1
    ensures Plug(fs) == Tree(fs[0].name, fs[0].attrs, fs[0].text, false, false, fs[0].closed + [Plug(fs[1..])])
  {}

  lemma LastEqual<T>(a: seq<T>, x: T, b: seq<T>, y: T)
    requires a + [x] == b + [y]
    ensures a == b && x == y
  {
    assert |a| == |b|;
    assert a == (a + [x])[..|a|] && b == (b + [y])[..|b|];
    assert x == (a + [x])[|a|] && y == (b + [y])[|b|];
  }

  lemma NestedCons(n: Node, rest: seq<Node>, all: set<Node>, was: seq<set<Node>>)
    requires Nested(rest, was) && rest != [] && was[0] <= all && n in all && n !in was[0]
    ensures Nested([n] + rest, [all] + was)
  {
    forall i, j | 0 <= i <= j < |rest| + 1
      ensures ([all] + was)[j] <= ([all] + was)[i] && ([n] + rest)[j] in ([all] + was)[i]
    {
      if i > 0 {
        assert was[j - 1] <= was[i - 1] && rest[j - 1] in was[i - 1];
      } else if j > 0 {
        assert was[j - 1] <= was[0] && rest[j - 1] in was[0];
      }
    }
    forall i, j | 0 <= i < j < |rest| + 1
      ensures ([n] + rest)[i] !in ([all] + was)[j]
    {
      if i > 0 {
        assert rest[i - 1] !in was[j - 1];
      } else {
        assert was[j - 1] <= was[0];
      }
    }
  }

  /** What is known of the path when its root is valid and plugs `fs`. */
  ghost predicate Descended(spine: seq<Node>, fs: seq<Frame>)
    requires |spine| == |fs|
    reads *
  {
    && (forall i :: 0 <= i < |spine| ==> spine[i].Valid() && spine[i].tree == Plug(fs[i..]))
    && (forall i :: 0 < i < |spine| ==> spine[i].parent == spine[i - 1])
    && (forall i :: 0 <= i < |spine| - 1 ==> spine[i].Lent(spine[i + 1].repr) && spine[i].Holds(fs[i]))
  }

  lemma DescendOne(spine: seq<Node>, fs: seq<Frame>)
    requires |spine| == |fs| == 1 && spine[0].Valid() && spine[0].tree == Plug(fs)
    ensures Descended(spine, fs)
  {
    assert fs[0..] == fs;
  }

  lemma DescendCons(spine: seq<Node>, fs: seq<Frame>)
    requires |spine| == |fs| > 1 && spine[0].Valid() && spine[0].tree == Plug(fs)
    requires spine[1].parent == spine[0] && spine[0].Lent(spine[1].repr) && spine[0].Holds(fs[0])
    requires Descended(spine[1..], fs[1..])
    ensures Descended(spine, fs)
  {
    hide Plug;
    assert fs[0..] == fs;
    var rest, gs := spine[1..], fs[1..];
    forall i | 0 < i < |spine|
      ensures spine[i].Valid() && spine[i].tree == Plug(fs[i..]) && spine[i].parent == spine[i - 1]
    {
      assert spine[i] == rest[i - 1] && fs[i..] == gs[i - 1..];
      if i > 1 {
        assert spine[i - 1] == rest[i - 2];
      }
    }
    forall i | 0 <= i < |spine| - 1
      ensures spine[i].Lent(spine[i + 1].repr) && spine[i].Holds(fs[i])
    {
      if i > 0 {
        assert spine[i] == rest[i - 1] && spine[i + 1] == rest[i] && fs[i] == gs[i - 1];
      }
    }
  }

  /** Going down the path, every node is a valid tree that plugs the remaining frames. */
  lemma {:induction false} Descend(spine: seq<Node>, fs: seq<Frame>)
    requires Path(spine) && |spine| == |fs|
    requires spine[0].Valid() && spine[0].tree == Plug(fs)
    ensures Descended(spine, fs) && Nested(spine, Reprs(spine))
    decreases |spine|
  {
    hide *;
    PathSome(spine);
    spine[0].Member(spine[0]);
    if |spine| == 1 {
      DescendOne(spine, fs);
      NestedOne(spine);
    } else {
      Down(spine, fs);
      Descend(spine[1..], fs[1..]);
      DescendCons(spine, fs);
      NestedCons(spine[0], spine[1..], spine[0].repr, Reprs(spine[1..]));
      assert [spine[0]] + spine[1..] == spine && [spine[0].repr] + Reprs(spine[1..]) == Reprs(spine);
    }
  }

  lemma PathSome(spine: seq<Node>)
    requires Path(spine)
    ensures spine != []
  {}

  lemma NestedOne(spine: seq<Node>)
    requires |spine| == 1 && spine[0] in spine[0].repr
    ensures Nested(spine, Reprs(spine))
  {}

  /** The node below the `i`th of the elements `ups`, which lead down to `leaf`. */
  function UnderOf(ups: seq<Node>, leaf: Node, i: nat): (r: Node)
    ensures r == leaf || r in ups
  {
    if i + 1 < |ups| then ups[i + 1] else leaf
  }

  /** What is known of the open element `n` while the node `next` below it is being changed:
      `all` and `was` are the nodes the two subtrees had, `others` may not be touched. */
  ghost predicate Above(n: Node, next: Node, f: Frame, all: set<Node>, was: set<Node>, others: set<Node>)
    reads n`children, n`kids, n`repr, n`text, n`complete, n`seen, next`parent, next`next, others
  {
    && n.kids != [] && LastOf(n.kids) == next
    && (forall k :: k in FrontOf(n.kids) ==> k in others && k.repr <= others)
    && (forall k :: k in n.kids ==> k == next || k in others)
    && n.Lent(was) && n.Holds(f) && n.repr == all
  }

  /** The open elements `ups` above a node that is being changed; `was` holds the nodes that each
      subtree on the way down had before. */
  ghost predicate Lifted(ups: seq<Node>, leaf: Node, fs: seq<Frame>, was: seq<set<Node>>, others: set<Node>)
    reads ups`children, ups`kids, ups`repr, ups`text, ups`complete, ups`seen
    reads ups`parent, ups`next, leaf`parent, leaf`next, others
  {
    && |ups| == |fs| && |was| == |fs| + 1
    && forall i :: 0 <= i < |fs| ==> Above(ups[i], UnderOf(ups, leaf, i), fs[i], was[i], was[i + 1], others)
  }

  lemma LiftedTail(ups: seq<Node>, leaf: Node, fs: seq<Frame>, was: seq<set<Node>>, others: set<Node>)
    requires Lifted(ups, leaf, fs, was, others) && fs != []
    ensures |ups| == |fs| && |was| == |fs| + 1
    ensures Lifted(ups[1..], leaf, fs[1..], was[1..], others)
    ensures Above(ups[0], UnderOf(ups, leaf, 0), fs[0], was[0], was[1], others)
  {
    hide Above;
    var u, w, g := ups[1..], was[1..], fs[1..];
    forall i | 0 <= i < |g|
      ensures Above(u[i], UnderOf(u, leaf, i), g[i], w[i], w[i + 1], others)
    {
      assert u[i] == ups[i + 1] && w[i] == was[i + 1] && w[i + 1] == was[i + 2] && g[i] == fs[i + 1];
      assert UnderOf(u, leaf, i) == UnderOf(ups, leaf, i + 1);
    }
  }

  lemma NestedTail(ups: seq<Node>, leaf: Node, was: seq<set<Node>>)
    requires Nested(ups + [leaf], was) && ups != []
    ensures Nested(ups[1..] + [leaf], was[1..]) && was[1] <= was[0]
    ensures |was| == |ups| + 1 && ups[0] !in was[1] && forall n :: n in ups[1..] ==> n in was[1]
  {
    var t, w := ups[1..] + [leaf], was[1..];
    assert t == (ups + [leaf])[1..];
    assert forall i :: 0 <= i < |t| ==> t[i] == (ups + [leaf])[i + 1] && w[i] == was[i + 1];
    forall n | n in ups[1..]
      ensures n in was[1]
    {
      var i :| 0 <= i < |ups| - 1 && ups[1..][i] == n;
      assert (ups + [leaf])[i + 1] == n;
    }
  }

  ghost function Others(ups: seq<Node>, all: set<Node>, below: set<Node>): set<Node> {
    set n | n in all && n !in below && n !in ups
  }

  lemma IsAbove(ups: seq<Node>, leaf: Node, i: nat, f: Frame, was: seq<set<Node>>)
    requires Nested(ups + [leaf], was) && i < |ups| && LastChild(ups[i], UnderOf(ups, leaf, i))
    requires ups[i].Lent(was[i + 1]) && ups[i].Holds(f) && ups[i].repr == was[i]
    ensures Above(ups[i], UnderOf(ups, leaf, i), f, was[i], was[i + 1], Others(ups, was[0], was[|ups|]))
  {
    var n, next, others := ups[i], UnderOf(ups, leaf, i), Others(ups, was[0], was[|ups|]);
    assert n.kids == FrontOf(n.kids) + [next];
    forall k | k in FrontOf(n.kids)
      ensures k in others && k.repr <= others
    {
      LentFront(n, was[i + 1], k);
      BesidePath(ups, leaf, was, i, k.repr);
    }
  }

  predicate LastIs<T(==)>(s: seq<T>, x: T) {
    s != [] && LastOf(s) == x
  }

  ghost predicate LastChild(n: Node, next: Node)
    reads n`kids
  {
    LastIs(n.kids, next)
  }

  lemma LentFront(n: Node, was: set<Node>, k: Node)
    requires n.Lent(was) && k in FrontOf(n.kids)
    ensures k in k.repr && k.repr !! was && n !in k.repr && k.repr <= n.repr
  {
    var i :| 0 <= i < |FrontOf(n.kids)| && FrontOf(n.kids)[i] == k;
    UnionIn(FrontOf(n.kids), i);
  }

  /** Every element of the path is below, at or above the `i`th. */
  lemma OnPath(ups: seq<Node>, leaf: Node, was: seq<set<Node>>, i: nat, n: Node)
    requires Nested(ups + [leaf], was) && i < |ups| && n in ups
    ensures n in was[i + 1] || n == ups[i] || n !in was[i]
  {
    var spine := ups + [leaf];
    var j :| 0 <= j < |ups| && ups[j] == n;
    assert spine[j] == n;
  }

  lemma BesidePath(ups: seq<Node>, leaf: Node, was: seq<set<Node>>, i: nat, s: set<Node>)
    requires Nested(ups + [leaf], was) && i < |ups|
    requires s <= was[i] && s !! was[i + 1] && ups[i] !in s
    ensures s <= Others(ups, was[0], was[|ups|])
  {
    forall n | n in ups
      ensures n !in s
    {
      OnPath(ups, leaf, was, i, n);
    }
    assert was[|ups|] <= was[i + 1] && was[i] <= was[0] by {
      var spine := ups + [leaf];
      assert spine[0] in was[0];
    }
  }

  lemma Lifting(ups: seq<Node>, leaf: Node, fs: seq<Frame>)
    requires |ups| + 1 == |fs| && Path(ups + [leaf]) && Descended(ups + [leaf], fs)
    requires Nested(ups + [leaf], Reprs(ups + [leaf]))
    ensures var was := Reprs(ups + [leaf]);
            && leaf.Valid() && leaf.tree == Plug([fs[|fs| - 1]]) && leaf.repr == was[|ups|]
            && Lifted(ups, leaf, fs[..|fs| - 1], was, Others(ups, was[0], was[|ups|]))
  {
    hide Plug, Node.Valid, Node.Lent, Node.Holds, Above, Nested, Others;
    var n, spine, was := |ups|, ups + [leaf], Reprs(ups + [leaf]);
    assert spine[n] == leaf && fs[n..] == [fs[n]];
    forall i | 0 <= i < n
      ensures Above(ups[i], UnderOf(ups, leaf, i), fs[..n][i], was[i], was[i + 1], Others(ups, was[0], was[n]))
    {
      assert fs[..n][i] == fs[i] && spine[i] == ups[i] && spine[i + 1] == UnderOf(ups, leaf, i);
      IsAbove(ups, leaf, i, fs[i], was);
    }
  }

  lemma AboveFacts(n: Node, next: Node, f: Frame, all: set<Node>, was: set<Node>, others: set<Node>)
    requires Above(n, next, f, all, was, others)
    ensures n.Lent(was) && n.Holds(f) && n.repr == all && n.kids != [] && n.kids[|n.kids| - 1] == next
  {}

  lemma GraftNone(t: Tree)
    ensures Graft([], t) == t
  {}

  lemma GraftSome(fs: seq<Frame>, t: Tree)
    requires fs != []
    ensures Graft(fs, t) == Tree(fs[0].name, fs[0].attrs, fs[0].text, false, false, fs[0].closed + [Graft(fs[1..], t)])
  {}

  /** Make every element above the changed one valid again. */
  ghost method Reseal(ups: seq<Node>, leaf: Node, fs: seq<Frame>, was: seq<set<Node>>, others: set<Node>, extra: set<Node>)
    returns (top: Node)
    requires Lifted(ups, leaf, fs, was, others) && Nested(ups + [leaf], was)
    requires |was| == |fs| + 1 && extra !! was[0] && forall n :: n in ups ==> n !in others
    requires leaf.Valid() && leaf.repr == was[|fs|] + extra
    modifies ups`repr, ups`tree
    ensures top == TopOf(ups, leaf)
    ensures top.Valid() && top.tree == Graft(fs, leaf.tree) && top.repr == was[0] + extra
    decreases |fs|
  {
    hide *;
    TopIs(ups, leaf);
    if fs == [] {
      LiftedNone(ups, leaf, fs, was, others);
      GraftNone(leaf.tree);
      top := leaf;
    } else {
      LiftedTail(ups, leaf, fs, was, others);
      NestedTail(ups, leaf, was);
      top := ups[0];
      ghost var next := UnderOf(ups, leaf, 0);
      UnderFirst(ups, leaf);
      ghost var below := Reseal(ups[1..], leaf, fs[1..], was[1..], others, extra);
      AboveFacts(top, next, fs[0], was[0], was[1], others);
      top.Lift(was[1], extra, fs[0]);
      GraftSome(fs, leaf.tree);
    }
  }

  lemma LiftedNone(ups: seq<Node>, leaf: Node, fs: seq<Frame>, was: seq<set<Node>>, others: set<Node>)
    requires Lifted(ups, leaf, fs, was, others) && fs == []
    ensures ups == []
  {}

  lemma UnderFirst(ups: seq<Node>, leaf: Node)
    requires ups != []
    ensures UnderOf(ups, leaf, 0) == TopOf(ups[1..], leaf)
  {}

  /** A leaf below `ups` that may be changed. */
  ghost predicate Loose(ups: seq<Node>, leaf: Node, fs: seq<Frame>, was: seq<set<Node>>, others: set<Node>)
    reads *
  {
    && |was| == |fs| + 1 && leaf.Valid() && leaf in leaf.repr && was[|fs|] == leaf.repr
    && Lifted(ups, leaf, fs, was, others) && Nested(ups + [leaf], was)
    && others !! leaf.repr && forall n :: n in ups ==> n !in others && n !in leaf.repr
  }

  lemma LooseFacts(ups: seq<Node>, leaf: Node, fs: seq<Frame>, was: seq<set<Node>>, others: set<Node>)
    requires Loose(ups, leaf, fs, was, others)
    ensures |was| == |fs| + 1 && leaf.Valid() && leaf in leaf.repr && was[|fs|] == leaf.repr
    ensures Lifted(ups, leaf, fs, was, others) && Nested(ups + [leaf], was)
    ensures others !! leaf.repr && forall n :: n in ups ==> n !in others && n !in leaf.repr
  {}

  lemma MakeLoose(ups: seq<Node>, leaf: Node, fs: seq<Frame>, was: seq<set<Node>>)
    requires |was| == |fs| + 1 && leaf.Valid() && was[|fs|] == leaf.repr
    requires |ups| == |fs| && Nested(ups + [leaf], was) && Lifted(ups, leaf, fs, was, Others(ups, was[0], leaf.repr))
    ensures Loose(ups, leaf, fs, was, Others(ups, was[0], leaf.repr))
  {
    hide Node.Valid, Lifted;
    leaf.Member(leaf);
    var spine := ups + [leaf];
    forall n | n in ups
      ensures n !in leaf.repr
    {
      var i :| 0 <= i < |ups| && ups[i] == n;
      assert spine[i] == n && spine[i] !in was[|ups|];
    }
  }

  /** What each callback does to the current element leaves the elements above it as they are. */
  method TextAt(leaf: Node, chars: string, ghost ups: seq<Node>, ghost fs: seq<Frame>, ghost was: seq<set<Node>>,
                ghost others: set<Node>)
    requires Loose(ups, leaf, fs, was, others)
    modifies leaf`text, leaf`tree
    ensures leaf.Valid() && leaf.tree == old(leaf.tree).(text := AddText(old(leaf.tree).text, chars))
    ensures Lifted(ups, leaf, fs, was, others)
  {
    hide *;
    LooseFacts(ups, leaf, fs, was, others);
    leaf.AddText(chars);
  }

  method EndAt(leaf: Node, ghost ups: seq<Node>, ghost fs: seq<Frame>, ghost was: seq<set<Node>>, ghost others: set<Node>)
    requires Loose(ups, leaf, fs, was, others)
    modifies leaf`complete, leaf`tree
    ensures leaf.Valid() && leaf.tree == old(leaf.tree).(complete := true)
    ensures Lifted(ups, leaf, fs, was, others)
  {
    hide *;
    LooseFacts(ups, leaf, fs, was, others);
    leaf.Complete();
  }

  method StartAt(leaf: Node, node: Node, ghost ups: seq<Node>, ghost fs: seq<Frame>, ghost was: seq<set<Node>>,
                 ghost others: set<Node>)
    requires Loose(ups, leaf, fs, was, others)
    requires node.Valid() && node.repr !! leaf.repr && node.next == null && node.parent == leaf
    modifies leaf`children, leaf`kids, leaf`repr, leaf`tree, leaf.kids`next
    ensures leaf.Valid() && leaf.repr == old(leaf.repr) + node.repr && leaf.kids == old(leaf.kids) + [node]
    ensures leaf.tree == old(leaf.tree).(kids := old(leaf.tree).kids + [node.tree])
    ensures Lifted(ups, leaf, fs, was, others)
  {
    hide *;
    LooseFacts(ups, leaf, fs, was, others);
    KidsInside(leaf);
    leaf.AppendChild(node);
  }

  lemma KidsInside(n: Node)
    requires n.Valid()
    ensures forall k :: k in n.kids ==> k in n.repr && k != n
  {}

  /** The elements `ups` lead along last children down to `leaf`. */
  ghost predicate PathTo(ups: seq<Node>, leaf: Node)
    reads ups`kids
  {
    forall i :: 0 <= i < |ups| ==> LastIs(ups[i].kids, UnderOf(ups, leaf, i))
  }

  lemma PathIs(ups: seq<Node>, leaf: Node)
    requires PathTo(ups, leaf)
    ensures Path(ups + [leaf])
  {
    var spine := ups + [leaf];
    assert forall i :: 0 <= i < |ups| ==> spine[i] == ups[i] && spine[i + 1] == UnderOf(ups, leaf, i);
  }

  lemma PathDown(ups: seq<Node>, leaf: Node, node: Node)
    requires PathTo(ups, leaf) && LastIs(leaf.kids, node)
    ensures PathTo(ups + [leaf], node)
  {
    var us := ups + [leaf];
    assert forall i :: 0 <= i < |ups| ==> us[i] == ups[i] && UnderOf(us, node, i) == UnderOf(ups, leaf, i);
  }

  lemma PathUp(ups: seq<Node>, leaf: Node)
    requires PathTo(ups, leaf) && ups != []
    ensures PathTo(ups[..|ups| - 1], ups[|ups| - 1])
  {
    var us, l := ups[..|ups| - 1], ups[|ups| - 1];
    assert forall i :: 0 <= i < |us| ==> us[i] == ups[i] && UnderOf(us, l, i) == UnderOf(ups, leaf, i);
  }

  lemma PathTop(node: Node)
    ensures PathTo([], node)
  {}

  function TopOf(ups: seq<Node>, leaf: Node): Node {
    if ups == [] then leaf else ups[0]
  }

  lemma TopIs(ups: seq<Node>, leaf: Node)
    ensures TopOf(ups, leaf) == (ups + [leaf])[0]
    ensures TopOf(ups, leaf) == if ups == [] then leaf else ups[0]
  {}

  lemma PathTail(ups: seq<Node>, leaf: Node)
    requires PathTo(ups, leaf) && ups != []
    ensures PathTo(ups[1..], leaf) && LastIs(ups[0].kids, TopOf(ups[1..], leaf))
  {
    var t := ups[1..];
    assert forall i :: 0 <= i < |t| ==> t[i] == ups[i + 1] && UnderOf(t, leaf, i) == UnderOf(ups, leaf, i + 1);
  }

  lemma SeenIs(n: Node)
    requires n.Valid()
    ensures n.tree.seen == n.seen && |n.tree.kids| == |n.kids|
    ensures forall i :: 0 <= i < |n.kids| ==> n.kids[i].Valid() && n.kids[i].tree == n.tree.kids[i]
    ensures forall i :: 0 <= i < |n.kids| ==> n.kids[i].repr <= n.repr && n.kids[i] in n.kids[i].repr
  {}

  lemma PlugUnseen(fs: seq<Frame>)
    requires fs != []
    ensures !Plug(fs).seen && !Plug(fs).complete
  {}

  /** After a round of handling no open element below the root is marked. */
  lemma PathUnseen(ups: seq<Node>, leaf: Node, fs: seq<Frame>)
    requires PathTo(ups, leaf) && |ups| + 1 == |fs| && ups != [] && ups[0].Valid()
    requires ups[0].tree.kids != [] && LastOf(ups[0].tree.kids) == Plug(fs[1..])
    ensures forall i :: 0 <= i < |ups| ==> !UnderOf(ups, leaf, i).seen
  {
    hide *;
    PathTail(ups, leaf);
    SeenIs(ups[0]);
    var us, c := ups[1..], TopOf(ups[1..], leaf);
    LastTree(ups[0], c);
    PathIs(us, leaf);
    TopIs(us, leaf);
    Descend(us + [leaf], fs[1..]);
    forall i | 0 <= i < |ups|
      ensures !UnderOf(ups, leaf, i).seen
    {
      UnderAt(ups, leaf, i);
      DescendedAt(us + [leaf], fs[1..], i);
      SeenIs((us + [leaf])[i]);
      PlugUnseen(fs[1..][i..]);
    }
  }

  lemma LastTree(n: Node, c: Node)
    requires n.Valid() && LastIs(n.kids, c) && n.tree.kids != []
    ensures c.Valid() && c.tree == LastOf(n.tree.kids) && c.repr <= n.repr && c in c.repr
  {
    SeenIs(n);
  }

  lemma UnderAt(ups: seq<Node>, leaf: Node, i: nat)
    requires i < |ups|
    ensures UnderOf(ups, leaf, i) == (ups[1..] + [leaf])[i]
  {}

  lemma DescendedAt(spine: seq<Node>, fs: seq<Frame>, i: nat)
    requires |spine| == |fs| && Descended(spine, fs) && i < |spine|
    ensures spine[i].Valid() && spine[i].tree == Plug(fs[i..])
  {}

  lemma {:induction false} LastUnseen(ks: seq<Node>, c: Node)
    requires LastIs(ks, c) && !c.seen
    ensures LastIs(Unseen(ks), c)
  {
    if |ks| > 1 {
      LastUnseen(ks[1..], c);
    } else {
      assert ks == [c] && ks[1..] == [];
    }
  }

  /** Cleaning an element keeps the open child at the end. */
  lemma PathKept(ups: seq<Node>, leaf: Node)
    requires PathTo(ups, leaf) && forall i :: 0 <= i < |ups| ==> !UnderOf(ups, leaf, i).seen
    ensures forall i :: 0 <= i < |ups| ==> LastIs(Unseen(ups[i].kids), UnderOf(ups, leaf, i))
  {
    hide LastIs, Unseen, UnderOf;
    forall i | 0 <= i < |ups|
      ensures LastIs(Unseen(ups[i].kids), UnderOf(ups, leaf, i))
    {
      LastUnseen(ups[i].kids, UnderOf(ups, leaf, i));
    }
  }

  ghost predicate Kept(ups: seq<Node>, leaf: Node)
    reads *
  {
    PathTo(ups, leaf) && forall i :: 0 <= i < |ups| ==> LastIs(Unseen(ups[i].kids), UnderOf(ups, leaf, i))
  }

  ghost function KidsOf(ups: seq<Node>): (r: seq<seq<Node>>)
    reads ups`kids
    ensures |r| == |ups| && forall i :: 0 <= i < |ups| ==> r[i] == ups[i].kids
  {
    if ups == [] then [] else [ups[0].kids] + KidsOf(ups[1..])
  }

  ghost function UnseenOf(ups: seq<Node>): (r: seq<seq<Node>>)
    reads *
    ensures |r| == |ups| && forall i :: 0 <= i < |ups| ==> r[i] == Unseen(ups[i].kids)
  {
    if ups == [] then [] else [Unseen(ups[0].kids)] + UnseenOf(ups[1..])
  }

  /** Before cleaning, the elements had the children `ks`, of which `us` are not marked. */
  ghost predicate WasKept(ups: seq<Node>, leaf: Node, ks: seq<seq<Node>>, us: seq<seq<Node>>) {
    && |ks| == |us| == |ups|
    && forall i :: 0 <= i < |ups| ==> LastIs(ks[i], UnderOf(ups, leaf, i)) && LastIs(us[i], UnderOf(ups, leaf, i))
  }

  lemma KeptIs(ups: seq<Node>, leaf: Node)
    requires Kept(ups, leaf)
    ensures WasKept(ups, leaf, KidsOf(ups), UnseenOf(ups))
  {}

  lemma PathAfter(ups: seq<Node>, leaf: Node, top: Node, ks: seq<seq<Node>>, us: seq<seq<Node>>)
    requires WasKept(ups, leaf, ks, us) && top.Valid() && top == TopOf(ups, leaf)
    requires forall i :: 0 <= i < |ups| && ups[i] in top.repr ==> ups[i].kids == ks[i] || ups[i].kids == us[i]
    ensures PathTo(ups, leaf)
  {
    hide Node.Valid, LastIs, Unseen, UnderOf;
    StillOnPath(ups, leaf, top);
  }

  /** Nodes that still lead down from the root are still in the tree. */
  lemma {:induction false} StillOnPath(ups: seq<Node>, leaf: Node, top: Node)
    requires top.Valid() && top == TopOf(ups, leaf)
    requires forall i :: 0 <= i < |ups| && ups[i] in top.repr ==> LastIs(ups[i].kids, UnderOf(ups, leaf, i))
    ensures PathTo(ups, leaf)
    decreases |ups|
  {
    hide Node.Valid, LastIs;
    top.Member(top);
    if ups != [] {
      var us, c := ups[1..], TopOf(ups[1..], leaf);
      assert ups[0] in top.repr && UnderOf(ups, leaf, 0) == c;
      LastValid(top, c);
      assert forall i :: 0 <= i < |us| ==> us[i] == ups[i + 1] && UnderOf(us, leaf, i) == UnderOf(ups, leaf, i + 1);
      StillOnPath(us, leaf, c);
      forall i | 0 <= i < |ups|
        ensures LastIs(ups[i].kids, UnderOf(ups, leaf, i))
      {
        if i > 0 {
          assert us[i - 1] == ups[i];
        }
      }
    }
  }

  lemma LastValid(n: Node, c: Node)
    requires n.Valid() && LastIs(n.kids, c)
    ensures c.Valid() && c.repr <= n.repr
  {}

  // ---------------------------------------------------------------- the parser

  class Parser {
    const h: Handlers
    var root: Node?
    var cur: Node?
    /** What has been kept of the document, the open elements above the current one, and the
        allocated nodes. */
    ghost var doc: Doc
    ghost var ups: seq<Node>
    ghost var live: set<Node>

    ghost predicate IsOpen(fs: seq<Frame>)
      requires fs != []
      reads this, ups, cur, root, if root == null then {} else root.repr
    {
      && root != null && root.Valid() && root.tree == Plug(fs) && root.parent == null && live == root.repr
      && cur != null && |ups| + 1 == |fs| && PathTo(ups, cur) && root == TopOf(ups, cur)
    }

    ghost predicate Valid()
      reads this, ups, cur, root, if root == null then {} else root.repr
    {
      WellFormed(doc) &&
      match doc
      case Empty => root == null && cur == null && live == {}
      case Open(fs) => IsOpen(fs)
      case Closed(t) =>
        && root != null && root.Valid() && root.tree == t && root.parent == null && live == root.repr
        && cur == null
    }

    constructor (h: Handlers)
      ensures Valid() && this.h == h && doc == Empty && live == {}
    {
      this.h := h;
      root, cur, doc, ups, live := null, null, Empty, [], {};
    }

    /** Pass a change of the element `leaf` on to the elements `over` above it. */
    ghost method Settle(d: Doc, over: seq<Node>, leaf: Node, fs: seq<Frame>, was: seq<set<Node>>, others: set<Node>,
                        extra: set<Node>)
      requires root == TopOf(over, leaf) && root.parent == null
      requires Lifted(over, leaf, fs, was, others) && Nested(over + [leaf], was)
      requires |was| == |fs| + 1 && was[0] == live && extra !! live
      requires forall n :: n in over ==> n in live && n !in others && n !in leaf.repr
      requires leaf.Valid() && leaf.repr == was[|fs|] + extra && leaf in live
      requires d.Open? && |d.frames| == |ups| + 1 && Plug(d.frames) == Graft(fs, leaf.tree)
      requires cur != null && PathTo(ups, cur) && root == TopOf(ups, cur)
      modifies this`doc, this`live, live`repr, live`tree
      ensures Valid() && doc == d && live == old(live) + extra
    {
      hide *;
      live := live + extra;
      doc := d;
      leaf.Member(leaf);
      ghost var top := Reseal(over, leaf, fs, was, others, extra);
      Reopen();
    }

    /** xt_text. */
    method TextEvent(chars: string)
      requires Valid()
      modifies this`doc, this`live, live`text, live`tree, live`repr
      ensures Valid() && doc == Feed(old(doc), Text(chars)) && live == old(live)
    {
      if cur == null {
        return;
      }
      hide *;
      OpenNow();
      ghost var n, fs := |ups|, doc.frames[..|ups|];
      ghost var was, others := Lending();
      ghost var t := cur.tree;
      TextAt(cur, chars, ups, fs, was, others);
      ghost var d := FeedText(doc, n, chars, t, cur.tree);
      Settle(d, ups, cur, fs, was, others, {});
    }

    /** xt_start_element. */
    method StartElement(name: string, attrs: Attrs)
      requires Valid() && Accepts(doc, Start(name, attrs))
      modifies this, live`children, live`kids, live`next, live`tree, live`repr
      ensures Valid() && doc == Feed(old(doc), Start(name, attrs))
      ensures cur != null && fresh(cur) && live == old(live) + {cur}
      ensures ups == if old(cur) == null then [] else old(ups) + [old(cur)]
    {
      hide *;
      var node := new Node(name, attrs, cur);
      node.Alone();
      if cur != null {
        Extend(name, attrs, node);
      } else {
        NothingOpen(name, attrs);
        cur, root := node, node;
        ups, live, doc := [], {node}, Feed(doc, Start(name, attrs));
        PathTop(node);
        TopIs(ups, node);
        Reopen();
      }
    }

    /** xt_start_element below the current element. */
    method Extend(name: string, attrs: Attrs, node: Node)
      requires Valid() && cur != null && node !in live
      requires node.Valid() && node.repr == {node} && node.next == null && node.parent == cur
      requires node.tree == Tree(name, attrs, None, false, false, [])
      modifies this, live`children, live`kids, live`next, live`tree, live`repr
      ensures Valid() && Accepts(old(doc), Start(name, attrs)) && doc == Feed(old(doc), Start(name, attrs))
      ensures cur == node && live == old(live) + {node} && ups == old(ups + [cur])
    {
      hide *;
      OpenNow();
      ghost var n, fs := |ups|, doc.frames[..|ups|];
      ghost var was, others := Lending();
      ghost var t, leaf, over := cur.tree, cur, ups;
      StartAt(cur, node, ups, fs, was, others);
      ghost var d := FeedStart(doc, n, name, attrs, t, cur.tree);
      assert PathTo(over, cur);
      NewLast(over, cur, node);
      ups := ups + [cur];
      cur := node;
      Settle(d, over, leaf, fs, was, others, {node});
    }

    /** xt_end_element. */
    method EndElement()
      requires Valid() && Accepts(doc, End)
      modifies this, live`complete, live`tree, live`repr
      ensures Valid() && doc == Feed(old(doc), End) && live == old(live)
      ensures ups == if old(ups) == [] then [] else old(ups)[..|old(ups)| - 1]
      ensures cur == if old(ups) == [] then null else old(ups)[|old(ups)| - 1]
    {
      hide *;
      CurOpen();
      OpenNow();
      ghost var n, fs := |ups|, doc.frames[..|ups|];
      ghost var was, others := Lending();
      ghost var t, leaf, over := cur.tree, cur, ups;
      EndAt(cur, ups, fs, was, others);
      ghost var d := FeedEnd(doc, n, t, cur.tree);
      cur := cur.parent;
      if n > 0 {
        ups := ups[..n - 1];
        ParentIsLast(over, leaf);
        Settle(d, over, leaf, fs, was, others, {});
      } else {
        GraftNone(leaf.tree);
        TopIs(over, leaf);
        assert fs == [];
        doc := d;
        Closing();
      }
    }

    /** xt_handle and then xt_cleanup on the whole stream, both at depth 1. There is no cleanup when
        xt_handle returns false: a handler has aborted, or no element has arrived. */
    method Round() returns (calls: seq<Call>, ok: bool)
      requires Valid() && Untouched(doc)
      modifies this, live`children, live`kids, live`next, live`seen, live`tree, live`repr
      ensures Valid() && calls == DocCalls(h, old(doc))
      ensures ok == (!old(doc).Empty? && !Aborted(h, old(doc)))
      ensures doc == if ok then Drained(old(doc)) else Halted(h, old(doc))
      ensures live <= old(live) && (!ok ==> live == old(live) && root == old(root))
      ensures doc.Open? ==> ups == old(ups) && cur == old(cur)
    {
      hide *;
      Cases();
      if root == null {
        return [], false;
      }
      ghost var d := doc;
      calls, ok := root.Handle(h, 1);
      SeenIs(root);
      DrainedIs(d);
      HaltedIs(h, d);
      doc := if ok then Drained(d) else Halted(h, d);
      if d.Closed? {
        ClosedRound(h, d.root);
      } else {
        OpenRound(h, d.frames);
        Marked(d);
      }
      if !ok {
        Stopped();
        return;
      }
      Cleanup(1);
      if d.Open? {
        Reopen();
      } else {
        Emptied();
      }
    }

    lemma Stopped()
      requires !doc.Empty? && WellFormed(doc) && root != null && root.Valid() && root.parent == null && live == root.repr
      requires root.tree == if doc.Open? then Plug(doc.frames) else doc.root
      requires doc.Open? ==> cur != null && |ups| + 1 == |doc.frames| && PathTo(ups, cur) && root == TopOf(ups, cur)
      requires doc.Closed? ==> cur == null
      ensures Valid()
    {}

    /** xt_reset: everything that was kept is freed. */
    method Reset()
      requires Valid()
      modifies this, live`children
      ensures Valid() && doc == Empty && live == {}
    {
      hide *;
      Cases();
      if root != null {
        live := root.FreeNode(live);
        root, cur := null, null;
      } else {
        NothingKept();
      }
      doc := Empty;
      Emptied();
    }

    lemma NothingKept()
      requires Valid() && root == null
      ensures cur == null && live == {}
    {}

    /** xt_cleanup on the root. */
    method Cleanup(depth: int)
      requires root != null && root.Valid() && live == root.repr
      requires !root.seen ==> cur != null && root == TopOf(ups, cur) && Kept(ups, cur)
      modifies this`root, this`cur, this`live, live`children, live`kids, live`next, live`tree, live`repr
      ensures old(root.seen) ==> root == null && cur == null && live == {}
      ensures !old(root.seen) ==>
                && root == old(root) && cur == old(cur) && root.Valid() && root.tree == Clean(old(root.tree), depth)
                && live == root.repr <= old(live) && cur != null && PathTo(ups, cur)
    {
      hide *;
      root.Member(root);
      if root.seen {
        live := root.FreeNode(live);
        root, cur := null, null;
      } else {
        KeptIs(ups, cur);
        ghost var ks, us := KidsOf(ups), UnseenOf(ups);
        live := root.Cleanup(depth, live);
        PathAfter(ups, cur, root, ks, us);
      }
    }

    lemma Emptied()
      requires doc == Empty && root == null && cur == null && live == {}
      ensures Valid()
    {}

    /** The open elements once the round's handlers have run. */
    lemma Marked(d: Doc)
      requires d.Open? && WellFormed(d) && root != null && root.Valid()
      requires |d.frames| > 1 ==> root.tree.kids != [] && root.tree.kids[|root.tree.kids| - 1] == Plug(d.frames[1..])
      requires cur != null && |ups| + 1 == |d.frames| && PathTo(ups, cur) && root == TopOf(ups, cur)
      ensures Kept(ups, cur)
    {
      if ups != [] {
        PathUnseen(ups, cur, d.frames);
        PathKept(ups, cur);
      }
    }

    lemma Cases()
      requires Valid()
      ensures WellFormed(doc)
      ensures root == null <==> doc.Empty?
      ensures root != null ==> root.Valid() && live == root.repr && root.parent == null && root.ParentName() == None
      ensures root != null ==> root in live
      ensures doc.Closed? ==> root.tree == doc.root && cur == null
      ensures doc.Open? ==> root.tree == Plug(doc.frames) && doc.frames != []
      ensures doc.Open? ==> cur != null && |ups| + 1 == |doc.frames| && PathTo(ups, cur) && root == TopOf(ups, cur)
      ensures doc.Empty? ==> Halted(h, doc) == doc && DocCalls(h, doc) == [] && !Aborted(h, doc)
    {}

    lemma OpenNow()
      requires Valid() && cur != null
      ensures doc.Open? && WellFormed(doc) && doc.frames != [] && IsOpen(doc.frames) && root != null
      ensures |ups| + 1 == |doc.frames| && live == root.repr && PathTo(ups, cur)
      ensures root == TopOf(ups, cur)
    {}

    lemma CurOpen()
      requires Valid() && Accepts(doc, End)
      ensures cur != null && root != null
    {}

    lemma NothingOpen(name: string, attrs: Attrs)
      requires Valid() && cur == null && Accepts(doc, Start(name, attrs))
      ensures root == null && live == {} && WellFormed(doc)
      ensures var d := Feed(doc, Start(name, attrs));
              d.Open? && |d.frames| == 1 && Plug(d.frames) == Tree(name, attrs, None, false, false, [])
    {}

    lemma Closing()
      requires doc.Closed? && root != null && root.Valid() && root.tree == doc.root && root.parent == null
      requires live == root.repr && cur == null
      ensures Valid()
    {}

    lemma Lending() returns (was: seq<set<Node>>, others: set<Node>)
      requires doc.Open? && doc.frames != [] && IsOpen(doc.frames) && cur != null
      ensures var n, fs := |ups|, doc.frames;
              && |fs| == n + 1 && |was| == n + 1
              && Loose(ups, cur, fs[..n], was, others) && Nested(ups + [cur], was)
              && cur.tree == Plug([fs[n]]) && was[n] == cur.repr && was[0] == live
              && (forall m :: m in ups ==> m in live && m !in others && m !in cur.repr)
              && cur.parent == (if ups == [] then null else ups[n - 1]) && cur in live && cur.repr <= live
              && cur in cur.repr && forall k :: k in cur.kids ==> k in live
    {
      hide *;
      var n, fs := |ups|, doc.frames;
      was := Reprs(ups + [cur]);
      others := Others(ups, was[0], cur.repr);
      OpenParts(fs);
      PathIs(ups, cur);
      TopIs(ups, cur);
      Descend(ups + [cur], fs);
      Lifting(ups, cur, fs);
      MakeLoose(ups, cur, fs[..n], was);
      LooseFacts(ups, cur, fs[..n], was, others);
      NestedIn(ups + [cur], was);
      ParentIs(ups, cur, fs);
      TopIs(ups, cur);
      KidsInside(cur);
      assert (ups + [cur])[n] == cur;
      assert forall i :: 0 <= i < n ==> (ups + [cur])[i] == ups[i];
    }

    lemma Reopen()
      requires doc.Open? && doc.frames != []
      requires root != null && root.Valid() && root.parent == null && live == root.repr
      requires root.tree == Plug(doc.frames)
      requires cur != null && |ups| + 1 == |doc.frames| && PathTo(ups, cur) && root == TopOf(ups, cur)
      ensures Valid()
    {}

    lemma OpenParts(fs: seq<Frame>)
      requires fs != [] && IsOpen(fs)
      ensures root != null && root.Valid() && root.tree == Plug(fs) && root.parent == null && live == root.repr
      ensures cur != null && |ups| + 1 == |fs| && PathTo(ups, cur) && root == TopOf(ups, cur)
    {}
  }

  lemma NestedIn(spine: seq<Node>, was: seq<set<Node>>)
    requires Nested(spine, was) && spine != []
    ensures |was| == |spine|
    ensures forall i :: 0 <= i < |spine| ==> spine[i] in was[0] && was[i] <= was[0]
  {}

  lemma NewLast(ups: seq<Node>, leaf: Node, node: Node)
    requires PathTo(ups, leaf) && leaf.kids != [] && leaf.kids[|leaf.kids| - 1] == node
    ensures PathTo(ups + [leaf], node) && TopOf(ups + [leaf], node) == TopOf(ups, leaf)
  {
    PathDown(ups, leaf, node);
  }

  lemma ParentIsLast(ups: seq<Node>, leaf: Node)
    requires PathTo(ups, leaf) && ups != []
    ensures PathTo(ups[..|ups| - 1], ups[|ups| - 1])
    ensures TopOf(ups[..|ups| - 1], ups[|ups| - 1]) == TopOf(ups, leaf)
  {
    PathUp(ups, leaf);
  }

  lemma ParentIs(ups: seq<Node>, leaf: Node, fs: seq<Frame>)
    requires |ups| + 1 == |fs| && Descended(ups + [leaf], fs)
    ensures ups != [] ==> leaf.parent == ups[|ups| - 1]
  {
    hide Plug;
    var spine := ups + [leaf];
    assert ups != [] ==> spine[|ups|] == leaf && spine[|ups| - 1] == ups[|ups| - 1];
  }

  lemma DrainedIs(d: Doc)
    requires WellFormed(d)
    ensures d.Open? ==> Drained(d).Open? && Drained(d).frames != [] && |Drained(d).frames| == |d.frames|
    ensures !d.Open? ==> Drained(d) == Empty
  {}

  lemma HaltedIs(h: Handlers, d: Doc)
    requires WellFormed(d)
    ensures match d
            case Empty => Halted(h, d).Empty?
            case Open(fs) => Halted(h, d).Open? && |Halted(h, d).frames| == |fs|
            case Closed(_) => Halted(h, d).Closed?
  {}
}
