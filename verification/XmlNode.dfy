/** The linked nodes of lib/xmltree.c: xt_handle, xt_cleanup and xt_free_node on them. */
module XmlNode {
  import opened Options
  import opened XmlRules
  import opened XmlTree

  class Node {
    const name: string
    const attrs: Attrs
    var parent: Node?
    var children: Node?
    var next: Node?
    var text: Option<string>
    var complete: bool
    var seen: bool
    /** The children in order, all nodes below and including this one, and the value they represent. */
    ghost var kids: seq<Node>
    ghost var repr: set<Node>
    ghost var tree: Tree

    constructor (name: string, attrs: Attrs, parent: Node?)
      ensures this.name == name && this.attrs == attrs && this.parent == parent
      ensures children == null && next == null && text == None && !complete && !seen
      ensures kids == [] && repr == {this} && tree == Tree(name, attrs, None, false, false, [])
    {
      this.name, this.attrs, this.parent := name, attrs, parent;
      children, next, text, complete, seen := null, null, None, false, false;
      kids, repr, tree := [], {this}, Tree(name, attrs, None, false, false, []);
    }

    // -------------------------------------------------------------- the shape of a subtree

    /** The children point at the next one and back here. */
    ghost predicate Listed()
      reads this`kids, kids`parent, kids`next
    {
      forall i :: 0 <= i < |kids| ==> kids[i].parent == this && kids[i].next == NextIn(kids, i)
    }

    ghost predicate Linked()
      reads this`children, this`kids, kids`parent, kids`next
    {
      children == (if kids == [] then null else kids[0]) && Listed()
    }

    /** The nodes below the children are disjoint, and with this node they are all of `repr`. */
    ghost predicate Apart()
      reads this`kids, this`repr, kids`repr
    {
      repr == {this} + Union(kids) && AllApart(kids, this)
    }

    /** The links and sets of this node; nothing here depends on flags, text or values. */
    ghost predicate Shell()
      reads this`children, this`kids, this`repr, kids`parent, kids`next, kids`repr
    {
      Linked() && Apart()
    }

    /** Everything below this node is a well-linked tree with the value `tree`. The sibling
        pointer and the parent pointer of the node itself do not matter. */
    ghost predicate Valid()
      reads this`children, this`kids, this`repr, this`tree, this`text, this`complete, this`seen, repr - {this}
      decreases repr
    {
      && this in repr
      && (forall i :: 0 <= i < |kids| ==> kids[i] in repr - {this} && kids[i].repr <= repr - {this})
      && Shell()
      && (forall i :: 0 <= i < |kids| ==> kids[i].Valid())
      && tree == Tree(name, attrs, text, complete, seen, Trees(kids))
    }

    ghost predicate KidsValid()
      reads this`kids, kids, set k, m | k in kids && m in k.repr :: m
    {
      forall i :: 0 <= i < |kids| ==> kids[i].Valid()
    }

    ghost function ParentName(): Option<string>
      reads this`parent
    {
      if parent == null then None else Some(parent.name)
    }

    /** A new node. */
    lemma Alone()
      requires children == null && kids == [] && repr == {this}
      requires tree == Tree(name, attrs, text, complete, seen, [])
      ensures Valid()
    {}

    lemma Open()
      requires Valid()
      ensures Shell() && KidsValid() && this in repr
      ensures tree == Tree(name, attrs, text, complete, seen, Trees(kids))
    {}

    lemma Close()
      requires Shell() && KidsValid()
      requires tree == Tree(name, attrs, text, complete, seen, Trees(kids))
      ensures Valid()
    {
      forall i | 0 <= i < |kids|
        ensures kids[i] in repr - {this} && kids[i].repr <= repr - {this}
      {
        UnionIn(kids, i);
      }
    }

    lemma Named()
      ensures ParentName() == if parent == null then None else Some(parent.name)
    {}

    lemma First()
      requires Shell()
      ensures children == if kids == [] then null else kids[0]
      ensures Listed() && Apart() && Linked() && AllApart(kids, this)
    {}

    lemma Whole()
      requires Apart()
      ensures repr == {this} + Union(kids) && this !in Union(kids) && Union([]) == {}
    {
      UnionApart(kids, {this});
    }

    lemma Linkage(i: nat)
      requires Listed() && i < |kids|
      ensures kids[i].parent == this && kids[i].ParentName() == Some(name)
      ensures kids[i].next == if i + 1 < |kids| then kids[i + 1] else null
    {}

    /** The part of `repr` below one child. */
    lemma Part(i: nat)
      requires Apart() && i < |kids|
      ensures kids[i] in kids[i].repr && kids[i].repr <= repr - {this} && kids[i].repr < repr
      ensures forall j :: 0 <= j < |kids| && j != i ==> kids[j].repr !! kids[i].repr && kids[j] !in kids[i].repr
    {
      UnionIn(kids, i);
    }

    lemma Kid(i: nat)
      requires Shell() && KidsValid() && i < |kids|
      ensures kids[i].Valid() && kids[i].parent == this && kids[i].ParentName() == Some(name)
      ensures kids[i].next == if i + 1 < |kids| then kids[i + 1] else null
      ensures kids[i] in kids[i].repr && kids[i].repr <= repr - {this} && kids[i].repr < repr
      ensures forall j :: 0 <= j < |kids| && j != i ==> kids[j].repr !! kids[i].repr && kids[j] !in kids[i].repr
    {
      Linkage(i);
      Part(i);
    }

    lemma Outside()
      requires Shell()
      ensures forall j :: 0 <= j < |kids| ==> this !in kids[j].repr && this != kids[j]
    {}

    // -------------------------------------------------------------- building

    /** The end of xt_start_element: `node` becomes the last child. */
    method AppendChild(node: Node)
      requires Valid() && node.Valid() && node.repr !! repr && node.next == null && node.parent == this
      modifies this`children, this`kids, this`repr, this`tree, kids`next
      ensures Valid() && kids == old(kids) + [node] && repr == old(repr) + node.repr
      ensures tree == old(tree).(kids := old(tree).kids + [node.tree])
    {
      hide *;
      Open();
      First();
      Outside();
      Member(node);
      EachValid();
      ghost var ks, ts := kids, Trees(kids);
      ApartWith(ks, node, this, repr);
      Below1(ks, this);
      LinkLast(node);
      assert forall i :: 0 <= i < |kids| ==> kids[i] == if i < |ks| then ks[i] else node;
      repr := repr + node.repr;
      MakeShell();
      AllValid();
      SetTree();
      assert Trees(kids) == ts + [node.tree];
    }

    /** The walk to the last child. */
    method LinkLast(node: Node)
      requires Linked() && AllApart(kids, this) && node.next == null && node.parent == this && node !in kids
      modifies this`children, this`kids, kids`next
      ensures Linked() && kids == old(kids) + [node]
    {
      hide Trees, Union, Valid, AllApart;
      ghost var ks := kids;
      if children != null {
        var nt := children;
        ghost var i := 0;
        while nt.next != null
          invariant i < |kids| && nt == kids[i] && Linked()
          decreases |kids| - i
        {
          nt := nt.next;
          i := i + 1;
        }
        Separate(ks, this);
        nt.next := node;
      } else {
        children := node;
      }
      kids := ks + [node];
      forall i | 0 <= i < |kids|
        ensures kids[i].parent == this && kids[i].next == NextIn(kids, i)
      {
        if i + 1 < |ks| {
          assert ks[i].next == NextIn(ks, i);
        }
      }
    }

    /** Hang `node`, a tree of its own, behind the last child `last`. */
    method AttachChild(last: Node?, node: Node)
      requires Valid() && node.Valid() && node.repr !! repr && node.next == null
      requires last == if kids == [] then null else kids[|kids| - 1]
      modifies this`children, this`kids, this`repr, this`tree, kids`next, node`parent
      ensures Valid() && kids == old(kids) + [node] && repr == old(repr) + node.repr
      ensures tree == old(tree).(kids := old(tree).kids + [node.tree]) && node.Valid() && node.next == null
    {
      hide *;
      Open();
      First();
      Outside();
      Member(node);
      EachValid();
      ghost var ks, ts := kids, Trees(kids);
      ApartWith(ks, node, this, repr);
      Below1(ks + [node], this);
      assert (ks + [node])[|ks|] == node && forall i :: 0 <= i < |ks| ==> (ks + [node])[i] == ks[i];
      Hang(last, node);
      assert forall i :: 0 <= i < |kids| ==> kids[i] == if i < |ks| then ks[i] else node;
      repr := repr + node.repr;
      MakeShell();
      AllValid();
      SetTree();
      assert Trees(kids) == ts + [node.tree];
    }

    method Hang(last: Node?, node: Node)
      requires Linked() && AllApart(kids, this) && node.next == null && node !in kids
      requires last == if kids == [] then null else kids[|kids| - 1]
      modifies this`children, this`kids, kids`next, node`parent
      ensures Linked() && kids == old(kids) + [node] && node.next == null
    {
      hide Trees, Union, Valid, AllApart;
      ghost var ks := kids;
      Separate(ks, this);
      if last == null {
        children := node;
      } else {
        last.next := node;
      }
      node.parent := this;
      kids := ks + [node];
      forall i | 0 <= i < |kids|
        ensures kids[i].parent == this && kids[i].next == NextIn(kids, i)
      {
        if i + 1 < |ks| {
          assert ks[i].next == NextIn(ks, i);
        }
      }
    }

    /** xt_text on this node. */
    method AddText(chars: string)
      requires Valid()
      modifies this`text, this`tree
      ensures Valid() && tree == old(tree).(text := XmlTree.AddText(old(tree).text, chars))
    {
      hide *;
      Open();
      Outside();
      text := if text.None? then Some(chars) else Some(text.value + chars);
      TextAdded(old(text), chars);
      SetTree();
    }

    lemma TextAdded(t: Option<string>, chars: string)
      ensures XmlTree.AddText(t, chars) == if t.None? then Some(chars) else Some(t.value + chars)
    {}

    /** xt_end_element on this node. */
    method Complete()
      requires Valid()
      modifies this`complete, this`tree
      ensures Valid() && tree == old(tree).(complete := true)
    {
      hide *;
      Open();
      Outside();
      complete := true;
      SetTree();
    }

    /** This node while its last child, whose nodes were `was`, is being changed. */
    ghost predicate Lent(was: set<Node>)
      reads this`children, this`kids, this`repr, kids`parent, kids`next
      reads FrontOf(kids), set k, m | k in FrontOf(kids) && m in k.repr :: m
    {
      kids != [] &&
      var closed := FrontOf(kids);
      && Linked() && this !in was && AllApart(closed, this)
      && (forall i :: 0 <= i < |closed| ==> closed[i].repr !! was && closed[i].Valid())
      && repr == {this} + Union(closed) + was
    }

    /** This node stands for the open element `f`; its last child is another open element. */
    ghost predicate Holds(f: Frame)
      reads this`text, this`complete, this`seen, this`kids, FrontOf(kids)`tree
    {
      name == f.name && attrs == f.attrs && text == f.text && !complete && !seen && Trees(FrontOf(kids)) == f.closed
    }

    lemma Lend()
      requires Valid() && kids != []
      ensures var c := kids[|kids| - 1];
              && Lent(c.repr) && c.Valid() && c.repr < repr && c in c.repr && c.parent == this
              && tree.kids == Trees(FrontOf(kids)) + [c.tree]
              && |tree.kids| == |kids|
    {
      hide Lent, Listed, Linked, Apart, Shell, Valid, KidsValid, Trees, Union, AllApart;
      Open();
      First();
      EachValid();
      var n := |kids| - 1;
      Kid(n);
      Lendable(n);
      assert kids == FrontOf(kids) + [kids[n]];
    }

    lemma Lendable(n: nat)
      requires Shell() && (forall j :: 0 <= j < |kids| ==> kids[j].Valid()) && n == |kids| - 1
      requires kids[n] in kids[n].repr
      ensures Lent(kids[n].repr)
    {
      hide Valid, Union, Trees;
      UnionSplit(kids, n);
      assert kids[..n] == FrontOf(kids) && Union(kids[n + 1..]) == {} by {
        EmptyUnion(kids[n + 1..]);
      }
    }

    /** Take the changed child back: this node is valid again. */
    ghost method Lift(was: set<Node>, extra: set<Node>, f: Frame)
      requires Lent(was) && Holds(f) && extra !! repr
      requires kids[|kids| - 1].Valid() && kids[|kids| - 1].repr <= was + extra
      modifies this`repr, this`tree
      ensures Valid() && kids == old(kids)
      ensures repr == old(repr) - was + kids[|kids| - 1].repr
      ensures tree == Tree(f.name, f.attrs, f.text, false, false, f.closed + [kids[|kids| - 1].tree])
    {
      hide Listed, Linked, Apart, Shell, Valid, KidsValid, Trees, Union, AllApart;
      var closed, c := FrontOf(kids), kids[|kids| - 1];
      assert kids == closed + [c];
      Member(c);
      UnionApart(closed, was);
      ApartWith(closed, c, this, {this} + Union(closed));
      Separate(kids, this);
      repr := {this} + Union(kids);
      MakeShell();
      Gather(closed, c);
      Outside();
      SetTree();
      assert Trees(kids) == Trees(closed) + [c.tree];
    }

    lemma Gather(closed: seq<Node>, c: Node)
      requires kids == closed + [c] && c.Valid()
      requires forall i :: 0 <= i < |closed| ==> closed[i].Valid()
      ensures KidsValid()
    {
      hide Valid;
      assert forall i :: 0 <= i < |kids| ==> kids[i] == if i < |closed| then closed[i] else c;
    }

    // -------------------------------------------------------------- xt_dup

    /** xt_dup: a new tree with the same value and no node in common. */
    method Dup() returns (dup: Node)
      requires Valid()
      ensures dup.Valid() && fresh(dup.repr) && dup.tree == tree && dup.next == null && dup.parent == null
      decreases repr, 0
    {
      hide *;
      Open();
      First();
      dup := Bare();
      var c, dc := children, null;
      ghost var i := 0;
      while c != null
        invariant 0 <= i <= |kids| == |tree.kids| && c == (if i < |kids| then kids[i] else null)
        invariant dup.Valid() && fresh(dup.repr) && dup.tree == tree.(kids := tree.kids[..i])
        invariant dc == (if dup.kids == [] then null else dup.kids[|dup.kids| - 1])
        invariant Shell() && KidsValid() && tree.kids == Trees(kids) && dup.next == null && dup.parent == null
        decreases |kids| - i
      {
        Kid(i);
        assert tree.kids[..i] + [tree.kids[i]] == tree.kids[..i + 1];
        dc := c.DupInto(dup, dc);
        c := c.next;
        i := i + 1;
      }
    }

    /** A copy without children. */
    method Bare() returns (dup: Node)
      requires Valid()
      ensures dup.Valid() && fresh(dup.repr) && dup.tree == tree.(kids := [])
      ensures dup.kids == [] && dup.next == null && dup.parent == null
    {
      hide *;
      Open();
      dup := new Node(name, attrs, null);
      dup.text, dup.complete, dup.seen := text, complete, seen;
      dup.tree := Tree(name, attrs, text, complete, seen, []);
      dup.Alone();
    }

    /** Hang a copy of this node behind the last child of `dup`. */
    method DupInto(dup: Node, last: Node?) returns (d: Node)
      requires Valid() && dup.Valid() && dup.repr !! repr
      requires last == if dup.kids == [] then null else dup.kids[|dup.kids| - 1]
      modifies dup.repr
      ensures dup.Valid() && fresh(dup.repr - old(dup.repr)) && dup.kids == old(dup.kids) + [d]
      ensures dup.tree == old(dup.tree).(kids := old(dup.tree).kids + [tree])
      ensures dup.next == old(dup.next) && dup.parent == old(dup.parent)
      decreases repr, 1
    {
      hide *;
      d := Dup();
      dup.KidsHere();
      Member(d);
      dup.AttachChild(last, d);
    }

    lemma KidsHere()
      requires Valid()
      ensures this in repr && forall k :: k in kids ==> k in repr && k != this
    {}

    // -------------------------------------------------------------- xt_handle

    /** What a handler finds when it reads the node it is given. */
    method Read() returns (t: Tree)
      requires Valid()
      ensures t == tree
      decreases repr
    {
      hide *;
      Open();
      First();
      var ts, c := [], children;
      ghost var i := 0;
      while c != null
        invariant 0 <= i <= |kids| && c == (if i < |kids| then kids[i] else null)
        invariant ts == Trees(kids)[..i]
        invariant Shell() && KidsValid()
        decreases |kids| - i
      {
        Kid(i);
        var t := c.Read();
        ts := ts + [t];
        c := c.next;
        i := i + 1;
      }
      t := Tree(name, attrs, text, complete, seen, ts);
    }

    /** xt_handle below the root test. */
    method Handle(h: Handlers, depth: int) returns (calls: seq<Call>, ok: bool)
      requires Valid()
      modifies repr`seen, repr`tree
      ensures Valid()
      ensures Outcome(tree, calls, ok) == XmlTree.Handle(h, ParentName(), old(tree), depth)
      decreases repr, 2
    {
      hide *;
      Open();
      Outside();
      calls, ok := [], true;
      if depth != 0 {
        calls, ok := HandleChildren(h, Below(depth));
      }
      SetTree();
      HandleUnfold(h, ParentName(), old(tree), depth, tree, calls, ok);
      if !ok {
        return;
      }
      if complete && !seen {
        var t := Read();
        Named();
        var more, aborted := Dispatch(h, if parent == null then None else Some(parent.name), t);
        calls := calls + more;
        if aborted {
          ok := false;
          return;
        }
        seen := true;
        SetTree();
      }
    }

    /** Bring the value of this node up to date with its fields and children. */
    ghost method SetTree()
      requires Shell() && KidsValid()
      modifies this`tree
      ensures Valid() && tree == Tree(name, attrs, text, complete, seen, Trees(kids))
      ensures Trees(kids) == old(Trees(kids))
    {
      hide *;
      Outside();
      tree := Tree(name, attrs, text, complete, seen, Trees(kids));
      Close();
    }

    /** The walk over the children in xt_handle. */
    method HandleChildren(h: Handlers, depth: int) returns (calls: seq<Call>, ok: bool)
      requires Valid()
      modifies (repr - {this})`seen, (repr - {this})`tree
      ensures Shell() && KidsValid()
      ensures Outcome(Trees(kids), calls, ok) == HandleKids(h, name, old(tree).kids, depth)
      decreases repr, 1
    {
      hide *;
      Open();
      First();
      var c := children;
      ghost var i := 0;
      ghost var ts := tree.kids;
      calls, ok := [], true;
      WalkStart(h, name, ts, depth);
      while c != null
        invariant 0 <= i <= |kids| && c == (if i < |kids| then kids[i] else null)
        invariant Shell() && KidsValid()
        invariant |ts| == |kids| && Walked(h, name, ts, depth, i, Trees(kids), calls)
        decreases |kids| - i
      {
        WalkStep(h, name, ts, depth, i, Trees(kids), calls);
        var more, good := HandleChild(c, i, h, depth);
        calls := calls + more;
        if !good {
          ok := false;
          return;
        }
        Kid(i);
        c := c.next;
        i := i + 1;
      }
      WalkDone(h, name, ts, depth, i, Trees(kids), calls);
    }

    /** xt_handle on the `i`th child leaves the others as they are. */
    method HandleChild(c: Node, ghost i: nat, h: Handlers, depth: int) returns (calls: seq<Call>, ok: bool)
      requires Shell() && KidsValid() && i < |kids| && c == kids[i]
      modifies (repr - {this})`seen, (repr - {this})`tree
      ensures Shell() && KidsValid()
      ensures Trees(kids) == old(Trees(kids))[i := c.tree]
      ensures Outcome(c.tree, calls, ok) == XmlTree.Handle(h, Some(name), old(c.tree), depth)
      decreases repr, 0
    {
      hide *;
      EachValid();
      Kid(i);
      calls, ok := c.Handle(h, depth);
      AllValid();
    }

    lemma EachValid()
      requires KidsValid()
      ensures forall j :: 0 <= j < |kids| ==> kids[j].Valid()
    {}

    lemma AllValid()
      requires forall j :: 0 <= j < |kids| ==> kids[j].Valid()
      ensures KidsValid()
    {}

    // -------------------------------------------------------------- xt_free_node

    lemma FirstFree(i: nat)
      requires Apart() && i < |kids|
      ensures kids[i].repr !! Union(kids[..i])
      ensures Union(kids[..i + 1]) == Union(kids[..i]) + kids[i].repr
    {
      UnionApart(kids[..i], kids[i].repr);
      UnionAppend(kids[..i], [kids[i]]);
      assert kids[..i] + [kids[i]] == kids[..i + 1];
      assert Union([kids[i]]) == kids[i].repr + Union([]);
    }

    /** `live` is the set of allocated nodes. Every node below this one is freed exactly once,
        children before their parent. */
    method FreeNode(ghost live: set<Node>) returns (ghost left: set<Node>)
      requires Valid() && repr <= live
      modifies repr`children
      ensures left == live - repr
      decreases repr
    {
      hide *;
      Open();
      First();
      Whole();
      Outside();
      EachValid();
      left := live;
      ghost var i := 0;
      while children != null
        invariant 0 <= i <= |kids| && children == (if i < |kids| then kids[i] else null)
        invariant Listed() && Apart() && forall j :: i <= j < |kids| ==> kids[j].Valid()
        invariant left == live - Union(kids[..i])
        decreases |kids| - i
      {
        Linkage(i);
        Part(i);
        FirstFree(i);
        var next := children.next;
        left := children.FreeNode(left);
        children := next;
        i := i + 1;
      }
      assert kids[..i] == kids;
      assert this in left;
      left := left - {this};
    }

    // -------------------------------------------------------------- xt_cleanup

    /** The children in three pieces. */
    lemma Pieces(kept: seq<Node>, c: Node, rest: seq<Node>)
      requires Shell() && kids == kept + [c] + rest
      ensures forall i :: 0 <= i < |kept| ==> kept[i].parent == this && (i + 1 < |kept| ==> kept[i].next == NextIn(kept, i))
      ensures forall i :: 0 <= i < |rest| ==> rest[i].parent == this && rest[i].next == NextIn(rest, i)
      ensures c.next == if rest == [] then null else rest[0]
    {
      hide Shell, Listed, Linked, Apart, Union, Valid, Trees;
      First();
      forall i | 0 <= i < |kept|
        ensures kept[i].parent == this && (i + 1 < |kept| ==> kept[i].next == NextIn(kept, i))
      {
        Linkage(i);
        assert kept[i] == kids[i] && (i + 1 < |kept| ==> kept[i + 1] == kids[i + 1]);
      }
      forall i | 0 <= i < |rest|
        ensures rest[i].parent == this && rest[i].next == NextIn(rest, i)
      {
        Linkage(|kept| + 1 + i);
        assert rest[i] == kids[|kept| + 1 + i];
        assert i + 1 < |rest| ==> rest[i + 1] == kids[|kept| + 1 + i + 1];
      }
      Linkage(|kept|);
    }

    /** Take the child `c`, which follows `prev`, out of the list. */
    method Splice(prev: Node?, c: Node, ghost kept: seq<Node>, ghost rest: seq<Node>)
      requires Shell() && kids == kept + [c] + rest
      requires prev == if kept == [] then null else kept[|kept| - 1]
      modifies this`children, this`kids, kept`next
      ensures kids == kept + rest && Linked()
    {
      hide Valid, Union, Trees, AllApart;
      Pieces(kept, c, rest);
      Distinct(kept, c, rest, this);
      if prev != null {
        prev.next := c.next;
      } else {
        children := c.next;
      }
      kids := kept + rest;
      assert forall i :: 0 <= i < |kids| ==> kids[i] == if i < |kept| then kept[i] else rest[i - |kept|];
      forall i | 0 <= i < |kids|
        ensures kids[i].parent == this && kids[i].next == NextIn(kids, i)
      {
        if i >= |kept| {
          assert rest[i - |kept|].next == NextIn(rest, i - |kept|);
        }
      }
    }

    /** After Splice `c` is a tree of its own. */
    method Unlink(prev: Node?, c: Node, ghost kept: seq<Node>, ghost rest: seq<Node>)
      requires Shell() && KidsValid()
      requires kids == kept + [c] + rest
      requires prev == if kept == [] then null else kept[|kept| - 1]
      modifies this`children, this`kids, this`repr, kept`next
      ensures Shell() && KidsValid()
      ensures kids == kept + rest && repr == old(repr) - c.repr
      ensures c.Valid() && c.repr <= old(repr) - {this}
      ensures Trees(kids) == old(Trees(kids))[..|kept|] + old(Trees(kids))[|kept| + 1..]
    {
      hide *;
      EachValid();
      First();
      Outside();
      Part(|kept|);
      Distinct(kept, c, rest, this);
      ApartWithout(kept, c, rest, this);
      assert forall i :: 0 <= i < |kept| ==> kept[i] == kids[i];
      assert forall i :: 0 <= i < |rest| ==> rest[i] == kids[|kept| + 1 + i];
      Splice(prev, c, kept, rest);
      ghost var all := Union(kids);
      repr := repr - c.repr;
      assert Union(kids) == all;
      MakeShell();
      Parts(kept, rest);
      AllValid();
    }

    lemma Member(c: Node)
      requires c.Valid()
      ensures c in c.repr
    {}

    lemma Flags(i: nat)
      requires KidsValid() && i < |kids|
      ensures kids[i].tree.seen == kids[i].seen
    {}

    lemma MakeShell()
      requires Linked() && repr == {this} + Union(kids) && AllApart(kids, this)
      ensures Shell()
    {}

    /** Unlink the `n`th child, which was seen, and free everything below it. */
    method RemoveChild(prev: Node?, c: Node, ghost n: nat, ghost live: set<Node>) returns (ghost left: set<Node>)
      requires Shell() && KidsValid() && n < |kids| && c == kids[n] && repr <= live
      requires prev == if n == 0 then null else kids[n - 1]
      modifies this`children, this`kids, this`repr, kids`next, c.repr`children
      ensures Shell() && KidsValid()
      ensures kids == old(kids)[..n] + old(kids)[n + 1..]
      ensures forall j :: 0 <= j < |kids| ==> kids[j] == if j < n then old(kids)[j] else old(kids)[j + 1]
      ensures repr == old(repr) - c.repr && left == live - c.repr
      ensures Trees(kids) == old(Trees(kids))[..n] + old(Trees(kids))[n + 1..]
    {
      hide *;
      assert kids == kids[..n] + [c] + kids[n + 1..];
      First();
      Part(n);
      Unlink(prev, c, kids[..n], kids[n + 1..]);
      left := FreeChild(c, live);
    }

    /** Freeing an unlinked subtree touches nothing that is left. */
    method FreeChild(c: Node, ghost live: set<Node>) returns (ghost left: set<Node>)
      requires Shell() && KidsValid()
      requires c.Valid() && c.repr !! repr && c.repr <= live
      modifies c.repr`children
      ensures Shell() && KidsValid()
      ensures left == live - c.repr
    {
      hide *;
      EachValid();
      First();
      Whole();
      forall j | 0 <= j < |kids|
        ensures kids[j].repr !! c.repr && kids[j] !in c.repr
      {
        Part(j);
      }
      left := c.FreeNode(live);
      AllValid();
    }

    /** xt_cleanup on the `i`th child. */
    method CleanChild(c: Node, ghost i: nat, depth: int, ghost live: set<Node>) returns (ghost left: set<Node>)
      requires Shell() && KidsValid() && i < |kids| && c == kids[i] && repr <= live
      modifies this`repr
      modifies (repr - {this})`children, (repr - {this})`kids, (repr - {this})`repr, (repr - {this})`tree, (repr - {this})`next
      ensures Shell() && KidsValid() && kids == old(kids)
      ensures repr <= old(repr) && left == live - (old(repr) - repr)
      ensures Trees(kids) == old(Trees(kids))[i := Clean(old(c.tree), depth)]
      ensures forall j :: 0 <= j < |kids| && j != i ==> kids[j].repr == old(kids[j].repr) && kids[j].repr !! old(c.repr)
      ensures forall m :: m in repr && m !in old(c.repr) && m != this ==> m.kids == old(m.kids)
      ensures forall m :: m in old(c.repr) && m in repr ==> m in c.repr && (m.kids == old(m.kids) || m.kids == old(Unseen(m.kids)))
      decreases repr, 0
    {
      hide *;
      EachValid();
      Kid(i);
      First();
      Whole();
      UnionSplit(kids, i);
      AtMost(kids, this);
      ghost var was := c.repr;
      ghost var after := kids[i + 1..];
      assert forall j :: 0 <= j < |after| ==> after[j] == kids[i + 1 + j];
      UnionApart(kids[..i], was);
      UnionApart(after, was);
      ghost var others := Union(kids[..i]) + Union(kids[i + 1..]);
      left := c.Cleanup(depth, live);
      assert others == Union(kids[..i]) + Union(kids[i + 1..]);
      UnionSplit(kids, i);
      Member(c);
      ApartReplace(kids, i, this, was);
      repr := {this} + Union(kids);
      MakeShell();
      AllValid();
    }

    /** xt_cleanup inside its loop over the children `ks`, of which `i` have been looked at and
        `n` kept; `was` holds the child list every node had before. */
    ghost predicate Sweeping(ks: seq<Node>, ts: seq<Tree>, depth: int, i: nat, n: nat, was: map<Node, (seq<Node>, seq<Node>)>)
      reads *
    {
      && n <= |kids|
      && Swept(ks, ts, depth, i, n, kids, Trees(kids))
      && Shell() && KidsValid()
      && (forall m :: m in repr && m != this ==> m in was)
      && (forall m :: m in repr && m != this ==> m.kids == was[m].0 || m.kids == was[m].1)
      && (forall j, m :: n <= j < |kids| && m in repr && m in kids[j].repr && m != this ==>
            m.kids == was[m].0 && Unseen(m.kids) == was[m].1)
    }

    /** The branch of the loop for a child that was seen. */
    method SweepSeen(prev: Node?, c: Node, ghost live: set<Node>, ghost ks: seq<Node>, ghost ts: seq<Tree>,
                     depth: int, ghost i: nat, ghost n: nat, ghost was: map<Node, (seq<Node>, seq<Node>)>)
      returns (ghost left: set<Node>)
      requires Sweeping(ks, ts, depth, i, n, was) && n < |kids| && c == kids[n] && c.seen && repr <= live
      requires prev == if n == 0 then null else kids[n - 1]
      modifies this`children, this`kids, this`repr, kids`next, c.repr`children
      ensures Sweeping(ks, ts, depth, i + 1, n, was)
      ensures kids == old(kids)[..n] + old(kids)[n + 1..]
      ensures repr <= old(repr) && left == live - (old(repr) - repr)
    {
      hide Shell, KidsValid, Swept, Trees, Unseen;
      SweepAt(ks, ts, depth, i, n, kids, Trees(kids));
      Flags(n);
      SweepStep(ks, ts, depth, i, n, kids, Trees(kids));
      Inside(n);
      left := RemoveChild(prev, c, n, live);
    }

    /** The branch of the loop for a child that stays. */
    method SweepUnseen(c: Node, ghost live: set<Node>, ghost ks: seq<Node>, ghost ts: seq<Tree>,
                       depth: int, ghost i: nat, ghost n: nat, ghost was: map<Node, (seq<Node>, seq<Node>)>)
      returns (ghost left: set<Node>)
      requires Sweeping(ks, ts, depth, i, n, was) && n < |kids| && c == kids[n] && !c.seen && repr <= live
      modifies this`repr
      modifies (repr - {this})`children, (repr - {this})`kids, (repr - {this})`repr, (repr - {this})`tree, (repr - {this})`next
      ensures Sweeping(ks, ts, depth, i + 1, n + 1, was)
      ensures kids == old(kids)
      ensures repr <= old(repr) && left == live - (old(repr) - repr)
      decreases repr, 1
    {
      hide Shell, KidsValid, Swept, Trees, Unseen;
      SweepAt(ks, ts, depth, i, n, kids, Trees(kids));
      Flags(n);
      SweepStep(ks, ts, depth, i, n, kids, Trees(kids));
      Inside(n);
      left := live;
      if depth != 0 {
        left := CleanChild(c, n, Below(depth), left);
      }
    }

    /** xt_cleanup below the root test. What is freed is exactly what left the tree, and a node
        that stays keeps its children or loses those that were seen. */
    method Cleanup(depth: int, ghost live: set<Node>) returns (ghost left: set<Node>)
      requires Valid() && repr <= live
      modifies this`children, this`kids, this`repr, this`tree
      modifies (repr - {this})`children, (repr - {this})`kids, (repr - {this})`repr, (repr - {this})`tree, (repr - {this})`next
      ensures Valid() && repr <= old(repr) && left == live - (old(repr) - repr)
      ensures tree == Clean(old(tree), depth)
      ensures kids == old(Unseen(kids))
      ensures forall m :: m in repr ==> m.kids == old(m.kids) || m.kids == old(Unseen(m.kids))
      decreases repr, 3
    {
      hide *;
      Open();
      ghost var ks, ts, i := kids, tree.kids, 0;
      ghost var was := map m | m in repr :: (m.kids, Unseen(m.kids));
      StartSweep(ks, ts, depth, was);
      left, i := Sweep(depth, live, ks, ts, was);
      EndSweep(ks, ts, depth, i, |kids|, was);
      SetTree();
    }

    /** Its loop. */
    method Sweep(depth: int, ghost live: set<Node>, ghost ks: seq<Node>, ghost ts: seq<Tree>,
                 ghost was: map<Node, (seq<Node>, seq<Node>)>) returns (ghost left: set<Node>, ghost i: nat)
      requires Sweeping(ks, ts, depth, 0, 0, was) && repr <= live
      modifies this`children, this`kids, this`repr
      modifies (repr - {this})`children, (repr - {this})`kids, (repr - {this})`repr, (repr - {this})`tree, (repr - {this})`next
      ensures Sweeping(ks, ts, depth, i, |kids|, was)
      ensures repr <= old(repr) && left == live - (old(repr) - repr)
      decreases repr, 2
    {
      hide *;
      ghost var n: nat := 0;
      i, left := 0, live;
      Advance(ks, ts, depth, i, n, was);
      var c, prev := children, null;
      while c != null
        invariant n <= |kids| && c == if n < |kids| then kids[n] else null
        invariant prev == if n == 0 then null else kids[n - 1]
        invariant Sweeping(ks, ts, depth, i, n, was)
        invariant repr <= old(repr) && left == live - (old(repr) - repr)
        decreases |kids| - n
      {
        Swept1(ks, ts, depth, i, n, was);
        Inside(n);
        if c.seen {
          left := SweepSeen(prev, c, left, ks, ts, depth, i, n, was);
          c := prev;
        } else {
          left := SweepUnseen(c, left, ks, ts, depth, i, n, was);
          n := n + 1;
        }
        i := i + 1;
        prev := c;
        Advance(ks, ts, depth, i, n, was);
        c := if c != null then c.next else children;
      }
    }

    lemma StartSweep(ks: seq<Node>, ts: seq<Tree>, depth: int, was: map<Node, (seq<Node>, seq<Node>)>)
      requires Shell() && KidsValid() && ks == kids && ts == Trees(kids)
      requires forall m :: m in repr ==> m in was && was[m] == (m.kids, Unseen(m.kids))
      ensures Sweeping(ks, ts, depth, 0, 0, was)
    {
      hide Shell, KidsValid, Swept, Trees, Unseen;
      SweepStart(ks, ts, depth);
    }

    lemma Swept1(ks: seq<Node>, ts: seq<Tree>, depth: int, i: nat, n: nat, was: map<Node, (seq<Node>, seq<Node>)>)
      requires Sweeping(ks, ts, depth, i, n, was)
      ensures Shell() && KidsValid()
    {}

    /** The pointers the loop reads next. */
    lemma Advance(ks: seq<Node>, ts: seq<Tree>, depth: int, i: nat, n: nat, was: map<Node, (seq<Node>, seq<Node>)>)
      requires Sweeping(ks, ts, depth, i, n, was)
      ensures children == if kids == [] then null else kids[0]
      ensures n > 0 ==> kids[n - 1].next == if n < |kids| then kids[n] else null
    {
      hide Shell, KidsValid, Swept, Trees, Unseen;
      First();
      if n > 0 {
        Linkage(n - 1);
      }
    }

    lemma EndSweep(ks: seq<Node>, ts: seq<Tree>, depth: int, i: nat, n: nat, was: map<Node, (seq<Node>, seq<Node>)>)
      requires Sweeping(ks, ts, depth, i, n, was) && n == |kids|
      ensures Shell() && KidsValid() && kids == Unseen(ks) && Trees(kids) == CleanKids(ts, depth)
      ensures forall t: Tree :: t.kids == ts ==> Clean(t, depth) == t.(kids := Trees(kids))
      ensures forall m :: m in repr && m != this ==> m in was && (m.kids == was[m].0 || m.kids == was[m].1)
    {
      hide Shell, KidsValid, Swept, Trees, Unseen;
      SweepDone(ks, ts, depth, i, n, kids, Trees(kids));
    }

    lemma Inside(n: nat)
      requires Shell() && n < |kids|
      ensures forall j :: 0 <= j < |kids| ==> kids[j] in repr - {this}
      ensures kids[n].repr <= repr - {this}
    {
      hide *;
      First();
      forall j | 0 <= j < |kids|
        ensures kids[j] in repr - {this}
      {
        Part(j);
      }
      Part(n);
    }
  }

  // ---------------------------------------------------------------- sequences of nodes

  /** All but the last. */
  function FrontOf<T>(s: seq<T>): (r: seq<T>)
    ensures forall x :: x in r ==> x in s
  {
    if s == [] then [] else s[..|s| - 1]
  }

  function NextIn(s: seq<Node>, i: nat): Node? {
    if i + 1 < |s| then s[i + 1] else null
  }

  ghost function Trees(kids: seq<Node>): (ts: seq<Tree>)
    reads kids`tree
    ensures |ts| == |kids|
    ensures forall i :: 0 <= i < |kids| ==> ts[i] == kids[i].tree
  {
    if kids == [] then [] else [kids[0].tree] + Trees(kids[1..])
  }

  lemma EmptyUnion(ks: seq<Node>)
    requires ks == []
    ensures Union(ks) == {}
  {}

  lemma UnionSplit(kids: seq<Node>, i: nat)
    requires i < |kids|
    ensures Union(kids) == Union(kids[..i]) + kids[i].repr + Union(kids[i + 1..])
  {
    UnionAppend(kids[..i], kids[i..]);
    assert kids[..i] + kids[i..] == kids && kids[i..][0] == kids[i] && kids[i..][1..] == kids[i + 1..];
  }

  /** Shrinking one subtree keeps the children apart. */
  lemma ApartReplace(ks: seq<Node>, i: nat, self: Node, was: set<Node>)
    requires i < |ks| && ks[i] in ks[i].repr && ks[i].repr <= was && self !in was
    requires forall j :: 0 <= j < |ks| && j != i ==> ks[j] in ks[j].repr && self !in ks[j].repr && ks[j].repr !! was
    requires forall j, k :: 0 <= j < k < |ks| && j != i && k != i ==> ks[j].repr !! ks[k].repr
    ensures AllApart(ks, self)
  {}

  lemma AtMost(ks: seq<Node>, self: Node)
    requires AllApart(ks, self)
    ensures forall j :: 0 <= j < |ks| ==> ks[j] in ks[j].repr && self !in ks[j].repr
    ensures forall j, k :: 0 <= j < k < |ks| ==> ks[j].repr !! ks[k].repr
  {}

  /** The nodes xt_cleanup keeps. */
  ghost function Unseen(ks: seq<Node>): seq<Node>
    reads ks`seen
  {
    if ks == [] then [] else (if ks[0].seen then [] else [ks[0]]) + Unseen(ks[1..])
  }

  /** Where xt_cleanup stands in the children `ks`: the first `i` have been looked at, `n` of
      them kept, and the list has become `now`. */
  ghost predicate Swept(ks: seq<Node>, ts: seq<Tree>, depth: int, i: nat, n: nat, now: seq<Node>, nowTs: seq<Tree>)
    reads ks`seen
  {
    && i <= |ks| == |ts| && n == |Unseen(ks[..i])| == |CleanKids(ts[..i], depth)|
    && now == Unseen(ks[..i]) + ks[i..]
    && nowTs == CleanKids(ts[..i], depth) + ts[i..]
  }

  lemma SweepStart(ks: seq<Node>, ts: seq<Tree>, depth: int)
    requires |ks| == |ts|
    ensures Swept(ks, ts, depth, 0, 0, ks, ts)
  {}

  lemma SweepAt(ks: seq<Node>, ts: seq<Tree>, depth: int, i: nat, n: nat, now: seq<Node>, nowTs: seq<Tree>)
    requires Swept(ks, ts, depth, i, n, now, nowTs) && n < |now|
    ensures i < |ks| == |ts| && now[n] == ks[i] && n < |nowTs| && nowTs[n] == ts[i]
  {}

  lemma SweepStep(ks: seq<Node>, ts: seq<Tree>, depth: int, i: nat, n: nat, now: seq<Node>, nowTs: seq<Tree>)
    requires Swept(ks, ts, depth, i, n, now, nowTs) && n < |now| && n < |nowTs|
    requires nowTs[n].seen == now[n].seen
    ensures now[n].seen ==> Swept(ks, ts, depth, i + 1, n, now[..n] + now[n + 1..], nowTs[..n] + nowTs[n + 1..])
    ensures !now[n].seen && depth != 0 ==> Swept(ks, ts, depth, i + 1, n + 1, now, nowTs[n := Clean(nowTs[n], Below(depth))])
    ensures !now[n].seen && depth == 0 ==> Swept(ks, ts, depth, i + 1, n + 1, now, nowTs)
  {
    hide Clean, CleanKids, Unseen;
    assert ks[..i + 1] == ks[..i] + [ks[i]] && ts[..i + 1] == ts[..i] + [ts[i]];
    UnseenSnoc(ks[..i], ks[i]);
    CleanKidsSnoc(ts[..i], ts[i], depth);
    assert ks[i..] == [ks[i]] + ks[i + 1..] && ts[i..] == [ts[i]] + ts[i + 1..];
  }

  lemma SweepDone(ks: seq<Node>, ts: seq<Tree>, depth: int, i: nat, n: nat, now: seq<Node>, nowTs: seq<Tree>)
    requires Swept(ks, ts, depth, i, n, now, nowTs) && n == |now|
    ensures now == Unseen(ks) && nowTs == CleanKids(ts, depth)
    ensures forall t: Tree :: t.kids == ts ==> Clean(t, depth) == t.(kids := nowTs)
  {
    assert ks[..i] == ks && ts[..i] == ts;
  }

  lemma {:induction false} UnseenSnoc(ks: seq<Node>, c: Node)
    ensures Unseen(ks + [c]) == Unseen(ks) + if c.seen then [] else [c]
  {
    if ks == [] {
      assert ks + [c] == [c] && [c][1..] == [];
    } else {
      assert (ks + [c])[1..] == ks[1..] + [c];
      UnseenSnoc(ks[1..], c);
    }
  }

  ghost function Union(kids: seq<Node>): set<Node>
    reads kids`repr
  {
    if kids == [] then {} else kids[0].repr + Union(kids[1..])
  }

  ghost predicate AllApart(ks: seq<Node>, self: Node)
    reads ks`repr
  {
    && (forall i :: 0 <= i < |ks| ==> ks[i] in ks[i].repr && self !in ks[i].repr)
    && (forall i, j :: 0 <= i < j < |ks| ==> ks[i].repr !! ks[j].repr)
  }

  lemma Parts<T>(a: seq<T>, b: seq<T>)
    ensures forall i :: 0 <= i < |a + b| ==> (a + b)[i] == if i < |a| then a[i] else b[i - |a|]
  {}

  /** What disjointness says about three pieces of a list. */
  lemma Pieced(kept: seq<Node>, c: Node, rest: seq<Node>, self: Node)
    requires AllApart(kept + [c] + rest, self)
    ensures AllApart(kept, self) && AllApart(rest, self) && c in c.repr && self !in c.repr
    ensures forall i :: 0 <= i < |kept| ==> kept[i].repr !! c.repr
    ensures forall i :: 0 <= i < |rest| ==> rest[i].repr !! c.repr
    ensures forall i, j :: 0 <= i < |kept| && 0 <= j < |rest| ==> kept[i].repr !! rest[j].repr
  {
    var ks, n := kept + [c] + rest, |kept|;
    assert ks[n] == c;
    assert forall i :: 0 <= i < n ==> ks[i] == kept[i];
    assert forall i :: 0 <= i < |rest| ==> ks[n + 1 + i] == rest[i];
    forall i, j | 0 <= i < j < |rest|
      ensures rest[i].repr !! rest[j].repr
    {
      assert ks[n + 1 + i].repr !! ks[n + 1 + j].repr;
    }
    forall i, j | 0 <= i < |kept| && 0 <= j < |rest|
      ensures kept[i].repr !! rest[j].repr
    {
      assert ks[i].repr !! ks[n + 1 + j].repr;
    }
  }

  lemma ApartWith(ks: seq<Node>, node: Node, self: Node, all: set<Node>)
    requires AllApart(ks, self) && all == {self} + Union(ks)
    requires node in node.repr && node.repr !! all
    ensures AllApart(ks + [node], self) && node !in ks
    ensures Union(ks + [node]) == Union(ks) + node.repr
  {
    UnionAppend(ks, [node]);
    assert Union([node]) == node.repr + Union([]);
    forall i | 0 <= i < |ks|
      ensures ks[i].repr <= Union(ks)
    {
      UnionIn(ks, i);
    }
  }

  lemma Separate(ks: seq<Node>, self: Node)
    requires AllApart(ks, self)
    ensures forall i, j :: 0 <= i < |ks| && 0 <= j < |ks| && i != j ==> ks[i] != ks[j]
    ensures forall i :: 0 <= i < |ks| ==> ks[i] != self
  {}

  /** No child lies inside another child's subtree, or in its own below itself. */
  lemma Below1(ks: seq<Node>, self: Node)
    requires AllApart(ks, self)
    ensures forall i, j :: 0 <= i < |ks| && 0 <= j < |ks| ==> ks[i] !in ks[j].repr - {ks[j]}
  {}

  lemma Distinct(kept: seq<Node>, c: Node, rest: seq<Node>, self: Node)
    requires AllApart(kept + [c] + rest, self)
    ensures forall i, j :: 0 <= i < |kept| && 0 <= j < |kept| && i != j ==> kept[i] !in kept[j].repr && kept[i] != kept[j]
    ensures forall i, j :: 0 <= i < |kept| && 0 <= j < |rest| ==> kept[i] !in rest[j].repr && kept[i] != rest[j]
    ensures forall i :: 0 <= i < |kept| ==> kept[i] != self && kept[i] !in c.repr
    ensures forall j :: 0 <= j < |rest| ==> rest[j] != self
  {
    Pieced(kept, c, rest, self);
  }

  lemma ApartWithout(kept: seq<Node>, c: Node, rest: seq<Node>, self: Node)
    requires AllApart(kept + [c] + rest, self)
    ensures AllApart(kept + rest, self)
    ensures Union(kept + [c] + rest) - c.repr == Union(kept + rest)
    ensures self !in c.repr
  {
    hide Union;
    Pieced(kept, c, rest, self);
    UnionWithout(kept, c, rest);
  }

  lemma {:induction false} UnionAppend(a: seq<Node>, b: seq<Node>)
    ensures Union(a + b) == Union(a) + Union(b)
  {
    if a == [] {
      assert a + b == b;
    } else {
      assert (a + b)[1..] == a[1..] + b;
      UnionAppend(a[1..], b);
    }
  }

  lemma {:induction false} UnionIn(kids: seq<Node>, i: nat)
    requires i < |kids|
    ensures kids[i].repr <= Union(kids)
  {
    if i > 0 {
      UnionIn(kids[1..], i - 1);
    }
  }

  lemma {:induction false} UnionApart(kids: seq<Node>, s: set<Node>)
    requires forall i :: 0 <= i < |kids| ==> kids[i].repr !! s
    ensures Union(kids) !! s
  {
    if kids != [] {
      UnionApart(kids[1..], s);
    }
  }

  lemma UnionWithout(kept: seq<Node>, c: Node, rest: seq<Node>)
    requires forall i :: 0 <= i < |kept| ==> kept[i].repr !! c.repr
    requires forall i :: 0 <= i < |rest| ==> rest[i].repr !! c.repr
    ensures Union(kept + [c] + rest) - c.repr == Union(kept + rest)
  {
    UnionAppend(kept + [c], rest);
    UnionAppend(kept, [c]);
    UnionAppend(kept, rest);
    UnionApart(kept, c.repr);
    UnionApart(rest, c.repr);
    assert Union([c]) == c.repr + Union([]);
  }

  lemma CallsStep(h: Handlers, i: nat, parent: Option<string>, t: Tree)
    requires i < |h.table|
    ensures Calls(h, i, parent, t) ==
            if !Matches(h.table[i], parent, t) then Calls(h, i + 1, parent, t)
            else [Call(h.table[i].id, t)] + if h.react(h.table[i].id, t) == Next then Calls(h, i + 1, parent, t) else []
    ensures Aborts(h, i, parent, t) ==
            if !Matches(h.table[i], parent, t) then Aborts(h, i + 1, parent, t)
            else h.react(h.table[i].id, t) == Abort
                 || (h.react(h.table[i].id, t) == Next && Aborts(h, i + 1, parent, t))
  {
    hide Matches;
  }

  lemma Regroup<T>(a: seq<T>, b: seq<T>, c: seq<T>)
    ensures a + (b + c) == a + b + c
    ensures c == [] ==> a + b + c == a + b
  {}

  lemma CallsEnd(h: Handlers, parent: Option<string>, t: Tree)
    ensures Calls(h, |h.table|, parent, t) == [] && !Aborts(h, |h.table|, parent, t)
  {}

  /** The loop over the handler table. */
  method Dispatch(h: Handlers, parent: Option<string>, t: Tree) returns (calls: seq<Call>, aborted: bool)
    ensures calls == Calls(h, 0, parent, t) && aborted == Aborts(h, 0, parent, t)
    ensures CallsFor(h, parent, t, calls) && aborted == Stops(h, parent, t)
  {
    hide *;
    CallsRule(h, parent, t);
    calls := [];
    for i := 0 to |h.table|
      invariant calls + Calls(h, i, parent, t) == Calls(h, 0, parent, t)
      invariant Aborts(h, i, parent, t) == Aborts(h, 0, parent, t)
    {
      CallsStep(h, i, parent, t);
      if Matches(h.table[i], parent, t) {
        var st := h.react(h.table[i].id, t);
        Regroup(calls, [Call(h.table[i].id, t)], if st == Next then Calls(h, i + 1, parent, t) else []);
        calls := calls + [Call(h.table[i].id, t)];
        if st == Abort {
          return calls, true;
        } else if st != Next {
          return calls, false;
        }
      }
    }
    CallsEnd(h, parent, t);
    aborted := false;
  }
}
