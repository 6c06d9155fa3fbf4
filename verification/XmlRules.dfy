/** Which rows of the handler table are run for an element (xt_handle in lib/xmltree.c), said by the
    names in the rows and in the document alone. */
module XmlRules {
  import opened Options
  import opened XmlTree

  predicate SameLetter(c: char, d: char) {
    || c == d
    || ('A' <= c <= 'Z' && d as int == c as int + 32)
    || ('a' <= c <= 'z' && d as int == c as int - 32)
  }

  /** The same text in any case. */
  predicate SameText(a: string, b: string) {
    |a| == |b| && forall i :: 0 <= i < |a| ==> SameLetter(a[i], b[i])
  }

  lemma LowerSame(a: string, b: string)
    ensures Lower(a) == Lower(b) <==> SameText(a, b)
  {
    if Lower(a) == Lower(b) {
      forall i | 0 <= i < |a|
        ensures SameLetter(a[i], b[i])
      {
        assert Lower(a)[i] == Lower(b)[i];
      }
    }
  }

  /** A row is for elements of this name below an element named `parent`, or at the root. */
  predicate Suits(row: Handler, parent: Option<string>, name: string) {
    && (row.name.Some? ==> SameText(row.name.value, name))
    && (row.parent.Some? ==>
          if parent.Some? then SameText(row.parent.value, parent.value) else row.parent.value == "<root>")
  }

  lemma MatchesIs(row: Handler, parent: Option<string>, t: Tree)
    ensures Matches(row, parent, t) <==> Suits(row, parent, t.name)
  {
    hide Lower, SameText;
    if row.name.Some? {
      LowerSame(row.name.value, t.name);
    }
    if row.parent.Some? && parent.Some? {
      LowerSame(row.parent.value, parent.value);
    }
  }

  /** Row `i` suits, and every row from `from` on to there that suits lets the next one have the node. */
  predicate ChosenFrom(h: Handlers, parent: Option<string>, t: Tree, from: nat, i: nat) {
    && from <= i < |h.table| && Suits(h.table[i], parent, t.name)
    && forall j :: from <= j < i && Suits(h.table[j], parent, t.name) ==> h.react(h.table[j].id, t) == Next
  }

  predicate Chosen(h: Handlers, parent: Option<string>, t: Tree, i: nat) {
    ChosenFrom(h, parent, t, 0, i)
  }

  predicate Rising(rows: seq<nat>) {
    forall i, j :: 0 <= i < j < |rows| ==> rows[i] < rows[j]
  }

  function CallsOf(h: Handlers, t: Tree, rows: seq<nat>): (r: seq<Call>)
    requires forall k :: 0 <= k < |rows| ==> rows[k] < |h.table|
    ensures |r| == |rows|
  {
    seq(|rows|, k requires 0 <= k < |rows| => Call(h.table[rows[k]].id, t))
  }

  /** `rows` are the chosen rows in their order. */
  ghost predicate RowsFrom(h: Handlers, parent: Option<string>, t: Tree, from: nat, rows: seq<nat>) {
    Rising(rows) && forall i: nat :: i in rows <==> ChosenFrom(h, parent, t, from, i)
  }

  /** These are the calls for one node: the chosen rows, each once, in the order of the table. */
  ghost predicate CallsFor(h: Handlers, parent: Option<string>, t: Tree, calls: seq<Call>) {
    exists rows ::
      RowsFrom(h, parent, t, 0, rows) && (forall k :: 0 <= k < |rows| ==> rows[k] < |h.table|) && calls == CallsOf(h, t, rows)
  }

  /** A handler that is called for the node aborts. */
  ghost predicate Stops(h: Handlers, parent: Option<string>, t: Tree) {
    exists i: nat :: Chosen(h, parent, t, i) && h.react(h.table[i].id, t) == Abort
  }

  lemma SkipRow(h: Handlers, parent: Option<string>, t: Tree, from: nat, i: nat)
    requires from < |h.table| && !Suits(h.table[from], parent, t.name)
    ensures ChosenFrom(h, parent, t, from, i) <==> ChosenFrom(h, parent, t, from + 1, i)
  {
    hide Suits;
  }

  lemma TakeRow(h: Handlers, parent: Option<string>, t: Tree, from: nat, i: nat)
    requires from < |h.table| && Suits(h.table[from], parent, t.name)
    ensures ChosenFrom(h, parent, t, from, i) <==>
            i == from || (h.react(h.table[from].id, t) == Next && ChosenFrom(h, parent, t, from + 1, i))
  {
    hide Suits;
  }

  lemma {:induction false} CallsAre(h: Handlers, from: nat, parent: Option<string>, t: Tree) returns (rows: seq<nat>)
    requires from <= |h.table|
    ensures RowsFrom(h, parent, t, from, rows) && forall k :: 0 <= k < |rows| ==> from <= rows[k] < |h.table|
    ensures Calls(h, from, parent, t) == CallsOf(h, t, rows)
    decreases |h.table| - from
  {
    hide Suits, Matches, ChosenFrom;
    if from == |h.table| {
      rows := [];
      NoRow(h, parent, t);
    } else {
      MatchesIs(h.table[from], parent, t);
      if !Matches(h.table[from], parent, t) {
        rows := CallsAre(h, from + 1, parent, t);
        forall i: nat
          ensures i in rows <==> ChosenFrom(h, parent, t, from, i)
        {
          SkipRow(h, parent, t, from, i);
        }
      } else {
        var more := [];
        if h.react(h.table[from].id, t) == Next {
          more := CallsAre(h, from + 1, parent, t);
        }
        rows := [from] + more;
        forall i: nat
          ensures i in rows <==> ChosenFrom(h, parent, t, from, i)
        {
          TakeRow(h, parent, t, from, i);
        }
        assert CallsOf(h, t, rows) == [Call(h.table[from].id, t)] + CallsOf(h, t, more);
      }
    }
  }

  lemma NoRow(h: Handlers, parent: Option<string>, t: Tree)
    ensures forall i: nat :: !ChosenFrom(h, parent, t, |h.table|, i)
  {}

  lemma {:induction false} AbortsFrom(h: Handlers, from: nat, parent: Option<string>, t: Tree)
    requires from <= |h.table|
    ensures Aborts(h, from, parent, t) <==>
            exists i: nat :: ChosenFrom(h, parent, t, from, i) && h.react(h.table[i].id, t) == Abort
    decreases |h.table| - from
  {
    hide Suits, Matches, ChosenFrom;
    if from == |h.table| {
      NoRow(h, parent, t);
    } else {
      MatchesIs(h.table[from], parent, t);
      AbortsFrom(h, from + 1, parent, t);
      forall i: nat
        ensures Matches(h.table[from], parent, t) ==>
                  (ChosenFrom(h, parent, t, from, i) <==>
                   i == from || (h.react(h.table[from].id, t) == Next && ChosenFrom(h, parent, t, from + 1, i)))
        ensures !Matches(h.table[from], parent, t) ==>
                  (ChosenFrom(h, parent, t, from, i) <==> ChosenFrom(h, parent, t, from + 1, i))
      {
        if Matches(h.table[from], parent, t) {
          TakeRow(h, parent, t, from, i);
        } else {
          SkipRow(h, parent, t, from, i);
        }
      }
    }
  }

  /** The calls that a node causes, and whether one of them aborts, in these terms. */
  lemma CallsRule(h: Handlers, parent: Option<string>, t: Tree)
    ensures CallsFor(h, parent, t, Calls(h, 0, parent, t))
    ensures Aborts(h, 0, parent, t) <==> Stops(h, parent, t)
  {
    hide Suits, Matches, ChosenFrom;
    var rows := CallsAre(h, 0, parent, t);
    AbortsFrom(h, 0, parent, t);
  }

  lemma {:induction false} RisingSame(a: seq<nat>, b: seq<nat>)
    requires Rising(a) && Rising(b) && forall i: nat :: i in a <==> i in b
    ensures a == b
  {
    BothSome(a, b);
    BothSome(b, a);
    if a != [] {
      assert a[0] in a && b[0] in b && a[0] == b[0];
      forall i: nat
        ensures i in a[1..] <==> i in b[1..]
      {
        assert i in a <==> i == a[0] || i in a[1..];
        assert i in b <==> i == b[0] || i in b[1..];
      }
      RisingSame(a[1..], b[1..]);
      assert a == [a[0]] + a[1..] && b == [b[0]] + b[1..];
    }
  }

  lemma BothSome(a: seq<nat>, b: seq<nat>)
    requires forall i: nat :: i in a ==> i in b
    ensures a != [] ==> b != []
  {
    assert a != [] ==> a[0] in a;
  }

  /** There is no other such list of calls. */
  lemma CallsUnique(h: Handlers, parent: Option<string>, t: Tree, a: seq<Call>, b: seq<Call>)
    requires CallsFor(h, parent, t, a) && CallsFor(h, parent, t, b)
    ensures a == b
  {
    hide ChosenFrom;
    var p :| RowsFrom(h, parent, t, 0, p) && (forall k :: 0 <= k < |p| ==> p[k] < |h.table|) && a == CallsOf(h, t, p);
    var q :| RowsFrom(h, parent, t, 0, q) && (forall k :: 0 <= k < |q| ==> q[k] < |h.table|) && b == CallsOf(h, t, q);
    RisingSame(p, q);
  }

  // ---------------------------------------------------------------- how deep a round goes

  /** The node at the end of the path `p`, which names a child at every level. */
  function At(t: Tree, p: seq<nat>): Option<Tree> {
    if p == [] then Some(t) else if p[0] < |t.kids| then At(t.kids[p[0]], p[1..]) else None
  }

  /** A depth reaches so many levels below a node; a negative one reaches all. */
  predicate Reached(depth: int, level: nat) {
    depth < 0 || level <= depth
  }

  /** `u` is the node `t` after a round of handling in which nothing aborted. */
  ghost predicate Marked(t: Option<Tree>, u: Option<Tree>, reached: bool) {
    && (t.Some? <==> u.Some?)
    && (t.Some? ==>
          && u.value == t.value.(kids := u.value.kids, seen := u.value.seen) && |u.value.kids| == |t.value.kids|
          && (u.value.seen <==> t.value.seen || (t.value.complete && reached)))
  }

  lemma HandleTop(h: Handlers, parent: Option<string>, t: Tree, depth: int)
    requires Handle(h, parent, t, depth).ok
    ensures var u := Handle(h, parent, t, depth).value;
            && u == t.(kids := u.kids, seen := t.seen || t.complete) && |u.kids| == |t.kids|
            && (depth == 0 ==> u.kids == t.kids)
            && (depth != 0 ==> HandleKids(h, t.name, t.kids, Below(depth)) ==
                               Outcome(u.kids, HandleKids(h, t.name, t.kids, Below(depth)).calls, true))
  {
    hide Calls, Aborts, HandleKids;
  }

  lemma {:induction false} KidsHandled(h: Handlers, parent: string, kids: seq<Tree>, depth: int, i: nat)
    requires HandleKids(h, parent, kids, depth).ok && i < |kids|
    ensures Handle(h, Some(parent), kids[i], depth).ok
    ensures HandleKids(h, parent, kids, depth).value[i] == Handle(h, Some(parent), kids[i], depth).value
  {
    hide Handle;
    if i > 0 {
      KidsHandled(h, parent, kids[1..], depth, i - 1);
    }
  }

  /** xt_handle at a depth marks exactly the complete nodes so many levels down. */
  lemma {:induction false} HandleMarks(h: Handlers, parent: Option<string>, t: Tree, depth: int, p: seq<nat>)
    requires Handle(h, parent, t, depth).ok
    ensures Marked(At(t, p), At(Handle(h, parent, t, depth).value, p), Reached(depth, |p|))
    decreases |p|
  {
    hide Handle, HandleKids;
    HandleTop(h, parent, t, depth);
    if p != [] && p[0] < |t.kids| && depth != 0 {
      KidsHandled(h, t.name, t.kids, Below(depth), p[0]);
      HandleMarks(h, Some(t.name), t.kids[p[0]], Below(depth), p[1..]);
    }
  }

  lemma {:induction false} CleanedKid(kids: seq<Tree>, depth: int, i: nat) returns (j: nat)
    requires i < |CleanKids(kids, depth)|
    ensures i <= j < |kids| && !kids[j].seen
    ensures CleanKids(kids, depth)[i] == if depth != 0 then Clean(kids[j], Below(depth)) else kids[j]
  {
    hide Clean;
    if kids[0].seen {
      j := CleanedKid(kids[1..], depth, i);
      j := j + 1;
    } else if i == 0 {
      j := 0;
    } else {
      j := CleanedKid(kids[1..], depth, i - 1);
      j := j + 1;
    }
  }

  /** After xt_cleanup no node that the depth reaches below the root's children is marked. */
  lemma {:induction false} CleanSweeps(t: Tree, depth: int, p: seq<nat>)
    requires p != [] && At(Clean(t, depth), p).Some? && (depth < 0 || |p| <= depth + 1)
    ensures !At(Clean(t, depth), p).value.seen
    decreases |p|
  {
    hide Clean, CleanKids;
    CleanTop(t, depth);
    var j := CleanedKid(t.kids, depth, p[0]);
    if |p| > 1 {
      CleanSweeps(t.kids[j], Below(depth), p[1..]);
    } else {
      CleanTop(t.kids[j], Below(depth));
    }
  }

  lemma CleanTop(t: Tree, depth: int)
    ensures Clean(t, depth) == t.(kids := CleanKids(t.kids, depth))
  {}
}
