/** Values for the XML stream tree (lib/xmltree.c): documents, parser events, and what the
    dispatcher and the garbage collector do to a tree. */
module XmlTree {
  import opened Options

  type Attrs = seq<(string, string)>

  /** A node with everything below it; `complete` and `seen` are XT_COMPLETE and XT_SEEN. */
  datatype Tree = Tree(name: string, attrs: Attrs, text: Option<string>, complete: bool, seen: bool, kids: seq<Tree>)

  /** What GMarkup reports. */
  datatype Event = Start(name: string, attrs: Attrs) | Text(chars: string) | End

  /** An element whose end tag has not arrived: its finished children come before the open one. */
  datatype Frame = Frame(name: string, attrs: Attrs, text: Option<string>, closed: seq<Tree>)

  /** `frames` leads from the root to the current element and is not empty. */
  datatype Doc = Empty | Open(frames: seq<Frame>) | Closed(root: Tree)

  predicate WellFormed(d: Doc) {
    d.Open? ==> d.frames != []
  }

  /** The tree of nested open elements. */
  function Plug(fs: seq<Frame>): Tree
    requires fs != []
  {
    var f := fs[0];
    Tree(f.name, f.attrs, f.text, false, false, f.closed + if |fs| == 1 then [] else [Plug(fs[1..])])
  }

  function Seal(f: Frame): Tree {
    Tree(f.name, f.attrs, f.text, true, false, f.closed)
  }

  function AddText(t: Option<string>, chars: string): Option<string> {
    if t.None? then Some(chars) else Some(t.value + chars)
  }

  /** GMarkup delivers one root element and balanced tags. */
  predicate Accepts(d: Doc, e: Event) {
    match e
    case Start(_, _) => !d.Closed?
    case Text(_) => true
    case End => d.Open?
  }

  function Feed(d: Doc, e: Event): (r: Doc)
    requires WellFormed(d) && Accepts(d, e)
    ensures WellFormed(r)
  {
    match e
    case Start(name, attrs) =>
      Open((if d.Open? then d.frames else []) + [Frame(name, attrs, None, [])])
    case Text(chars) =>
      if !d.Open? then d else
      var n := |d.frames| - 1;
      Open(d.frames[n := d.frames[n].(text := AddText(d.frames[n].text, chars))])
    case End =>
      var n := |d.frames| - 1;
      var t := Seal(d.frames[n]);
      if n == 0 then Closed(t)
      else Open(d.frames[..n][n - 1 := d.frames[n - 1].(closed := d.frames[n - 1].closed + [t])])
  }

  predicate AcceptsAll(d: Doc, es: seq<Event>)
    requires WellFormed(d)
    decreases |es|
  {
    es == [] || (Accepts(d, es[0]) && AcceptsAll(Feed(d, es[0]), es[1..]))
  }

  function FeedAll(d: Doc, es: seq<Event>): (r: Doc)
    requires WellFormed(d) && AcceptsAll(d, es)
    ensures WellFormed(r)
    decreases |es|
  {
    if es == [] then d else FeedAll(Feed(d, es[0]), es[1..])
  }

  // ---------------------------------------------------------------- dispatch

  datatype Status = Abort | Handled | Next

  /** A row of the handler table; a missing name or parent matches everything. */
  datatype Handler = Handler(name: Option<string>, parent: Option<string>, id: nat)

  /** A handler that was run, and the node it was given. */
  datatype Call = Call(id: nat, node: Tree)

  /** The table, and what each handler answers for a node. */
  datatype Handlers = Handlers(table: seq<Handler>, react: (nat, Tree) -> Status)

  function LowerChar(c: char): char {
    if 'A' <= c <= 'Z' then c - 'A' + 'a' else c
  }

  function Lower(s: string): string {
    seq(|s|, i requires 0 <= i < |s| => LowerChar(s[i]))
  }

  /** The test of xt_handle: `parent` is the name of the parent element, None at the root. */
  predicate Matches(h: Handler, parent: Option<string>, t: Tree) {
    && (h.name.None? || Lower(h.name.value) == Lower(t.name))
    && (h.parent.None?
        || (if parent.Some? then Lower(h.parent.value) == Lower(parent.value) else h.parent.value == "<root>"))
  }

  /** The calls one node causes, up to the first handler that does not answer Next. */
  function Calls(h: Handlers, i: nat, parent: Option<string>, t: Tree): seq<Call>
    requires i <= |h.table|
    decreases |h.table| - i
  {
    if i == |h.table| then []
    else if !Matches(h.table[i], parent, t) then Calls(h, i + 1, parent, t)
    else
      [Call(h.table[i].id, t)] + if h.react(h.table[i].id, t) == Next then Calls(h, i + 1, parent, t) else []
  }

  predicate Aborts(h: Handlers, i: nat, parent: Option<string>, t: Tree)
    requires i <= |h.table|
    decreases |h.table| - i
  {
    i < |h.table| &&
    if !Matches(h.table[i], parent, t) then Aborts(h, i + 1, parent, t)
    else
      var st := h.react(h.table[i].id, t);
      st == Abort || (st == Next && Aborts(h, i + 1, parent, t))
  }

  /** A depth counts down to 0; a negative depth never ends. */
  function Below(depth: int): int {
    if depth > 0 then depth - 1 else depth
  }

  /** The outcome of xt_handle: the tree, the calls made, and whether nothing aborted. */
  datatype Outcome<T> = Outcome(value: T, calls: seq<Call>, ok: bool)

  function Handle(h: Handlers, parent: Option<string>, t: Tree, depth: int): Outcome<Tree>
    decreases t, 1
  {
    var below := if depth == 0 then Outcome(t.kids, [], true) else HandleKids(h, t.name, t.kids, Below(depth));
    var t' := t.(kids := below.value);
    if !below.ok then Outcome(t', below.calls, false)
    else if t.complete && !t.seen then
      var calls := below.calls + Calls(h, 0, parent, t');
      if Aborts(h, 0, parent, t') then Outcome(t', calls, false) else Outcome(t'.(seen := true), calls, true)
    else Outcome(t', below.calls, true)
  }

  function HandleKids(h: Handlers, parent: string, kids: seq<Tree>, depth: int): (r: Outcome<seq<Tree>>)
    ensures |r.value| == |kids|
    decreases kids, 0
  {
    if kids == [] then Outcome([], [], true)
    else
      var first := Handle(h, Some(parent), kids[0], depth);
      if !first.ok then Outcome([first.value] + kids[1..], first.calls, false)
      else
        var rest := HandleKids(h, parent, kids[1..], depth);
        Outcome([first.value] + rest.value, first.calls + rest.calls, rest.ok)
  }

  /** Where the walk over the children `ts` stands: they have become `now`, the first `i` are done. */
  ghost predicate Walked(h: Handlers, parent: string, ts: seq<Tree>, depth: int, i: nat, now: seq<Tree>, calls: seq<Call>) {
    && i <= |ts| == |now| && now[i..] == ts[i..]
    && var rest := HandleKids(h, parent, ts[i..], depth);
       HandleKids(h, parent, ts, depth) == Outcome(now[..i] + rest.value, calls + rest.calls, rest.ok)
  }

  lemma WalkStart(h: Handlers, parent: string, ts: seq<Tree>, depth: int)
    ensures Walked(h, parent, ts, depth, 0, ts, [])
  {
    assert ts[0..] == ts;
    var all := HandleKids(h, parent, ts, depth);
    assert ts[..0] + all.value == all.value && [] + all.calls == all.calls;
  }

  lemma WalkStep(h: Handlers, parent: string, ts: seq<Tree>, depth: int, i: nat, now: seq<Tree>, calls: seq<Call>)
    requires i < |ts| && Walked(h, parent, ts, depth, i, now, calls)
    ensures i < |now| && now[i] == ts[i]
    ensures var first := Handle(h, Some(parent), ts[i], depth);
            if first.ok then Walked(h, parent, ts, depth, i + 1, now[i := first.value], calls + first.calls)
            else HandleKids(h, parent, ts, depth) == Outcome(now[i := first.value], calls + first.calls, false)
  {
    hide Handle;
    assert now[i] == now[i..][0] == ts[i..][0];
    var first := Handle(h, Some(parent), ts[i], depth);
    assert ts[i..][1..] == ts[i + 1..] && now[i..][1..] == now[i + 1..];
    var rest := HandleKids(h, parent, ts[i + 1..], depth);
    var now' := now[i := first.value];
    if first.ok {
      assert now[..i] + ([first.value] + rest.value) == now'[..i + 1] + rest.value;
      assert calls + (first.calls + rest.calls) == calls + first.calls + rest.calls;
    } else {
      assert now[..i] + ([first.value] + ts[i + 1..]) == now';
    }
  }

  lemma WalkDone(h: Handlers, parent: string, ts: seq<Tree>, depth: int, i: nat, now: seq<Tree>, calls: seq<Call>)
    requires Walked(h, parent, ts, depth, i, now, calls) && i == |now|
    ensures HandleKids(h, parent, ts, depth) == Outcome(now, calls, true)
  {
    assert ts[|ts|..] == [];
    assert now[..i] + [] == now && calls + [] == calls;
  }

  /** xt_handle on one node, once the children have become those of `u`. */
  lemma HandleUnfold(h: Handlers, parent: Option<string>, t: Tree, depth: int, u: Tree, calls: seq<Call>, ok: bool)
    requires u == t.(kids := u.kids)
    requires Outcome(u.kids, calls, ok) ==
             if depth == 0 then Outcome(t.kids, [], true) else HandleKids(h, t.name, t.kids, Below(depth))
    ensures Handle(h, parent, t, depth) ==
            if !ok then Outcome(u, calls, false)
            else if u.complete && !u.seen then
              var all := calls + Calls(h, 0, parent, u);
              if Aborts(h, 0, parent, u) then Outcome(u, all, false) else Outcome(u.(seen := true), all, true)
            else Outcome(u, calls, true)
  {}

  // ---------------------------------------------------------------- garbage collection

  function Clean(t: Tree, depth: int): Tree
    decreases t, 1
  {
    t.(kids := CleanKids(t.kids, depth))
  }

  /** Children that were seen go; the others are cleaned below when the depth allows. */
  function CleanKids(kids: seq<Tree>, depth: int): seq<Tree>
    decreases kids, 0
  {
    if kids == [] then []
    else if kids[0].seen then CleanKids(kids[1..], depth)
    else [if depth != 0 then Clean(kids[0], Below(depth)) else kids[0]] + CleanKids(kids[1..], depth)
  }

  lemma {:induction false} CleanKidsSnoc(a: seq<Tree>, x: Tree, depth: int)
    ensures CleanKids(a + [x], depth) ==
            CleanKids(a, depth) + if x.seen then [] else [if depth != 0 then Clean(x, Below(depth)) else x]
  {
    hide Clean;
    if a == [] {
      assert a + [x] == [x] && [x][1..] == [];
    } else {
      assert (a + [x])[1..] == a[1..] + [x];
      CleanKidsSnoc(a[1..], x, depth);
    }
  }
}
