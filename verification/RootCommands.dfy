/** The table of root commands and the search by unique prefix (root_commands.c). */
module RootCommands {
  import opened CStrings
  import opened Options

  datatype Command = Command(name: string, params: nat, execute: nat)

  /** What root_command does; Unknown is its error message. */
  datatype Result = Nothing | Executed(i: nat) | TooFew(need: nat) | Unknown

  function Small(c: char): char {
    if 'A' <= c <= 'Z' then c - 'A' + 'a' else c
  }

  /** How g_strcasecmp and g_strncasecmp see a string. */
  function Folded(s: string): (r: string)
    ensures |r| == |s|
  {
    seq(|s|, i requires 0 <= i < |s| => Small(s[i]))
  }

  function Names(t: seq<Option<Command>>, n: nat): (r: seq<string>)
    requires n <= |t| && forall i :: 0 <= i < n ==> t[i].Some?
    ensures |r| == n
  {
    seq(n, i requires 0 <= i < n => Folded(t[i].value.name))
  }

  /** Commands in order, then empty slots, at least one of them. */
  predicate Table(t: seq<Option<Command>>, n: nat) {
    && n < |t|
    && (forall i :: 0 <= i < n ==> t[i].Some?) && (forall i :: n <= i < |t| ==> t[i].None?)
    && Sorted(Names(t, n))
  }

  /** g_strncasecmp up to the length of `word` sees no difference. */
  predicate Begins(word: string, name: string) {
    Folded(word) <= Folded(name)
  }

  /** Two characters are the same but for the case of a letter. */
  predicate Alike(c: char, d: char) {
    c == d || ('A' <= c <= 'Z' && d as int == c as int + 32) || ('A' <= d <= 'Z' && c as int == d as int + 32)
  }

  /** A name begins with a word when it has all its characters, in any case, and has the name of another
      when they have as many. */
  lemma BeginsIs(word: string, name: string)
    ensures Begins(word, name) <==> |word| <= |name| && forall i :: 0 <= i < |word| ==> Alike(word[i], name[i])
    ensures Folded(word) == Folded(name) <==>
              |word| == |name| && forall i :: 0 <= i < |word| ==> Alike(word[i], name[i])
  {
    forall i | 0 <= i < |word| && i < |name|
      ensures Folded(word)[i] == Folded(name)[i] <==> Alike(word[i], name[i])
    {}
    if Begins(word, name) {
      assert forall i :: 0 <= i < |word| ==> Folded(name)[..|word|][i] == Folded(name)[i];
    }
  }

  /** Command `i` is the one that begins with `word`. */
  predicate Only(t: seq<Option<Command>>, n: nat, word: string, i: nat)
    requires Table(t, n)
  {
    i < n && forall j :: 0 <= j < n ==> (Begins(word, t[j].value.name) <==> j == i)
  }

  /** What comes between two strings with the same beginning has it, too. */
  lemma {:induction false} Between(p: string, a: string, b: string, c: string)
    requires p <= a && p <= c && Compare(a, b) < 0 && Compare(b, c) < 0
    ensures p <= b
  {
    if p != "" {
      assert a[0] == p[0] == c[0] == b[0];
      Between(p[1..], a[1..], b[1..], c[1..]);
      assert b == [b[0]] + b[1..] && p == [p[0]] + p[1..];
    }
  }

  /** A match without another one right behind it is the only one. */
  lemma Contiguous(t: seq<Option<Command>>, n: nat, word: string, i: nat)
    requires Table(t, n) && i < n && Begins(word, t[i].value.name)
    requires forall j :: 0 <= j < i ==> !Begins(word, t[j].value.name)
    ensures Only(t, n, word, i) <==> (i + 1 < n ==> !Begins(word, t[i + 1].value.name))
  {
    hide Compare, Folded;
    if i + 1 < n && !Begins(word, t[i + 1].value.name) {
      forall j | i + 1 < j < n
        ensures !Begins(word, t[j].value.name)
      {
        var names := Names(t, n);
        assert Compare(names[i], names[i + 1]) < 0 && Compare(names[i + 1], names[j]) < 0;
        if Begins(word, t[j].value.name) {
          Between(Folded(word), names[i], names[i + 1], names[j]);
        }
      }
    }
  }

  /** root_command executes exactly the only command that begins with the given word, if it has all
      its parameters. */
  method Execute(slots: array<Option<Command>>, cmd: seq<string>, ghost n: nat) returns (r: Result)
    requires Table(slots[..], n)
    ensures r == Nothing <==> cmd == []
    ensures cmd != [] ==> forall i :: 0 <= i < n && Only(slots[..], n, cmd[0], i) ==>
              r == if |cmd| > slots[i].value.params then Executed(i) else TooFew(slots[i].value.params)
    ensures r == Unknown <==> cmd != [] && forall i :: 0 <= i < n ==> !Only(slots[..], n, cmd[0], i)
  {
    hide Sorted, Begins;
    if cmd == [] {
      return Nothing;
    }
    ghost var t := slots[..];
    var i := 0;
    while slots[i].Some?
      invariant i <= n && forall j :: 0 <= j < i ==> !Begins(cmd[0], t[j].value.name)
      decreases n - i
    {
      if Begins(cmd[0], slots[i].value.name) {
        Contiguous(t, n, cmd[0], i);
        if slots[i + 1].Some? && Begins(cmd[0], slots[i + 1].value.name) {
          assert forall k :: 0 <= k < n && Only(t, n, cmd[0], k) ==> k == i;
          return Unknown;
        }
        if |cmd| <= slots[i].value.params {
          return TooFew(slots[i].value.params);
        }
        return Executed(i);
      }
      i := i + 1;
    }
    return Unknown;
  }

  /** A command can be given by its own name exactly if it is not the beginning of the next one's. */
  lemma ExactName(t: seq<Option<Command>>, n: nat, i: nat)
    requires Table(t, n) && i < n
    ensures Only(t, n, t[i].value.name, i) <==> (i + 1 < n ==> !Begins(t[i].value.name, t[i + 1].value.name))
  {
    hide Compare;
    var names := Names(t, n);
    forall j | 0 <= j < i
      ensures !Begins(t[i].value.name, t[j].value.name)
    {
      assert Compare(names[j], names[i]) < 0;
      if names[i] <= names[j] {
        LongerLater(names[i], names[j]);
        CompareIs(names[i], names[j]);
      }
    }
    Contiguous(t, n, t[i].value.name, i);
  }

  lemma {:induction false} LongerLater(a: string, b: string)
    requires a <= b
    ensures Compare(a, b) <= 0
  {
    if a != "" {
      LongerLater(a[1..], b[1..]);
    }
  }

  // ---------------------------------------------------------------- root_command_add

  /** root_command_add puts a command in its place unless the table is full or has one of that name
      in any case; the table stays in order. */
  method Add(slots: array<Option<Command>>, name: string, params: nat, execute: nat, ghost n: nat) returns (ok: bool, ghost p: nat)
    requires Table(slots[..], n) && slots.Length >= 2
    modifies slots
    ensures ok <==> n + 1 < slots.Length && forall i :: 0 <= i < n ==> Folded(old(slots[..])[i].value.name) != Folded(name)
    ensures !ok ==> slots[..] == old(slots[..])
    ensures ok ==> p <= n && slots[..] == old(slots[..p]) + [Some(Command(name, params, execute))] + old(slots[p..slots.Length - 1])
    ensures ok ==> Table(slots[..], n + 1)
  {
    hide Compare, Folded, Sorted, Place;
    p := 0;
    NamesIn(slots[..], n);
    if slots[slots.Length - 2].Some? {
      return false, 0;
    }
    ghost var t := slots[..];
    var i, taken := Search(slots, name, n);
    if taken {
      return false, 0;
    }
    Shift(slots, i);
    slots[i] := Some(Command(name, params, execute));
    ok, p := true, i;
    Inserted(t, n, i, Command(name, params, execute));
  }

  /** The place for a command, unless its name is taken. */
  method Search(slots: array<Option<Command>>, name: string, ghost n: nat) returns (i: nat, taken: bool)
    requires Table(slots[..], n)
    ensures i <= n
    ensures taken <==> Folded(name) in Names(slots[..], n)
    ensures !taken ==> Place(Names(slots[..], n), Folded(name), i)
  {
    hide Compare, Folded;
    ghost var names := Names(slots[..], n);
    i := 0;
    while slots[i].Some?
      invariant i <= n && forall j :: 0 <= j < i ==> Compare(names[j], Folded(name)) < 0
      decreases n - i
    {
      var c := Compare(Folded(slots[i].value.name), Folded(name));
      CompareIs(names[i], Folded(name));
      if c == 0 {
        assert names[i] in names;
        return i, true;
      }
      if c > 0 {
        break;
      }
      i := i + 1;
    }
    Free(names, Folded(name), i);
    taken := false;
  }

  lemma NamesIn(t: seq<Option<Command>>, n: nat)
    requires Table(t, n)
    ensures forall k :: k in Names(t, n) <==> exists i :: 0 <= i < n && Folded(t[i].value.name) == k
  {
    hide Folded, Sorted;
    var names := Names(t, n);
    assert forall i :: 0 <= i < n ==> names[i] == Folded(t[i].value.name) && names[i] in names;
  }

  lemma Free(names: seq<string>, k: string, i: nat)
    requires Sorted(names) && i <= |names|
    requires (forall j :: 0 <= j < i ==> Compare(names[j], k) < 0) && (i < |names| ==> Compare(names[i], k) > 0)
    ensures Place(names, k, i) && k !in names
  {
    hide Compare;
    forall j | 0 <= j < |names|
      ensures names[j] != k && (j < i ==> Compare(k, names[j]) > 0)
    {
      CompareIs(names[j], k);
      CompareIs(k, names[j]);
      if j > i {
        CompareIs(k, names[i]);
        CompareIs(names[i], names[j]);
        CompareChain(k, names[i], names[j]);
      }
    }
    if i < |names| {
      CompareIs(names[i], k);
      CompareIs(k, names[i]);
    }
  }

  lemma Inserted(t: seq<Option<Command>>, n: nat, i: nat, c: Command)
    requires Table(t, n) && n + 1 < |t| && Place(Names(t, n), Folded(c.name), i) && Folded(c.name) !in Names(t, n)
    ensures Table(t[..i] + [Some(c)] + t[i..|t| - 1], n + 1)
  {
    hide Compare, Sorted, Folded;
    var names, u := Names(t, n), t[..i] + [Some(c)] + t[i..|t| - 1];
    InsertSorted(names, Folded(c.name), i);
    assert Names(u, n + 1) == names[..i] + [Folded(c.name)] + names[i..];
  }

  /** memmove. */
  method Shift(slots: array<Option<Command>>, i: nat)
    requires i < slots.Length
    modifies slots
    ensures slots[..i + 1] == old(slots[..i + 1]) && slots[i + 1..] == old(slots[i..slots.Length - 1])
  {
    var k := slots.Length - 1;
    while k > i
      invariant i <= k < slots.Length
      invariant forall m :: 0 <= m <= k ==> slots[m] == old(slots[m])
      invariant forall m :: k < m < slots.Length ==> slots[m] == old(slots[m - 1])
    {
      slots[k] := slots[k - 1];
      k := k - 1;
    }
  }

  // ---------------------------------------------------------------- the shipped table

  const SHIPPED: seq<string> := ["account", "add", "allow", "blist", "block", "channel", "chat", "drop", "ft", "group",
    "help", "identify", "info", "nick", "no", "qlist", "register", "remove", "rename", "save", "set", "transfer", "yes"]
  const PARAMS: seq<nat> := [1, 2, 1, 0, 1, 1, 1, 1, 0, 1, 0, 0, 1, 1, 0, 0, 0, 1, 2, 0, 0, 0, 0]

  /** root_commands: 23 commands and nine empty slots. */
  function ShippedTable(): (t: seq<Option<Command>>)
    ensures |t| == 32 && forall i :: 0 <= i < 32 ==> t[i] == if i < 23 then Some(Command(SHIPPED[i], PARAMS[i], i)) else None
  {
    seq(32, i requires 0 <= i < 32 => if i < 23 then Some(Command(SHIPPED[i], PARAMS[i], i)) else None)
  }

  /** How many words the shipped commands need behind their names. */
  lemma ShippedNeeds(i: nat)
    requires i < 23
    ensures |SHIPPED| == |PARAMS| == 23
    ensures PARAMS[i] == if SHIPPED[i] in {"add", "rename"} then 2
                         else if SHIPPED[i] in {"blist", "ft", "help", "identify", "no", "qlist", "register", "save", "set",
                                                "transfer", "yes"} then 0
                         else 1
  {}

  lemma ShippedOrder(i: nat)
    requires i < 22
    ensures Compare(SHIPPED[i], SHIPPED[i + 1]) < 0
  {}

  /** The next command differs in one of the first four characters. */
  lemma ShippedNext(i: nat)
    requires i < 22
    ensures exists k :: 0 <= k < |SHIPPED[i]| && (k < |SHIPPED[i + 1]| ==> SHIPPED[i][k] != SHIPPED[i + 1][k])
  {
    var a, b := SHIPPED[i], SHIPPED[i + 1];
    var k := if a[0] != b[0] then 0 else if a[1] != b[1] then 1 else if a[2] != b[2] then 2 else 3;
    assert k < |a| && (k < |b| ==> a[k] != b[k]);
  }

  lemma ShippedSmall(i: nat)
    requires i < 23
    ensures |SHIPPED| == 23 && Folded(SHIPPED[i]) == SHIPPED[i]
  {}

  lemma {:induction false} Consecutive(keys: seq<string>, i: nat, j: nat)
    requires i < j < |keys| && forall k :: 0 <= k < |keys| - 1 ==> Compare(keys[k], keys[k + 1]) < 0
    ensures Compare(keys[i], keys[j]) < 0
    decreases j
  {
    hide Compare;
    if i + 1 < j {
      Consecutive(keys, i, j - 1);
      CompareChain(keys[i], keys[j - 1], keys[j]);
    }
  }

  /** The shipped table is in order, and every command in it can be given by its own name. */
  lemma Shipped()
    ensures Table(ShippedTable(), 23)
    ensures forall i :: 0 <= i < 23 ==> Only(ShippedTable(), 23, SHIPPED[i], i)
  {
    hide Compare, SHIPPED, Folded;
    ShippedSmall(0);
    forall i | 0 <= i < 23
      ensures Folded(SHIPPED[i]) == SHIPPED[i]
    {
      ShippedSmall(i);
    }
    forall i | 0 <= i < 22
      ensures Compare(SHIPPED[i], SHIPPED[i + 1]) < 0 && !(SHIPPED[i] <= SHIPPED[i + 1])
    {
      ShippedOrder(i);
      ShippedNext(i);
    }
    var t := ShippedTable();
    assert Names(t, 23) == SHIPPED;
    forall i, j | 0 <= i < j < 23
      ensures Compare(SHIPPED[i], SHIPPED[j]) < 0
    {
      Consecutive(SHIPPED, i, j);
    }
    forall i | 0 <= i < 23
      ensures Only(t, 23, SHIPPED[i], i)
    {
      ExactName(t, 23, i);
    }
  }
}
