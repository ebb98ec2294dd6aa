/**
 * The prefix index the server keeps beside the record map (`Trie` in the storage core),
 * modelled as written, defects included:
 *
 *  - `insert` recurses only when the rest of the key is empty (the guard is inverted), so a
 *    key of two or more characters touches nothing but the root's child for its first
 *    character, and a one-character key recurses on the empty string, whose
 *    `String::remove(0)` panics;
 *  - a new child is created with counter 1 and then incremented, so it starts at 2;
 *  - `remove` decrements a `u64` counter with no guard, which panics at zero (debug builds
 *    check overflow).
 *
 * A panic is an outcome flag; the state is what it was when the panic struck.
 */
module TrieIndex {
  import opened Wrappers

  /** The value a trie denotes: end marker, counter and children by character. */
  datatype Node = Node(hasKeyEndingHere: bool, counter: nat, children: map<char, Node>)

  /** `Trie::default()`. */
  const DefaultNode: Node := Node(false, 1, map[])

  /** The trie after an operation, and whether the operation panicked. */
  datatype Outcome = Outcome(trie: Node, panicked: bool)

  // ---------------------------------------------------------------------------------------
  // Specification on values

  /**
   * What `insert` does: the empty key panics before any change; otherwise the child for the
   * first character (created with counter 1 if missing) gains one on its counter and is
   * marked as a key end exactly when the key has one character, and the key of one character
   * then panics in the recursive call.
   */
  function InsertSpec(t: Node, input: string): Outcome
  {
    if input == [] then Outcome(t, true)
    else
      var c := input[0];
      var child := if c in t.children then t.children[c] else Node(|input| == 1, 1, map[]);
      var child' := child.(counter := child.counter + 1, hasKeyEndingHere := |input| == 1);
      Outcome(t.(children := t.children[c := child']), |input| == 1)
  }

  /** The node a path of characters leads to, if every step exists. */
  function Reach(t: Node, path: string): Option<Node>
    decreases |path|
  {
    if path == [] then Some(t)
    else if path[0] in t.children then Reach(t.children[path[0]], path[1..])
    else None
  }

  /** Following `p + q` is following `p`, then `q` from where `p` ends. */
  lemma {:induction false} ReachAppend(t: Node, p: string, q: string)
    ensures Reach(t, p + q) == match Reach(t, p) case None => None case Some(n) => Reach(n, q)
    decreases |p|
  {
    if p == [] {
      assert p + q == q;
    } else {
      assert (p + q)[0] == p[0] && (p + q)[1..] == p[1..] + q;
      if p[0] in t.children {
        ReachAppend(t.children[p[0]], p[1..], q);
      }
    }
  }

  /** The trie with the node at the end of `path` replaced by `n`. */
  function Replace(t: Node, path: string, n: Node): Node
    requires Reach(t, path).Some?
    decreases |path|
  {
    if path == [] then n
    else t.(children := t.children[path[0] := Replace(t.children[path[0]], path[1..], n)])
  }

  /** A node after `remove` stopped at it: one off its counter, and its children at zero dropped. */
  function Pruned(n: Node): Node
    requires n.counter > 0
  {
    Node(n.hasKeyEndingHere, n.counter - 1,
      map c | c in n.children && n.children[c].counter != 0 :: n.children[c])
  }

  lemma PrunedKeeping(n: Node, keep: set<char>)
    requires n.counter > 0
    requires keep == n.children.Keys - set k | k in n.children && n.children[k].counter == 0
    ensures Pruned(n) == Node(n.hasKeyEndingHere, n.counter - 1, map k | k in keep :: n.children[k])
  {
  }

  /**
   * What `remove` does: nothing when the path is missing; a panic, before any change, when
   * the node reached has counter zero; otherwise that node is pruned.
   */
  function RemoveSpec(t: Node, input: string): Outcome
  {
    match Reach(t, input)
    case None => Outcome(t, false)
    case Some(n) => if n.counter == 0 then Outcome(t, true) else Outcome(Replace(t, input, Pruned(n)), false)
  }

  /** What `get_keys_with_prefix` returns, as a set: one one-character string per child of the node reached. */
  function KeysWithPrefix(t: Node, prefix: string): set<string>
  {
    match Reach(t, prefix)
    case None => {}
    case Some(n) => set c | c in n.children :: [c]
  }

  predicate Distinct<T(==)>(s: seq<T>)
  {
    forall i, j :: 0 <= i < j < |s| ==> s[i] != s[j]
  }

  // ---------------------------------------------------------------------------------------
  // What `InsertSpec` and `RemoveSpec` imply

  /**
   * A key of two or more characters changes only the root's child for its first character:
   * one more on its counter (2 when it is new), no end marker, and no node below it.
   */
  lemma InsertLongKey(t: Node, input: string)
    requires |input| >= 2
    ensures var r := InsertSpec(t, input); var c := input[0];
      !r.panicked &&
      r.trie.hasKeyEndingHere == t.hasKeyEndingHere && r.trie.counter == t.counter &&
      r.trie.children.Keys == t.children.Keys + {c} &&
      (forall d :: d in t.children && d != c ==> r.trie.children[d] == t.children[d]) &&
      !r.trie.children[c].hasKeyEndingHere &&
      r.trie.children[c].counter == (if c in t.children then t.children[c].counter + 1 else 2) &&
      r.trie.children[c].children == (if c in t.children then t.children[c].children else map[])
  {
  }

  /** A key of one character marks the root's child as a key end, counts it, and then panics. */
  lemma InsertOneCharKey(t: Node, c: char)
    ensures var r := InsertSpec(t, [c]);
      r.panicked && r.trie.children.Keys == t.children.Keys + {c} &&
      r.trie.children[c].hasKeyEndingHere &&
      r.trie.children[c].counter == (if c in t.children then t.children[c].counter + 1 else 2)
  {
  }

  /** The node `Replace` puts at the end of the path is what the path then reaches. */
  lemma {:induction false} ReplaceReachesNode(t: Node, p: string, n: Node)
    requires Reach(t, p).Some?
    ensures Reach(Replace(t, p, n), p) == Some(n)
    decreases |p|
  {
    if p != [] {
      ReplaceReachesNode(t.children[p[0]], p[1..], n);
    }
  }

  /** A path that neither extends nor is extended by the replaced one reaches what it reached. */
  lemma {:induction false} ReplaceLeavesOtherPaths(t: Node, p: string, n: Node, q: string)
    requires Reach(t, p).Some? && !(p <= q) && !(q <= p)
    ensures Reach(Replace(t, p, n), q) == Reach(t, q)
    decreases |p|
  {
    if p[0] == q[0] {
      assert !(p[1..] <= q[1..]) && !(q[1..] <= p[1..]) by {
        assert p == [p[0]] + p[1..] && q == [q[0]] + q[1..];
      }
      ReplaceLeavesOtherPaths(t.children[p[0]], p[1..], n, q[1..]);
    }
  }

  /** The nodes along the replaced path keep their own end marker, counter and child keys. */
  lemma {:induction false} ReplaceKeepsAncestors(t: Node, p: string, n: Node, q: string)
    requires Reach(t, p).Some? && q < p
    ensures Reach(t, q).Some? && Reach(Replace(t, p, n), q).Some?
    ensures var before, after := Reach(t, q).value, Reach(Replace(t, p, n), q).value;
      after.hasKeyEndingHere == before.hasKeyEndingHere && after.counter == before.counter &&
      after.children.Keys == before.children.Keys
    decreases |p|
  {
    if q != [] {
      assert q[0] == p[0] && q[1..] < p[1..];
      ReplaceKeepsAncestors(t.children[p[0]], p[1..], n, q[1..]);
    }
  }

  /**
   * Along an existing path whose node has a positive counter, `remove` leaves that node with
   * one less and with exactly its children of non-zero counter.
   */
  lemma RemoveAtNode(t: Node, input: string)
    requires Reach(t, input).Some? && Reach(t, input).value.counter > 0
    ensures var n := Reach(t, input).value; var r := RemoveSpec(t, input);
      !r.panicked && Reach(r.trie, input).Some? &&
      Reach(r.trie, input).value.counter == n.counter - 1 &&
      Reach(r.trie, input).value.hasKeyEndingHere == n.hasKeyEndingHere &&
      Reach(r.trie, input).value.children.Keys == set c | c in n.children && n.children[c].counter != 0
  {
    ReplaceReachesNode(t, input, Pruned(Reach(t, input).value));
  }

  /** Every child of the root is a leaf, as every trie built by `insert` and `remove` keeps. */
  predicate Shallow(t: Node)
  {
    forall c :: c in t.children ==> t.children[c].children == map[]
  }

  /** The operations the server applies to its index. */
  datatype IndexOp = InsertKey(key: string) | RemoveKey(key: string)

  /** The index after a run of operations, each applied to what the previous one left. */
  function Run(t: Node, ops: seq<IndexOp>): Node
    decreases |ops|
  {
    if ops == [] then t
    else
      var next := match ops[0]
        case InsertKey(k) => InsertSpec(t, k).trie
        case RemoveKey(k) => RemoveSpec(t, k).trie;
      Run(next, ops[1..])
  }

  /** In a shallow trie no path of two or more characters exists. */
  lemma ShallowReach(t: Node, p: string)
    requires Shallow(t)
    ensures |p| >= 2 ==> Reach(t, p) == None
  {
    if |p| >= 2 && p[0] in t.children {
      assert Reach(t.children[p[0]], p[1..]) == None;
    }
  }

  lemma RemoveKeepsShallow(t: Node, input: string)
    requires Shallow(t)
    ensures Shallow(RemoveSpec(t, input).trie)
  {
    ShallowReach(t, input);
    match Reach(t, input)
    case None =>
    case Some(n) =>
      if n.counter > 0 && input != [] {
        var c := input[0];
        assert input[1..] == [];
        assert n == t.children[c] && n.children == map[];
        assert Pruned(n).children.Keys == {};
        assert Replace(t, input, Pruned(n)) == t.(children := t.children[c := Pruned(n)]);
      }
  }

  /** No run of operations from the default trie builds a node below depth one. */
  lemma {:induction false} RunKeepsShallow(t: Node, ops: seq<IndexOp>)
    requires Shallow(t)
    ensures Shallow(Run(t, ops))
    decreases |ops|
  {
    if ops != [] {
      match ops[0]
      case InsertKey(k) =>
        RunKeepsShallow(InsertSpec(t, k).trie, ops[1..]);
      case RemoveKey(k) =>
        RemoveKeepsShallow(t, k);
        RunKeepsShallow(RemoveSpec(t, k).trie, ops[1..]);
    }
  }

  /**
   * So a prefix search for any non-empty prefix finds nothing, whatever keys were inserted:
   * the index records first characters only.
   */
  lemma NonEmptyPrefixFindsNothing(ops: seq<IndexOp>, prefix: string)
    requires prefix != []
    ensures KeysWithPrefix(Run(DefaultNode, ops), prefix) == {}
  {
    RunKeepsShallow(DefaultNode, ops);
    var t := Run(DefaultNode, ops);
    ShallowReach(t, prefix);
    if prefix[0] in t.children && |prefix| == 1 {
      assert Reach(t, prefix) == Some(t.children[prefix[0]]);
    }
  }

  /** The empty prefix lists the first characters present at the root. */
  lemma EmptyPrefixListsRootChildren(t: Node)
    ensures KeysWithPrefix(t, "") == set c | c in t.children :: [c]
  {
  }

  /**
   * The counter underflow is reachable: after inserting "ab", removing "a" twice brings the
   * child to zero and the third removal panics.
   */
  lemma CounterUnderflowReachable()
    ensures var t1 := InsertSpec(DefaultNode, "ab").trie;
      var r1 := RemoveSpec(t1, "a");
      var r2 := RemoveSpec(r1.trie, "a");
      var r3 := RemoveSpec(r2.trie, "a");
      !r1.panicked && !r2.panicked && r3.panicked
  {
    var t1 := InsertSpec(DefaultNode, "ab").trie;
    assert t1 == Node(false, 1, map['a' := Node(false, 2, map[])]);
    var t2 := RemoveSpec(t1, "a").trie;
    assert Reach(t1, "a") == Some(Node(false, 2, map[]));
    assert t2 == Node(false, 1, map['a' := Node(false, 1, map[])]);
    var t3 := RemoveSpec(t2, "a").trie;
    assert Reach(t2, "a") == Some(Node(false, 1, map[]));
    assert t3 == Node(false, 1, map['a' := Node(false, 0, map[])]);
    assert Reach(t3, "a") == Some(Node(false, 0, map[]));
  }

  // ---------------------------------------------------------------------------------------
  // The trie as the program keeps it: nodes updated in place

  class Trie {
    var hasKeyEndingHere: bool
    var counter: nat
    var children: map<char, Trie>
    ghost var Repr: set<object>

    /** Each node owns its children's nodes, and siblings share none. */
    ghost predicate Valid()
      reads this, Repr
      decreases Repr
    {
      this in Repr &&
      (forall c :: c in children ==>
        children[c] in Repr && children[c].Repr <= Repr && this !in children[c].Repr &&
        children[c].Valid()) &&
      (forall c, d :: c in children && d in children && c != d ==> children[c].Repr !! children[d].Repr)
    }

    /** The value the nodes reachable from here denote. */
    ghost function View(): Node
      reads this, Repr
      requires Valid()
      decreases Repr
    {
      Node(hasKeyEndingHere, counter, map c | c in children :: children[c].View())
    }

    /** `Trie::default()`: counter 1, no end marker, no children. */
    constructor ()
      ensures Valid() && fresh(Repr) && View() == DefaultNode
    {
      hasKeyEndingHere, counter, children := false, 1, map[];
      Repr := {this};
    }

    /** The node `insert` creates for a missing child. */
    constructor Leaf(endsHere: bool)
      ensures Valid() && fresh(Repr) && View() == Node(endsHere, 1, map[])
    {
      hasKeyEndingHere, counter, children := endsHere, 1, map[];
      Repr := {this};
    }

    /** `child.counter += 1; child.has_key_ending_here = ..` on the child under `c`. */
    method Bump(c: char, endsHere: bool)
      requires Valid() && c in children
      modifies children[c]
      ensures Valid() && Repr == old(Repr) && children == old(children)
      ensures var v := old(View()); var child := v.children[c];
        View() == v.(children := v.children[c := child.(counter := child.counter + 1, hasKeyEndingHere := endsHere)])
    {
      var child := children[c];
      label Entered:
      child.counter := child.counter + 1;
      child.hasKeyEndingHere := endsHere;
      OwnFieldsChanged@Entered(child);
      ChildChanged(this, c, child);
    }

    /**
     * `children.entry(c).or_insert_with(..)`, then `counter += 1` and the end flag: the child
     * under the key's first character, created with counter 1 when missing, is bumped.
     * (A created child is bumped before it is linked in; nothing can tell the difference.)
     */
    method EnterAndBump(input: string) returns (child: Trie)
      requires Valid() && input != []
      modifies Repr
      ensures Valid() && old(Repr) <= Repr && fresh(Repr - old(Repr))
      ensures View() == InsertSpec(old(View()), input).trie
      ensures input[0] in children && child == children[input[0]] && child.Valid() && child.Repr <= Repr
    {
      var c := input[0];
      var endsHere := |input| == 1;
      if c in children {
        Bump(c, endsHere);
        child := children[c];
      } else {
        child := AddBumpedLeaf(c, endsHere);
      }
    }

    /** The missing child for `c`: a fresh node with counter 1, bumped to 2, linked in. */
    method AddBumpedLeaf(c: char, endsHere: bool) returns (child: Trie)
      requires Valid() && c !in children
      modifies this`children, this`Repr
      ensures Valid() && old(Repr) <= Repr && fresh(Repr - old(Repr))
      ensures View() == old(View()).(children := old(View()).children[c := Node(endsHere, 2, map[])])
      ensures c in children && child == children[c] && child.Valid() && child.Repr <= Repr
    {
      child := new Trie.Leaf(endsHere);
      child.counter := child.counter + 1;
      child.hasKeyEndingHere := endsHere;
      children := children[c := child];
      Repr := Repr + child.Repr;
      ChildChanged(this, c, child);
    }

    /** `insert`, modelled as written: it panics exactly where `InsertSpec` says. */
    method Insert(input: string) returns (panicked: bool)
      requires Valid()
      modifies Repr
      ensures Valid() && old(Repr) <= Repr && fresh(Repr - old(Repr))
      ensures Outcome(View(), panicked) == InsertSpec(old(View()), input)
      ensures input == [] ==> Repr == old(Repr) && unchanged(Repr)
      decreases |input|
    {
      if input == [] {
        return true;   // `String::remove(0)` on an empty string
      }
      var rest := input[1..];
      var child := EnterAndBump(input);
      if rest == [] {
        label Recursing:
        panicked := child.Insert(rest);
        assert unchanged@Recursing(Repr);
      } else {
        panicked := false;
      }
    }

    /** The node object `path` leads to, if every step exists. */
    ghost function Descend(path: string): (r: Option<Trie>)
      reads this, Repr
      requires Valid()
      ensures r.Some? ==> r.value in Repr && r.value.Repr <= Repr && r.value.Valid()
      ensures Reach(View(), path) == if r.Some? then Some(r.value.View()) else None
      decreases |path|
    {
      if path == [] then Some(this)
      else if path[0] in children then children[path[0]].Descend(path[1..])
      else None
    }

    lemma DescendStep(p: string, c: char)
      requires Valid()
      ensures Descend(p + [c]) ==
        match Descend(p) case None => None
        case Some(n) => if c in n.children then Some(n.children[c]) else None
      decreases |p|
    {
      if p == [] {
        assert p + [c] == [c] && [c][1..] == [];
      } else {
        assert (p + [c])[0] == p[0] && (p + [c])[1..] == p[1..] + [c];
        if p[0] in children {
          children[p[0]].DescendStep(p[1..], c);
        }
      }
    }

    /**
     * The cursor walk at the start of `remove`: one step per character of the key, stopping
     * with nothing when a step is missing.
     */
    method Walk(input: string) returns (found: Option<Trie>)
      requires Valid()
      ensures found == Descend(input)
      ensures found.Some? <==> Reach(View(), input).Some?
    {
      var remaining := input;
      var trie: Trie := this;
      ghost var walked := "";
      while remaining != []
        invariant walked + remaining == input
        invariant Descend(walked) == Some(trie)
        decreases |remaining|
      {
        var c := remaining[0];
        assert remaining == [c] + remaining[1..];
        remaining := remaining[1..];
        DescendStep(walked, c);
        if c in trie.children {
          trie := trie.children[c];
          walked := walked + [c];
        } else {
          assert walked + [c] + remaining == input;
          DescendMissing(walked + [c], remaining);
          return None;
        }
      }
      assert walked == input;
      return Some(trie);
    }

    /** A missing step leaves every extension of the path missing. */
    lemma DescendMissing(p: string, q: string)
      requires Valid() && Descend(p).None?
      ensures Descend(p + q).None?
      decreases |p|
    {
      if p == [] {
      } else {
        assert (p + q)[0] == p[0] && (p + q)[1..] == p[1..] + q;
        if p[0] in children {
          children[p[0]].DescendMissing(p[1..], q);
        }
      }
    }

    /**
     * `remove`, modelled as written: a missing step of the key returns with nothing changed;
     * at the node reached the counter is decremented, a panic at zero, and the children
     * whose counter is zero are deleted.
     */
    method Remove(input: string) returns (panicked: bool)
      requires Valid()
      modifies Repr
      ensures Valid() && Repr == old(Repr)
      ensures Outcome(View(), panicked) == RemoveSpec(old(View()), input)
    {
      var found := Walk(input);
      if found.None? {
        return false;
      }
      var trie := found.value;
      if trie.counter == 0 {
        return true;   // `trie.counter -= 1` underflows
      }
      trie.DecrementAndPrune();
      PathUpdated(this, input, trie);
      panicked := false;
    }

    /**
     * The end of `remove`, at the node reached: the counter goes down by one, then every
     * child whose counter is zero is collected and deleted.
     */
    method DecrementAndPrune()
      requires Valid() && counter > 0
      modifies this
      ensures Valid() && Repr == old(Repr)
      ensures View() == Pruned(old(View()))
    {
      ghost var v0 := View();
      ghost var kids := children;
      forall k | k in kids
        ensures v0.children[k].counter == kids[k].counter
      {
        assert v0.children[k] == kids[k].View();
      }
      label Entered:
      counter := counter - 1;
      var doomed := set k | k in children && children[k].counter == 0;
      assert doomed == set k | k in v0.children && v0.children[k].counter == 0;
      DeleteChildren(doomed);
      OwnFieldsChanged@Entered(this);
      PrunedKeeping(v0, children.Keys);
    }

    /** `for key in children_to_remove { children.remove(&key) }`. */
    method DeleteChildren(doomed: set<char>)
      modifies this`children
      ensures children.Keys == old(children).Keys - doomed
      ensures forall k :: k in children ==> children[k] == old(children)[k]
    {
      var left := doomed;
      while left != {}
        invariant left <= doomed
        invariant forall k :: k in children <==> k in old(children) && (k in left || k !in doomed)
        invariant forall k :: k in children ==> children[k] == old(children)[k]
        decreases left
      {
        var k :| k in left;
        children := children - {k};
        left := left - {k};
      }
    }

    /** The keys under a prefix are the characters of the children of the node it leads to. */
    lemma KeysFromDescend(prefix: string)
      requires Valid()
      ensures KeysWithPrefix(View(), prefix) ==
        match Descend(prefix) case None => {} case Some(n) => set c | c in n.View().children :: [c]
    {
    }

    /**
     * `get_keys_with_prefix`: its stack never holds more than the one entry for the rest of
     * the prefix and the node reached so far, so it is the cursor walk of `remove`; when the
     * prefix is used up, one one-character string per child of that node is added, in no
     * particular order, and a missing step leaves the list empty.
     */
    method GetKeysWithPrefix(prefix: string) returns (keys: seq<string>)
      requires Valid()
      ensures Distinct(keys)
      ensures (set i | 0 <= i < |keys| :: keys[i]) == KeysWithPrefix(View(), prefix)
    {
      var found := Walk(prefix);
      if found.Some? {
        keys := ChildKeys(found.value);
      } else {
        keys := [];
      }
      KeysFromDescend(prefix);
    }
  }

  /** `children.keys().map(|c| c.to_string())`: each child's character as a string, once each. */
  method ChildKeys(node: Trie) returns (keys: seq<string>)
    requires node.Valid()
    ensures Distinct(keys)
    ensures (set i | 0 <= i < |keys| :: keys[i]) == set c | c in node.View().children :: [c]
  {
    keys := [];
    var pending := node.children.Keys;
    while pending != {}
      invariant pending <= node.children.Keys
      invariant forall i :: 0 <= i < |keys| ==> |keys[i]| == 1 && keys[i][0] !in pending
      invariant Distinct(keys)
      invariant (set i | 0 <= i < |keys| :: keys[i]) == set c | c in node.children.Keys - pending :: [c]
      decreases pending
    {
      var c :| c in pending;
      ghost var was := keys;
      keys := keys + [[c]];
      pending := pending - {c};
      assert (set i | 0 <= i < |keys| :: keys[i]) == (set i | 0 <= i < |was| :: was[i]) + {[c]} by {
        assert forall i :: 0 <= i < |was| ==> keys[i] == was[i];
        assert keys[|was|] == [c];
      }
      assert node.children.Keys - pending == (node.children.Keys - (pending + {c})) + {c};
    }
  }

  /**
   * A node whose descendant along `path` changed (and nothing else) stays valid, and
   * denotes the old value with that descendant's new value in place.
   */
  twostate lemma PathUpdated(new t: Trie, new path: string, new target: Trie)
    requires old(allocated(t)) && old(allocated(target))
    requires old(t.Valid()) && old(t.Descend(path)) == Some(target)
    requires target.Valid() && target.Repr == old(target.Repr)
    requires unchanged(old(t.Repr) - {target})
    ensures t.Valid() && t.Repr == old(t.Repr)
    ensures Reach(old(t.View()), path).Some?
    ensures t.View() == Replace(old(t.View()), path, target.View())
    decreases |path|
  {
    if path != [] {
      var c := path[0];
      var ch := t.children[c];
      assert target in old(ch.Repr);
      PathUpdated(ch, path[1..], target);
      ChildChanged(t, c, ch);
    }
  }

  /**
   * A node whose own fields changed, losing at most some of its children, stays valid and
   * denotes its new fields over what its remaining children denoted.
   */
  twostate lemma OwnFieldsChanged(new n: Trie)
    requires old(allocated(n))
    requires old(n.Valid()) && n.Repr == old(n.Repr)
    requires forall k :: k in n.children ==> k in old(n.children) && n.children[k] == old(n.children[k])
    requires unchanged(old(n.Repr) - {n})
    ensures n.Valid()
    ensures n.View() == Node(n.hasKeyEndingHere, n.counter, map k | k in n.children :: old(n.View()).children[k])
    ensures n.children == old(n.children) ==>
      n.View() == old(n.View()).(hasKeyEndingHere := n.hasKeyEndingHere, counter := n.counter)
  {
    forall k | k in n.children
      ensures n.children[k].Valid() && n.children[k].View() == old(n.children[k].View())
    {
      var s := n.children[k];
      assert old(s.Repr) <= old(n.Repr) - {n};
      assert unchanged(s.Repr);
    }
  }

  /**
   * A node whose only change is the child under `c` (replaced, added or updated inside its
   * own nodes) stays valid, and denotes the old value with that child's new value.
   */
  twostate lemma ChildChanged(t: Trie, new c: char, new ch: Trie)
    requires old(t.Valid())
    requires t.children == old(t.children)[c := ch]
    requires t.hasKeyEndingHere == old(t.hasKeyEndingHere) && t.counter == old(t.counter)
    requires ch.Valid() && t !in ch.Repr && t.Repr == old(t.Repr) + ch.Repr
    requires forall d :: d in old(t.children) && d != c ==> old(t.children[d].Repr) !! ch.Repr
    requires unchanged(old(t.Repr) - ch.Repr - {t})
    ensures t.Valid()
    ensures t.View() == Node(t.hasKeyEndingHere, t.counter, old(t.View()).children[c := ch.View()])
  {
    forall d | d in t.children && d != c
      ensures t.children[d].Valid() && t.children[d].View() == old(t.children[d].View())
      ensures t.children[d].Repr == old(t.children[d].Repr)
    {
      var s := t.children[d];
      assert s.Repr == old(s.Repr);
      assert old(s.Repr) <= old(t.Repr) - ch.Repr - {t};
      assert unchanged(s.Repr);
    }
    assert t.Valid();
    var now, was := t.View().children, old(t.View()).children;
    assert now.Keys == t.children.Keys == was.Keys + {c};
    assert forall d :: d in now ==> now[d] == was[c := ch.View()][d];
    assert now == was[c := ch.View()];
  }
}
