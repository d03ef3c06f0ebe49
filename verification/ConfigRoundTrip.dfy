/** Printing a configuration tree and parsing the text again. */
module ConfigRoundTrip {
  import opened Wrappers
  import opened SortedMap
  import opened Config
  import opened ConfigTheorems

  // ---------------------------------------------------------------- the values of a tree, in printing order

  function Under(step: Step, leaves: seq<Leaf>): (r: seq<Leaf>)
    ensures |r| == |leaves| && forall i :: 0 <= i < |r| ==> r[i] == Leaf([step] + leaves[i].path, leaves[i].value)
  {
    seq(|leaves|, i requires 0 <= i < |leaves| => Leaf([step] + leaves[i].path, leaves[i].value))
  }

  function OwnLeaf(c: Conf): seq<Leaf> {
    if c.value.Some? then [Leaf([], c.value.value)] else []
  }

  function Leaves(c: Conf): seq<Leaf>
    decreases c, 1, 0
  {
    OwnLeaf(c) + ChildLeaves(c, |c.children|) + ItemLeaves(c, |c.list|)
  }

  function ChildLeaves(c: Conf, n: nat): seq<Leaf>
    requires n <= |c.children|
    decreases c, 0, n
  {
    if n == 0 then []
    else ChildLeaves(c, n - 1) + Under(Name(c.children[n - 1].key), Leaves(c.children[n - 1].value))
  }

  function ItemLeaves(c: Conf, n: nat): seq<Leaf>
    requires n <= |c.list|
    decreases c, 0, n
  {
    if n == 0 then [] else ItemLeaves(c, n - 1) + Under(Index(n - 1), Leaves(c.list[n - 1]))
  }

  /** The shape of trees the parser makes: children in order, each with a value somewhere in it, and lists no
      longer than their last value needs. */
  ghost predicate Canonical(c: Conf)
    decreases c
  {
    && Sorted(c.children)
    && (forall i :: 0 <= i < |c.children| ==> Canonical(c.children[i].value) && Leaves(c.children[i].value) != [])
    && (forall i :: 0 <= i < |c.list| ==> Canonical(c.list[i]))
    && (c.list != [] ==> Leaves(c.list[|c.list| - 1]) != [])
  }

  lemma {:induction false} InChildLeaves(c: Conf, n: nat, l: Leaf)
    requires n <= |c.children|
    ensures l in ChildLeaves(c, n) <==>
            l.path != [] && exists i :: 0 <= i < n && l.path[0] == Name(c.children[i].key)
                                        && Leaf(l.path[1..], l.value) in Leaves(c.children[i].value)
  {
    hide Leaves;
    if n > 0 {
      InChildLeaves(c, n - 1, l);
      InUnder(Name(c.children[n - 1].key), Leaves(c.children[n - 1].value), l);
    }
  }

  lemma {:induction false} InItemLeaves(c: Conf, n: nat, l: Leaf)
    requires n <= |c.list|
    ensures l in ItemLeaves(c, n) <==>
            l.path != [] && l.path[0].Index? && l.path[0].n < n &&
              Leaf(l.path[1..], l.value) in Leaves(c.list[l.path[0].n])
  {
    hide Leaves;
    if n > 0 {
      InItemLeaves(c, n - 1, l);
      InUnder(Index(n - 1), Leaves(c.list[n - 1]), l);
    }
  }

  lemma InUnder(step: Step, leaves: seq<Leaf>, l: Leaf)
    ensures l in Under(step, leaves) <==> l.path != [] && l.path[0] == step && Leaf(l.path[1..], l.value) in leaves
  {
    var r := Under(step, leaves);
    if l in r {
      var i :| 0 <= i < |r| && r[i] == l;
      assert l.path[1..] == leaves[i].path;
    }
    if l.path != [] && l.path[0] == step && Leaf(l.path[1..], l.value) in leaves {
      var i :| 0 <= i < |leaves| && leaves[i] == Leaf(l.path[1..], l.value);
      assert l.path == [step] + l.path[1..];
      assert r[i] == l;
    }
  }

  /** The leaves are exactly the values in the tree. */
  lemma {:induction false} LeafIsValue(c: Conf, l: Leaf)
    requires Canonical(c)
    ensures l in Leaves(c) <==> ValueAt(c, l.path) == Some(l.value)
    decreases |l.path|
  {
    hide ChildLeaves, ItemLeaves;
    InChildLeaves(c, |c.children|, l);
    InItemLeaves(c, |c.list|, l);
    if l.path != [] {
      var rest := Leaf(l.path[1..], l.value);
      NothingInEmpty(rest.path);
      match l.path[0] {
        case Index(n) =>
          if n < |c.list| {
            LeafIsValue(c.list[n], rest);
          }
        case Name(name) =>
          LookupFinds(c.children, name);
          if Lookup(c.children, name).Some? {
            var i :| 0 <= i < |c.children| && c.children[i] == Entry(name, Lookup(c.children, name).value);
            LeafIsValue(c.children[i].value, rest);
            forall j | 0 <= j < |c.children| && c.children[j].key == name ensures c.children[j] == c.children[i] {
              LookupAt(c.children, j);
            }
          }
      }
    }
  }

  // ---------------------------------------------------------------- what the parser makes is canonical

  lemma EmptyCanonical()
    ensures Canonical(EMPTY) && Leaves(EMPTY) == []
  {
  }

  lemma Inhabits(c: Conf, path: seq<Step>)
    requires Canonical(c) && ValueAt(c, path).Some?
    ensures Leaves(c) != []
  {
    hide Leaves, ValueAt, Canonical;
    LeafIsValue(c, Leaf(path, ValueAt(c, path).value));
  }

  lemma ItemSetCanonical(c: Conf, n: nat, item: Conf)
    requires Canonical(c) && Canonical(item) && Leaves(item) != []
    ensures Canonical(c.(list := Resized(c.list, n + 1)[n := item]))
  {
    hide Leaves;
    EmptyCanonical();
    var list := Resized(c.list, n + 1)[n := item];
    forall i | 0 <= i < |list| ensures Canonical(list[i]) {
      assert i < |c.list| ==> Canonical(c.list[i]);
    }
  }

  lemma ChildSetCanonical(c: Conf, name: string, child: Conf)
    requires Canonical(c) && Canonical(child) && Leaves(child) != []
    ensures Canonical(c.(children := Put(c.children, name, child)))
  {
    hide Leaves, Put, Lookup, Before;
    PutSorted(c.children, name, child);
    PutEntries(c.children, name, child);
    var put := Put(c.children, name, child);
    forall i | 0 <= i < |put| ensures Canonical(put[i].value) && Leaves(put[i].value) != [] {
      if put[i] != Entry(name, child) {
        var j :| 0 <= j < |c.children| && c.children[j] == put[i];
      }
    }
  }

  lemma ChildCanonical(c: Conf, name: string)
    requires Canonical(c)
    ensures Canonical(ChildAt(c, name))
  {
    hide Leaves, Lookup;
    EmptyCanonical();
    LookupFinds(c.children, name);
  }

  lemma {:induction false} SetCanonical(c: Conf, path: seq<Step>, value: string)
    requires Canonical(c)
    ensures Canonical(Set(c, path, value)) && Leaves(Set(c, path, value)) != []
    decreases |path|
  {
    hide Leaves, Put, ChildAt, ValueAt;
    if path != [] {
      hide Canonical;
      match path[0] {
        case Index(n) =>
          var item := Resized(c.list, n + 1)[n];
          SetCanonical(item, path[1..], value);
          ItemSetCanonical(c, n, Set(item, path[1..], value));
        case Name(name) =>
          ChildCanonical(c, name);
          SetCanonical(ChildAt(c, name), path[1..], value);
          ChildSetCanonical(c, name, Set(ChildAt(c, name), path[1..], value));
      }
    }
    ValueAtSet(c, path, value, path);
    Inhabits(Set(c, path, value), path);
  }

  lemma {:induction false} SetAllCanonical(c: Conf, leaves: seq<Leaf>)
    requires Canonical(c)
    ensures Canonical(SetAll(c, leaves))
    decreases |leaves|
  {
    hide Canonical, Set;
    if leaves != [] {
      SetCanonical(c, leaves[0].path, leaves[0].value);
      SetAllCanonical(Set(c, leaves[0].path, leaves[0].value), leaves[1..]);
    }
  }

  // ---------------------------------------------------------------- a canonical tree is rebuilt from its leaves

  lemma {:induction false} SetAllConcat(c: Conf, a: seq<Leaf>, b: seq<Leaf>)
    ensures SetAll(c, a + b) == SetAll(SetAll(c, a), b)
    decreases |a|
  {
    hide Set;
    if a == [] {
      assert a + b == b;
    } else {
      assert (a + b)[1..] == a[1..] + b;
      SetAllConcat(Set(c, a[0].path, a[0].value), a[1..], b);
    }
  }

  /** Leaves under one child change that child only. */
  lemma {:induction false} FocusChild(c: Conf, name: string, leaves: seq<Leaf>)
    requires leaves != []
    ensures SetAll(c, Under(Name(name), leaves))
         == c.(children := Put(c.children, name, SetAll(ChildAt(c, name), leaves)))
    decreases |leaves|
  {
    hide Put, Lookup;
    var first := leaves[0];
    var child := Set(ChildAt(c, name), first.path, first.value);
    var c' := c.(children := Put(c.children, name, child));
    assert ([Name(name)] + first.path)[1..] == first.path;
    assert Set(c, [Name(name)] + first.path, first.value) == c';
    LookupPut(c.children, name, child, name);
    assert Under(Name(name), leaves)[1..] == Under(Name(name), leaves[1..]);
    if |leaves| > 1 {
      FocusChild(c', name, leaves[1..]);
      PutPut(c.children, name, child, SetAll(child, leaves[1..]));
    }
  }

  lemma {:induction false} FocusItem(c: Conf, n: nat, leaves: seq<Leaf>)
    requires leaves != []
    ensures SetAll(c, Under(Index(n), leaves)) == c.(list := Resized(c.list, n + 1)[n := SetAll(ItemAt(c, n), leaves)])
    decreases |leaves|
  {
    var first := leaves[0];
    var list := Resized(c.list, n + 1);
    var item := Set(list[n], first.path, first.value);
    var c' := c.(list := list[n := item]);
    assert ([Index(n)] + first.path)[1..] == first.path;
    assert Set(c, [Index(n)] + first.path, first.value) == c';
    assert Under(Index(n), leaves)[1..] == Under(Index(n), leaves[1..]);
    if |leaves| > 1 {
      FocusItem(c', n, leaves[1..]);
    }
  }

  lemma BarrenEmpty(c: Conf)
    requires Canonical(c) && Leaves(c) == []
    ensures c == EMPTY
  {
  }

  /** How long a list the first `n` items need. */
  ghost function Extent(list: seq<Conf>, n: nat): (m: nat)
    requires n <= |list|
    ensures m <= n && forall i :: m <= i < n ==> Leaves(list[i]) == []
    ensures n > 0 && Leaves(list[n - 1]) != [] ==> m == n
  {
    if n > 0 && Leaves(list[n - 1]) == [] then Extent(list, n - 1) else n
  }

  lemma {:induction false} Rebuild(c: Conf)
    requires Canonical(c)
    ensures SetAll(EMPTY, Leaves(c)) == c
    decreases c, 1, 0
  {
    hide Canonical, ChildLeaves, ItemLeaves;
    var own, children, items := OwnLeaf(c), ChildLeaves(c, |c.children|), ItemLeaves(c, |c.list|);
    SetAllConcat(EMPTY, own + children, items);
    SetAllConcat(EMPTY, own, children);
    var start := Conf(c.value, [], []);
    assert SetAll(EMPTY, own) == start by {
      if c.value.Some? {
        assert own[1..] == [];
      }
    }
    RebuildChildren(c, start, |c.children|);
    assert c.children[..|c.children|] == c.children;
    RebuildItems(c, c.(list := []), |c.list|);
    WholeExtent(c);
    assert c.list[..|c.list|] == c.list;
  }

  lemma WholeExtent(c: Conf)
    requires Canonical(c)
    ensures Extent(c.list, |c.list|) == |c.list|
  {
  }

  lemma CanonicalItem(c: Conf, i: nat)
    requires Canonical(c) && i < |c.list|
    ensures Canonical(c.list[i])
  {
  }

  lemma CanonicalChild(c: Conf, i: nat)
    requires Canonical(c) && i < |c.children|
    ensures Canonical(c.children[i].value) && Leaves(c.children[i].value) != []
    ensures forall j :: 0 <= j < i ==> Before(c.children[j].key, c.children[i].key)
  {
    hide Leaves, Before;
  }

  lemma {:induction false} RebuildChildren(c: Conf, start: Conf, n: nat)
    requires Canonical(c) && start.children == [] && n <= |c.children|
    ensures SetAll(start, ChildLeaves(c, n)) == start.(children := c.children[..n])
    decreases c, 0, n
  {
    hide Leaves, Put, Lookup, Before, Canonical, Set;
    if n > 0 {
      var e := c.children[n - 1];
      CanonicalChild(c, n - 1);
      RebuildChildren(c, start, n - 1);
      var before := start.(children := c.children[..n - 1]);
      SetAllConcat(start, ChildLeaves(c, n - 1), Under(Name(e.key), Leaves(e.value)));
      PutLast(before.children, e.key, e.value);
      FocusChild(before, e.key, Leaves(e.value));
      Rebuild(e.value);
      assert before.children + [e] == c.children[..n];
    } else {
      assert c.children[..0] == [];
    }
  }

  lemma {:induction false} RebuildItems(c: Conf, start: Conf, n: nat)
    requires Canonical(c) && start.list == [] && n <= |c.list|
    ensures SetAll(start, ItemLeaves(c, n)) == start.(list := c.list[..Extent(c.list, n)])
    decreases c, 0, n
  {
    hide Leaves, Canonical, Set, Resized;
    if n > 0 {
      var item := c.list[n - 1];
      CanonicalItem(c, n - 1);
      RebuildItems(c, start, n - 1);
      var m := Extent(c.list, n - 1);
      var before := start.(list := c.list[..m]);
      SetAllConcat(start, ItemLeaves(c, n - 1), Under(Index(n - 1), Leaves(item)));
      if Leaves(item) != [] {
        FocusItem(before, n - 1, Leaves(item));
        Rebuild(item);
        GapsFilled(c, m, n);
      }
    } else {
      assert c.list[..0] == [];
    }
  }

  /** Items left out are empty ones, and growing a list puts them back. */
  lemma GapsFilled(c: Conf, m: nat, n: nat)
    requires Canonical(c) && m < n <= |c.list|
    requires forall i :: m <= i < n - 1 ==> Leaves(c.list[i]) == []
    ensures ItemAt(Conf(c.value, c.list[..m], c.children), n - 1) == EMPTY
    ensures Resized(c.list[..m], n)[n - 1 := c.list[n - 1]] == c.list[..n]
  {
    hide Leaves;
    forall i | m <= i < n - 1 ensures c.list[i] == EMPTY {
      BarrenEmpty(c.list[i]);
    }
  }
}
