/** A configuration tree agrees with the flat list of its lines. */
module ConfigTheorems {
  import opened Wrappers
  import opened Text
  import opened SortedMap
  import opened Config

  // ---------------------------------------------------------------- the tree as a map from paths

  function ValueAt(c: Conf, path: seq<Step>): Option<string>
    decreases |path|
  {
    if path == [] then c.value
    else
      match path[0]
      case Index(n) => ValueAt(ItemAt(c, n), path[1..])
      case Name(name) => ValueAt(ChildAt(c, name), path[1..])
  }

  lemma {:induction false} NothingInEmpty(path: seq<Step>)
    ensures ValueAt(EMPTY, path) == None
    decreases |path|
  {
    if path != [] {
      NothingInEmpty(path[1..]);
    }
  }

  /** Putting a value in shows at its own path only, and only if nothing was there. */
  lemma {:induction false} ValueAtSet(c: Conf, path: seq<Step>, value: string, other: seq<Step>)
    ensures ValueAt(Set(c, path, value), other)
         == if path == other && ValueAt(c, other).None? then Some(value) else ValueAt(c, other)
    decreases |path|
  {
    hide Put, Lookup;
    if path != [] && other != [] {
      assert path == other <==> path[0] == other[0] && path[1..] == other[1..] by {
        assert path == [path[0]] + path[1..] && other == [other[0]] + other[1..];
      }
      match path[0] {
        case Index(n) =>
          ValueAtSet(Resized(c.list, n + 1)[n], path[1..], value, other[1..]);
          NothingInEmpty(other[1..]);
        case Name(name) =>
          ValueAtSet(ChildAt(c, name), path[1..], value, other[1..]);
          if other[0].Name? {
            LookupPut(c.children, name, Set(ChildAt(c, name), path[1..], value), other[0].name);
          }
      }
    }
  }

  function FirstAt(leaves: seq<Leaf>, path: seq<Step>): Option<string> {
    if leaves == [] then None
    else if leaves[0].path == path then Some(leaves[0].value)
    else FirstAt(leaves[1..], path)
  }

  /** Under every path is the first value put there. */
  lemma {:induction false} FirstWins(c: Conf, leaves: seq<Leaf>, path: seq<Step>)
    ensures ValueAt(SetAll(c, leaves), path)
         == if ValueAt(c, path).Some? then ValueAt(c, path) else FirstAt(leaves, path)
    decreases |leaves|
  {
    hide ValueAt, Set;
    if leaves != [] {
      ValueAtSet(c, leaves[0].path, leaves[0].value, path);
      FirstWins(Set(c, leaves[0].path, leaves[0].value), leaves[1..], path);
    }
  }

  // ---------------------------------------------------------------- lookup

  function Names(segments: seq<string>): (path: seq<Step>)
    ensures |path| == |segments| && forall i :: 0 <= i < |path| ==> path[i] == Name(segments[i])
  {
    seq(|segments|, i requires 0 <= i < |segments| => Name(segments[i]))
  }

  lemma {:induction false} DescendValue(c: Conf, segments: seq<string>)
    ensures ValueAt(c, Names(segments)) == match Descend(c, segments) case None => None case Some(d) => d.value
    decreases |segments|
  {
    if segments != [] {
      assert Names(segments)[1..] == Names(segments[1..]);
      DescendValue(ChildAt(c, segments[0]), segments[1..]);
      NothingInEmpty(Names(segments[1..]));
    }
  }

  predicate HasNumber(key: string) {
    exists i :: 0 <= i < |PathOf(key)| && PathOf(key)[i].Index?
  }

  function FirstValue(bindings: seq<Binding>, key: string): Option<string> {
    if bindings == [] then None
    else if bindings[0].key == key then Some(bindings[0].value)
    else FirstValue(bindings[1..], key)
  }

  /** A path names segments only if it comes from exactly that key. */
  lemma PathTellsKey(key: string, other: string)
    ensures PathOf(other) == Names(Split(key, '.')) <==> other == key && !HasNumber(key)
  {
    var segments, others := Split(key, '.'), Split(other, '.');
    if PathOf(other) == Names(segments) {
      assert forall i :: 0 <= i < |segments| ==> StepOf(others[i]) == Name(segments[i]) by {
        forall i | 0 <= i < |segments| ensures StepOf(others[i]) == Name(segments[i]) {
          assert PathOf(other)[i] == Names(segments)[i];
        }
      }
      assert others == segments;
      JoinSplit(key, '.');
      JoinSplit(other, '.');
      assert forall i :: 0 <= i < |PathOf(key)| ==> PathOf(key)[i] == Names(segments)[i];
    } else if other == key && !HasNumber(key) {
      forall i | 0 <= i < |segments| ensures PathOf(key)[i] == Names(segments)[i] {
        assert !PathOf(key)[i].Index?;
      }
    }
  }

  lemma {:induction false} FirstOfKey(bindings: seq<Binding>, key: string)
    ensures FirstAt(LeavesOf(bindings), Names(Split(key, '.')))
         == if HasNumber(key) then None else FirstValue(bindings, key)
  {
    hide PathOf, Split, HasNumber, Names;
    if bindings != [] {
      PathTellsKey(key, bindings[0].key);
      assert LeavesOf(bindings)[1..] == LeavesOf(bindings[1..]);
      FirstOfKey(bindings[1..], key);
    }
  }

  lemma {:induction false} FirstRewritten(bindings: seq<Binding>, rewrites: seq<Rewrite>, key: string)
    ensures FirstValue(RewrittenAll(bindings, rewrites), key) ==
            match FirstValue(bindings, key) case None => None case Some(v) => Some(Rewritten(key, v, rewrites))
  {
    hide Rewritten;
    if bindings != [] {
      FirstRewritten(bindings[1..], rewrites, key);
      var first := Binding(bindings[0].key, Rewritten(bindings[0].key, bindings[0].value, rewrites));
      assert ([first] + RewrittenAll(bindings[1..], rewrites))[1..] == RewrittenAll(bindings[1..], rewrites);
    }
  }

  /** Looking a key up in the tree finds the value of the first line that binds it, rewritten;
      a key with a numeric segment is never found. */
  lemma GetIsFirst(text: string, rewrites: seq<Rewrite>, key: string)
    ensures Get(ParsedWith(text, rewrites), key) ==
            match FirstValue(Bindings(Lines(text)), key)
            case Some(v) => if HasNumber(key) then None else Some(Rewritten(key, v, rewrites))
            case None => None
  {
    hide SetAll, Bindings, Lines, HasNumber, FirstAt, FirstValue, Rewritten, RewrittenAll;
    var bindings := RewrittenAll(Bindings(Lines(text)), rewrites);
    var path := Names(Split(key, '.'));
    DescendValue(ParsedWith(text, rewrites), Split(key, '.'));
    FirstWins(EMPTY, LeavesOf(bindings), path);
    NothingInEmpty(path);
    FirstOfKey(bindings, key);
    FirstRewritten(Bindings(Lines(text)), rewrites, key);
  }
}
