/** The configuration file (config.rs): a tree of maps and lists, its parser, lookup and printer. */
module Config {
  import opened Wrappers
  import opened Text
  import opened SortedMap

  datatype Conf = Conf(value: Option<string>, list: seq<Conf>, children: seq<Entry<Conf>>)

  const EMPTY := Conf(None, [], [])

  function ChildAt(c: Conf, name: string): Conf {
    match Lookup(c.children, name)
    case Some(child) => child
    case None => EMPTY
  }

  function ItemAt(c: Conf, n: nat): Conf {
    if n < |c.list| then c.list[n] else EMPTY
  }

  /** `list.resize_with(n, default)` on a list that is shorter. */
  function Resized(list: seq<Conf>, n: nat): (r: seq<Conf>)
    ensures |r| == if |list| < n then n else |list|
    ensures forall i :: 0 <= i < |r| ==> r[i] == if i < |list| then list[i] else EMPTY
    decreases n
  {
    if |list| >= n then list else Resized(list, n - 1) + [EMPTY]
  }

  // ---------------------------------------------------------------- paths

  /** One segment of a key: numbers select list items. */
  datatype Step = Index(n: nat) | Name(name: string)

  function StepOf(segment: string): Step {
    match ParseUnsigned(segment, U64_BOUND)
    case Some(n) => Index(n)
    case None => Name(segment)
  }

  function Steps(segments: seq<string>): (path: seq<Step>)
    ensures |path| == |segments| && forall i :: 0 <= i < |path| ==> path[i] == StepOf(segments[i])
  {
    seq(|segments|, i requires 0 <= i < |segments| => StepOf(segments[i]))
  }

  function PathOf(key: string): (path: seq<Step>)
    ensures path != []
  {
    Steps(Split(key, '.'))
  }

  /** A value at a path. */
  datatype Leaf = Leaf(path: seq<Step>, value: string)

  /** The tree with a value put at a path, unless there is one already. */
  function Set(c: Conf, path: seq<Step>, value: string): Conf
    decreases |path|
  {
    if path == [] then if c.value.None? then c.(value := Some(value)) else c
    else
      match path[0]
      case Index(n) =>
        var list := Resized(c.list, n + 1);
        c.(list := list[n := Set(list[n], path[1..], value)])
      case Name(name) =>
        c.(children := Put(c.children, name, Set(ChildAt(c, name), path[1..], value)))
  }

  function SetAll(c: Conf, leaves: seq<Leaf>): Conf
    decreases |leaves|
  {
    if leaves == [] then c else SetAll(Set(c, leaves[0].path, leaves[0].value), leaves[1..])
  }

  // ---------------------------------------------------------------- lines

  /** `text.lines()` */
  function Lines(text: string): seq<string>
    decreases |text|
  {
    if text == "" then []
    else
      var i := IndexOf(text, '\n');
      if i == |text| then [text] else [StripReturn(text[..i])] + Lines(text[i + 1..])
  }

  function StripReturn(line: string): string {
    if line != "" && line[|line| - 1] == '\r' then line[..|line| - 1] else line
  }

  datatype Binding = Binding(key: string, value: string)

  /** What a line binds: nothing when it is blank, all comment, or without an equals sign. */
  function BindingOf(line: string): Option<Binding> {
    var text := Trim(line[..IndexOf(line, '#')]);
    var i := IndexOf(text, '=');
    if i == |text| then None else Some(Binding(Trim(text[..i]), Trim(text[i + 1..])))
  }

  function Bindings(lines: seq<string>): seq<Binding> {
    if lines == [] then []
    else
      match BindingOf(lines[0])
      case Some(b) => [b] + Bindings(lines[1..])
      case None => Bindings(lines[1..])
  }

  function LeavesOf(bindings: seq<Binding>): (leaves: seq<Leaf>)
    ensures |leaves| == |bindings|
    ensures forall i :: 0 <= i < |leaves| ==> leaves[i] == Leaf(PathOf(bindings[i].key), bindings[i].value)
  {
    if bindings == [] then [] else [Leaf(PathOf(bindings[0].key), bindings[0].value)] + LeavesOf(bindings[1..])
  }

  /** The tree a configuration text stands for. */
  function Parsed(text: string): Conf {
    SetAll(EMPTY, LeavesOf(Bindings(Lines(text))))
  }

  /** A rewrite of values; a regular expression for keys is a test, one for values with its replacement a function. */
  datatype Rewrite = Rewrite(keyMatch: Option<string -> bool>, replace: Option<string -> string>)

  function RewrittenBy(key: string, value: string, rewrite: Rewrite): string {
    if rewrite.keyMatch.Some? && !rewrite.keyMatch.value(key) then value
    else if rewrite.replace.Some? then rewrite.replace.value(value)
    else value
  }

  function Rewritten(key: string, value: string, rewrites: seq<Rewrite>): string {
    if rewrites == [] then value
    else RewrittenBy(key, Rewritten(key, value, rewrites[..|rewrites| - 1]), rewrites[|rewrites| - 1])
  }

  function RewrittenAll(bindings: seq<Binding>, rewrites: seq<Rewrite>): (r: seq<Binding>)
    ensures |r| == |bindings| && forall i :: 0 <= i < |r| ==> r[i].key == bindings[i].key
  {
    if bindings == [] then []
    else
      [Binding(bindings[0].key, Rewritten(bindings[0].key, bindings[0].value, rewrites))]
      + RewrittenAll(bindings[1..], rewrites)
  }

  /** The tree a configuration text stands for under some rewrites. */
  function ParsedWith(text: string, rewrites: seq<Rewrite>): Conf {
    SetAll(EMPTY, LeavesOf(RewrittenAll(Bindings(Lines(text)), rewrites)))
  }

  lemma {:induction false} NothingRewritten(bindings: seq<Binding>)
    ensures RewrittenAll(bindings, []) == bindings
  {
    if bindings != [] {
      NothingRewritten(bindings[1..]);
      assert bindings == [bindings[0]] + bindings[1..];
    }
  }

  /** Without rewrites it is the tree of the lines as they are. */
  lemma ParsedPlain(text: string)
    ensures ParsedWith(text, []) == Parsed(text)
  {
    hide Lines, Bindings, SetAll;
    NothingRewritten(Bindings(Lines(text)));
  }

  /** `parse_config` */
  method ParseConfig(config: string, rewrites: seq<Rewrite>) returns (root: Conf)
    ensures root == ParsedWith(config, rewrites)
  {
    hide Set, Trim, IndexOf, PathOf, RewrittenBy;
    root := EMPTY;
    var lines := Lines(config);
    assert lines[0..] == lines;
    for k := 0 to |lines|
      invariant SetAll(root, LeavesOf(RewrittenAll(Bindings(lines[k..]), rewrites))) == ParsedWith(config, rewrites)
    {
      assert lines[k..][0] == lines[k] && lines[k..][1..] == lines[k + 1..];
      var line := Trim(lines[k][..IndexOf(lines[k], '#')]);
      if line == "" {
        NoEquals();
        continue;
      }
      var i := IndexOf(line, '=');
      if i < |line| {
        var key, value := Trim(line[..i]), Trim(line[i + 1..]);
        assert BindingOf(lines[k]) == Some(Binding(key, value));
        ghost var plain := value;
        for r := 0 to |rewrites|
          invariant value == Rewritten(key, plain, rewrites[..r])
        {
          assert rewrites[..r + 1][..r] == rewrites[..r];
          value := RewrittenBy(key, value, rewrites[r]);
        }
        assert rewrites[..|rewrites|] == rewrites;
        SetStep(root, Binding(key, plain), Bindings(lines[k + 1..]), rewrites);
        root := Set(root, PathOf(key), value);
      }
    }
    assert lines[|lines|..] == [];
  }

  lemma SetStep(c: Conf, b: Binding, rest: seq<Binding>, rewrites: seq<Rewrite>)
    ensures SetAll(c, LeavesOf(RewrittenAll([b] + rest, rewrites)))
         == SetAll(Set(c, PathOf(b.key), Rewritten(b.key, b.value, rewrites)), LeavesOf(RewrittenAll(rest, rewrites)))
  {
    hide Set, PathOf, Rewritten;
    var first := Binding(b.key, Rewritten(b.key, b.value, rewrites));
    assert ([b] + rest)[1..] == rest;
    assert ([first] + RewrittenAll(rest, rewrites))[1..] == RewrittenAll(rest, rewrites);
    var leaf := Leaf(PathOf(first.key), first.value);
    assert ([leaf] + LeavesOf(RewrittenAll(rest, rewrites)))[1..] == LeavesOf(RewrittenAll(rest, rewrites));
  }

  lemma NoEquals()
    ensures IndexOf("", '=') == 0
  {
  }

  // ---------------------------------------------------------------- lookup

  function Descend(c: Conf, segments: seq<string>): Option<Conf>
    decreases |segments|
  {
    if segments == [] then Some(c)
    else
      match Lookup(c.children, segments[0])
      case None => None
      case Some(child) => Descend(child, segments[1..])
  }

  /** `ConfElement::get` */
  method GetElement(root: Conf, key: string) returns (r: Option<Conf>)
    ensures r == Descend(root, Split(key, '.'))
  {
    var segments := Split(key, '.');
    var current := root;
    assert segments[0..] == segments;
    for i := 0 to |segments|
      invariant Descend(current, segments[i..]) == Descend(root, segments)
    {
      assert segments[i..][0] == segments[i] && segments[i..][1..] == segments[i + 1..];
      var child := Lookup(current.children, segments[i]);
      if child.None? {
        return None;
      }
      current := child.value;
    }
    return Some(current);
  }

  /** The value under a key, before it is converted. */
  function Get(root: Conf, key: string): Option<string> {
    match Descend(root, Split(key, '.'))
    case None => None
    case Some(c) => c.value
  }

  // ---------------------------------------------------------------- printing

  function ChildPrefix(prefix: string, key: string): string {
    if prefix == "" then key else prefix + "." + key
  }

  function ItemPrefix(prefix: string, i: nat): string {
    prefix + "." + Decimal(i)
  }

  function LineFor(key: string, value: string): string {
    key + " = " + value + "\n"
  }

  /** The text of a subtree. */
  function Written(c: Conf, prefix: string): string
    decreases c, 1, 0
  {
    (if c.value.Some? then LineFor(prefix, c.value.value) else "")
    + WrittenChildren(c, prefix, |c.children|) + WrittenItems(c, prefix, |c.list|)
  }

  function WrittenChildren(c: Conf, prefix: string, n: nat): string
    requires n <= |c.children|
    decreases c, 0, n
  {
    if n == 0 then ""
    else
      var e := c.children[n - 1];
      WrittenChildren(c, prefix, n - 1) + Written(e.value, ChildPrefix(prefix, e.key))
  }

  function WrittenItems(c: Conf, prefix: string, n: nat): string
    requires n <= |c.list|
    decreases c, 0, n
  {
    if n == 0 then "" else WrittenItems(c, prefix, n - 1) + Written(c.list[n - 1], ItemPrefix(prefix, n - 1))
  }

  /** What is written to; it only grows. */
  class TextSink {
    var text: string

    constructor ()
      ensures text == ""
    {
      text := "";
    }

    method Write(s: string)
      modifies this
      ensures text == old(text) + s
    {
      text := text + s;
    }
  }

  /** `write_to_file` */
  method WriteToFile(c: Conf, writable: TextSink, prefix: string)
    modifies writable
    ensures writable.text == old(writable.text) + Written(c, prefix)
    decreases c
  {
    hide LineFor, ChildPrefix, ItemPrefix;
    if c.value.Some? {
      writable.Write(LineFor(prefix, c.value.value));
    }
    ghost var start := writable.text;
    for n := 0 to |c.children|
      invariant writable.text == start + WrittenChildren(c, prefix, n)
    {
      WriteToFile(c.children[n].value, writable, ChildPrefix(prefix, c.children[n].key));
    }
    ghost var middle := writable.text;
    for n := 0 to |c.list|
      invariant writable.text == middle + WrittenItems(c, prefix, n)
    {
      WriteToFile(c.list[n], writable, ItemPrefix(prefix, n));
    }
  }
}
