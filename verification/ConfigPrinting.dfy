/** Exactly which configuration trees survive being printed and parsed. */
module ConfigPrinting {
  import opened Text
  import opened SortedMap
  import opened Config
  import opened ConfigTheorems
  import opened ConfigRoundTrip
  import opened ConfigText

  // ---------------------------------------------------------------- what keys are made of

  predicate CleanSegment(s: string) {
    '.' !in s && '=' !in s && CleanText(s)
  }

  predicate CleanStep(step: Step) {
    match step
    case Index(n) => n < U64_BOUND
    case Name(name) => CleanSegment(name) && ParseUnsigned(name, U64_BOUND).None?
  }

  predicate CleanSteps(path: seq<Step>) {
    forall i :: 0 <= i < |path| ==> CleanStep(path[i])
  }

  /** No white space before the first part or after the last. */
  predicate EndsFit(parts: seq<string>) {
    parts != [] &&
    (parts[0] == "" || !IsWhitespace(parts[0][0])) &&
    var last := parts[|parts| - 1];
    last == "" || !IsWhitespace(last[|last| - 1])
  }

  predicate CleanPath(path: seq<Step>) {
    CleanSteps(path) && EndsFit(Texts(path))
  }

  predicate CleanLeaf(l: Leaf) {
    CleanPath(l.path) && CleanText(l.value) && Trimmed(l.value)
  }

  lemma {:induction false} JoinFree(parts: seq<string>, sep: char, c: char)
    requires c != sep
    ensures c in Join(parts, sep) <==> exists i :: 0 <= i < |parts| && c in parts[i]
  {
    if |parts| > 1 {
      JoinFree(parts[1..], sep, c);
      assert c in Join(parts, sep) <==> c in parts[0] || c in Join(parts[1..], sep);
      if i :| 0 <= i < |parts[1..]| && c in parts[1..][i] {
        assert c in parts[i + 1];
      }
      if i :| 0 < i < |parts| && c in parts[i] {
        assert c in parts[1..][i - 1];
      }
    }
  }

  lemma JoinTrimmed(parts: seq<string>)
    requires parts != []
    ensures Trimmed(Join(parts, '.')) <==> EndsFit(parts)
  {
    hide IsWhitespace;
    if |parts| > 1 {
      var front, last := parts[..|parts| - 1], parts[|parts| - 1];
      assert parts == front + [last];
      JoinSnoc(front, last, '.');
      var s := Join(parts, '.');
      assert s == parts[0] + "." + Join(parts[1..], '.') == Join(front, '.') + "." + last;
      assert s[0] == if parts[0] == "" then '.' else parts[0][0];
      assert s[|s| - 1] == if last == "" then '.' else last[|last| - 1];
      DotIsNoSpace();
    }
  }

  lemma DotIsNoSpace()
    ensures !IsWhitespace('.')
  {
  }

  lemma DigitsClean(n: nat)
    ensures CleanSegment(Decimal(n))
    ensures !IsWhitespace(Decimal(n)[0]) && !IsWhitespace(Decimal(n)[|Decimal(n)| - 1])
  {
  }

  lemma CleanTexts(path: seq<Step>, i: nat)
    requires i < |path| && CleanStep(path[i])
    ensures CleanSegment(Texts(path)[i]) && StepOf(Texts(path)[i]) == path[i]
  {
    hide CleanSegment;
    if path[i].Index? {
      DigitsClean(path[i].n);
      ParseDecimal(path[i].n, U64_BOUND);
    }
  }

  /** The key printed for a path of clean steps stays on one line, left of the equals sign. */
  lemma DottedClean(path: seq<Step>)
    requires CleanSteps(path)
    ensures CleanText(Dotted(path)) && '=' !in Dotted(path)
    ensures FreeOf(Texts(path), '.') && Steps(Texts(path)) == path
  {
    hide Join, CleanStep, StepOf, TextOf;
    forall i | 0 <= i < |path| ensures CleanSegment(Texts(path)[i]) && StepOf(Texts(path)[i]) == path[i] {
      CleanTexts(path, i);
    }
    JoinFree(Texts(path), '.', '#');
    JoinFree(Texts(path), '.', '=');
    JoinFree(Texts(path), '.', '\n');
  }

  /** A clean path reads back as itself. */
  lemma PathRead(path: seq<Step>)
    requires CleanPath(path)
    ensures PathOf(Trim(Dotted(path))) == path
  {
    hide Join, Trim, Split, IsWhitespace, CleanStep, StepOf, TextOf;
    DottedClean(path);
    JoinTrimmed(Texts(path));
    TrimFacts(Dotted(path), '.');
    SplitJoin(Texts(path), '.');
  }

  lemma KeyClean(key: string)
    requires Trimmed(key) && CleanText(key) && '=' !in key
    ensures CleanPath(PathOf(key))
  {
    hide Split, Join, IsWhitespace, ParseUnsigned, Decimal;
    var segments := Split(key, '.');
    JoinSplit(key, '.');
    JoinFree(segments, '.', '#');
    JoinFree(segments, '.', '=');
    JoinFree(segments, '.', '\n');
    JoinTrimmed(segments);
    var path := PathOf(key);
    forall i | 0 <= i < |path| ensures CleanStep(path[i]) {
      StepClean(segments[i]);
    }
    forall i | 0 <= i < |path| ensures Texts(path)[i] == segments[i] || exists n :: Texts(path)[i] == Decimal(n) {
      if path[i].Index? {
        assert Texts(path)[i] == Decimal(path[i].n);
      }
    }
    forall n ensures !IsWhitespace(Decimal(n)[0]) && !IsWhitespace(Decimal(n)[|Decimal(n)| - 1]) {
      DigitsClean(n);
    }
  }

  lemma StepClean(segment: string)
    requires CleanSegment(segment)
    ensures CleanStep(StepOf(segment))
  {
    hide CleanSegment;
  }

  // ---------------------------------------------------------------- what the parser makes is clean

  lemma LineClean(line: string)
    requires '\n' !in line && BindingOf(line).Some?
    ensures var b := BindingOf(line).value;
      CleanLeaf(Leaf(PathOf(b.key), b.value))
  {
    hide IndexOf, Trim, IsWhitespace, CleanPath, PathOf, Trimmed;
    var body := line[..IndexOf(line, '#')];
    var text := Trim(body);
    TrimFacts(body, '#');
    TrimFacts(body, '\n');
    var i := IndexOf(text, '=');
    var key, value := text[..i], text[i + 1..];
    TrimFacts(key, '#');
    TrimFacts(key, '\n');
    TrimFacts(key, '=');
    TrimFacts(value, '#');
    TrimFacts(value, '\n');
    KeyClean(Trim(key));
  }

  lemma {:induction false} LinesFree(text: string)
    ensures forall i :: 0 <= i < |Lines(text)| ==> '\n' !in Lines(text)[i]
    decreases |text|
  {
    hide IndexOf;
    if text != "" {
      var i := IndexOf(text, '\n');
      if i < |text| {
        LinesFree(text[i + 1..]);
        assert '\n' !in StripReturn(text[..i]);
      } else {
        assert text[..i] == text;
      }
    }
  }

  lemma {:induction false} BindingsClean(lines: seq<string>)
    requires forall i :: 0 <= i < |lines| ==> '\n' !in lines[i]
    ensures forall l :: l in LeavesOf(Bindings(lines)) ==> CleanLeaf(l)
  {
    hide BindingOf, CleanLeaf, PathOf;
    if lines != [] {
      BindingsClean(lines[1..]);
      if BindingOf(lines[0]).Some? {
        LineClean(lines[0]);
        var b := BindingOf(lines[0]).value;
        assert ([b] + Bindings(lines[1..]))[1..] == Bindings(lines[1..]);
      }
    }
  }

  lemma {:induction false} FirstAtListed(leaves: seq<Leaf>, path: seq<Step>)
    requires FirstAt(leaves, path).Some?
    ensures Leaf(path, FirstAt(leaves, path).value) in leaves
  {
    if leaves[0].path != path {
      FirstAtListed(leaves[1..], path);
    }
  }

  /** The trees the parser makes. */
  ghost predicate Tidy(root: Conf) {
    Canonical(root) && forall l :: l in Leaves(root) ==> CleanLeaf(l)
  }

  /** What has been put into an empty tree and is in it was put there. */
  lemma LeafWasPut(leaves: seq<Leaf>, l: Leaf)
    requires l in Leaves(SetAll(EMPTY, leaves))
    ensures l in leaves
  {
    hide Leaves, SetAll, ValueAt, FirstAt;
    EmptyCanonical();
    SetAllCanonical(EMPTY, leaves);
    LeafIsValue(SetAll(EMPTY, leaves), l);
    FirstWins(EMPTY, leaves, l.path);
    NothingInEmpty(l.path);
    FirstAtListed(leaves, l.path);
  }

  /** A tree made by any rewrites is tidy but for its values. */
  lemma ParsedClean(text: string, rewrites: seq<Rewrite>)
    ensures Canonical(ParsedWith(text, rewrites))
    ensures forall l :: l in Leaves(ParsedWith(text, rewrites)) ==> CleanPath(l.path)
  {
    hide Leaves, SetAll, Lines, Bindings, CleanPath, Canonical, RewrittenAll;
    var bindings := Bindings(Lines(text));
    var plain, leaves := LeavesOf(bindings), LeavesOf(RewrittenAll(bindings, rewrites));
    LinesFree(text);
    BindingsClean(Lines(text));
    EmptyCanonical();
    SetAllCanonical(EMPTY, leaves);
    forall l | l in Leaves(ParsedWith(text, rewrites)) ensures CleanPath(l.path) {
      LeafWasPut(leaves, l);
      var i :| 0 <= i < |leaves| && leaves[i] == l;
      assert plain[i] in plain && plain[i].path == l.path;
    }
  }

  lemma ParsedTidy(text: string)
    ensures Tidy(Parsed(text))
  {
    hide Leaves, SetAll, Lines, Bindings, CleanLeaf, Canonical;
    var leaves := LeavesOf(Bindings(Lines(text)));
    LinesFree(text);
    BindingsClean(Lines(text));
    EmptyCanonical();
    SetAllCanonical(EMPTY, leaves);
    forall l | l in Leaves(Parsed(text)) ensures CleanLeaf(l) {
      LeafWasPut(leaves, l);
    }
  }

  // ---------------------------------------------------------------- shown paths

  /** A path through the child with the empty name to a child of it. */
  predicate Bad(path: seq<Step>) {
    |path| >= 2 && path[0] == Name("") && path[1].Name?
  }

  lemma {:induction false} ShownClean(path: seq<Step>)
    requires CleanSteps(path)
    ensures CleanSteps(ShownPath(path))
    ensures path != [] ==> ShownPath(path) != []
  {
    hide CleanStep;
    EmptyNameClean();
    if path != [] {
      ShownClean(path[..|path| - 1]);
    }
  }

  lemma EmptyNameClean()
    ensures CleanStep(Name(""))
  {
  }

  lemma {:induction false} ShownGood(path: seq<Step>)
    requires path != [] && path[0].Name? && !Bad(path)
    ensures ShownPath(path) == path
  {
    var front, last := path[..|path| - 1], path[|path| - 1];
    assert path == front + [last];
    if front != [] {
      ShownGood(front);
    }
  }

  lemma {:induction false} ShownItem(path: seq<Step>)
    requires path != [] && path[0].Index?
    ensures ShownPath(path) == [Name("")] + path
  {
    var front, last := path[..|path| - 1], path[|path| - 1];
    assert path == front + [last];
    if front != [] {
      ShownItem(front);
    }
  }

  lemma {:induction false} ShownBad(path: seq<Step>)
    requires Bad(path)
    ensures |ShownPath(path)| < |path|
  {
    var front, last := path[..|path| - 1], path[|path| - 1];
    if |path| > 2 {
      ShownBad(front);
      if ShownPath(front) == [] {
        ShownNonempty(front);
      }
    } else {
      assert front == [Name("")];
      assert front[..0] == [];
      assert ShownPath(front) == [Name("")];
    }
  }

  lemma ShownNonempty(path: seq<Step>)
    requires path != []
    ensures ShownPath(path) != []
  {
  }

  // ---------------------------------------------------------------- trimming keeps the number of segments

  function Count(s: string, c: char): nat {
    if s == "" then 0 else (if s[0] == c then 1 else 0) + Count(s[1..], c)
  }

  lemma {:induction false} CountConcat(a: string, b: string, c: char)
    ensures Count(a + b, c) == Count(a, c) + Count(b, c)
  {
    if a == "" {
      assert a + b == b;
    } else {
      assert (a + b)[1..] == a[1..] + b;
      CountConcat(a[1..], b, c);
    }
  }

  lemma {:induction false} CountNone(s: string, c: char)
    requires c !in s
    ensures Count(s, c) == 0
  {
    if s != "" {
      CountNone(s[1..], c);
    }
  }

  lemma {:induction false} SplitCount(s: string, c: char)
    ensures |Split(s, c)| == 1 + Count(s, c)
    decreases |s|
  {
    hide IndexOf;
    var i := IndexOf(s, c);
    CountNone(s[..i], c);
    if i == |s| {
      assert s[..i] == s;
    } else {
      SplitCount(s[i + 1..], c);
      assert s == s[..i] + ([c] + s[i + 1..]);
      CountConcat(s[..i], [c] + s[i + 1..], c);
      assert ([c] + s[i + 1..])[1..] == s[i + 1..];
    }
  }

  lemma {:induction false} CountTrimStart(s: string)
    ensures Count(TrimStart(s), '.') == Count(s, '.')
  {
    if s != "" && IsWhitespace(s[0]) {
      CountTrimStart(s[1..]);
    }
  }

  lemma {:induction false} CountTrimEnd(s: string)
    ensures Count(TrimEnd(s), '.') == Count(s, '.')
  {
    if s != "" && IsWhitespace(s[|s| - 1]) {
      var front, last := s[..|s| - 1], s[|s| - 1];
      CountTrimEnd(front);
      assert s == front + [last];
      CountConcat(front, [last], '.');
      assert [last][1..] == "";
    }
  }

  /** Reading a key back finds as many segments as were printed. */
  lemma ReadLength(path: seq<Step>)
    requires CleanSteps(path) && path != []
    ensures |ReadPath(path)| == |ShownPath(path)|
  {
    hide Split, Join, TrimStart, TrimEnd, ShownPath, Count, CleanStep;
    ShownClean(path);
    var shown := ShownPath(path);
    var key := Dotted(shown);
    DottedClean(shown);
    SplitJoin(Texts(shown), '.');
    SplitCount(key, '.');
    SplitCount(Trim(key), '.');
    CountTrimStart(key);
    CountTrimEnd(TrimStart(key));
  }

  /** How a leaf of a parsed tree comes back. */
  lemma LeafRead(l: Leaf)
    requires CleanLeaf(l)
    ensures Printable(l) && l.path != []
    ensures Bad(l.path) ==> |ReadPath(l.path)| < |l.path|
    ensures !Bad(l.path) && l.path[0].Name? ==> ReadPath(l.path) == l.path
    ensures l.path[0].Index? ==> ReadPath(l.path) == [Name("")] + l.path
  {
    hide CleanStep, Dotted, Trim, PathOf, ShownPath, IsWhitespace;
    ShownClean(l.path);
    DottedClean(ShownPath(l.path));
    if Bad(l.path) {
      ShownBad(l.path);
      ReadLength(l.path);
    } else if l.path[0].Name? {
      ShownGood(l.path);
      PathRead(l.path);
    } else {
      ShownItem(l.path);
      PathRead([Name("")] + l.path);
    }
  }

  // ---------------------------------------------------------------- the round trip

  /** The tree read back from the printed text. */
  lemma Reread(root: Conf)
    requires Tidy(root)
    ensures Parsed(Written(root, "")) == SetAll(EMPTY, ReadLeaves(Leaves(root)))
  {
    hide Leaves, SetAll, Written, PrintText, Lines, Bindings, CleanLeaf, Printable, Canonical, ReadPath;
    WrittenIsLeaves(root, []);
    DottedEmpty([]);
    assert ShownPath([]) == [];
    var leaves := Leaves(root);
    assert Shifted([], leaves) == leaves by {
      assert forall i :: 0 <= i < |leaves| ==> [] + leaves[i].path == leaves[i].path;
    }
    forall i | 0 <= i < |leaves| ensures Printable(leaves[i]) {
      assert leaves[i] in leaves;
      LeafRead(leaves[i]);
    }
    TextRead(leaves);
  }

  /** A leaf found again after the round trip was read from some line. */
  lemma ReadFrom(root: Conf, x: Leaf) returns (y: Leaf)
    requires Tidy(root) && SetAll(EMPTY, ReadLeaves(Leaves(root))) == root && x in Leaves(root)
    ensures y in Leaves(root) && CleanLeaf(y) && x == Leaf(ReadPath(y.path), y.value)
  {
    hide Leaves, SetAll, CleanLeaf, Canonical, ReadPath;
    var leaves := Leaves(root);
    LeafWasPut(ReadLeaves(leaves), x);
    var i :| 0 <= i < |leaves| && ReadLeaves(leaves)[i] == x;
    y := leaves[i];
  }

  function Longest(leaves: seq<Leaf>): (n: nat)
    ensures forall i :: 0 <= i < |leaves| ==> |leaves[i].path| <= n
  {
    if leaves == [] then 0
    else
      var n := Longest(leaves[1..]);
      assert forall i :: 0 < i < |leaves| ==> leaves[i] == leaves[1..][i - 1];
      if |leaves[0].path| > n then |leaves[0].path| else n
  }

  /** In a tree that survives, a leaf below the empty name needs a longer one of its kind. */
  lemma {:induction false} NoneBad(root: Conf, x: Leaf)
    requires Tidy(root) && SetAll(EMPTY, ReadLeaves(Leaves(root))) == root && x in Leaves(root)
    ensures !Bad(x.path)
    decreases Longest(Leaves(root)) - |x.path|
  {
    hide Leaves, SetAll, CleanLeaf, Canonical, ReadPath, Longest;
    if Bad(x.path) {
      var y := ReadFrom(root, x);
      LeafRead(y);
      var i :| 0 <= i < |Leaves(root)| && Leaves(root)[i] == y;
      NoneBad(root, y);
    }
  }

  /** Where there is a child or item there is a leaf below it. */
  lemma ChildHasLeaf(c: Conf, name: string) returns (l: Leaf)
    requires Canonical(c) && Lookup(c.children, name).Some?
    ensures l in Leaves(c) && l.path != [] && l.path[0] == Name(name)
    ensures Leaf(l.path[1..], l.value) in Leaves(ChildAt(c, name))
  {
    hide ItemLeaves, ChildLeaves;
    LookupFinds(c.children, name);
    var i :| 0 <= i < |c.children| && c.children[i] == Entry(name, Lookup(c.children, name).value);
    var inner := Leaves(c.children[i].value)[0];
    l := Leaf([Name(name)] + inner.path, inner.value);
    assert l.path[1..] == inner.path;
    InChildLeaves(c, |c.children|, l);
  }

  lemma ItemHasLeaf(c: Conf) returns (l: Leaf)
    requires Canonical(c) && c.list != []
    ensures l in Leaves(c) && l.path != [] && l.path[0].Index?
  {
    hide ItemLeaves, ChildLeaves;
    var n := |c.list| - 1;
    var inner := Leaves(c.list[n])[0];
    l := Leaf([Index(n)] + inner.path, inner.value);
    assert l.path[1..] == inner.path;
    InItemLeaves(c, |c.list|, l);
  }

  /** No list at the root, and nothing but a value and a list under the empty name. */
  predicate Prints(root: Conf) {
    root.list == [] && ChildAt(root, "").children == []
  }

  lemma SurvivorPrints(root: Conf)
    requires Tidy(root) && SetAll(EMPTY, ReadLeaves(Leaves(root))) == root
    ensures Prints(root)
  {
    hide Leaves, SetAll, CleanLeaf, ReadPath;
    if root.list != [] {
      var x := ItemHasLeaf(root);
      var y := ReadFrom(root, x);
      NoneBad(root, y);
      LeafRead(y);
    } else if ChildAt(root, "").children != [] {
      var d := ChildAt(root, "");
      LookupFinds(root.children, "");
      var inner := ChildHasLeaf(d, d.children[0].key);
      var x := Leaf([Name("")] + inner.path, inner.value);
      LeafIsValue(d, inner);
      assert x.path[1..] == inner.path;
      LeafIsValue(root, x);
      NoneBad(root, x);
    }
  }

  lemma PrintsSurvives(root: Conf)
    requires Tidy(root) && Prints(root)
    ensures SetAll(EMPTY, ReadLeaves(Leaves(root))) == root
  {
    hide SetAll, Leaves, CleanLeaf, Canonical, ReadPath;
    var leaves := Leaves(root);
    forall i | 0 <= i < |leaves| ensures ReadPath(leaves[i].path) == leaves[i].path {
      assert leaves[i] in leaves;
      LeafRead(leaves[i]);
      LeafIsValue(root, leaves[i]);
      NothingInEmpty(leaves[i].path[1..]);
      if Bad(leaves[i].path) {
        NothingInEmpty(leaves[i].path[1..][1..]);
      }
    }
    assert ReadLeaves(leaves) == leaves;
    Rebuild(root);
  }

  /** Rewrites may make values that do not fit on a line: with a comment sign, a line end or white space around. */
  ghost predicate CleanValues(root: Conf) {
    forall l :: l in Leaves(root) ==> CleanText(l.value) && Trimmed(l.value)
  }

  lemma ValuesTidy(text: string, rewrites: seq<Rewrite>)
    ensures CleanValues(ParsedWith(text, rewrites)) <==> Tidy(ParsedWith(text, rewrites))
  {
    hide ParsedWith, Leaves, Canonical, CleanPath, CleanText, Trimmed;
    ParsedClean(text, rewrites);
  }

  /** The tree made from any text by any rewrites comes back from its printed text, list gaps and lengths included,
      exactly if it has no list at the root, no named children under the empty name and values that fit on a line,
      as all do without rewrites. */
  lemma PrintParse(text: string, rewrites: seq<Rewrite>)
    ensures
      var root := ParsedWith(text, rewrites);
      ParsedWith(Written(root, ""), []) == root <==> Prints(root) && CleanValues(root)
    ensures CleanValues(ParsedWith(text, []))
  {
    hide Parsed, ParsedWith, Written, Tidy, Prints, CleanValues, SetAll;
    var root := ParsedWith(text, rewrites);
    ParsedPlain(Written(root, ""));
    ParsedTidy(Written(root, ""));
    ValuesTidy(text, rewrites);
    PlainValues(text);
    if Tidy(root) {
      Reread(root);
      if Prints(root) {
        PrintsSurvives(root);
      }
      if SetAll(EMPTY, ReadLeaves(Leaves(root))) == root {
        SurvivorPrints(root);
      }
    }
  }

  lemma PlainValues(text: string)
    ensures CleanValues(ParsedWith(text, []))
  {
    hide Parsed, ParsedWith, Tidy, CleanValues;
    ParsedPlain(text);
    ParsedTidy(text);
    ValuesTidy(text, []);
  }

  /** The tree of a one-line text. */
  lemma OneLine(key: string, value: string)
    requires CleanText(key) && '=' !in key && CleanText(value) && Trimmed(key) && Trimmed(value)
    ensures ParsedWith(key + " = " + value + "\n", []) == Set(EMPTY, PathOf(key), value)
  {
    ParsedPlain(key + " = " + value + "\n");
    hide Lines, BindingOf, Trim, Split, Set, IsWhitespace, PathOf;
    var line := key + " = " + value;
    LinesStep(line, "");
    assert line + "\n" + "" == line + "\n";
    LineRead(key, value);
    TrimFacts(key, '.');
    assert StripReturn(line) == line by {
      ReturnIsSpace();
    }
    NothingToRead();
    assert Lines("") == [] by { NoLines(); }
    assert Lines(line + "\n") == [line];
    assert Bindings([line]) == [Binding(key, value)] by { assert [line][1..] == []; }
    var leaf := Leaf(PathOf(key), value);
    var b := Binding(key, value);
    assert LeavesOf([b]) == [leaf] by {
      assert [b][1..] == [];
    }
    assert SetAll(EMPTY, [leaf]) == Set(EMPTY, leaf.path, value) by {
      assert [leaf][1..] == [];
    }
  }

  lemma NoLines()
    ensures Lines("") == []
  {
  }

  /** A number as the whole key makes a list at the root, and the round trip loses it. */
  lemma RootListLost()
    ensures
      var root := ParsedWith("1 = x\n", []);
      root.list != [] && ParsedWith(Written(root, ""), []) != root
  {
    hide ParsedWith, Written, PathOf, Set;
    PrintParse("1 = x\n", []);
    OneLine("1", "x");
    assert "1" + " = " + "x" + "\n" == "1 = x\n";
    OneIsNumber();
    ListGrows("x");
  }

  lemma OneIsNumber()
    ensures PathOf("1") == [Index(1)]
  {
    hide ParseUnsigned, Split;
    assert Decimal(1) == "1";
    ParseDecimal(1, U64_BOUND);
    SplitLast("1", '.');
  }

  lemma ListGrows(value: string)
    ensures |Set(EMPTY, [Index(1)], value).list| == 2
  {
  }

  /** A key that begins with a dot makes a named child below the empty name, and the round trip loses it: it is printed
      without the dot. */
  lemma EmptyNameLost()
    ensures
      var root := ParsedWith(".a = x\n", []);
      ChildAt(root, "").children != [] && ParsedWith(Written(root, ""), []) != root
  {
    hide ParsedWith, Written, PathOf, Set;
    PrintParse(".a = x\n", []);
    OneLine(".a", "x");
    assert ".a" + " = " + "x" + "\n" == ".a = x\n";
    DotIsEmptyName();
    ChildGrows("x");
  }

  lemma DotIsEmptyName()
    ensures PathOf(".a") == [Name(""), Name("a")]
  {
    hide Split, NumeralValue;
    assert "" + ['.'] + "a" == ".a";
    SplitStep("", '.', "a");
    SplitLast("a", '.');
    assert !IsDigit("a"[0]);
  }

  lemma ChildGrows(value: string)
    ensures ChildAt(Set(EMPTY, [Name(""), Name("a")], value), "").children != []
  {
    var path := [Name(""), Name("a")];
    assert path[1..] == [Name("a")];
    assert Set(EMPTY, path[1..], value).children != [];
  }
}
