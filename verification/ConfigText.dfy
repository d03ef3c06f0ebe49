/** The text of a configuration tree, line by line, as the parser reads it. */
module ConfigText {
  import opened Wrappers
  import opened Text
  import opened Config
  import opened ConfigRoundTrip

  // ---------------------------------------------------------------- keys as printed

  function TextOf(step: Step): string {
    match step
    case Index(n) => Decimal(n)
    case Name(name) => name
  }

  function Texts(path: seq<Step>): (r: seq<string>)
    ensures |r| == |path| && forall i :: 0 <= i < |r| ==> r[i] == TextOf(path[i])
  {
    seq(|path|, i requires 0 <= i < |path| => TextOf(path[i]))
  }

  function Dotted(path: seq<Step>): string {
    Join(Texts(path), '.')
  }

  /** The path that a printed key spells. An empty prefix counts as none before a name, and does not before a number. */
  function ShownPath(path: seq<Step>): seq<Step> {
    if path == [] then []
    else
      var front, last := ShownPath(path[..|path| - 1]), path[|path| - 1];
      if last.Name? then if front == [] || front == [Name("")] then [last] else front + [last]
      else if front == [] then [Name(""), last] else front + [last]
  }

  lemma {:induction false} JoinSnoc(parts: seq<string>, last: string, c: char)
    requires parts != []
    ensures Join(parts + [last], c) == Join(parts, c) + [c] + last
  {
    if |parts| == 1 {
      assert (parts + [last])[1..] == [last];
    } else {
      assert (parts + [last])[1..] == parts[1..] + [last];
      JoinSnoc(parts[1..], last, c);
    }
  }

  lemma DottedSnoc(path: seq<Step>, step: Step)
    ensures Dotted(path + [step]) == if path == [] then TextOf(step) else Dotted(path) + "." + TextOf(step)
  {
    hide TextOf;
    assert Texts(path + [step]) == Texts(path) + [TextOf(step)];
    if path != [] {
      JoinSnoc(Texts(path), TextOf(step), '.');
    }
  }

  lemma DottedEmpty(path: seq<Step>)
    ensures Dotted(path) == "" <==> path == [] || path == [Name("")]
  {
    if |path| > 1 {
      var front, last := path[..|path| - 1], path[|path| - 1];
      assert path == front + [last];
      DottedSnoc(front, last);
    } else if |path| == 1 {
      assert Texts(path) == [TextOf(path[0])];
      assert path == [path[0]];
    }
  }

  lemma ShownSnoc(path: seq<Step>, step: Step)
    ensures ShownPath(path + [step]) ==
      var front := ShownPath(path);
      if step.Name? then if front == [] || front == [Name("")] then [step] else front + [step]
      else if front == [] then [Name(""), step] else front + [step]
  {
    assert (path + [step])[..|path|] == path;
  }

  /** The prefixes the printer builds spell the shown paths. */
  lemma PrefixesShown(path: seq<Step>, step: Step)
    ensures Dotted(ShownPath(path + [step])) ==
      var prefix := Dotted(ShownPath(path));
      if step.Name? then ChildPrefix(prefix, step.name) else ItemPrefix(prefix, step.n)
  {
    hide Dotted, ShownPath;
    var front := ShownPath(path);
    ShownSnoc(path, step);
    DottedEmpty(front);
    DottedSnoc(front, step);
    DottedSnoc([], step);
    assert [] + [step] == [step];
    if step.Index? && front == [] {
      DottedSnoc([Name("")], step);
      assert [Name("")] + [step] == [Name(""), step];
      DottedEmpty([Name("")]);
    }
  }

  // ---------------------------------------------------------------- the text

  function PrintedLine(l: Leaf): string {
    LineFor(Dotted(ShownPath(l.path)), l.value)
  }

  function PrintText(leaves: seq<Leaf>): string {
    if leaves == [] then "" else PrintedLine(leaves[0]) + PrintText(leaves[1..])
  }

  lemma {:induction false} PrintTextConcat(a: seq<Leaf>, b: seq<Leaf>)
    ensures PrintText(a + b) == PrintText(a) + PrintText(b)
  {
    hide PrintedLine;
    if a == [] {
      assert a + b == b;
    } else {
      assert (a + b)[1..] == a[1..] + b;
      PrintTextConcat(a[1..], b);
    }
  }

  /** Leaves of a subtree, with the path to it put before. */
  function Shifted(path: seq<Step>, leaves: seq<Leaf>): (r: seq<Leaf>)
    ensures |r| == |leaves| && forall i :: 0 <= i < |r| ==> r[i] == Leaf(path + leaves[i].path, leaves[i].value)
  {
    seq(|leaves|, i requires 0 <= i < |leaves| => Leaf(path + leaves[i].path, leaves[i].value))
  }

  lemma ShiftedUnder(path: seq<Step>, step: Step, leaves: seq<Leaf>)
    ensures Shifted(path, Under(step, leaves)) == Shifted(path + [step], leaves)
  {
    forall i | 0 <= i < |leaves| ensures path + ([step] + leaves[i].path) == path + [step] + leaves[i].path {
    }
  }

  lemma ShiftedConcat(path: seq<Step>, a: seq<Leaf>, b: seq<Leaf>)
    ensures Shifted(path, a + b) == Shifted(path, a) + Shifted(path, b)
  {
  }

  /** A subtree prints one line for each of its leaves, in order. */
  lemma {:induction false} WrittenIsLeaves(c: Conf, path: seq<Step>)
    ensures Written(c, Dotted(ShownPath(path))) == PrintText(Shifted(path, Leaves(c)))
    decreases c, 1, 0
  {
    hide Dotted, ShownPath, LineFor, WrittenChildren, WrittenItems, ChildLeaves, ItemLeaves;
    var own, children, items := OwnLeaf(c), ChildLeaves(c, |c.children|), ItemLeaves(c, |c.list|);
    ShiftedConcat(path, own + children, items);
    ShiftedConcat(path, own, children);
    PrintTextConcat(Shifted(path, own + children), Shifted(path, items));
    PrintTextConcat(Shifted(path, own), Shifted(path, children));
    WrittenChildrenLeaves(c, path, |c.children|);
    WrittenItemsLeaves(c, path, |c.list|);
    if c.value.Some? {
      assert path + [] == path;
      assert Shifted(path, own)[1..] == [];
    }
  }

  lemma {:induction false} WrittenChildrenLeaves(c: Conf, path: seq<Step>, n: nat)
    requires n <= |c.children|
    ensures WrittenChildren(c, Dotted(ShownPath(path)), n) == PrintText(Shifted(path, ChildLeaves(c, n)))
    decreases c, 0, n
  {
    hide Dotted, ShownPath, Leaves, Written, PrintedLine;
    if n > 0 {
      var e := c.children[n - 1];
      var step := Name(e.key);
      WrittenChildrenLeaves(c, path, n - 1);
      WrittenIsLeaves(e.value, path + [step]);
      PrefixesShown(path, step);
      ShiftedUnder(path, step, Leaves(e.value));
      ShiftedConcat(path, ChildLeaves(c, n - 1), Under(step, Leaves(e.value)));
      PrintTextConcat(Shifted(path, ChildLeaves(c, n - 1)), Shifted(path + [step], Leaves(e.value)));
    }
  }

  lemma {:induction false} WrittenItemsLeaves(c: Conf, path: seq<Step>, n: nat)
    requires n <= |c.list|
    ensures WrittenItems(c, Dotted(ShownPath(path)), n) == PrintText(Shifted(path, ItemLeaves(c, n)))
    decreases c, 0, n
  {
    hide Dotted, ShownPath, Leaves, Written, PrintedLine;
    if n > 0 {
      var item, step := c.list[n - 1], Index(n - 1);
      WrittenItemsLeaves(c, path, n - 1);
      WrittenIsLeaves(item, path + [step]);
      PrefixesShown(path, step);
      ShiftedUnder(path, step, Leaves(item));
      ShiftedConcat(path, ItemLeaves(c, n - 1), Under(step, Leaves(item)));
      PrintTextConcat(Shifted(path, ItemLeaves(c, n - 1)), Shifted(path + [step], Leaves(item)));
    }
  }

  // ---------------------------------------------------------------- trimming

  lemma {:induction false} TrimStartSuffix(s: string)
    ensures |TrimStart(s)| <= |s| && TrimStart(s) == s[|s| - |TrimStart(s)|..]
    ensures TrimStart(s) == "" || !IsWhitespace(TrimStart(s)[0])
  {
    hide IsWhitespace;
    if s != "" && IsWhitespace(s[0]) {
      TrimStartSuffix(s[1..]);
    }
  }

  lemma {:induction false} TrimEndPrefix(s: string)
    ensures |TrimEnd(s)| <= |s| && TrimEnd(s) == s[..|TrimEnd(s)|]
    ensures TrimEnd(s) == "" || !IsWhitespace(TrimEnd(s)[|TrimEnd(s)| - 1])
  {
    hide IsWhitespace;
    if s != "" && IsWhitespace(s[|s| - 1]) {
      TrimEndPrefix(s[..|s| - 1]);
    }
  }

  /** Trimming leaves no white space at the ends, brings no character in and is idle on trimmed text. */
  lemma TrimFacts(s: string, c: char)
    ensures Trimmed(Trim(s))
    ensures c !in s ==> c !in Trim(s)
    ensures Trimmed(s) ==> Trim(s) == s
  {
    hide TrimStart, TrimEnd, IsWhitespace;
    TrimStartSuffix(s);
    TrimEndPrefix(TrimStart(s));
    if Trimmed(s) {
      TrimIdle(s);
    }
  }

  lemma TrimIdle(s: string)
    requires Trimmed(s)
    ensures TrimStart(s) == s && TrimEnd(s) == s
  {
  }

  lemma {:induction false} TrimStartAppend(s: string, c: char, rest: string)
    requires !IsWhitespace(c)
    ensures TrimStart(s + [c] + rest) == TrimStart(s) + [c] + rest
  {
    var whole := s + [c] + rest;
    if s != "" {
      assert whole[1..] == s[1..] + [c] + rest;
      if IsWhitespace(s[0]) {
        TrimStartAppend(s[1..], c, rest);
      }
    }
  }

  lemma {:induction false} TrimEndAppend(front: string, c: char, s: string)
    requires !IsWhitespace(c)
    ensures TrimEnd(front + [c] + s) == front + [c] + TrimEnd(s)
  {
    var whole := front + [c] + s;
    if s != "" {
      assert whole[..|whole| - 1] == front + [c] + s[..|s| - 1];
      if IsWhitespace(s[|s| - 1]) {
        TrimEndAppend(front, c, s[..|s| - 1]);
      }
    }
  }

  lemma {:induction false} TrimEndStart(s: string)
    ensures TrimEnd(TrimStart(s)) == TrimStart(TrimEnd(s))
  {
    if s != "" && IsWhitespace(s[0]) {
      TrimEndStart(s[1..]);
      TrimEndTail(s);
    } else if s != "" {
      TrimEndAppend("", s[0], s[1..]);
      assert "" + [s[0]] + s[1..] == s;
    }
  }

  lemma {:induction false} TrimEndTail(s: string)
    requires s != "" && IsWhitespace(s[0])
    ensures TrimStart(TrimEnd(s)) == TrimStart(TrimEnd(s[1..]))
  {
    if IsWhitespace(s[|s| - 1]) {
      if |s| > 1 {
        TrimEndTail(s[..|s| - 1]);
        assert s[..|s| - 1][1..] == s[1..][..|s| - 2];
      }
    }
  }

  // ---------------------------------------------------------------- reading a printed line

  predicate CleanText(s: string) {
    '#' !in s && '\n' !in s
  }

  lemma TrimSpaces(key: string, value: string)
    ensures Trim(TrimStart(key + " ")) == Trim(key)
    ensures Trim(TrimEnd(" " + value)) == Trim(value)
  {
    var k, v := key + " ", " " + value;
    assert k[..|k| - 1] == key && v[1..] == value;
    TrimStartSuffix(k);
    TrimEndStart(k);
    TrimEndStart(key);
    TrimEndPrefix(v);
    TrimEndStart(TrimEnd(v));
    TrimEndStart(v);
  }

  /** A printed line binds its key, trimmed, to its value. */
  lemma LineRead(key: string, value: string)
    requires CleanText(key) && '=' !in key && CleanText(value) && Trimmed(value)
    ensures BindingOf(key + " = " + value) == Some(Binding(Trim(key), value))
  {
    hide IndexOf, Trim, TrimStart, TrimEnd, IsWhitespace;
    var line := key + " = " + value;
    assert line[..|line|] == line;
    LineTrimmed(key, value);
    var k, v := TrimStart(key + " "), TrimEnd(" " + value);
    TrimStartSuffix(key + " ");
    assert '=' !in k;
    IndexOfPrefix(k, '=', v);
    var text := k + "=" + v;
    assert text[..|k|] == k && text[|k| + 1..] == v;
    TrimSpaces(key, value);
    TrimFacts(value, '#');
  }

  lemma LineTrimmed(key: string, value: string)
    ensures Trim(key + " = " + value) == TrimStart(key + " ") + "=" + TrimEnd(" " + value)
  {
    hide TrimStart, TrimEnd;
    assert key + " = " + value == (key + " ") + "=" + (" " + value);
    TrimStartAppend(key + " ", '=', " " + value);
    TrimEndAppend(TrimStart(key + " "), '=', " " + value);
  }

  lemma LinesStep(line: string, rest: string)
    requires '\n' !in line
    ensures Lines(line + "\n" + rest) == [StripReturn(line)] + Lines(rest)
  {
    hide IndexOf;
    var text := line + "\n" + rest;
    IndexOfPrefix(line, '\n', rest);
    assert text[..|line|] == line && text[|line| + 1..] == rest;
  }

  /** A path as the parser reads it from a printed line. */
  function ReadPath(path: seq<Step>): seq<Step> {
    PathOf(Trim(Dotted(ShownPath(path))))
  }

  function ReadLeaves(leaves: seq<Leaf>): (r: seq<Leaf>)
    ensures |r| == |leaves| && forall i :: 0 <= i < |r| ==> r[i] == Leaf(ReadPath(leaves[i].path), leaves[i].value)
  {
    seq(|leaves|, i requires 0 <= i < |leaves| => Leaf(ReadPath(leaves[i].path), leaves[i].value))
  }

  /** Keys and values that stay on one line and in one piece. */
  predicate Printable(l: Leaf) {
    var key := Dotted(ShownPath(l.path));
    CleanText(key) && '=' !in key && CleanText(l.value) && Trimmed(l.value)
  }

  lemma PrintedLineRead(l: Leaf, rest: string)
    requires Printable(l)
    ensures Bindings(Lines(PrintedLine(l) + rest))
         == [Binding(Trim(Dotted(ShownPath(l.path))), l.value)] + Bindings(Lines(rest))
  {
    hide Dotted, ShownPath, BindingOf, Trim, Lines, IsWhitespace;
    var key := Dotted(ShownPath(l.path));
    var line := key + " = " + l.value;
    assert PrintedLine(l) + rest == line + "\n" + rest;
    LinesStep(line, rest);
    assert StripReturn(line) == line by {
      if l.value != "" {
        assert line[|line| - 1] == l.value[|l.value| - 1];
        ReturnIsSpace();
      }
    }
    LineRead(key, l.value);
    assert ([line] + Lines(rest))[1..] == Lines(rest);
  }

  lemma ReturnIsSpace()
    ensures IsWhitespace('\r')
  {
  }

  /** The parser reads the printed text leaf by leaf. */
  lemma {:induction false} TextRead(leaves: seq<Leaf>)
    requires forall i :: 0 <= i < |leaves| ==> Printable(leaves[i])
    ensures LeavesOf(Bindings(Lines(PrintText(leaves)))) == ReadLeaves(leaves)
  {
    hide Printable, PrintedLine, Lines, Bindings, Trim, Dotted, ShownPath, PathOf;
    if leaves == [] {
      NothingToRead();
    } else {
      var l, rest := leaves[0], leaves[1..];
      TextRead(rest);
      PrintedLineRead(l, PrintText(rest));
      var b := Binding(Trim(Dotted(ShownPath(l.path))), l.value);
      assert ([b] + Bindings(Lines(PrintText(rest))))[1..] == Bindings(Lines(PrintText(rest)));
    }
  }

  lemma NothingToRead()
    ensures Bindings(Lines("")) == []
  {
  }
}
