/** What the lines of a configuration text mean, from the parts they are written with. */
module ConfigLines {
  import opened Wrappers
  import opened Text
  import opened Config
  import opened ConfigTheorems
  import opened ConfigText

  // ---------------------------------------------------------------- white space

  predicate Blank(s: string) {
    forall i :: 0 <= i < |s| ==> IsWhitespace(s[i])
  }

  lemma {:induction false} BlankBefore(left: string, s: string)
    requires Blank(left)
    ensures TrimStart(left + s) == TrimStart(s)
  {
    hide IsWhitespace;
    if left == "" {
      assert left + s == s;
    } else {
      assert (left + s)[1..] == left[1..] + s;
      BlankBefore(left[1..], s);
    }
  }

  lemma {:induction false} BlankAfter(s: string, right: string)
    requires Blank(right)
    ensures TrimEnd(s + right) == TrimEnd(s)
  {
    hide IsWhitespace;
    if right == "" {
      assert s + right == s;
    } else {
      assert (s + right)[..|s + right| - 1] == s + right[..|right| - 1];
      BlankAfter(s, right[..|right| - 1]);
    }
  }

  /** White space around a text is trimmed, and nothing else. */
  lemma TrimPadded(left: string, s: string, right: string)
    requires Blank(left) && Blank(right)
    ensures Trim(left + s + right) == Trim(s)
    ensures Trimmed(s) ==> Trim(left + s + right) == s
  {
    hide TrimStart, TrimEnd, IsWhitespace, Blank;
    assert left + s + right == left + (s + right);
    BlankBefore(left, s + right);
    TrimEndStart(s + right);
    BlankAfter(s, right);
    TrimEndStart(s);
    TrimFacts(s, ' ');
  }

  /** Trimming one side first makes no difference. */
  lemma TrimTwice(s: string)
    ensures Trim(TrimStart(s)) == Trim(s) && Trim(TrimEnd(s)) == Trim(s)
  {
    hide TrimStart, TrimEnd, IsWhitespace;
    TrimStartOnce(s);
    TrimEndStart(TrimEnd(s));
    TrimEndStart(s);
    TrimEndOnce(s);
  }

  lemma TrimStartOnce(s: string)
    ensures TrimStart(TrimStart(s)) == TrimStart(s)
  {
    hide IsWhitespace;
    TrimStartSuffix(s);
  }

  lemma TrimEndOnce(s: string)
    ensures TrimEnd(TrimEnd(s)) == TrimEnd(s)
  {
    hide IsWhitespace;
    TrimEndPrefix(s);
  }

  // ---------------------------------------------------------------- one line

  /** A comment sign and all that follows it are as if they were not there. */
  lemma CommentCut(pre: string, post: string)
    requires '#' !in pre
    ensures BindingOf(pre + "#" + post) == BindingOf(pre)
  {
    hide IndexOf, Trim;
    IndexOfPrefix(pre, '#', post);
    assert (pre + "#" + post)[..|pre|] == pre && pre[..|pre|] == pre;
  }

  /** A key, the first equals sign and a value bind the one to the other, both trimmed. */
  lemma PairBinds(key: string, value: string)
    requires '=' !in key && '#' !in key && '#' !in value
    ensures BindingOf(key + "=" + value) == Some(Binding(Trim(key), Trim(value)))
  {
    hide IndexOf, Trim, TrimStart, TrimEnd, IsWhitespace;
    var line := key + "=" + value;
    IndexOfPrefix(line, '#', "");
    assert line[..|line|] == line;
    EqualsTrimmed(key, value);
    var k, v := TrimStart(key), TrimEnd(value);
    TrimStartSuffix(key);
    assert '=' !in k;
    IndexOfPrefix(k, '=', v);
    var text := k + "=" + v;
    assert text[..|k|] == k && text[|k| + 1..] == v;
    TrimTwice(key);
    TrimTwice(value);
  }

  lemma EqualsTrimmed(key: string, value: string)
    ensures Trim(key + "=" + value) == TrimStart(key) + "=" + TrimEnd(value)
  {
    hide TrimStart, TrimEnd;
    TrimStartAppend(key, '=', value);
    TrimEndAppend(TrimStart(key), '=', value);
  }

  /** Every equals sign comes after a comment sign. */
  predicate NoPair(line: string) {
    forall i :: 0 <= i < |line| && line[i] == '=' ==> exists j :: 0 <= j < i && line[j] == '#'
  }

  /** What comes before the first comment sign. */
  function Uncommented(line: string): (pre: string)
    ensures '#' !in pre
    ensures pre == line || (|pre| < |line| && line == pre + "#" + line[|pre| + 1..])
  {
    line[..IndexOf(line, '#')]
  }

  lemma CutLine(line: string)
    ensures BindingOf(line) == BindingOf(Uncommented(line))
  {
    hide BindingOf, Uncommented;
    var pre := Uncommented(line);
    if pre != line {
      CommentCut(pre, line[|pre| + 1..]);
    }
  }

  /** A line binds nothing exactly if no equals sign stands before its first comment sign. */
  lemma BindsNothingExactly(line: string)
    ensures BindingOf(line).None? <==> NoPair(line)
  {
    hide BindingOf, Trim, IndexOf;
    var pre := Uncommented(line);
    CutLine(line);
    if '=' in pre {
      var i := IndexOf(pre, '=');
      NotAtEnd(pre, '=');
      assert pre == pre[..i] + "=" + pre[i + 1..];
      PairBinds(pre[..i], pre[i + 1..]);
      assert line[i] == '=' && forall j :: 0 <= j < i ==> line[j] == pre[j] && pre[j] in pre;
    } else {
      NothingBound(pre);
      forall i | 0 <= i < |line| && line[i] == '=' ensures exists j :: 0 <= j < i && line[j] == '#' {
        assert line[|pre|] == '#';
      }
    }
  }

  lemma NotAtEnd(s: string, c: char)
    requires c in s
    ensures IndexOf(s, c) < |s|
  {
    assert s[..|s|] == s;
  }

  lemma NothingBound(pre: string)
    requires '#' !in pre && '=' !in pre
    ensures BindingOf(pre).None?
  {
    hide IndexOf, Trim, IsWhitespace;
    IndexOfPrefix(pre, '#', "");
    assert pre[..|pre|] == pre;
    TrimFacts(pre, '=');
    IndexOfPrefix(Trim(pre), '=', "");
  }

  /** A carriage return before the end of the line makes no difference. */
  lemma StripKeeps(line: string)
    ensures BindingOf(StripReturn(line)) == BindingOf(line)
  {
    hide BindingOf, Trim, IndexOf, IsWhitespace;
    var l := StripReturn(line);
    if l != line {
      assert line == l + "\r";
      var pre := Uncommented(l);
      CutLine(l);
      if pre != l {
        assert line == pre + "#" + (l[|pre| + 1..] + "\r");
        CommentCut(pre, l[|pre| + 1..] + "\r");
      } else if '=' in l {
        var i := IndexOf(l, '=');
        NotAtEnd(l, '=');
        var key, value := l[..i], l[i + 1..];
        assert l == key + "=" + value && line == key + "=" + (value + "\r");
        PairBinds(key, value);
        PairBinds(key, value + "\r");
        ReturnIsSpace();
        TrimPadded("", value, "\r");
        assert "" + value + "\r" == value + "\r";
      } else {
        NothingBound(l);
        NothingBound(line);
      }
    }
  }

  // ---------------------------------------------------------------- whole texts

  /** A line as it is written: a key, an equals sign, a value and perhaps a comment, or anything that binds nothing. */
  datatype Part = Pair(key: string, value: string, note: Option<string>) | Remark(text: string)

  function LineOf(part: Part): string {
    match part
    case Pair(key, value, None) => key + "=" + value
    case Pair(key, value, Some(note)) => key + "=" + value + "#" + note
    case Remark(text) => text
  }

  predicate WellPut(part: Part) {
    '\n' !in LineOf(part)
    && match part
       case Pair(key, value, _) => '=' !in key && '#' !in key && '#' !in value
       case Remark(text) => NoPair(text)
  }

  predicate AllWellPut(parts: seq<Part>) {
    forall i :: 0 <= i < |parts| ==> WellPut(parts[i])
  }

  function TextFrom(parts: seq<Part>): string {
    if parts == [] then "" else LineOf(parts[0]) + "\n" + TextFrom(parts[1..])
  }

  /** The first value written for a key, without the white space around. */
  function FirstWritten(parts: seq<Part>, key: string): Option<string> {
    if parts == [] then None
    else
      match parts[0]
      case Pair(k, value, _) => if Trim(k) == key then Some(Trim(value)) else FirstWritten(parts[1..], key)
      case Remark(_) => FirstWritten(parts[1..], key)
  }

  lemma PartBinds(part: Part)
    requires WellPut(part)
    ensures BindingOf(LineOf(part)) ==
            match part case Pair(key, value, _) => Some(Binding(Trim(key), Trim(value))) case Remark(_) => None
  {
    hide BindingOf, Trim, NoPair;
    match part {
      case Pair(key, value, note) =>
        PairBinds(key, value);
        if note.Some? {
          CommentCut(key + "=" + value, note.value);
        }
      case Remark(text) => BindsNothingExactly(text);
    }
  }

  lemma {:induction false} PartsRead(parts: seq<Part>, key: string)
    requires AllWellPut(parts)
    ensures FirstValue(Bindings(Lines(TextFrom(parts))), key) == FirstWritten(parts, key)
  {
    hide BindingOf, Lines, LineOf, StripReturn, Trim;
    if parts == [] {
      NothingToRead();
    } else {
      var line, rest := LineOf(parts[0]), TextFrom(parts[1..]);
      assert WellPut(parts[0]);
      PartsRead(parts[1..], key);
      LinesStep(line, rest);
      StripKeeps(line);
      PartBinds(parts[0]);
      assert ([StripReturn(line)] + Lines(rest))[1..] == Lines(rest);
      if parts[0].Pair? {
        var b := BindingOf(line).value;
        assert ([b] + Bindings(Lines(rest)))[1..] == Bindings(Lines(rest));
      }
    }
  }

  /** From the lines as they are written: looking a key up gives the trimmed value of the first line whose trimmed key
      it is, comments and white space aside, as the rewrites make it; a key with a numeric segment is never found. */
  lemma GetIsFirstWritten(parts: seq<Part>, rewrites: seq<Rewrite>, key: string)
    requires AllWellPut(parts)
    ensures Get(ParsedWith(TextFrom(parts), rewrites), key) ==
            match FirstWritten(parts, key)
            case Some(v) => if HasNumber(key) then None else Some(Rewritten(key, v, rewrites))
            case None => None
  {
    hide ParsedWith, TextFrom, FirstWritten, FirstValue, HasNumber, Get;
    PartsRead(parts, key);
    GetIsFirst(TextFrom(parts), rewrites, key);
  }

  /** Any line is written in one of the two ways. */
  lemma LineParts(line: string) returns (part: Part)
    requires '\n' !in line
    ensures WellPut(part) && LineOf(part) == line
  {
    hide IndexOf;
    if NoPair(line) {
      part := Remark(line);
    } else {
      var pre := Uncommented(line);
      BindsNothingExactly(line);
      if '=' !in pre {
        NothingBound(pre);
        CutLine(line);
      }
      NotAtEnd(pre, '=');
      var i := IndexOf(pre, '=');
      assert pre == pre[..i] + "=" + pre[i + 1..];
      part := Pair(pre[..i], pre[i + 1..], if pre == line then None else Some(line[|pre| + 1..]));
    }
  }

  /** So is every line of any text that ends its last line. */
  lemma {:induction false} TextParts(text: string) returns (parts: seq<Part>)
    requires text == "" || text[|text| - 1] == '\n'
    ensures AllWellPut(parts) && TextFrom(parts) == text
    decreases |text|
  {
    hide WellPut, LineOf;
    if text == "" {
      parts := [];
    } else {
      NotAtEnd(text, '\n');
      var i := IndexOf(text, '\n');
      var part := LineParts(text[..i]);
      var rest := TextParts(text[i + 1..]);
      parts := [part] + rest;
      assert parts[1..] == rest && parts[0] == part;
      assert text == text[..i] + "\n" + text[i + 1..];
      assert forall k :: 0 < k < |parts| ==> parts[k] == rest[k - 1];
    }
  }

  /** Ending the last line makes no difference. */
  lemma {:induction false} LastLineEnded(text: string)
    requires text != "" && text[|text| - 1] != '\n'
    ensures Bindings(Lines(text + "\n")) == Bindings(Lines(text))
    decreases |text|
  {
    hide BindingOf, StripReturn;
    var i := IndexOf(text, '\n');
    assert text[..|text|] == text;
    if i < |text| {
      var head, tail := text[..i], text[i + 1..];
      assert text == head + "\n" + tail && text + "\n" == head + "\n" + (tail + "\n");
      LastLineEnded(tail);
      LinesStep(head, tail);
      LinesStep(head, tail + "\n");
      assert ([StripReturn(head)] + Lines(tail))[1..] == Lines(tail);
      assert ([StripReturn(head)] + Lines(tail + "\n"))[1..] == Lines(tail + "\n");
    } else {
      LinesStep(text, "");
      assert text + "\n" + "" == text + "\n";
      StripKeeps(text);
      OneLineRead(text);
    }
  }

  lemma OneLineRead(line: string)
    ensures Lines("") == []
    ensures Bindings([StripReturn(line)]) == match BindingOf(StripReturn(line)) case Some(b) => [b] case None => []
    ensures Bindings([line]) == match BindingOf(line) case Some(b) => [b] case None => []
  {
    hide BindingOf;
    assert [line][1..] == [] && [StripReturn(line)][1..] == [];
  }

  // ---------------------------------------------------------------- rewrites

  /** Rewrites apply one after the other, each to the value the one before it left, and each exactly if it is for all
      keys or its test takes the key. */
  lemma {:induction false} RewritesInOrder(key: string, value: string, first: seq<Rewrite>, more: seq<Rewrite>)
    ensures Rewritten(key, value, first + more) == Rewritten(key, Rewritten(key, value, first), more)
    ensures |more| == 1 ==>
      var (test, replace) := (more[0].keyMatch, more[0].replace);
      Rewritten(key, value, more)
      == if replace.Some? && (test.None? || test.value(key)) then replace.value(value) else value
  {
    if more == [] {
      assert first + more == first;
    } else {
      assert (first + more)[..|first + more| - 1] == first + more[..|more| - 1];
      RewritesInOrder(key, value, first, more[..|more| - 1]);
    }
  }
}
