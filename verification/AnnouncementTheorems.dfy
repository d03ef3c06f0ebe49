/** What a service announces is what others read. */
module AnnouncementTheorems {
  import opened Wrappers
  import opened Text
  import opened Actions
  import opened Json
  import opened SortedMap
  import opened Announce
  import opened AnnouncementParser
  import Rle

  // ---------------------------------------------------------------- flags

  /** An announceable flag survives being listed: it is not empty, holds no comma and does parse. */
  lemma AnnounceableFlag(f: string)
    requires Announceable(f)
    ensures f != "" && ',' !in f && ParseFlag(f).Some?
  {
    if f in ANNOUNCEABLE {
      assert f in ["create", "destroy", "noauth", "read", "secret", "update"];
    } else {
      var s := f[1..];
      var digits := if |s| > 1 && s[0] == '+' then s[1..] else s;
      assert AllDigits(digits) && digits != "";
      assert forall i :: 0 <= i < |f| ==> f[i] == 't' || (i == 1 && f[i] == '+') || IsDigit(f[i]) by {
        forall i | 0 < i < |f| ensures (i == 1 && f[i] == '+') || IsDigit(f[i]) {
          assert f[i] == s[i - 1];
          if |s| > 1 && s[0] == '+' && i > 1 {
            assert s[i - 1] == digits[i - 2];
          }
        }
      }
      if AllDigits(s) {
        assert s[0] != '+';
      }
    }
  }

  predicate AllAnnounceable(fs: seq<string>) {
    forall i :: 0 <= i < |fs| ==> Announceable(fs[i])
  }

  /** The flags that a list of flags stands for. */
  function Meanings(fs: seq<string>): seq<Flag> {
    if fs == [] then []
    else
      match ParseFlag(fs[|fs| - 1])
      case Some(flag) => Meanings(fs[..|fs| - 1]) + [flag]
      case None => Meanings(fs[..|fs| - 1])
  }

  lemma {:induction false} AllMeanings(fs: seq<string>)
    requires AllAnnounceable(fs)
    ensures ParseFlags(fs) == Some(Meanings(fs)) && NonEmpty(fs) == fs && FreeOf(fs, ',')
    ensures |Meanings(fs)| == |fs| && forall i :: 0 <= i < |fs| ==> ParseFlag(fs[i]) == Some(Meanings(fs)[i])
  {
    hide ParseFlag, Announceable;
    if fs != [] {
      AllMeanings(fs[..|fs| - 1]);
      AnnounceableFlag(fs[|fs| - 1]);
      assert fs == fs[..|fs| - 1] + [fs[|fs| - 1]];
    }
  }

  /** A joined list of announceable flags parses to what the flags mean; no flags at all to none. */
  lemma FlagsBack(fs: seq<string>)
    requires AllAnnounceable(fs)
    ensures FlagList(Join(fs, ',')) == Some(Meanings(fs))
  {
    hide Split, ParseFlag, Announceable;
    AllMeanings(fs);
    if fs == [] {
      SplitLast("", ',');
      assert [""][..0] == [];
    } else {
      SplitJoin(fs, ',');
    }
  }

  lemma AnnouncedFlagsAnnounceable(flags: seq<string>)
    ensures AllAnnounceable(AnnouncedFlags(flags))
    ensures Ascending(AnnouncedFlags(flags)) && multiset(AnnouncedFlags(flags)) == multiset(Filtered(flags))
  {
    hide Announceable;
    SortOrders(Filtered(flags));
    forall i | 0 <= i < |AnnouncedFlags(flags)| ensures Announceable(AnnouncedFlags(flags)[i]) {
      assert AnnouncedFlags(flags)[i] in multiset(Filtered(flags));
    }
  }

  // ---------------------------------------------------------------- one action

  predicate Dotted(info: ActionInfo) {
    '.' in info.name
  }

  function NamespaceOf(info: ActionInfo): string {
    match RSplitOnce(info.name, '.')
    case Some((namespace, _)) => namespace
    case None => ""
  }

  /** How others see a registered action. */
  function Seen(info: ActionInfo, sector: string, envelopes: seq<string>): Action
    requires info.version >= 0
  {
    var path := Path(info.name);
    Action(path, info.version, PathVer(path, info.version), Meanings(AnnouncedFlags(info.flags)), sector, envelopes, V3)
  }

  lemma DottedSplits(info: ActionInfo)
    ensures Dotted(info) <==> RSplitOnce(info.name, '.').Some?
    ensures Dotted(info) ==>
              var (namespace, name) := RSplitOnce(info.name, '.').value;
              namespace + "." + name == info.name && NamespaceOf(info) == namespace
  {
    if RSplitOnce(info.name, '.').Some? {
      var (namespace, name) := RSplitOnce(info.name, '.').value;
      assert info.name[|namespace|] == '.';
    }
  }

  function NameOf(info: ActionInfo): string {
    match RSplitOnce(info.name, '.')
    case Some((_, name)) => name
    case None => info.name
  }

  lemma AnnouncedBack(flags: seq<string>)
    ensures FlagList(Join(AnnouncedFlags(flags), ',')) == Some(Meanings(AnnouncedFlags(flags)))
  {
    hide FlagList, Join, Announceable, AnnouncedFlags;
    AnnouncedFlagsAnnounceable(flags);
    FlagsBack(AnnouncedFlags(flags));
  }

  /** One action read back: it comes through exactly if its version is not negative. */
  lemma ActionBack(info: ActionInfo, sector: string, envelopes: seq<string>, i: nat, j: nat)
    requires Dotted(info)
    ensures ParseV3Action(ActionValue(info, NameOf(info)), NamespaceOf(info), sector, envelopes, i, j)
         == if info.version >= 0 then Ok(Seen(info, sector, envelopes))
            else Err(InvalidV3Action(i, j, "version must be number"))
  {
    hide AnnouncedFlags, FlagList, Join, RSplitOnce, Path, PathVer, Meanings;
    DottedSplits(info);
    AnnouncedBack(info.flags);
    var value := ActionValue(info, NameOf(info));
    assert value.items[0] == Str(NameOf(info)) && value.items[1] == Str(Join(AnnouncedFlags(info.flags), ','));
    if info.version != 1 {
      assert |value.items| == 3 && value.items[2] == Integer(info.version);
    } else {
      assert |value.items| == 2;
    }
  }

  // ---------------------------------------------------------------- grouping

  /** The registered actions by namespace. */
  type Groups = seq<Entry<seq<ActionInfo>>>

  function Grouped(infos: seq<ActionInfo>): Groups {
    if infos == [] then []
    else
      var m, info := Grouped(infos[..|infos| - 1]), infos[|infos| - 1];
      if Dotted(info) then Put(m, NamespaceOf(info), ListAt(m, NamespaceOf(info)) + [info]) else m
  }

  function Flat(m: Groups): seq<ActionInfo> {
    if m == [] then [] else m[0].value + Flat(m[1..])
  }

  function DottedOnly(infos: seq<ActionInfo>): seq<ActionInfo> {
    if infos == [] then []
    else DottedOnly(infos[..|infos| - 1]) + (if Dotted(infos[|infos| - 1]) then [infos[|infos| - 1]] else [])
  }

  /** The actions of one namespace, in order. */
  function OfNamespace(infos: seq<ActionInfo>, namespace: string): seq<ActionInfo> {
    if infos == [] then []
    else
      var info := infos[|infos| - 1];
      OfNamespace(infos[..|infos| - 1], namespace) + 
      (if Dotted(info) && NamespaceOf(info) == namespace then [info] else [])
  }

  function Rendered(infos: seq<ActionInfo>): (values: seq<Value>)
    ensures |values| == |infos|
  {
    if infos == [] then []
    else Rendered(infos[..|infos| - 1]) + [ActionValue(infos[|infos| - 1], NameOf(infos[|infos| - 1]))]
  }

  function RenderedGroups(m: Groups): Classes {
    if m == [] then [] else [Entry(m[0].key, Rendered(m[0].value))] + RenderedGroups(m[1..])
  }

  lemma {:induction false} RenderPut(m: Groups, key: string, infos: seq<ActionInfo>)
    ensures RenderedGroups(Put(m, key, infos)) == Put(RenderedGroups(m), key, Rendered(infos))
    ensures ListAt(RenderedGroups(m), key) == Rendered(ListAt(m, key))
  {
    hide Rendered;
    if m == [] {
      assert RenderedGroups([Entry(key, infos)][1..]) == [];
    } else {
      assert RenderedGroups(m)[1..] == RenderedGroups(m[1..]);
      RenderPut(m[1..], key, infos);
      var put := Put(m, key, infos);
      if m[0].key == key || Before(key, m[0].key) {
        assert put[1..] == if m[0].key == key then m[1..] else m;
      } else {
        assert put[1..] == Put(m[1..], key, infos);
      }
    }
  }

  /** The class map is the grouping, rendered. */
  lemma {:induction false} ClassMapGroups(infos: seq<ActionInfo>)
    ensures ClassMap(infos) == RenderedGroups(Grouped(infos))
  {
    hide RSplitOnce, ActionValue, Put, Dotted;
    if infos != [] {
      var front, info := infos[..|infos| - 1], infos[|infos| - 1];
      ClassMapGroups(front);
      DottedSplits(info);
      if Dotted(info) {
        var m, key := Grouped(front), NamespaceOf(info);
        RenderPut(m, key, ListAt(m, key) + [info]);
        assert (ListAt(m, key) + [info])[..|ListAt(m, key)|] == ListAt(m, key);
      }
    }
  }

  /** Keys ascend, no group is empty, and each holds actions of its namespace only. */
  ghost predicate GroupsFit(m: Groups) {
    && Sorted(m)
    && (forall i :: 0 <= i < |m| ==> m[i].value != [] && InNamespace(m[i].value, m[i].key))
  }

  predicate InNamespace(infos: seq<ActionInfo>, namespace: string) {
    forall i :: 0 <= i < |infos| ==> Dotted(infos[i]) && NamespaceOf(infos[i]) == namespace
  }

  lemma PutFits(m: Groups, info: ActionInfo)
    requires GroupsFit(m) && Dotted(info)
    ensures GroupsFit(Put(m, NamespaceOf(info), ListAt(m, NamespaceOf(info)) + [info]))
  {
    hide NamespaceOf, Dotted, Put, Before;
    var key := NamespaceOf(info);
    var infos := ListAt(m, key) + [info];
    PutSorted(m, key, infos);
    PutEntries(m, key, infos);
    LookupFinds(m, key);
    assert InNamespace(infos, key) by {
      if Lookup(m, key).Some? {
        var i :| 0 <= i < |m| && m[i] == Entry(key, Lookup(m, key).value);
      }
    }
    var put := Put(m, key, infos);
    forall i | 0 <= i < |put| ensures put[i].value != [] && InNamespace(put[i].value, put[i].key) {
      if put[i] != Entry(key, infos) {
        var j :| 0 <= j < |m| && m[j] == put[i];
      }
    }
  }

  lemma {:induction false} PutFlat(m: Groups, key: string, info: ActionInfo)
    requires Sorted(m)
    ensures multiset(Flat(Put(m, key, ListAt(m, key) + [info]))) == multiset(Flat(m)) + multiset{info}
  {
    hide Before, Flat;
    FlatNothing();
    if m == [] {
      FlatOne(Entry(key, [info]), []);
      assert ListAt(m, key) + [info] == [info];
      assert [Entry(key, [info])] + [] == [Entry(key, [info])];
    } else {
      FlatOne(m[0], m[1..]);
      assert m == [m[0]] + m[1..];
      if m[0].key == key {
        FlatOne(Entry(key, m[0].value + [info]), m[1..]);
      } else if Before(key, m[0].key) {
        AbsentBelow(m, key);
        FlatOne(Entry(key, [info]), m);
        assert ListAt(m, key) + [info] == [info];
      } else {
        PutFlat(m[1..], key, info);
        FlatOne(m[0], Put(m[1..], key, ListAt(m, key) + [info]));
      }
    }
  }

  lemma FlatOne(e: Entry<seq<ActionInfo>>, m: Groups)
    ensures Flat([e] + m) == e.value + Flat(m)
  {
    assert ([e] + m)[1..] == m;
  }

  lemma AbsentBelow(m: Groups, key: string)
    requires Sorted(m) && m != [] && Before(key, m[0].key)
    ensures Lookup(m, key) == None
  {
    LookupFinds(m, key);
    if i :| 0 <= i < |m| && m[i].key == key {
      if i > 0 {
        BeforeTransitive(key, m[0].key, m[i].key);
      }
      BeforeIrreflexive(key);
    }
  }

  /** Grouping loses nothing, adds nothing and keeps the order within a namespace. */
  lemma {:induction false} GroupedFits(infos: seq<ActionInfo>)
    ensures GroupsFit(Grouped(infos))
    ensures multiset(Flat(Grouped(infos))) == multiset(DottedOnly(infos))
    ensures forall ns :: ListAt(Grouped(infos), ns) == OfNamespace(infos, ns)
  {
    hide RSplitOnce, NamespaceOf, Dotted, Put, Flat;
    if infos == [] {
      FlatNothing();
    } else {
      var front, info := infos[..|infos| - 1], infos[|infos| - 1];
      GroupedFits(front);
      if Dotted(info) {
        var m, key := Grouped(front), NamespaceOf(info);
        PutFits(m, info);
        PutFlat(m, key, info);
        forall ns ensures ListAt(Grouped(infos), ns) == OfNamespace(infos, ns) {
          LookupPut(m, key, ListAt(m, key) + [info], ns);
        }
      }
    }
  }

  lemma FlatNothing()
    ensures Flat([]) == []
  {
  }

  lemma {:induction false} OfNamespaceConcat(a: seq<ActionInfo>, b: seq<ActionInfo>, ns: string)
    ensures OfNamespace(a + b, ns) == OfNamespace(a, ns) + OfNamespace(b, ns)
  {
    hide NamespaceOf, Dotted;
    if b == [] {
      assert a + b == a;
    } else {
      assert (a + b)[..|a + b| - 1] == a + b[..|b| - 1];
      OfNamespaceConcat(a, b[..|b| - 1], ns);
    }
  }

  lemma {:induction false} OfOwnNamespace(infos: seq<ActionInfo>, own: string, ns: string)
    requires InNamespace(infos, own)
    ensures OfNamespace(infos, ns) == if ns == own then infos else []
  {
    hide NamespaceOf, Dotted;
    if infos != [] {
      OfOwnNamespace(infos[..|infos| - 1], own, ns);
    }
  }

  lemma {:induction false} OfNamespaceFlat(m: Groups, ns: string)
    requires GroupsFit(m)
    ensures OfNamespace(Flat(m), ns) == ListAt(m, ns)
  {
    hide NamespaceOf, Dotted, OfNamespace;
    if m == [] {
      OfOwnNamespace([], "", ns);
    } else {
      OfNamespaceFlat(m[1..], ns);
      OfOwnNamespace(m[0].value, m[0].key, ns);
      OfNamespaceConcat(m[0].value, Flat(m[1..]), ns);
      TailLookup(m, ns);
    }
  }

  /** `order` holds the dotted actions of `infos`, each as often, those of one namespace in the same order. */
  ghost predicate Regrouped(infos: seq<ActionInfo>, order: seq<ActionInfo>) {
    multiset(order) == multiset(DottedOnly(infos)) && forall ns :: OfNamespace(order, ns) == OfNamespace(infos, ns)
  }

  lemma FlatRegroups(infos: seq<ActionInfo>)
    ensures GroupsFit(Grouped(infos)) && Regrouped(infos, Flat(Grouped(infos)))
  {
    hide GroupsFit, OfNamespace;
    GroupedFits(infos);
    forall ns ensures OfNamespace(Flat(Grouped(infos)), ns) == OfNamespace(infos, ns) {
      OfNamespaceFlat(Grouped(infos), ns);
    }
  }

  // ---------------------------------------------------------------- all actions

  predicate AllVersionsFit(infos: seq<ActionInfo>) {
    forall i :: 0 <= i < |infos| ==> infos[i].version >= 0
  }

  function SeenAll(infos: seq<ActionInfo>, sector: string, envelopes: seq<string>): seq<Action>
    requires AllVersionsFit(infos)
  {
    if infos == [] then [] else [Seen(infos[0], sector, envelopes)] + SeenAll(infos[1..], sector, envelopes)
  }

  lemma {:induction false} SeenAllConcat(a: seq<ActionInfo>, b: seq<ActionInfo>, sector: string, envelopes: seq<string>)
    requires AllVersionsFit(a) && AllVersionsFit(b)
    ensures AllVersionsFit(a + b)
    ensures SeenAll(a + b, sector, envelopes) == SeenAll(a, sector, envelopes) + SeenAll(b, sector, envelopes)
  {
    hide Seen;
    FitConcat(a, b);
    if a == [] {
      assert a + b == b;
    } else {
      assert a == [a[0]] + a[1..];
      FitConcat([a[0]], a[1..]);
      assert (a + b)[1..] == a[1..] + b;
      SeenAllConcat(a[1..], b, sector, envelopes);
    }
  }

  lemma {:induction false} RenderedAt(infos: seq<ActionInfo>, j: nat)
    requires j < |infos|
    ensures Rendered(infos)[j] == ActionValue(infos[j], NameOf(infos[j]))
  {
    hide ActionValue, NameOf;
    if j < |infos| - 1 {
      RenderedAt(infos[..|infos| - 1], j);
    }
  }

  /** A class read back from its `j`th action on. */
  lemma {:induction false} ClassBack(infos: seq<ActionInfo>, namespace: string, sector: string, envelopes: seq<string>,
                                     i: nat, j: nat)
    requires InNamespace(infos, namespace) && j <= |infos|
    ensures
      var r := ParseClass(Rendered(infos), namespace, sector, envelopes, i, j);
      && (r.Ok? <==> AllVersionsFit(infos[j..]))
      && (r.Ok? ==> r.value == SeenAll(infos[j..], sector, envelopes))
    decreases |infos| - j
  {
    hide ParseV3Action, Seen, Rendered, ActionValue, NamespaceOf, Dotted, NameOf;
    if j < |infos| {
      ClassBack(infos, namespace, sector, envelopes, i, j + 1);
      RenderedAt(infos, j);
      ActionBack(infos[j], sector, envelopes, i, j);
      assert infos[j..] == [infos[j]] + infos[j + 1..];
      assert infos[j..][1..] == infos[j + 1..];
      if AllVersionsFit(infos[j..]) {
        assert infos[j..][0].version >= 0;
      } else if infos[j].version >= 0 {
        assert !AllVersionsFit(infos[j + 1..]);
      }
    }
  }

  /** The class values, counted from the `i`th group on. */
  lemma {:induction false} ClassValuesAt(m: Groups, i: nat)
    requires i < |m|
    ensures |ClassValues(RenderedGroups(m))| == |m|
    ensures ClassValues(RenderedGroups(m))[i] == Arr([Str(m[i].key)] + Rendered(m[i].value))
  {
    hide Rendered;
    RenderedGroupsAt(m, i);
    ClassValuesEach(RenderedGroups(m), i);
  }

  lemma {:induction false} RenderedGroupsAt(m: Groups, i: nat)
    requires i < |m|
    ensures |RenderedGroups(m)| == |m| && RenderedGroups(m)[i] == Entry(m[i].key, Rendered(m[i].value))
  {
    hide Rendered;
    if i > 0 {
      RenderedGroupsAt(m[1..], i - 1);
    } else if |m| > 1 {
      RenderedGroupsAt(m[1..], 0);
    }
  }

  lemma {:induction false} ClassValuesEach(m: Classes, i: nat)
    requires i < |m|
    ensures |ClassValues(m)| == |m| && ClassValues(m)[i] == Arr([Str(m[i].key)] + m[i].value)
  {
    if i < |m| - 1 {
      ClassValuesEach(m[..|m| - 1], i);
    } else if |m| > 1 {
      ClassValuesEach(m[..|m| - 1], 0);
    }
  }

  /** A group read back: all of it, or nothing when a version is negative. */
  lemma NamespaceBack(e: Entry<seq<ActionInfo>>, sector: string, envelopes: seq<string>, i: nat)
    requires InNamespace(e.value, e.key)
    ensures
      var r := ParseNamespace(Arr([Str(e.key)] + Rendered(e.value)), sector, envelopes, i);
      && (r.Ok? <==> AllVersionsFit(e.value))
      && (r.Ok? ==> r.value == SeenAll(e.value, sector, envelopes))
  {
    hide ParseClass, Rendered, Seen, SeenAll, InNamespace;
    ClassBack(e.value, e.key, sector, envelopes, i, 0);
    assert e.value[0..] == e.value;
    assert ([Str(e.key)] + Rendered(e.value))[1..] == Rendered(e.value);
  }

  lemma {:induction false} ClassesBack(m: Groups, sector: string, envelopes: seq<string>, i: nat)
    requires (forall k :: 0 <= k < |m| ==> InNamespace(m[k].value, m[k].key))
    requires i <= |m| == |ClassValues(RenderedGroups(m))|
    ensures
      var r := ParseV3(ClassValues(RenderedGroups(m)), sector, envelopes, i);
      && (r.Ok? <==> AllVersionsFit(Flat(m[i..])))
      && (r.Ok? ==> r.value == SeenAll(Flat(m[i..]), sector, envelopes))
    decreases |m| - i
  {
    hide ParseNamespace, ClassValues, RenderedGroups, Flat, SeenAll, InNamespace, AllVersionsFit;
    if i == |m| {
      assert m[i..] == [];
      FlatNothing();
      SeenNothing(sector, envelopes);
    } else {
      ClassesBack(m, sector, envelopes, i + 1);
      ClassValuesAt(m, i);
      NamespaceBack(m[i], sector, envelopes, i);
      FlatOne(m[i], m[i + 1..]);
      assert m[i..] == [m[i]] + m[i + 1..];
      FitConcat(m[i].value, Flat(m[i + 1..]));
      if AllVersionsFit(Flat(m[i..])) {
        SeenAllConcat(m[i].value, Flat(m[i + 1..]), sector, envelopes);
      }
    }
  }

  lemma SeenNothing(sector: string, envelopes: seq<string>)
    ensures AllVersionsFit([]) && SeenAll([], sector, envelopes) == []
  {
  }

  lemma FitConcat(a: seq<ActionInfo>, b: seq<ActionInfo>)
    ensures AllVersionsFit(a + b) <==> AllVersionsFit(a) && AllVersionsFit(b)
  {
    if AllVersionsFit(a + b) {
      assert forall i :: 0 <= i < |a| ==> a[i] == (a + b)[i];
      assert forall i :: 0 <= i < |b| ==> b[i] == (a + b)[|a| + i];
    }
  }

  lemma FitPermuted(a: seq<ActionInfo>, b: seq<ActionInfo>)
    requires multiset(a) == multiset(b)
    ensures AllVersionsFit(a) ==> AllVersionsFit(b)
  {
    if AllVersionsFit(a) {
      forall i | 0 <= i < |b| ensures b[i].version >= 0 {
        assert b[i] in multiset(a);
      }
    }
  }

  /** The class list of any registered actions parses exactly if no dotted action has a negative version, and then
      to one action for each dotted action, as others are to see it, in order within each namespace. */
  lemma V3Back(infos: seq<ActionInfo>, sector: string, envelopes: seq<string>) returns (order: seq<ActionInfo>)
    ensures Regrouped(infos, order)
    ensures
      var r := ParseV3(ClassValues(ClassMap(infos)), sector, envelopes, 0);
      && (r.Ok? <==> AllVersionsFit(DottedOnly(infos)))
      && (r.Ok? ==> AllVersionsFit(order) && r.value == SeenAll(order, sector, envelopes))
    ensures ClassValues(ClassMap(infos)) == [] <==> DottedOnly(infos) == []
  {
    hide ParseV3, SeenAll, OfNamespace, DottedOnly, InNamespace, AllVersionsFit;
    var m := Grouped(infos);
    order := Flat(m);
    FlatRegroups(infos);
    ClassMapGroups(infos);
    ClassesEmpty(m);
    ClassesBack(m, sector, envelopes, 0);
    assert m[0..] == m;
    FitPermuted(order, DottedOnly(infos));
    FitPermuted(DottedOnly(infos), order);
    if m == [] {
      assert |multiset(DottedOnly(infos))| == 0;
    } else {
      FlatOne(m[0], m[1..]);
      assert m == [m[0]] + m[1..];
      assert |multiset(DottedOnly(infos))| == |order| > 0;
    }
  }

  lemma ClassesEmpty(m: Groups)
    ensures |ClassValues(RenderedGroups(m))| == |m|
  {
    if m != [] {
      ClassValuesAt(m, 0);
    }
  }

  // ---------------------------------------------------------------- the whole announcement

  /** A field of a version 4 extension is the code of this vector. */
  predicate Coded<T(==)>(obj: map<string, Value>, name: string, items: seq<T>, wrap: T -> Value) {
    name in obj && obj[name] == Arr(Rle.Encoded(items, wrap)) && |items| < U64_BOUND
  }

  lemma TextBack(obj: map<string, Value>, name: string, items: seq<string>, required: bool, len: nat)
    requires Coded(obj, name, items, OfString)
    ensures TextColumn(obj, name, required, len) == Ok(items)
  {
    hide Rle.Encoded, Rle.Decoded;
    Rle.Scalars();
    Rle.RoundTrip(items, OfString, AsString, name);
  }

  lemma NumbersBack(obj: map<string, Value>, name: string, items: seq<U32>, len: nat)
    requires Coded(obj, name, items, OfU32)
    ensures NumberColumn(obj, name, len) == Ok(items)
  {
    hide Rle.Encoded, Rle.Decoded;
    Rle.Scalars();
    Rle.RoundTrip<U32>(items, OfU32, ReadU32, name);
  }

  /** Whatever vectors an announcer codes, others read the same seven columns. */
  lemma ColumnsBack(obj: map<string, Value>, c: Columns)
    requires Coded(obj, "acns", c.namespaces, OfString) && Coded(obj, "acname", c.names, OfString)
    requires Coded(obj, "acenv", c.envelopes, OfString) && Coded(obj, "acsec", c.sectors, OfString)
    requires Coded(obj, "accompat", c.compats, OfU32) && Coded(obj, "acver", c.versions, OfU32)
    requires Coded(obj, "acflag", c.flags, OfString)
    ensures ReadColumns(obj) == Ok(c)
  {
    hide TextColumn, NumberColumn, Coded;
    TextBack(obj, "acns", c.namespaces, true, 0);
    TextBack(obj, "acname", c.names, true, 0);
    TextBack(obj, "acenv", c.envelopes, true, 0);
    TextBack(obj, "acsec", c.sectors, true, 0);
    NumbersBack(obj, "accompat", c.compats, |c.names|);
    NumbersBack(obj, "acver", c.versions, |c.names|);
    TextBack(obj, "acflag", c.flags, false, |c.names|);
  }

  lemma V4Back()
    ensures V4Hash().Object? && ParseV4(V4Hash().members) == Ok([])
  {
    var obj := V4Hash().members;
    NoCompatNoRows(obj);
    TextBack(obj, "acns", [], true, 0);
    TextBack(obj, "acname", [], true, 0);
    TextBack(obj, "acenv", [], true, 0);
    TextBack(obj, "acsec", [], true, 0);
    NumbersBack(obj, "acver", [], 0);
    TextBack(obj, "acflag", [], false, 0);
  }

  /** Element 6 read back from its `i`th item on. */
  lemma {:induction false} SixthBack(envelopes: seq<string>, i: nat)
    requires i <= |envelopes|
    ensures ParseSixth(Strings(envelopes) + [V4Hash()], i) == Ok(Sixth(envelopes[i..], []))
    decreases |envelopes| - i
  {
    hide ParseV4, V4Hash;
    V4Back();
    var items := Strings(envelopes) + [V4Hash()];
    if i < |envelopes| {
      SixthBack(envelopes, i + 1);
      assert envelopes[i..] == [envelopes[i]] + envelopes[i + 1..];
    } else {
      assert items[i] == V4Hash();
      assert envelopes[i..] == [] && i + 1 == |items|;
      NothingJoined(ParseSixth(items, i + 1));
    }
  }

  /** An announcement is read back exactly if it is an active one with a dotted action and no negative version
      among its dotted actions. It then names the service, its address, weight and interval (in milliseconds, cut
      down to 32 bits), and each dotted action once, as others are to see it, in order within each namespace. */
  lemma AnnouncementBack(identity: string, sector: string, envelopes: seq<string>, uri: string, infos: seq<ActionInfo>,
                         weight: U32, intervalSecs: U32, active: bool, timestamp: real)
    returns (order: seq<ActionInfo>)
    ensures Regrouped(infos, order)
    ensures
      var r := ParseDocument(Document(identity, sector, envelopes, uri, infos, weight, intervalSecs, active,
                                      timestamp));
      && (r.Ok? <==> active && DottedOnly(infos) != [] && AllVersionsFit(DottedOnly(infos)))
      && (r.Ok? ==>
            && AllVersionsFit(order)
            && r.value == Body(ServiceInfo(identity, uri, None),
                               Params(weight, Truncated(intervalSecs * 1000), timestamp),
                               SeenAll(order, sector, envelopes)))
  {
    hide ParseV3, ParseSixth, ClassValues, ClassMap, V4Hash, SeenAll, DottedOnly, Regrouped;
    order := V3Back(infos, sector, envelopes);
    SixthBack(envelopes, 0);
    assert envelopes[0..] == envelopes;
    var document := Document(identity, sector, envelopes, uri, infos, weight, intervalSecs, active, timestamp);
    assert document.items[0] == Integer(3);
    if active && DottedOnly(infos) != [] {
      assert CheckFields(document) == None;
      assert document.items[7] == Arr(ClassValues(ClassMap(infos)));
      if AllVersionsFit(DottedOnly(infos)) {
        assert [] + SeenAll(order, sector, envelopes) == SeenAll(order, sector, envelopes);
      }
    } else {
      assert document.items[7] == Null;
    }
  }

  /** A single negative version makes a whole announcement unreadable. */
  lemma NegativeVersionRefused(other: ActionInfo)
    requires Dotted(other)
    ensures
      var infos := [other, ActionInfo("a.b", -1, [])];
      ParseDocument(Document("s", "main", ["json"], "u", infos, 1, 5, true, 0.0)).Err?
  {
    hide ParseDocument, Document, SeenAll;
    var bad := ActionInfo("a.b", -1, []);
    var infos := [other, bad];
    var order := AnnouncementBack("s", "main", ["json"], "u", infos, 1, 5, true, 0.0);
    assert bad.name[1] == '.';
    assert infos[..1] == [other];
    var dotted := DottedOnly(infos);
    assert dotted[|dotted| - 1] == bad;
  }
}
