/** What the actions that others read say, field by field, in terms of what was registered or announced. */
module ActionMeaning {
  import opened Wrappers
  import opened Text
  import opened Actions
  import opened Json
  import opened Announce
  import opened AnnouncementParser
  import opened AnnouncementTheorems

  // ---------------------------------------------------------------- flags

  /** A flag as it is written. */
  predicate Means(text: string, flag: Flag) {
    match flag
    case NoAuth => text == "noauth"
    case Crud(Create) => text == "create"
    case Crud(Read) => text == "read"
    case Crud(Update) => text == "update"
    case Crud(Delete) => text == "destroy"
    case Timeout(n) => |text| > 1 && text[0] == 't' && AllDigits(text[1..]) && NumeralValue(text[1..]) == n
    case Other(s) =>
      && text == s && text !in {"noauth", "create", "read", "update", "destroy"}
      && !(|text| > 1 && text[0] == 't' && AllDigits(text[1..]))
  }

  /** A flag is read for what it means, unless it is a timeout too long to be held. */
  lemma FlagMeans(text: string, flag: Flag)
    ensures ParseFlag(text) == Some(flag) <==> Means(text, flag) && (flag.Timeout? ==> flag.seconds < 0x1_0000_0000)
  {
    assert !AllDigits("noauth"[1..]) by { assert !IsDigit("noauth"[1..][0]); }
  }

  predicate AllMean(texts: seq<string>, flags: seq<Flag>) {
    |texts| == |flags| && forall i :: 0 <= i < |texts| ==> Means(texts[i], flags[i])
  }

  lemma {:induction false} FlagsMean(parts: seq<string>, flags: seq<Flag>)
    requires ParseFlags(parts) == Some(flags)
    ensures AllMean(parts, flags)
  {
    hide ParseFlag, Means;
    if parts != [] {
      var front, last := parts[..|parts| - 1], parts[|parts| - 1];
      FlagsMean(front, ParseFlags(front).value);
      FlagMeans(last, ParseFlag(last).value);
      assert parts == front + [last];
    }
  }

  /** A flag that others are told: one of six words, or `t` and a number of 32 bits. */
  predicate Shown(flag: string) {
    || flag in {"create", "read", "update", "destroy", "noauth", "secret"}
    || (flag != "" && flag[0] == 't' && ParseUnsigned(flag[1..], 0x1_0000_0000).Some?)
  }

  lemma AnnounceableShown(flag: string)
    ensures Announceable(flag) <==> Shown(flag)
  {
    hide ParseUnsigned;
  }

  lemma FilteredSnoc(front: seq<string>, last: string)
    ensures Filtered(front + [last]) == Filtered(front) + (if Announceable(last) then [last] else [])
  {
    hide Announceable;
    assert (front + [last])[..|front|] == front;
  }

  lemma {:induction false} FilteredShown(flags: seq<string>, f: string)
    ensures multiset(Filtered(flags))[f] == if Shown(f) then multiset(flags)[f] else 0
  {
    hide Shown, Announceable;
    if flags != [] {
      hide Filtered;
      var front, last := flags[..|flags| - 1], flags[|flags| - 1];
      assert flags == front + [last];
      FilteredShown(front, f);
      FilteredSnoc(front, last);
      AnnounceableShown(last);
    }
  }

  // ---------------------------------------------------------------- a registered action, seen by others

  /** Paths are the names in lower case, with dots for slashes. */
  predicate Spells(path: string, name: string) {
    |path| == |name| && forall i :: 0 <= i < |name| ==>
      path[i] == if name[i] == '/' then '.'
                 else if 'A' <= name[i] <= 'Z' then (name[i] as int + 32) as char else name[i]
  }

  lemma PathSpells(name: string)
    ensures Spells(Path(name), name)
  {
  }

  /** The action that others see for a registered one. Its flags are those that are shown, in ascending order. */
  ghost predicate Describes(a: Action, info: ActionInfo, sector: string, envelopes: seq<string>) {
    && Spells(a.path, info.name) && a.version == info.version
    && a.pathver == a.path + "~" + Decimal(a.version)
    && a.sector == sector && a.envelopes == envelopes && a.section == V3
    && exists shown ::
         && AllMean(shown, a.flags) && Ascending(shown)
         && forall f :: multiset(shown)[f] == if Shown(f) then multiset(info.flags)[f] else 0
  }

  lemma SeenDescribes(info: ActionInfo, sector: string, envelopes: seq<string>)
    requires info.version >= 0
    ensures Describes(Seen(info, sector, envelopes), info, sector, envelopes)
  {
    hide ParseFlag, Means, Shown, Path, Ascending, Filtered, Decimal;
    PathSpells(info.name);
    var shown := AnnouncedFlags(info.flags);
    AnnouncedFlagsAnnounceable(info.flags);
    AllMeanings(shown);
    forall i | 0 <= i < |shown| ensures Means(shown[i], Meanings(shown)[i]) {
      FlagMeans(shown[i], Meanings(shown)[i]);
    }
    forall f ensures multiset(shown)[f] == if Shown(f) then multiset(info.flags)[f] else 0 {
      FilteredShown(info.flags, f);
    }
  }

  lemma {:induction false} SeenAllDescribe(infos: seq<ActionInfo>, sector: string, envelopes: seq<string>)
    requires AllVersionsFit(infos)
    ensures
      var actions := SeenAll(infos, sector, envelopes);
      && |actions| == |infos|
      && forall i :: 0 <= i < |infos| ==> Describes(actions[i], infos[i], sector, envelopes)
  {
    hide Seen, Describes;
    if infos != [] {
      SeenDescribes(infos[0], sector, envelopes);
      SeenAllDescribe(infos[1..], sector, envelopes);
      assert forall i :: 0 < i < |infos| ==> infos[i] == infos[1..][i - 1];
    }
  }

  /** Whatever is announced and read back describes each dotted action that is registered, once, in order within a
      namespace: its path, version, sector, envelopes and shown flags. */
  lemma AnnouncedMeaning(identity: string, sector: string, envelopes: seq<string>, uri: string, infos: seq<ActionInfo>,
                         weight: U32, intervalSecs: U32, active: bool, timestamp: real)
    returns (order: seq<ActionInfo>)
    requires
      ParseDocument(Document(identity, sector, envelopes, uri, infos, weight, intervalSecs, active, timestamp)).Ok?
    ensures Regrouped(infos, order)
    ensures
      var actions := ParseDocument(Document(identity, sector, envelopes, uri, infos, weight, intervalSecs, active,
                                            timestamp)).value.actions;
      && |actions| == |order|
      && forall i :: 0 <= i < |order| ==> Describes(actions[i], order[i], sector, envelopes)
  {
    hide ParseDocument, Document, SeenAll, Describes, Regrouped;
    order := AnnouncementBack(identity, sector, envelopes, uri, infos, weight, intervalSecs, active, timestamp);
    SeenAllDescribe(order, sector, envelopes);
  }

  /** An inactive service announces the weight 0 and no classes, whatever is registered, and its announcement is refused
      for the missing classes. */
  lemma InactiveAnnounced(identity: string, sector: string, envelopes: seq<string>, uri: string,
                          infos: seq<ActionInfo>, weight: U32, intervalSecs: U32, timestamp: real)
    ensures
      var document := Document(identity, sector, envelopes, uri, infos, weight, intervalSecs, false, timestamp);
      && document.Arr? && |document.items| == 9
      && document.items[3] == Integer(0) && document.items[7] == Null
      && ParseDocument(document) == Err(MissingField("v3_actions"))
  {
    hide ParseSixth, ParseV3, ClassMap, V4Hash;
  }

  // ---------------------------------------------------------------- a row of a version 4 extension

  /** The parts of a comma separated list that are not empty. */
  function Listed(list: string): seq<string> {
    NonEmpty(Split(list, ','))
  }

  /** The action that row `k` stands for. */
  ghost predicate DescribesRow(a: Action, c: Columns, k: nat)
    requires k < Rows(c)
  {
    && Spells(a.path, c.namespaces[k] + "." + c.names[k]) && a.version == c.versions[k]
    && a.pathver == a.path + "~" + Decimal(a.version)
    && AllMean(Listed(c.flags[k]), a.flags)
    && |a.sector| == |c.sectors[k]| && SameButCase(a.sector, c.sectors[k])
    && (forall i :: 0 <= i < |a.sector| ==> !('A' <= a.sector[i] <= 'Z'))
    && a.envelopes == Listed(c.envelopes[k]) && a.section == V4
  }

  /** The rows from the `k`th on that are compatible. */
  function CompatibleFrom(c: Columns, k: nat): (rows: seq<nat>)
    requires k <= Rows(c)
    ensures forall i :: 0 <= i < |rows| ==> k <= rows[i] < Rows(c)
    decreases Rows(c) - k
  {
    if k == Rows(c) then [] else (if c.compats[k] == 1 then [k] else []) + CompatibleFrom(c, k + 1)
  }

  lemma RowMeaning(c: Columns, k: nat)
    requires k < Rows(c) && ParseRow(c, k).Ok?
    ensures if c.compats[k] == 1 then |ParseRow(c, k).value| == 1 && DescribesRow(ParseRow(c, k).value[0], c, k)
            else ParseRow(c, k).value == []
  {
    hide Path, Lower, Split, NonEmpty, Decimal, ParseFlags, AllMean, Spells, SameButCase;
    PathSpells(c.namespaces[k] + "." + c.names[k]);
    LowerTells(Lower(c.sectors[k]), c.sectors[k]);
    LowerIdempotent(c.sectors[k]);
    LowerHasNoCapitals(c.sectors[k]);
    if c.compats[k] == 1 {
      FlagsMean(NonEmpty(Split(c.flags[k], ',')), FlagList(c.flags[k]).value);
    }
  }

  lemma LowerHasNoCapitals(s: string)
    ensures forall i :: 0 <= i < |Lower(s)| ==> !('A' <= Lower(s)[i] <= 'Z')
  {
  }

  lemma {:induction false} RowsMeaning(c: Columns, k: nat)
    requires k <= Rows(c) && ParseRows(c, k).Ok?
    ensures
      var actions, rows := ParseRows(c, k).value, CompatibleFrom(c, k);
      && |actions| == |rows|
      && forall i :: 0 <= i < |rows| ==> DescribesRow(actions[i], c, rows[i])
    decreases Rows(c) - k
  {
    hide ParseRow, DescribesRow, Rows;
    if k < Rows(c) {
      RowMeaning(c, k);
      RowsMeaning(c, k + 1);
    }
  }

  /** Whatever seven columns are coded into a version 4 extension, what is read are its compatible rows in order, and
      each action says what its row says. */
  lemma ExtensionMeaning(obj: map<string, Value>, c: Columns)
    requires Coded(obj, "acns", c.namespaces, OfString) && Coded(obj, "acname", c.names, OfString)
    requires Coded(obj, "acenv", c.envelopes, OfString) && Coded(obj, "acsec", c.sectors, OfString)
    requires Coded(obj, "accompat", c.compats, OfU32) && Coded(obj, "acver", c.versions, OfU32)
    requires Coded(obj, "acflag", c.flags, OfString) && ParseV4(obj).Ok?
    ensures
      var actions, rows := ParseV4(obj).value, CompatibleFrom(c, 0);
      && |actions| == |rows|
      && forall i :: 0 <= i < |rows| ==> DescribesRow(actions[i], c, rows[i])
  {
    hide ReadColumns, ParseRows, DescribesRow, Coded;
    ColumnsBack(obj, c);
    RowsMeaning(c, 0);
  }
}
