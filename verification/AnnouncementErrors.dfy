/** Exactly which announcements the parser takes, and on which it aborts. */
module AnnouncementErrors {
  import opened Wrappers
  import opened Text
  import opened Json
  import opened AnnouncementParser
  import Rle

  // ---------------------------------------------------------------- flags

  /** A timeout of 2^32 seconds or more. */
  predicate Huge(part: string) {
    |part| > 1 && part[0] == 't' && AllDigits(part[1..]) && NumeralValue(part[1..]) >= U32_BOUND
  }

  predicate AnyHuge(parts: seq<string>) {
    exists i :: 0 <= i < |parts| && Huge(parts[i])
  }

  predicate HasHuge(flags: string) {
    AnyHuge(Split(flags, ','))
  }

  lemma FlagAborts(part: string)
    ensures ParseFlag(part).None? <==> Huge(part)
    ensures !Huge("")
  {
  }

  lemma FlagsSnoc(parts: seq<string>)
    requires parts != []
    ensures
      var front, last := parts[..|parts| - 1], parts[|parts| - 1];
      ParseFlags(NonEmpty(parts)).None?
      <==> ParseFlags(NonEmpty(front)).None? || (last != "" && ParseFlag(last).None?)
  {
    hide ParseFlag;
    var front, last := parts[..|parts| - 1], parts[|parts| - 1];
    if last == "" {
      assert NonEmpty(parts) == NonEmpty(front);
    } else {
      var kept := NonEmpty(front) + [last];
      assert kept[..|kept| - 1] == NonEmpty(front) && NonEmpty(parts) == kept;
    }
  }

  lemma AnyHugeSnoc(parts: seq<string>)
    requires parts != []
    ensures AnyHuge(parts) <==> AnyHuge(parts[..|parts| - 1]) || Huge(parts[|parts| - 1])
  {
    hide Huge;
    var front := parts[..|parts| - 1];
    if i :| 0 <= i < |front| && Huge(front[i]) {
      assert Huge(parts[i]);
    }
    if i :| 0 <= i < |parts| && Huge(parts[i]) {
      assert i < |front| ==> Huge(front[i]);
    }
  }

  lemma {:induction false} NoneHuge(parts: seq<string>)
    ensures ParseFlags(NonEmpty(parts)).None? <==> AnyHuge(parts)
  {
    hide ParseFlag, Huge;
    if parts != [] {
      hide ParseFlags, NonEmpty, AnyHuge;
      var last := parts[|parts| - 1];
      NoneHuge(parts[..|parts| - 1]);
      FlagsSnoc(parts);
      AnyHugeSnoc(parts);
      FlagAborts(last);
    }
  }

  /** The parser aborts on a list of flags exactly if one of them is a timeout of 2^32 seconds or more. */
  lemma FlagListAborts(flags: string)
    ensures FlagList(flags).None? <==> HasHuge(flags)
  {
    NoneHuge(Split(flags, ','));
  }

  // ---------------------------------------------------------------- the first failure

  /** All items from the `j`th on are good. */
  ghost predicate All(items: seq<Value>, good: Value -> bool, j: nat) {
    forall k :: j <= k < |items| ==> good(items[k])
  }

  /** From the `j`th on, some item is bad and all before it are good. */
  ghost predicate First(items: seq<Value>, good: Value -> bool, bad: Value -> bool, j: nat) {
    exists m :: j <= m < |items| && bad(items[m]) && forall k :: j <= k < m ==> good(items[k])
  }

  lemma FirstStep(items: seq<Value>, good: Value -> bool, bad: Value -> bool, j: nat)
    requires j < |items|
    ensures All(items, good, j) <==> good(items[j]) && All(items, good, j + 1)
    ensures First(items, good, bad, j) <==> bad(items[j]) || (good(items[j]) && First(items, good, bad, j + 1))
  {
  }

  // ---------------------------------------------------------------- version 3

  /** A name, flags and perhaps a version that fits. */
  predicate WellFormed(ac: Value) {
    && ac.Arr? && (|ac.items| == 2 || |ac.items| == 3) && ac.items[0].Str? && ac.items[1].Str?
    && (|ac.items| == 3 && (ac.items[2].Integer? || ac.items[2].Float?) ==> AsU64(ac.items[2]).Some?)
  }

  predicate ActionReads(ac: Value) {
    WellFormed(ac) && !HasHuge(ac.items[1].text)
  }

  predicate ActionAborts(ac: Value) {
    WellFormed(ac) && HasHuge(ac.items[1].text)
  }

  lemma ActionOutcome(ac: Value, namespace: string, sector: string, envelopes: seq<string>, i: nat, j: nat)
    ensures ParseV3Action(ac, namespace, sector, envelopes, i, j).Ok? <==> ActionReads(ac)
    ensures ParseV3Action(ac, namespace, sector, envelopes, i, j) == Err(Panic) <==> ActionAborts(ac)
  {
    hide FlagList, HasHuge, Path, PathVer;
    if WellFormed(ac) {
      FlagListAborts(ac.items[1].text);
    }
  }

  lemma {:induction false} ClassOutcome(items: seq<Value>, namespace: string, sector: string, envelopes: seq<string>,
                                        i: nat, j: nat)
    requires j <= |items|
    ensures
      var r := ParseClass(items, namespace, sector, envelopes, i, j);
      && (r.Ok? <==> All(items, ActionReads, j))
      && (r == Err(Panic) <==> First(items, ActionReads, ActionAborts, j))
    decreases |items| - j
  {
    hide ParseV3Action, ActionReads, ActionAborts;
    if j < |items| {
      hide All, First;
      ClassOutcome(items, namespace, sector, envelopes, i, j + 1);
      ActionOutcome(items[j], namespace, sector, envelopes, i, j);
      FirstStep(items, ActionReads, ActionAborts, j);
    }
  }

  predicate Named(ns: Value) {
    ns.Arr? && ns.items != [] && ns.items[0].Str?
  }

  ghost predicate NamespaceReads(ns: Value) {
    Named(ns) && All(ns.items[1..], ActionReads, 0)
  }

  ghost predicate NamespaceAborts(ns: Value) {
    Named(ns) && First(ns.items[1..], ActionReads, ActionAborts, 0)
  }

  lemma NamespaceOutcome(ns: Value, sector: string, envelopes: seq<string>, i: nat)
    ensures ParseNamespace(ns, sector, envelopes, i).Ok? <==> NamespaceReads(ns)
    ensures ParseNamespace(ns, sector, envelopes, i) == Err(Panic) <==> NamespaceAborts(ns)
  {
    hide All, First, ParseClass;
    if Named(ns) {
      ClassOutcome(ns.items[1..], ns.items[0].text, sector, envelopes, i, 0);
    }
  }

  lemma {:induction false} V3Outcome(obj: seq<Value>, sector: string, envelopes: seq<string>, i: nat)
    requires i <= |obj|
    ensures
      var r := ParseV3(obj, sector, envelopes, i);
      && (r.Ok? <==> All(obj, n => NamespaceReads(n), i))
      && (r == Err(Panic) <==> First(obj, n => NamespaceReads(n), n => NamespaceAborts(n), i))
    decreases |obj| - i
  {
    hide ParseNamespace, NamespaceReads, NamespaceAborts;
    if i < |obj| {
      V3Outcome(obj, sector, envelopes, i + 1);
      NamespaceOutcome(obj[i], sector, envelopes, i);
      FirstStep(obj, n => NamespaceReads(n), n => NamespaceAborts(n), i);
    }
  }

  /** The version 3 actions are taken exactly if every namespace is, and abort the parser exactly if it comes to a
      well-formed action with a huge timeout before anything it refuses. */
  lemma V3Aborts(obj: seq<Value>, sector: string, envelopes: seq<string>)
    ensures ParseV3(obj, sector, envelopes, 0).Ok? <==> forall i :: 0 <= i < |obj| ==> NamespaceReads(obj[i])
    ensures ParseV3(obj, sector, envelopes, 0) == Err(Panic)
        <==> exists i :: 0 <= i < |obj| && NamespaceAborts(obj[i]) && forall k :: 0 <= k < i ==> NamespaceReads(obj[k])
  {
    hide ParseV3, NamespaceReads, NamespaceAborts;
    V3Outcome(obj, sector, envelopes, 0);
  }

  // ---------------------------------------------------------------- version 4

  lemma {:induction false} DecodedNeverAborts<T>(rle: seq<Value>, name: string, read: Value -> Option<T>)
    ensures Rle.Decoded(rle, name, read) != Err(Panic)
  {
    if rle != [] {
      DecodedNeverAborts(rle[..|rle| - 1], name, read);
    }
  }

  lemma UnrleNeverAborts<T>(obj: map<string, Value>, name: string, required: bool, len: nat, init: T,
                            read: Value -> Option<T>)
    ensures Rle.Unrle(obj, name, required, len, init, read) != Err(Panic)
  {
    if name in obj && obj[name].Arr? {
      DecodedNeverAborts(obj[name].items, name, read);
    }
  }

  lemma ColumnsNeverAbort(obj: map<string, Value>)
    ensures ReadColumns(obj) != Err(Panic)
  {
    hide Rle.Unrle;
    forall name, required, len ensures TextColumn(obj, name, required, len) != Err(Panic) {
      UnrleNeverAborts(obj, name, required, len, "", AsString);
    }
    forall name, len ensures NumberColumn(obj, name, len) != Err(Panic) {
      UnrleNeverAborts<U32>(obj, name, false, len, 0, ReadU32);
    }
  }

  /** A compatible row from the `k`th on has a huge timeout. */
  predicate RowAborts(c: Columns, k: nat) {
    exists m :: k <= m < Rows(c) && c.compats[m] == 1 && HasHuge(c.flags[m])
  }

  lemma {:induction false} RowsOutcome(c: Columns, k: nat)
    requires k <= Rows(c)
    ensures
      var r := ParseRows(c, k);
      (r.Err? <==> RowAborts(c, k)) && (r.Err? ==> r == Err(Panic))
    decreases Rows(c) - k
  {
    hide FlagList, HasHuge, Path, PathVer, Lower, Split, NonEmpty, Rows;
    if k < Rows(c) {
      RowsOutcome(c, k + 1);
      assert k < |c.flags| && k < |c.compats|;
      FlagListAborts(c.flags[k]);
    }
  }

  /** Columns that are read abort the parser exactly if a compatible row has a huge timeout, and are taken otherwise. */
  lemma V4Aborts(obj: map<string, Value>)
    ensures ParseV4(obj) == Err(Panic) <==> ReadColumns(obj).Ok? && RowAborts(ReadColumns(obj).value, 0)
    ensures ParseV4(obj).Ok? <==> ReadColumns(obj).Ok? && !RowAborts(ReadColumns(obj).value, 0)
  {
    hide ReadColumns, ParseRows, RowAborts;
    ColumnsNeverAbort(obj);
    if ReadColumns(obj).Ok? {
      RowsOutcome(ReadColumns(obj).value, 0);
    }
  }

  // ---------------------------------------------------------------- the whole announcement

  /** An item of element 6 that is taken: anything but columns that are refused or abort. */
  predicate ItemReads(item: Value) {
    item.Object? ==> ReadColumns(item.members).Ok? && !RowAborts(ReadColumns(item.members).value, 0)
  }

  predicate ItemAborts(item: Value) {
    item.Object? && ReadColumns(item.members).Ok? && RowAborts(ReadColumns(item.members).value, 0)
  }

  lemma {:induction false} SixthOutcome(items: seq<Value>, i: nat)
    requires i <= |items|
    ensures
      var r := ParseSixth(items, i);
      && (r.Ok? <==> All(items, ItemReads, i))
      && (r == Err(Panic) <==> First(items, ItemReads, ItemAborts, i))
    decreases |items| - i
  {
    hide ParseV4, ReadColumns, RowAborts;
    if i < |items| {
      SixthOutcome(items, i + 1);
      FirstStep(items, ItemReads, ItemAborts, i);
      if items[i].Object? {
        V4Aborts(items[i].members);
      }
    }
  }

  /** Nine elements: the version 3, identity, sector, weight, interval, address, envelopes and extensions, classes, and
      the time. Weight and interval are natural numbers of 64 bits. */
  predicate RightTypes(value: Value) {
    && value.Arr? && |value.items| == 9
    && var a := value.items;
       && a[0] == Integer(3) && a[1].Str? && a[2].Str?
       && a[3].Integer? && 0 <= a[3].n < 0x1_0000_0000_0000_0000
       && a[4].Integer? && 0 <= a[4].n < 0x1_0000_0000_0000_0000
       && a[5].Str? && a[6].Arr? && a[7].Arr? && (a[8].Integer? || a[8].Float?)
  }

  lemma TypesRight(value: Value)
    requires RightTypes(value)
    ensures value.Arr? && |value.items| == 9 && value.items[2].Str? && value.items[6].Arr? && value.items[7].Arr?
  {
  }

  lemma FieldsRight(value: Value)
    ensures CheckFields(value).None? <==> RightTypes(value)
    ensures CheckFields(value) != Some(Panic)
  {
  }

  /** An announcement is taken exactly if its nine elements have the right types and all items of element 6 and all
      namespaces are taken; it aborts the parser exactly if, with the right types, the first of these that is
      not taken has a huge timeout before anything the parser refuses. */
  lemma DocumentOutcome(value: Value)
    ensures ParseDocument(value).Ok? <==>
            RightTypes(value) && All(value.items[6].items, ItemReads, 0)
            && All(value.items[7].items, n => NamespaceReads(n), 0)
    ensures ParseDocument(value) == Err(Panic) <==>
            RightTypes(value)
            && (First(value.items[6].items, ItemReads, ItemAborts, 0)
                || (All(value.items[6].items, ItemReads, 0)
                    && First(value.items[7].items, n => NamespaceReads(n), n => NamespaceAborts(n), 0)))
  {
    hide ParseSixth, ParseV3, All, First, CheckFields, RightTypes;
    FieldsRight(value);
    if RightTypes(value) {
      TypesRight(value);
      var a := value.items;
      SixthOutcome(a[6].items, 0);
      if ParseSixth(a[6].items, 0).Ok? {
        V3Outcome(a[7].items, a[2].text, ParseSixth(a[6].items, 0).value.envelopes, 0);
      }
    }
  }
}
