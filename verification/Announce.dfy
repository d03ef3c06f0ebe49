/** Building the JSON value of an announcement (service/announce.rs). */
module Announce {
  import opened Text
  import opened Json
  import opened SortedMap
  import Rle

  type I32 = n: int | -0x8000_0000 <= n < 0x8000_0000

  /** A registered action. */
  datatype ActionInfo = ActionInfo(name: string, version: I32, flags: seq<string>)

  const ANNOUNCEABLE: seq<string> := ["create", "destroy", "noauth", "read", "secret", "update"]

  // ---------------------------------------------------------------- flags

  predicate Announceable(flag: string) {
    flag in ANNOUNCEABLE || (flag != "" && flag[0] == 't' && ParseUnsigned(flag[1..], U32_BOUND).Some?)
  }

  function Filtered(flags: seq<string>): (r: seq<string>)
    ensures forall i :: 0 <= i < |r| ==> Announceable(r[i])
  {
    if flags == [] then []
    else
      Filtered(flags[..|flags| - 1])
      + (if Announceable(flags[|flags| - 1]) then [flags[|flags| - 1]] else [])
  }

  function Insert(flag: string, sorted: seq<string>): seq<string> {
    if sorted == [] then [flag]
    else if Before(sorted[0], flag) then [sorted[0]] + Insert(flag, sorted[1..])
    else [flag] + sorted
  }

  function Sort(flags: seq<string>): seq<string> {
    if flags == [] then [] else Insert(flags[0], Sort(flags[1..]))
  }

  predicate Ascending(s: seq<string>) {
    forall i, j :: 0 <= i < j < |s| ==> !Before(s[j], s[i])
  }

  lemma {:induction false} InsertKeeps(flag: string, sorted: seq<string>)
    ensures multiset(Insert(flag, sorted)) == multiset(sorted) + multiset{flag}
    ensures forall x :: x in Insert(flag, sorted) ==> x == flag || x in sorted
  {
    hide Before;
    if sorted != [] {
      assert sorted == [sorted[0]] + sorted[1..];
      InsertKeeps(flag, sorted[1..]);
    }
  }

  lemma {:induction false} InsertOrders(flag: string, sorted: seq<string>)
    requires Ascending(sorted)
    ensures Ascending(Insert(flag, sorted))
  {
    hide Before;
    if sorted != [] {
      BeforeIrreflexive(flag);
      if Before(sorted[0], flag) {
        var rest := Insert(flag, sorted[1..]);
        InsertOrders(flag, sorted[1..]);
        InsertKeeps(flag, sorted[1..]);
        BeforeNotAfter(sorted[0], flag);
        forall j | 0 <= j < |rest| ensures !Before(rest[j], sorted[0]) {
          assert rest[j] in rest;
        }
      } else {
        forall j | 0 < j < |sorted| ensures !Before(sorted[j], flag) {
          NotBefore(sorted[0], sorted[j], flag);
        }
      }
    }
  }

  lemma NotBefore(a: string, b: string, c: string)
    requires !Before(a, c) && !Before(b, a)
    ensures !Before(b, c)
  {
    hide Before;
    BeforeTotal(a, b);
    if Before(b, c) && Before(a, b) {
      BeforeTransitive(a, b, c);
    }
  }

  /** Sorting orders the flags and keeps each as often as it was there. */
  lemma {:induction false} SortOrders(flags: seq<string>)
    ensures Ascending(Sort(flags)) && multiset(Sort(flags)) == multiset(flags)
  {
    if flags != [] {
      SortOrders(flags[1..]);
      InsertOrders(flags[0], Sort(flags[1..]));
      InsertKeeps(flags[0], Sort(flags[1..]));
      assert flags == [flags[0]] + flags[1..];
    }
  }

  /** The flags an announcement shows. */
  function AnnouncedFlags(flags: seq<string>): seq<string> {
    Sort(Filtered(flags))
  }

  // ---------------------------------------------------------------- classes

  type Classes = seq<Entry<seq<Value>>>

  function ActionValue(info: ActionInfo, name: string): Value {
    Arr([Str(name), Str(Join(AnnouncedFlags(info.flags), ','))]
        + (if info.version != 1 then [Integer(info.version)] else []))
  }

  /** The entries under a key; none yet is an empty list. */
  function ListAt<T>(m: seq<Entry<seq<T>>>, key: string): seq<T> {
    match Lookup(m, key)
    case None => []
    case Some(xs) => xs
  }

  function Classed(m: Classes, info: ActionInfo): Classes {
    match RSplitOnce(info.name, '.')
    case None => m
    case Some((namespace, name)) => Put(m, namespace, ListAt(m, namespace) + [ActionValue(info, name)])
  }

  function ClassMap(infos: seq<ActionInfo>): Classes {
    if infos == [] then [] else Classed(ClassMap(infos[..|infos| - 1]), infos[|infos| - 1])
  }

  function ClassValues(m: Classes): seq<Value> {
    if m == [] then [] else ClassValues(m[..|m| - 1]) + [Arr([Str(m[|m| - 1].key)] + m[|m| - 1].value)]
  }

  /** The version 4 extension: its vectors are always empty. */
  function V4Hash(): Value {
    var none := Arr(Rle.Encoded<string>([], OfString));
    Object(map[
      "vmaj" := Integer(4), "vmin" := Integer(0),
      "acname" := none, "acns" := none, "acflag" := none, "acsec" := none, "acenv" := none,
      "acver" := Arr(Rle.Encoded<U32>([], OfU32))])
  }

  function Strings(ss: seq<string>): seq<Value> {
    seq(|ss|, i requires 0 <= i < |ss| => Str(ss[i]))
  }

  /** The announcement as JSON. */
  function Document(identity: string, sector: string, envelopes: seq<string>, uri: string, infos: seq<ActionInfo>,
                    weight: U32, intervalSecs: U32, active: bool, timestamp: real): Value
  {
    var classes := if active then ClassValues(ClassMap(infos)) else [];
    Arr([Integer(3), Str(identity), Str(sector), Integer(if active then weight else 0), Integer(intervalSecs * 1000),
         Str(uri), Arr(Strings(envelopes) + [V4Hash()]),
         if classes == [] then Null else Arr(classes), Float(timestamp)])
  }

  /** The part of `build_announcement_packet` that makes the JSON value; `timestamp` is the time of day. */
  method BuildAnnouncement(identity: string, sector: string, envelopes: seq<string>, uri: string,
                           infos: seq<ActionInfo>,
                           weight: U32, intervalSecs: U32, active: bool, timestamp: real)
    returns (document: Value)
    ensures document == Document(identity, sector, envelopes, uri, infos, weight, intervalSecs, active, timestamp)
  {
    hide AnnouncedFlags;
    var classMap: Classes := [];
    if active {
      for i := 0 to |infos|
        invariant classMap == ClassMap(infos[..i])
      {
        assert infos[..i + 1][..i] == infos[..i];
        var split := RSplitOnce(infos[i].name, '.');
        if split.None? {
          continue;
        }
        var (namespace, name) := split.value;
        var flags := Join(AnnouncedFlags(infos[i].flags), ',');
        var entry := [Str(name), Str(flags)];
        if infos[i].version != 1 {
          entry := entry + [Integer(infos[i].version)];
        }
        assert entry == [Str(name), Str(flags)] + (if infos[i].version != 1 then [Integer(infos[i].version)] else []);
        assert Arr(entry) == ActionValue(infos[i], name);
        classMap := Put(classMap, namespace, ListAt(classMap, namespace) + [Arr(entry)]);
      }
      assert infos[..|infos|] == infos;
    }
    var classes: seq<Value> := [];
    for i := 0 to |classMap|
      invariant classes == ClassValues(classMap[..i])
    {
      assert classMap[..i + 1][..i] == classMap[..i];
      classes := classes + [Arr([Str(classMap[i].key)] + classMap[i].value)];
    }
    assert classMap[..|classMap|] == classMap;
    var effectiveWeight := if active then weight else 0;
    var acname := Rle.Encode<string>([], OfString);
    var acver := Rle.Encode<U32>([], OfU32);
    var v4 := Object(map[
      "vmaj" := Integer(4), "vmin" := Integer(0), "acname" := Arr(acname), "acns" := Arr(acname),
      "acflag" := Arr(acname),
      "acsec" := Arr(acname), "acenv" := Arr(acname), "acver" := Arr(acver)]);
    document := Arr([
      Integer(3), Str(identity), Str(sector), Integer(effectiveWeight), Integer(intervalSecs * 1000), Str(uri),
      Arr(Strings(envelopes) + [v4]), if classes == [] then Null else Arr(classes), Float(timestamp)]);
  }
}
