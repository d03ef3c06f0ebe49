/** Parsing the JSON value of an announcement (discovery/service_info/parse.rs). */
module AnnouncementParser {
  import opened Wrappers
  import opened Text
  import opened Actions
  import opened Json
  import Rle

  type Parsed<+T> = Result<T, ParseError>

  datatype Body = Body(info: ServiceInfo, params: Params, actions: seq<Action>)

  function Extend<T>(front: seq<T>, rest: Parsed<seq<T>>): Parsed<seq<T>> {
    match rest
    case Err(e) => Err(e)
    case Ok(s) => Ok(front + s)
  }

  // ---------------------------------------------------------------- flags and paths

  function ParseCrudOp(v: string): Option<CrudOp> {
    if v == "create" then Some(Create)
    else if v == "read" then Some(Read)
    else if v == "update" then Some(Update)
    else if v == "destroy" then Some(Delete)
    else None
  }

  /** Nothing for a timeout of 2^32 seconds or more, on which the parser aborts. */
  function ParseFlag(v: string): Option<Flag> {
    if v == "noauth" then Some(NoAuth)
    else if |v| > 1 && v[0] == 't' && AllDigits(v[1..]) then
      if NumeralValue(v[1..]) < U32_BOUND then Some(Timeout(NumeralValue(v[1..]))) else None
    else
      match ParseCrudOp(v)
      case Some(op) => Some(Crud(op))
      case None => Some(Other(v))
  }

  function NonEmpty(parts: seq<string>): seq<string> {
    if parts == [] then []
    else NonEmpty(parts[..|parts| - 1]) + (if parts[|parts| - 1] == "" then [] else [parts[|parts| - 1]])
  }

  function ParseFlags(parts: seq<string>): Option<seq<Flag>> {
    if parts == [] then Some([])
    else
      match (ParseFlags(parts[..|parts| - 1]), ParseFlag(parts[|parts| - 1]))
      case (Some(front), Some(last)) => Some(front + [last])
      case _ => None
  }

  /** The flags of a comma separated list. */
  function FlagList(flags: string): Option<seq<Flag>> {
    ParseFlags(NonEmpty(Split(flags, ',')))
  }

  function Dots(s: string): string {
    seq(|s|, i requires 0 <= i < |s| => if s[i] == '/' then '.' else s[i])
  }

  /** Action paths are lower case, with dots for slashes. */
  function Path(name: string): string {
    Dots(Lower(name))
  }

  function PathVer(path: string, version: nat): string {
    path + "~" + Decimal(version)
  }

  // ---------------------------------------------------------------- version 3 actions

  function ParseVersion(fields: seq<Value>, i: nat, j: nat): Parsed<nat> {
    if |fields| > 2 && (fields[2].Integer? || fields[2].Float?) then
      match AsU64(fields[2])
      case None => Err(InvalidV3Action(i, j, "version must be number"))
      case Some(n) => Ok(Truncated(n))
    else Ok(1)
  }

  function ParseV3Action(ac: Value, namespace: string, sector: string, envelopes: seq<string>, i: nat,
                         j: nat): Parsed<Action> {
    if !(ac.Arr? && (|ac.items| == 2 || |ac.items| == 3)) then Err(InvalidV3Action(i, j, "not array of length 2-3"))
    else if !ac.items[0].Str? then Err(InvalidV3Action(i, j, "name"))
    else if !ac.items[1].Str? then Err(InvalidV3Action(i, j, "flags"))
    else
      match ParseVersion(ac.items, i, j)
      case Err(e) => Err(e)
      case Ok(version) =>
        match FlagList(ac.items[1].text)
        case None => Err(Panic)
        case Some(flags) =>
          var path := Path(namespace + "." + ac.items[0].text);
          Ok(Action(path, version, PathVer(path, version), flags, sector, envelopes, V3))
  }

  /** The actions of a class, from its `j`th on. */
  function ParseClass(items: seq<Value>, namespace: string, sector: string, envelopes: seq<string>, i: nat, j: nat)
    : Parsed<seq<Action>>
    requires j <= |items|
    decreases |items| - j
  {
    if j == |items| then Ok([])
    else
      match ParseV3Action(items[j], namespace, sector, envelopes, i, j)
      case Err(e) => Err(e)
      case Ok(action) => Extend([action], ParseClass(items, namespace, sector, envelopes, i, j + 1))
  }

  function ParseNamespace(ns: Value, sector: string, envelopes: seq<string>, i: nat): Parsed<seq<Action>> {
    if !(ns.Arr? && ns.items != []) then Err(InvalidV3Namespace(i))
    else if !ns.items[0].Str? then Err(MissingField("namespace [0]"))
    else ParseClass(ns.items[1..], ns.items[0].text, sector, envelopes, i, 0)
  }

  /** The actions of all classes from the `i`th on. */
  function ParseV3(obj: seq<Value>, sector: string, envelopes: seq<string>, i: nat): Parsed<seq<Action>>
    requires i <= |obj|
    decreases |obj| - i
  {
    if i == |obj| then Ok([])
    else
      match ParseNamespace(obj[i], sector, envelopes, i)
      case Err(e) => Err(e)
      case Ok(actions) => Extend(actions, ParseV3(obj, sector, envelopes, i + 1))
  }

  /** `parse_v3_actions`, which adds to the actions read so far. */
  method ParseV3Actions(obj: seq<Value>, sector: string, envelopes: seq<string>, before: seq<Action>)
    returns (r: Parsed<seq<Action>>)
    ensures r == Extend(before, ParseV3(obj, sector, envelopes, 0))
  {
    hide ParseV3Action;
    var actions := before;
    for i := 0 to |obj|
      invariant Extend(before, ParseV3(obj, sector, envelopes, 0)) ==
                Extend(actions, ParseV3(obj, sector, envelopes, i))
    {
      if !(obj[i].Arr? && obj[i].items != []) {
        return Err(InvalidV3Namespace(i));
      }
      if !obj[i].items[0].Str? {
        return Err(MissingField("namespace [0]"));
      }
      var namespace, items := obj[i].items[0].text, obj[i].items[1..];
      ghost var start, rest := actions, ParseV3(obj, sector, envelopes, i + 1);
      for j := 0 to |items|
        invariant Extend(start, ParseClass(items, namespace, sector, envelopes, i, 0))
               == Extend(actions, ParseClass(items, namespace, sector, envelopes, i, j))
      {
        var action := ParseV3Action(items[j], namespace, sector, envelopes, i, j);
        if action.Err? {
          return Err(action.error);
        }
        ghost var more := ParseClass(items, namespace, sector, envelopes, i, j + 1);
        assert more.Ok? ==> actions + ([action.value] + more.value) == (actions + [action.value]) + more.value;
        actions := actions + [action.value];
      }
      assert ParseClass(items, namespace, sector, envelopes, i, 0).Ok?;
      ghost var found := ParseClass(items, namespace, sector, envelopes, i, 0).value;
      assert actions == start + found;
      assert rest.Ok? ==> start + (found + rest.value) == (start + found) + rest.value;
    }
    assert actions + [] == actions;
    return Ok(actions);
  }

  // ---------------------------------------------------------------- version 4 actions

  /** The vectors of a version 4 extension, one per column. */
  datatype Columns = Columns(
    namespaces: seq<string>, names: seq<string>, compats: seq<U32>, versions: seq<U32>, flags: seq<string>,
    envelopes: seq<string>, sectors: seq<string>)

  function TextColumn(obj: map<string, Value>, name: string, required: bool, len: nat): Parsed<seq<string>> {
    Rle.Unrle(obj, name, required, len, "", AsString)
  }

  function NumberColumn(obj: map<string, Value>, name: string, len: nat): Parsed<seq<U32>> {
    Rle.Unrle<U32>(obj, name, false, len, 0, ReadU32)
  }

  /** All columns, or the first error in the order they are read. */
  function ReadColumns(obj: map<string, Value>): Parsed<Columns> {
    match TextColumn(obj, "acns", true, 0) case Err(e) => Err(e) case Ok(namespaces) =>
    match TextColumn(obj, "acname", true, 0) case Err(e) => Err(e) case Ok(names) =>
    match TextColumn(obj, "acenv", true, 0) case Err(e) => Err(e) case Ok(envelopes) =>
    match TextColumn(obj, "acsec", true, 0) case Err(e) => Err(e) case Ok(sectors) =>
    match NumberColumn(obj, "accompat", |names|) case Err(e) => Err(e) case Ok(compats) =>
    match NumberColumn(obj, "acver", |names|) case Err(e) => Err(e) case Ok(versions) =>
    match TextColumn(obj, "acflag", false, |names|) case Err(e) => Err(e) case Ok(flags) =>
    Ok(Columns(namespaces, names, compats, versions, flags, envelopes, sectors))
  }

  function Least(a: nat, b: nat): nat {
    if a < b then a else b
  }

  /** Zipping stops at the shortest column. */
  function Rows(c: Columns): (n: nat)
    ensures n <= |c.namespaces| && n <= |c.names| && n <= |c.compats| && n <= |c.versions|
    ensures n <= |c.flags| && n <= |c.envelopes| && n <= |c.sectors|
  {
    Least(|c.namespaces|, Least(|c.names|, Least(|c.compats|, Least(|c.versions|,
      Least(|c.flags|, Least(|c.envelopes|, |c.sectors|))))))
  }

  function ParseRow(c: Columns, k: nat): Parsed<seq<Action>>
    requires k < Rows(c)
  {
    if c.compats[k] != 1 then Ok([])
    else
      match FlagList(c.flags[k])
      case None => Err(Panic)
      case Some(flags) =>
        var path := Path(c.namespaces[k] + "." + c.names[k]);
        Ok([Action(path, c.versions[k], PathVer(path, c.versions[k]), flags, Lower(c.sectors[k]),
                   NonEmpty(Split(c.envelopes[k], ',')), V4)])
  }

  function ParseRows(c: Columns, k: nat): Parsed<seq<Action>>
    requires k <= Rows(c)
    decreases Rows(c) - k
  {
    if k == Rows(c) then Ok([])
    else
      match ParseRow(c, k)
      case Err(e) => Err(e)
      case Ok(row) => Extend(row, ParseRows(c, k + 1))
  }

  function ParseV4(obj: map<string, Value>): Parsed<seq<Action>> {
    match ReadColumns(obj)
    case Err(e) => Err(e)
    case Ok(c) => ParseRows(c, 0)
  }

  /** The columns, read one after the other. */
  method ReadAllColumns(obj: map<string, Value>) returns (r: Parsed<Columns>)
    ensures r == ReadColumns(obj)
  {
    hide Rle.Unrle;
    var namespaces := Rle.UnrleField(obj, "acns", true, 0, "", AsString);
    if namespaces.Err? {
      return Err(namespaces.error);
    }
    var names := Rle.UnrleField(obj, "acname", true, 0, "", AsString);
    if names.Err? {
      return Err(names.error);
    }
    var len := |names.value|;
    var envelopes := Rle.UnrleField(obj, "acenv", true, 0, "", AsString);
    if envelopes.Err? {
      return Err(envelopes.error);
    }
    var sectors := Rle.UnrleField(obj, "acsec", true, 0, "", AsString);
    if sectors.Err? {
      return Err(sectors.error);
    }
    var compats := Rle.UnrleField<U32>(obj, "accompat", false, len, 0, ReadU32);
    if compats.Err? {
      return Err(compats.error);
    }
    var versions := Rle.UnrleField<U32>(obj, "acver", false, len, 0, ReadU32);
    if versions.Err? {
      return Err(versions.error);
    }
    var flags := Rle.UnrleField(obj, "acflag", false, len, "", AsString);
    if flags.Err? {
      return Err(flags.error);
    }
    return Ok(Columns(namespaces.value, names.value, compats.value, versions.value, flags.value, envelopes.value,
                      sectors.value));
  }

  /** `parse_v4_actions` */
  method ParseV4Actions(obj: map<string, Value>, before: seq<Action>) returns (r: Parsed<seq<Action>>)
    ensures r == Extend(before, ParseV4(obj))
  {
    hide ReadColumns, ParseRow;
    var columns := ReadAllColumns(obj);
    if columns.Err? {
      return Err(columns.error);
    }
    var c := columns.value;
    var actions := before;
    for k := 0 to Rows(c)
      invariant Extend(before, ParseRows(c, 0)) == Extend(actions, ParseRows(c, k))
    {
      var row := ParseRow(c, k);
      if row.Err? {
        return Err(row.error);
      }
      ghost var rest := ParseRows(c, k + 1);
      assert rest.Ok? ==> actions + (row.value + rest.value) == (actions + row.value) + rest.value;
      actions := actions + row.value;
    }
    assert actions + [] == actions;
    return Ok(actions);
  }

  /** Without a compatibility column no row is taken. */
  lemma NoCompatNoRows(obj: map<string, Value>)
    requires "accompat" !in obj
    ensures ParseV4(obj).Ok? ==> ParseV4(obj).value == []
    ensures ParseV4(obj).Ok? <==> ReadColumns(obj).Ok?
  {
    if ReadColumns(obj).Ok? {
      var c := ReadColumns(obj).value;
      assert forall k :: 0 <= k < |c.compats| ==> c.compats[k] == 0;
      NoneCompatible(c, 0);
    }
  }

  lemma {:induction false} NoneCompatible(c: Columns, k: nat)
    requires k <= Rows(c) && forall i :: 0 <= i < |c.compats| ==> c.compats[i] != 1
    ensures ParseRows(c, k) == Ok([])
    decreases Rows(c) - k
  {
    if k < Rows(c) {
      NoneCompatible(c, k + 1);
      assert [] + ParseRows(c, k + 1).value == [];
    }
  }

  // ---------------------------------------------------------------- the whole announcement

  /** Element 6 of the announcement: names of envelopes, and version 4 extensions; anything else is passed over. */
  datatype Sixth = Sixth(envelopes: seq<string>, actions: seq<Action>)

  function ParseSixth(items: seq<Value>, i: nat): Parsed<Sixth>
    requires i <= |items|
    decreases |items| - i
  {
    if i == |items| then Ok(Sixth([], []))
    else
      match items[i]
      case Str(envelope) => Joined(Sixth([envelope], []), ParseSixth(items, i + 1))
      case Object(obj) =>
        (match ParseV4(obj)
         case Err(e) => Err(e)
         case Ok(actions) => Joined(Sixth([], actions), ParseSixth(items, i + 1)))
      case _ => ParseSixth(items, i + 1)
  }

  function Joined(front: Sixth, rest: Parsed<Sixth>): Parsed<Sixth> {
    match rest
    case Err(e) => Err(e)
    case Ok(s) => Ok(Sixth(front.envelopes + s.envelopes, front.actions + s.actions))
  }

  lemma NothingJoined(rest: Parsed<Sixth>)
    ensures Joined(Sixth([], []), rest) == rest
  {
    if rest.Ok? {
      assert [] + rest.value.envelopes == rest.value.envelopes && [] + rest.value.actions == rest.value.actions;
    }
  }

  /** The checks on the nine elements, in order. */
  function CheckFields(value: Value): Option<ParseError> {
    if !value.Arr? then Some(ExpectedJsonArray)
    else if |value.items| != 9 then Some(InvalidRootArray)
    else
      var a := value.items;
      if AsU64(a[0]).None? then Some(MissingField("version"))
      else if a[0].n != 3 then Some(InvalidField("version"))
      else if !a[1].Str? then Some(MissingField("identity"))
      else if !a[2].Str? then Some(MissingField("sector"))
      else if AsU64(a[3]).None? then Some(MissingField("weight"))
      else if AsU64(a[4]).None? then Some(MissingField("interval"))
      else if !a[5].Str? then Some(MissingField("uri"))
      else if !a[6].Arr? then Some(MissingField("envelopes_and_v4actions"))
      else if !a[7].Arr? then Some(MissingField("v3_actions"))
      else if AsReal(a[8]).None? then Some(MissingField("timestamp"))
      else None
  }

  function ParseDocument(value: Value): Parsed<Body> {
    match CheckFields(value)
    case Some(e) => Err(e)
    case None =>
      var a := value.items;
      match ParseSixth(a[6].items, 0)
      case Err(e) => Err(e)
      case Ok(sixth) =>
        match Extend(sixth.actions, ParseV3(a[7].items, a[2].text, sixth.envelopes, 0))
        case Err(e) => Err(e)
        case Ok(actions) =>
          Ok(Body(ServiceInfo(a[1].text, a[5].text, None),
                  Params(Truncated(a[3].n), Truncated(a[4].n), AsReal(a[8]).value), actions))
  }

  /** `parse_announcement_body`, once the text is JSON. */
  method ParseAnnouncementBody(value: Value) returns (r: Parsed<Body>)
    ensures r == ParseDocument(value)
  {
    hide ParseV4, ParseV3;
    var bad := CheckFields(value);
    if bad.Some? {
      return Err(bad.value);
    }
    var a := value.items;
    var items := a[6].items;
    var envelopes: seq<string> := [];
    var actions: seq<Action> := [];
    NothingJoined(ParseSixth(items, 0));
    for i := 0 to |items|
      invariant ParseSixth(items, 0) == Joined(Sixth(envelopes, actions), ParseSixth(items, i))
    {
      ghost var rest := ParseSixth(items, i + 1);
      match items[i] {
        case Str(envelope) =>
          if rest.Ok? {
            var more := rest.value.envelopes;
            assert envelopes + ([envelope] + more) == envelopes + [envelope] + more;
          }
          assert rest.Ok? ==> [] + rest.value.actions == rest.value.actions;
          envelopes := envelopes + [envelope];
        case Object(obj) =>
          var more := ParseV4Actions(obj, actions);
          if more.Err? {
            return Err(more.error);
          }
          ghost var found := ParseV4(obj).value;
          assert rest.Ok? ==> actions + (found + rest.value.actions) == actions + found + rest.value.actions;
          assert rest.Ok? ==> [] + rest.value.envelopes == rest.value.envelopes;
          actions := more.value;
        case _ =>
      }
    }
    assert envelopes + [] == envelopes && actions + [] == actions;
    assert ParseSixth(items, 0) == Ok(Sixth(envelopes, actions));
    var all := ParseV3Actions(a[7].items, a[2].text, envelopes, actions);
    if all.Err? {
      return Err(all.error);
    }
    return Ok(Body(ServiceInfo(a[1].text, a[5].text, None),
                   Params(Truncated(a[3].n), Truncated(a[4].n), AsReal(a[8]).value), all.value));
  }
}
