/** Looking an action up by key finds what a scan of everything announced would find. */
module Lookup {
  import opened Wrappers
  import opened Text
  import opened Actions
  import opened Registry
  import opened RegistryTheorems

  // ---------------------------------------------------------------- keys tell sector, path and version apart

  lemma IndexKeyParts(sector: string, path: string, version: nat)
    ensures IndexKey(sector, path, version) == Lower(sector) + ":" + (Lower(path) + "." + ("v" + Decimal(version)))
  {
    LowerConcat(sector + ":" + path + ".v", Decimal(version));
    LowerConcat(sector + ":" + path, ".v");
    LowerConcat(sector + ":", path);
    LowerConcat(sector, ":");
    assert Lower(":") == ":" && Lower(".v") == ".v";
    assert Lower(sector) + ":" + Lower(path) + ".v" + Decimal(version)
        == Lower(sector) + ":" + (Lower(path) + "." + ("v" + Decimal(version)));
  }

  /** One sector, followed by a colon, begins the other. */
  predicate Clash(s: string, t: string) {
    Lower(s) != Lower(t) && (Lower(s) + ":" <= Lower(t) || Lower(t) + ":" <= Lower(s))
  }

  /** Sectors that begin two equal strings, each followed by a colon, are equal or clash. */
  lemma SectorsAgree(s: string, x: string, t: string, y: string)
    requires !Clash(s, t) && Lower(s) + ":" + x == Lower(t) + ":" + y
    ensures Lower(s) == Lower(t) && x == y
  {
    hide Lower;
    var key := Lower(s) + ":" + x;
    if |Lower(s)| < |Lower(t)| {
      BeginsWith(Lower(s), x, Lower(t), y);
    } else if |Lower(t)| < |Lower(s)| {
      BeginsWith(Lower(t), y, Lower(s), x);
    } else {
      assert Lower(s) == key[..|Lower(s)|] && x == key[|Lower(s)| + 1..];
      assert Lower(t) == key[..|Lower(s)|] && y == key[|Lower(s)| + 1..];
    }
  }

  lemma BeginsWith(s: string, x: string, t: string, y: string)
    requires s + ":" + x == t + ":" + y && |s| < |t|
    ensures s + ":" <= t
  {
    var key := s + ":" + x;
    assert s + ":" == key[..|s| + 1];
    assert t == key[..|t|];
  }

  /** For sectors that do not clash the index key is injective, up to case, in sector, path and version. */
  lemma KeyTellsAction(sector: string, path: string, version: nat, sector': string, path': string, version': nat)
    requires !Clash(sector, sector')
    ensures IndexKey(sector, path, version) == IndexKey(sector', path', version')
        <==> SameButCase(sector, sector') && SameButCase(path, path') && version == version'
  {
    hide IndexKey, Lower, Clash, SameButCase;
    LowerTells(sector, sector');
    LowerTells(path, path');
    IndexKeyParts(sector, path, version);
    IndexKeyParts(sector', path', version');
    if IndexKey(sector, path, version) == IndexKey(sector', path', version') {
      var tail, tail' := "v" + Decimal(version), "v" + Decimal(version');
      SectorsAgree(sector, Lower(path) + "." + tail, sector', Lower(path') + "." + tail');
      LastSplitUnique(Lower(path), tail, Lower(path'), tail', '.');
      assert Decimal(version) == tail[1..] && Decimal(version') == tail'[1..];
      DecimalInjective(version, version');
    }
  }

  /** Paths under which two clashing sectors share a key. */
  lemma ClashCollides(s: string, t: string) returns (p: string, q: string)
    requires Lower(s) != Lower(t) && Lower(s) + ":" <= Lower(t)
    ensures forall version :: IndexKey(s, p, version) == IndexKey(t, q, version)
  {
    hide IndexKey;
    p, q := t[|s| + 1..] + ":", "";
    assert Lower(t) == Lower(s) + ":" + Lower(t)[|s| + 1..];
    assert Lower(t)[|s| + 1..] == Lower(t[|s| + 1..]);
    LowerConcat(t[|s| + 1..], ":");
    assert Lower(":") == ":";
    forall version ensures IndexKey(s, p, version) == IndexKey(t, q, version) {
      IndexKeyParts(s, p, version);
      IndexKeyParts(t, q, version);
      var tail := "." + ("v" + Decimal(version));
      assert Lower(s) + ":" + (Lower(p) + tail) == Lower(t) + ":" + (Lower(q) + tail);
    }
  }

  /** All keys of two sectors tell their actions apart. */
  ghost predicate KeysApart(s: string, t: string) {
    forall p, q, v: nat, w: nat {:trigger IndexKey(s, p, v), IndexKey(t, q, w)} ::
      IndexKey(s, p, v) == IndexKey(t, q, w) <==> SameButCase(s, t) && SameButCase(p, q) && v == w
  }

  /** Index keys tell the actions of two sectors apart exactly if the sectors do not clash. */
  lemma KeysApartExact(s: string, t: string)
    ensures KeysApart(s, t) <==> !Clash(s, t)
  {
    hide IndexKey, Lower, SameButCase;
    LowerTells(s, t);
    if !Clash(s, t) {
      forall p, q, v: nat, w: nat
        ensures IndexKey(s, p, v) == IndexKey(t, q, w) <==> SameButCase(s, t) && SameButCase(p, q) && v == w
      {
        KeyTellsAction(s, p, v, t, q, w);
      }
    } else if Lower(s) + ":" <= Lower(t) {
      var p, q := ClashCollides(s, t);
      assert IndexKey(s, p, 1) == IndexKey(t, q, 1);
    } else {
      var q, p := ClashCollides(t, s);
      assert IndexKey(t, q, 1) == IndexKey(s, p, 1);
    }
  }

  /** The alias of a path: up to its last dot, if it has one, then the operation. */
  function AliasPath(path: string, op: CrudOp): string {
    (match RSplitOnce(path, '.') case Some((namespace, _)) => namespace case None => path)
    + (match op
       case Create => "._create"
       case Read => "._read"
       case Update => "._update"
       case Delete => "._destroy")
  }

  lemma AliasKeyIsIndexKey(sector: string, path: string, op: CrudOp, version: nat)
    ensures AliasKey(sector, Namespace(path), Tag(op), version) == IndexKey(sector, AliasPath(path, op), version)
  {
    hide Lower, RSplitOnce, Decimal;
    Regroup(sector + ":", Namespace(path), "._", Tag(op));
    assert AliasPath(path, op) == Namespace(path) + "._" + Tag(op) by {
      assert "._create" == "._" + "create" && "._read" == "._" + "read";
      assert "._update" == "._" + "update" && "._destroy" == "._" + "destroy";
      assert Namespace(path) + "._" + Tag(op) == Namespace(path) + ("._" + Tag(op));
    }
  }

  lemma Regroup(a: string, b: string, c: string, d: string)
    ensures a + b + c + d == a + (b + c + d)
  {
  }

  // ---------------------------------------------------------------- the scan

  /** An action answers to its own path when authorized or not, and to one CRUD alias per CRUD flag,
      for which it always counts as authorized. */
  predicate AnswersTo(action: Action, auth: bool, path: string, authorized: bool) {
    (SameButCase(action.path, path) && authorized == auth)
    || (authorized && exists op :: Crud(op) in action.flags && SameButCase(AliasPath(action.path, op), path))
  }

  /** The fingerprint authorizations are looked up by; an announcement without a certificate has none. */
  function CertificateOf(info: ServiceInfo): string {
    if info.fingerprint.Some? then info.fingerprint.value else ""
  }

  ghost predicate Announces(g: Grant, e: ActionEntry, sector: string, path: string, version: nat) {
    && e.action in g.packet.actions && e.info == g.packet.info && e.params == g.packet.params
    && SameButCase(e.action.sector, sector) && e.action.version == version
    && AnswersTo(e.action, g.auth(CertificateOf(e.info), e.action.sector, e.action.path), path, e.authorized)
  }

  /** Some announcement that stands after the run has this entry under this name. */
  ghost predicate Live(run: seq<Delivery>, e: ActionEntry, sector: string, path: string, version: nat) {
    exists g :: g in Standing(run) && Announces(g, e, sector, path, version)
  }

  /** The announcement puts this entry under this key, whatever its name. */
  ghost predicate PutsUnder(g: Grant, e: ActionEntry, key: string) {
    var a := e.action;
    && a in g.packet.actions && e.info == g.packet.info && e.params == g.packet.params
    && ((IndexKey(a.sector, a.path, a.version) == key
         && e.authorized == g.auth(CertificateOf(e.info), a.sector, a.path))
        || (e.authorized
            && exists op :: Crud(op) in a.flags && IndexKey(a.sector, AliasPath(a.path, op), a.version) == key))
  }

  /** Some announcement that stands has this entry in a sector that clashes with the one looked up, under a name
      that has the same key. */
  ghost predicate Stray(run: seq<Delivery>, e: ActionEntry, sector: string, path: string, version: nat) {
    Clash(e.action.sector, sector) && exists g :: g in Standing(run) && PutsUnder(g, e, IndexKey(sector, path, version))
  }

  /** What a lookup can find: what the scan finds, and the strays. */
  ghost predicate Findable(run: seq<Delivery>, e: ActionEntry, sector: string, path: string, version: nat) {
    Live(run, e, sector, path, version) || Stray(run, e, sector, path, version)
  }

  /** No sector the announcement uses clashes with this one. */
  predicate Apart(p: Announcement, sector: string) {
    forall i :: 0 <= i < |p.actions| ==> !Clash(p.actions[i].sector, sector)
  }

  ghost predicate AllApart(run: seq<Delivery>, sector: string) {
    forall i :: 0 <= i < |run| ==> Apart(run[i].packet, sector)
  }

  lemma {:induction false} InUnder(ks: seq<Keyed>, key: string, e: ActionEntry)
    ensures e in Under(ks, key) <==> Keyed(key, e) in ks
  {
    if ks != [] {
      InUnder(ks[..|ks| - 1], key, e);
      assert ks == ks[..|ks| - 1] + [ks[|ks| - 1]];
    }
  }

  lemma {:induction false} InAliases(p: Announcement, action: Action, flags: seq<Flag>, k: Keyed)
    ensures k in Aliases(p, action, flags) <==>
            k.entry == ActionEntry(action, p.info, p.params, true)
            && exists op :: Crud(op) in flags && k.key == IndexKey(action.sector, AliasPath(action.path, op),
                                                                   action.version)
  {
    hide IndexKey, AliasKey, AliasPath, Namespace;
    if flags != [] {
      var front, flag := flags[..|flags| - 1], flags[|flags| - 1];
      InAliases(p, action, front, k);
      assert flags == front + [flag];
      if flag.Crud? {
        AliasKeyIsIndexKey(action.sector, action.path, flag.op, action.version);
      }
    }
  }

  /** What an announcement puts under a key, action by action. */
  lemma {:induction false} InEntries(p: Announcement, auth: Authorization, actions: seq<Action>, k: Keyed)
    ensures k in Entries(p, auth, actions) <==>
            k.entry.action in actions
            && (k == Primary(p, auth, k.entry.action) || k in Aliases(p, k.entry.action, k.entry.action.flags))
  {
    hide Primary, Aliases;
    if actions != [] {
      var front, action := actions[..|actions| - 1], actions[|actions| - 1];
      InEntries(p, auth, front, k);
      assert actions == front + [action];
      PrimaryIsOf(p, auth, action);
      AliasesAreOf(p, action, action.flags, k);
    }
  }

  lemma PrimaryIsOf(p: Announcement, auth: Authorization, action: Action)
    ensures Primary(p, auth, action).entry.action == action
  {
  }

  lemma AliasesAreOf(p: Announcement, action: Action, flags: seq<Flag>, k: Keyed)
    ensures k in Aliases(p, action, flags) ==> k.entry.action == action
  {
    hide IndexKey, AliasPath;
    InAliases(p, action, flags, k);
  }

  lemma PutIsIndexed(g: Grant, e: ActionEntry, key: string)
    ensures e in EntriesOf(g, key) <==> PutsUnder(g, e, key)
  {
    hide IndexKey, AliasPath, Aliases, Entries, Under;
    InUnder(Entries(g.packet, g.auth, g.packet.actions), key, e);
    InEntries(g.packet, g.auth, g.packet.actions, Keyed(key, e));
    InAliases(g.packet, e.action, e.action.flags, Keyed(key, e));
  }

  /** Unless its sector clashes, an entry is under the key of a name exactly if it is announced under that name. */
  lemma PutIsAnnounced(g: Grant, e: ActionEntry, sector: string, path: string, version: nat)
    requires !Clash(e.action.sector, sector)
    ensures PutsUnder(g, e, IndexKey(sector, path, version)) <==> Announces(g, e, sector, path, version)
  {
    hide IndexKey, Lower, AliasPath, Clash, SameButCase;
    var a := e.action;
    KeyTellsAction(a.sector, a.path, a.version, sector, path, version);
    forall op
      ensures IndexKey(a.sector, AliasPath(a.path, op), a.version) == IndexKey(sector, path, version)
          <==> SameButCase(a.sector, sector) && SameButCase(AliasPath(a.path, op), path) && a.version == version
    {
      KeyTellsAction(a.sector, AliasPath(a.path, op), a.version, sector, path, version);
    }
  }

  lemma {:induction false} InRebuilt(gs: seq<Grant>, key: string, e: ActionEntry)
    ensures e in Rebuilt(gs, key) <==> exists g :: g in gs && e in EntriesOf(g, key)
  {
    hide EntriesOf;
    if gs != [] {
      InRebuilt(gs[..|gs| - 1], key, e);
      assert gs == gs[..|gs| - 1] + [gs[|gs| - 1]];
    }
  }

  lemma {:induction false} StandingApart(run: seq<Delivery>, sector: string, n: nat)
    requires n <= |run| && AllApart(run, sector)
    ensures forall g :: g in StandingUpTo(run, n) ==> Apart(g.packet, sector)
  {
    hide Stands, Apart;
    if n > 0 {
      StandingApart(run, sector, n - 1);
    }
  }

  /** What lies under a key after any run is what a scan of the announcements that stand finds under that name, and
      strays; and there are none unless an announced sector clashes with the one looked up. */
  lemma IndexIsScan(run: seq<Delivery>, e: ActionEntry, sector: string, path: string, version: nat)
    ensures e in At(InjectAll(run).index, IndexKey(sector, path, version)) <==> Findable(run, e, sector, path, version)
    ensures AllApart(run, sector) ==> !Stray(run, e, sector, path, version)
  {
    hide InjectAll, At, IndexKey, Rebuilt, Announces, PutsUnder, EntriesOf, Standing, Apart, SeenFits, Clash;
    var key := IndexKey(sector, path, version);
    IndexIsHistory(run);
    InRebuilt(Standing(run), key, e);
    forall g | g in Standing(run) ensures e in EntriesOf(g, key) <==> PutsUnder(g, e, key) {
      PutIsIndexed(g, e, key);
    }
    if Clash(e.action.sector, sector) {
      ClashNotAnnounced(run, e, sector, path, version);
    } else {
      forall g | g in Standing(run) ensures PutsUnder(g, e, key) <==> Announces(g, e, sector, path, version) {
        PutIsAnnounced(g, e, sector, path, version);
      }
    }
    if AllApart(run, sector) {
      NoStrays(run, e, sector, path, version);
    }
  }

  lemma ClashNotAnnounced(run: seq<Delivery>, e: ActionEntry, sector: string, path: string, version: nat)
    requires Clash(e.action.sector, sector)
    ensures !Live(run, e, sector, path, version)
  {
    hide Lower, AnswersTo, Standing, SameButCase;
    LowerTells(e.action.sector, sector);
  }

  lemma NoStrays(run: seq<Delivery>, e: ActionEntry, sector: string, path: string, version: nat)
    requires AllApart(run, sector)
    ensures !Stray(run, e, sector, path, version)
  {
    hide IndexKey, AliasPath, Clash, AllApart, Standing;
    AllStandingApart(run, sector);
  }

  lemma AllStandingApart(run: seq<Delivery>, sector: string)
    requires AllApart(run, sector)
    ensures forall g :: g in Standing(run) ==> Apart(g.packet, sector)
  {
    StandingApart(run, sector, |run|);
  }

  /** For any two sectors that clash, one announcement in the first makes a stray in the second. */
  lemma StrayArises(s: string, t: string) returns (run: seq<Delivery>, e: ActionEntry, path: string)
    requires Clash(s, t)
    ensures Stray(run, e, t, path, 1)
    ensures e in At(InjectAll(run).index, IndexKey(t, path, 1)) && !Live(run, e, t, path, 1)
  {
    hide InjectAll, IndexKey, Clash, At;
    var own;
    if Lower(s) + ":" <= Lower(t) {
      own, path := ClashCollides(s, t);
    } else {
      assert Lower(t) + ":" <= Lower(s) && Lower(s) != Lower(t) by { ClashEither(s, t); }
      path, own := ClashCollides(t, s);
    }
    var action := Action(own, 1, "", [], s, [], V3);
    var info := ServiceInfo("", "", None);
    var packet := Announcement(true, info, Params(1, 0, 0.0), [action]);
    var auth: Authorization := (fingerprint, sector, path) => true;
    e := ActionEntry(action, info, packet.params, true);
    run := [Delivery(packet, 0, auth)];
    OneStands(run);
    var g := Grant(packet, auth);
    assert IndexKey(s, own, 1) == IndexKey(t, path, 1);
    assert g in Standing(run) && PutsUnder(g, e, IndexKey(t, path, 1));
    IndexIsScan(run, e, t, path, 1);
    ClashNotAnnounced(run, e, t, path, 1);
  }

  lemma ClashEither(s: string, t: string)
    requires Clash(s, t)
    ensures Lower(s) != Lower(t) && (Lower(s) + ":" <= Lower(t) || Lower(t) + ":" <= Lower(s))
  {
  }

  lemma OneStands(run: seq<Delivery>)
    requires |run| == 1 && Acceptable(run[0])
    ensures Standing(run) == [Grant(run[0].packet, run[0].auth)]
  {
    assert Stands(run, 0);
    assert StandingUpTo(run, 0) == [];
  }

  /** A lookup by key, whatever it picks, finds something exactly if there is something findable, and picks a match,
      and one of a healthy service when there is one; without clashing sectors just as if from the scan. */
  lemma LookupIsScan(run: seq<Delivery>, sector: string, path: string, version: nat, envelope: string,
                     failures: Failures, now: nat, r: Option<ActionEntry>)
    requires Picked(r, (iset e | e in At(InjectAll(run).index, IndexKey(sector, path, version))
                                 && e.params.weight > 0 && e.authorized && envelope in e.action.envelopes),
                    failures, now)
    ensures r.Some? <==>
            exists e :: Findable(run, e, sector, path, version)
                        && e.params.weight > 0 && e.authorized && envelope in e.action.envelopes
    ensures r.Some? ==>
              && Findable(run, r.value, sector, path, version)
              && r.value.params.weight > 0 && r.value.authorized && envelope in r.value.action.envelopes
    ensures (exists e :: Findable(run, e, sector, path, version)
                         && e.params.weight > 0 && e.authorized && envelope in e.action.envelopes
                         && !IsFailed(failures, e.info.identity, now))
        ==> r.Some? && !IsFailed(failures, r.value.info.identity, now)
    ensures AllApart(run, sector) ==>
              forall e :: Findable(run, e, sector, path, version) <==> Live(run, e, sector, path, version)
  {
    hide InjectAll, At, IndexKey, Live, Stray, IsFailed;
    var pool := iset e | e in At(InjectAll(run).index, IndexKey(sector, path, version))
                         && e.params.weight > 0 && e.authorized && envelope in e.action.envelopes;
    forall e
      ensures e in pool <==> Findable(run, e, sector, path, version)
                             && e.params.weight > 0 && e.authorized && envelope in e.action.envelopes
      ensures AllApart(run, sector) ==> !Stray(run, e, sector, path, version)
    {
      IndexIsScan(run, e, sector, path, version);
    }
    if e :| Findable(run, e, sector, path, version)
            && e.params.weight > 0 && e.authorized && envelope in e.action.envelopes {
      assert e in pool;
    }
  }
}
