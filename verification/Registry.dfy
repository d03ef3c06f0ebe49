/**
 The service registry (discovery/service_registry.rs): an index kept up to date packet by packet, and
 the failure state of services. Its specification is the history: which announcement of each source
 is the latest one accepted, and when each service failed.
 */
module Registry {
  import opened Wrappers
  import opened Text
  import opened Actions

  // ---------------------------------------------------------------- keys

  function IndexKey(sector: string, path: string, version: nat): string {
    Lower(sector + ":" + path + ".v" + Decimal(version))
  }

  function AliasKey(sector: string, namespace: string, tag: string, version: nat): string {
    Lower(sector + ":" + namespace + "._" + tag + ".v" + Decimal(version))
  }

  function Tag(op: CrudOp): string {
    match op
    case Create => "create"
    case Read => "read"
    case Update => "update"
    case Delete => "destroy"
  }

  function Namespace(path: string): string {
    match RSplitOnce(path, '.')
    case Some((namespace, _)) => namespace
    case None => path
  }

  /** Replay protection is by certificate fingerprint and service identity. */
  function DedupKey(fingerprint: string, identity: string): string {
    fingerprint + " " + identity
  }

  function FingerprintOf(info: ServiceInfo): string {
    match info.fingerprint
    case Some(f) => f
    case None => ""
  }

  // ---------------------------------------------------------------- entries

  datatype ActionEntry = ActionEntry(action: Action, info: ServiceInfo, params: Params, authorized: bool)

  /** `is_authorized(fingerprint, sector, path)` */
  type Authorization = (string, string, string) -> bool

  datatype Keyed = Keyed(key: string, entry: ActionEntry)

  type Index = map<string, seq<ActionEntry>>

  function At(index: Index, key: string): seq<ActionEntry> {
    if key in index then index[key] else []
  }

  function Push(index: Index, k: Keyed): Index {
    index[k.key := At(index, k.key) + [k.entry]]
  }

  function PushAll(index: Index, ks: seq<Keyed>): Index {
    if ks == [] then index else Push(PushAll(index, ks[..|ks| - 1]), ks[|ks| - 1])
  }

  /** The alias entries an action has for its flags. */
  function Aliases(p: Announcement, action: Action, flags: seq<Flag>): seq<Keyed> {
    if flags == [] then []
    else
      var flag := flags[|flags| - 1];
      Aliases(p, action, flags[..|flags| - 1])
      + (if flag.Crud?
         then [Keyed(AliasKey(action.sector, Namespace(action.path), Tag(flag.op), action.version),
                     ActionEntry(action, p.info, p.params, true))]
         else [])
  }

  function Primary(p: Announcement, auth: Authorization, action: Action): Keyed {
    Keyed(IndexKey(action.sector, action.path, action.version),
          ActionEntry(action, p.info, p.params, auth(FingerprintOf(p.info), action.sector, action.path)))
  }

  /** Everything an announcement puts into the index, in order. */
  function Entries(p: Announcement, auth: Authorization, actions: seq<Action>): seq<Keyed> {
    if actions == [] then []
    else
      var action := actions[|actions| - 1];
      Entries(p, auth, actions[..|actions| - 1]) + [Primary(p, auth, action)] + Aliases(p, action, action.flags)
  }

  /** The entries that are not of this identity and certificate. */
  function Retained(entries: seq<ActionEntry>, identity: string, fingerprint: string): seq<ActionEntry> {
    if entries == [] then []
    else
      var e := entries[|entries| - 1];
      Retained(entries[..|entries| - 1], identity, fingerprint)
      + (if e.info.identity == identity && e.info.fingerprint == Some(fingerprint) then [] else [e])
  }

  function RetainedEverywhere(index: Index, identity: string, fingerprint: string): Index {
    map key | key in index :: Retained(index[key], identity, fingerprint)
  }

  // ---------------------------------------------------------------- accepting announcements

  /** An announcement as it arrives: the packet, the time in seconds and the authorization table then. */
  datatype Delivery = Delivery(packet: Announcement, now: nat, auth: Authorization)

  predicate Expired(params: Params, now: nat) {
    now as real > params.timestamp + params.interval as real / 1000.0 * 2.1
  }

  /** Signed correctly and not expired. */
  predicate Acceptable(d: Delivery) {
    d.packet.valid && !Expired(d.packet.params, d.now)
  }

  datatype Table = Table(index: Index, seen: map<string, real>)

  function Inject(t: Table, d: Delivery): Table {
    var p := d.packet;
    var fingerprint := FingerprintOf(p.info);
    var key := DedupKey(fingerprint, p.info.identity);
    if !Acceptable(d) || (key in t.seen && p.params.timestamp <= t.seen[key]) then t
    else
      var index := if key in t.seen then RetainedEverywhere(t.index, p.info.identity, fingerprint) else t.index;
      Table(PushAll(index, Entries(p, d.auth, p.actions)), t.seen[key := p.params.timestamp])
  }

  function InjectAll(run: seq<Delivery>): Table {
    if run == [] then Table(map[], map[]) else Inject(InjectAll(run[..|run| - 1]), run[|run| - 1])
  }

  // ---------------------------------------------------------------- failures

  /** Times of recent failures, and when the service may be used again. */
  datatype FailureState = FailureState(times: seq<nat>, reactivateAt: nat)

  const FAILURE_WINDOW: nat := 86400

  function Since(times: seq<nat>, start: nat): seq<nat> {
    if times == [] then []
    else Since(times[..|times| - 1], start) + (if times[|times| - 1] >= start then [times[|times| - 1]] else [])
  }

  function WindowStart(now: nat): nat {
    if now < FAILURE_WINDOW then 0 else now - FAILURE_WINDOW
  }

  function Failed(state: FailureState, now: nat): FailureState {
    var times := Since(state.times, WindowStart(now)) + [now];
    FailureState(times, now + (if |times| < 60 then |times| else 60) * 60)
  }

  type Failures = map<string, FailureState>

  function MarkFailed(failures: Failures, identity: string, now: nat): Failures {
    var state := if identity in failures then failures[identity] else FailureState([], 0);
    failures[identity := Failed(state, now)]
  }

  predicate IsFailed(failures: Failures, identity: string, now: nat) {
    identity in failures && now < failures[identity].reactivateAt
  }

  // ---------------------------------------------------------------- lookups

  predicate Usable(e: ActionEntry) {
    e.params.weight > 0 && e.authorized
  }

  predicate UsableFor(e: ActionEntry, envelope: string) {
    Usable(e) && envelope in e.action.envelopes
  }

  /** What a lookup may return of a pool of entries: any healthy one, any one at all if none is healthy,
      nothing only if there is none. */
  ghost predicate Picked(r: Option<ActionEntry>, pool: iset<ActionEntry>, failures: Failures, now: nat) {
    && (r.None? <==> pool == iset{})
    && (r.Some? ==>
          && r.value in pool
          && ((exists e :: e in pool && !IsFailed(failures, e.info.identity, now))
              ==> !IsFailed(failures, r.value.info.identity, now)))
  }

  // ---------------------------------------------------------------- the registry as it runs

  class ServiceRegistry {
    var actionsByKey: Index
    var seenTimestamps: map<string, real>
    var failures: Failures

    constructor ()
      ensures State() == Table(map[], map[]) && failures == map[]
    {
      actionsByKey, seenTimestamps, failures := map[], map[], map[];
    }

    function State(): Table
      reads this
    {
      Table(actionsByKey, seenTimestamps)
    }

    method PushEntry(key: string, entry: ActionEntry)
      modifies `actionsByKey
      ensures actionsByKey == Push(old(actionsByKey), Keyed(key, entry))
    {
      if key !in actionsByKey {
        actionsByKey := actionsByKey[key := []];
      }
      actionsByKey := actionsByKey[key := actionsByKey[key] + [entry]];
      assert actionsByKey == Push(old(actionsByKey), Keyed(key, entry));
    }

    /** The CRUD aliases of one action. */
    method PushAliases(p: Announcement, action: Action)
      modifies `actionsByKey
      ensures actionsByKey == PushAll(old(actionsByKey), Aliases(p, action, action.flags))
    {
      hide PushAll, Push, Aliases, AliasKey, Namespace;
      var namespace := Namespace(action.path);
      PushAllNone(actionsByKey);
      AliasesSnoc(p, action, 0);
      for i := 0 to |action.flags|
        invariant actionsByKey == PushAll(old(actionsByKey), Aliases(p, action, action.flags[..i]))
      {
        var flag := action.flags[i];
        AliasesSnoc(p, action, i);
        if flag.Crud? {
          var key := AliasKey(action.sector, namespace, Tag(flag.op), action.version);
          var entry := ActionEntry(action, p.info, p.params, true);
          PushAllConcat(old(actionsByKey), Aliases(p, action, action.flags[..i]), [Keyed(key, entry)]);
          PushEntry(key, entry);
          PushAllOne(PushAll(old(actionsByKey), Aliases(p, action, action.flags[..i])), Keyed(key, entry));
        }
      }
      assert action.flags[..|action.flags|] == action.flags;
    }

    /** `inject_packet` */
    method InjectPacket(packet: Announcement, auth: Authorization, now: nat)
      modifies `actionsByKey, `seenTimestamps
      ensures State() == Inject(old(State()), Delivery(packet, now, auth))
    {
      hide PushAll, Push, Aliases, Primary, Entries;
      if !packet.valid {
        return;
      }
      var fingerprint := FingerprintOf(packet.info);
      if now as real > packet.params.timestamp + packet.params.interval as real / 1000.0 * 2.1 {
        return;
      }
      var dedupKey := DedupKey(fingerprint, packet.info.identity);
      var timestamp := packet.params.timestamp;
      if dedupKey in seenTimestamps {
        if timestamp <= seenTimestamps[dedupKey] {
          return;
        }
        actionsByKey := RetainedEverywhere(actionsByKey, packet.info.identity, fingerprint);
      }
      seenTimestamps := seenTimestamps[dedupKey := timestamp];
      ghost var start := actionsByKey;
      EntriesSnoc(packet, auth, packet.actions, 0);
      PushAllNone(start);
      for i := 0 to |packet.actions|
        invariant actionsByKey == PushAll(start, Entries(packet, auth, packet.actions[..i]))
        invariant seenTimestamps == old(seenTimestamps)[dedupKey := timestamp]
      {
        var action := packet.actions[i];
        EntriesSnoc(packet, auth, packet.actions, i);
        ghost var before := Entries(packet, auth, packet.actions[..i]);
        var primary := Primary(packet, auth, action);
        PushAllConcat(start, before, [primary]);
        PushAllOne(PushAll(start, before), primary);
        PushEntry(primary.key, primary.entry);
        PushAllConcat(start, before + [primary], Aliases(packet, action, action.flags));
        PushAliases(packet, action);
      }
      assert packet.actions[..|packet.actions|] == packet.actions;
    }

    /** `reload_from_cache`, given the announcements in the file. */
    method ReloadFromCache(packets: seq<Delivery>)
      modifies `actionsByKey, `seenTimestamps
      ensures State() == InjectAll(packets)
    {
      hide Inject;
      actionsByKey, seenTimestamps := map[], map[];
      for i := 0 to |packets|
        invariant State() == InjectAll(packets[..i])
      {
        assert packets[..i + 1][..i] == packets[..i];
        InjectPacket(packets[i].packet, packets[i].auth, packets[i].now);
      }
      assert packets[..|packets|] == packets;
    }

    /** `mark_failed` */
    method RecordFailure(identity: string, now: nat)
      modifies `failures
      ensures failures == MarkFailed(old(failures), identity, now)
    {
      var state := if identity in failures then failures[identity] else FailureState([], 0);
      var times: seq<nat> := [];
      for i := 0 to |state.times|
        invariant times == Since(state.times[..i], WindowStart(now))
      {
        assert state.times[..i + 1][..i] == state.times[..i];
        if state.times[i] >= WindowStart(now) {
          times := times + [state.times[i]];
        }
      }
      assert state.times[..|state.times|] == state.times;
      times := times + [now];
      var minutes := if |times| < 60 then |times| else 60;
      failures := failures[identity := FailureState(times, now + minutes * 60)];
    }

    /** `pick_healthy`; `random` is the random number the source draws. */
    method PickHealthy(candidates: seq<ActionEntry>, now: nat, random: nat) returns (r: Option<ActionEntry>)
      ensures Picked(r, (iset e | e in candidates), failures, now)
    {
      ghost var all := iset e | e in candidates;
      if candidates == [] {
        return None;
      }
      assert candidates[0] in all;
      var healthy, failing := [], [];
      for i := 0 to |candidates|
        invariant forall e :: e in healthy <==> e in candidates[..i] && !IsFailed(failures, e.info.identity, now)
        invariant forall e :: e in failing <==> e in candidates[..i] && IsFailed(failures, e.info.identity, now)
      {
        assert candidates[..i + 1] == candidates[..i] + [candidates[i]];
        if IsFailed(failures, candidates[i].info.identity, now) {
          failing := failing + [candidates[i]];
        } else {
          healthy := healthy + [candidates[i]];
        }
      }
      assert candidates[..|candidates|] == candidates;
      assert candidates[0] in healthy || candidates[0] in failing;
      var pool := if healthy == [] then failing else healthy;
      if pool == [] {
        return None;
      }
      var e := pool[random % |pool|];
      assert e in pool;
      return Some(e);
    }

    /** `get_action` */
    method GetAction(key: string, now: nat, random: nat) returns (r: Option<ActionEntry>)
      ensures Picked(r, (iset e | e in At(actionsByKey, Lower(key)) && e.params.weight > 0 && e.authorized),
                     failures, now)
    {
      var candidates: seq<ActionEntry> := [];
      if Lower(key) in actionsByKey {
        var entries := actionsByKey[Lower(key)];
        for i := 0 to |entries|
          invariant forall e :: e in candidates <==> e in entries[..i] && Usable(e)
        {
          assert entries[..i + 1] == entries[..i] + [entries[i]];
          if Usable(entries[i]) {
            candidates := candidates + [entries[i]];
          }
        }
        assert entries[..|entries|] == entries;
      }
      assert (iset e | e in candidates)
          == iset e | e in At(actionsByKey, Lower(key)) && e.params.weight > 0 && e.authorized;
      r := PickHealthy(candidates, now, random);
    }

    /** `find_action_with_envelope` */
    method FindActionWithEnvelope(sector: string, path: string, version: nat, envelope: string, now: nat, random: nat)
      returns (r: Option<ActionEntry>)
      ensures Picked(r, (iset e | e in At(actionsByKey, IndexKey(sector, path, version))
                                  && e.params.weight > 0 && e.authorized && envelope in e.action.envelopes),
                     failures, now)
    {
      var key := Lower(IndexKey(sector, path, version));
      LowerIdempotent(sector + ":" + path + ".v" + Decimal(version));
      var candidates: seq<ActionEntry> := [];
      if key in actionsByKey {
        var entries := actionsByKey[key];
        for i := 0 to |entries|
          invariant forall e :: e in candidates <==> e in entries[..i] && UsableFor(e, envelope)
        {
          assert entries[..i + 1] == entries[..i] + [entries[i]];
          if UsableFor(entries[i], envelope) {
            candidates := candidates + [entries[i]];
          }
        }
        assert entries[..|entries|] == entries;
      }
      assert (iset e | e in candidates)
          == iset e | e in At(actionsByKey, key) && e.params.weight > 0 && e.authorized
                      && envelope in e.action.envelopes;
      r := PickHealthy(candidates, now, random);
    }
  }

  lemma AliasesSnoc(p: Announcement, action: Action, i: nat)
    requires i <= |action.flags|
    ensures Aliases(p, action, []) == []
    ensures i < |action.flags| ==>
      var flag, before := action.flags[i], Aliases(p, action, action.flags[..i]);
      Aliases(p, action, action.flags[..i + 1]) ==
        if flag.Crud?
        then before + [Keyed(AliasKey(action.sector, Namespace(action.path), Tag(flag.op), action.version),
                             ActionEntry(action, p.info, p.params, true))]
        else before
  {
    if i < |action.flags| {
      assert action.flags[..i + 1][..i] == action.flags[..i];
    }
  }

  lemma EntriesSnoc(p: Announcement, auth: Authorization, actions: seq<Action>, i: nat)
    requires i <= |actions|
    ensures Entries(p, auth, []) == []
    ensures i < |actions| ==>
      Entries(p, auth, actions[..i + 1]) ==
      Entries(p, auth, actions[..i]) + [Primary(p, auth, actions[i])] + Aliases(p, actions[i], actions[i].flags)
  {
    if i < |actions| {
      assert actions[..i + 1][..i] == actions[..i];
    }
  }

  lemma {:induction false} PushAllConcat(index: Index, a: seq<Keyed>, b: seq<Keyed>)
    ensures PushAll(index, a + b) == PushAll(PushAll(index, a), b)
  {
    hide Push;
    if b == [] {
      assert a + b == a;
    } else {
      assert (a + b)[..|a + b| - 1] == a + b[..|b| - 1];
      PushAllConcat(index, a, b[..|b| - 1]);
    }
  }

  lemma PushAllNone(index: Index)
    ensures PushAll(index, []) == index
  {
  }

  lemma PushAllOne(index: Index, k: Keyed)
    ensures PushAll(index, [k]) == Push(index, k)
  {
    hide Push;
    assert [k][..0] == [];
  }
}
