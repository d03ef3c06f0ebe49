/** The registry agrees with its history. */
module RegistryTheorems {
  import opened Wrappers
  import opened Text
  import opened Actions
  import opened Registry

  // ---------------------------------------------------------------- the announcements in force

  /** An announcement in force, with the authorization table it was accepted under. */
  datatype Grant = Grant(packet: Announcement, auth: Authorization)

  function Time(d: Delivery): real {
    d.packet.params.timestamp
  }

  function KeyOf(p: Announcement): string {
    DedupKey(FingerprintOf(p.info), p.info.identity)
  }

  /** Delivery `i` is acceptable and newer than every acceptable one before it that has its replay key. */
  predicate Fresh(run: seq<Delivery>, i: nat)
    requires i < |run|
  {
    Acceptable(run[i])
    && forall j :: 0 <= j < i && Acceptable(run[j]) && KeyOf(run[j].packet) == KeyOf(run[i].packet)
         ==> Time(run[j]) < Time(run[i])
  }

  /** The old announcement is of the identity and certificate of the new one. One without a certificate is never
      replaced. */
  predicate Replaces(newer: Announcement, older: Announcement) {
    older.info.identity == newer.info.identity && older.info.fingerprint == Some(FingerprintOf(newer.info))
  }

  /** Delivery `i` was fresh and no later fresh one has replaced it. */
  predicate Stands(run: seq<Delivery>, i: nat)
    requires i < |run|
  {
    Fresh(run, i) && forall j :: i < j < |run| && Fresh(run, j) ==> !Replaces(run[j].packet, run[i].packet)
  }

  /** What stands among the first `n` deliveries, in the order it arrived. */
  function StandingUpTo(run: seq<Delivery>, n: nat): seq<Grant>
    requires n <= |run|
  {
    if n == 0 then []
    else StandingUpTo(run, n - 1) + (if Stands(run, n - 1) then [Grant(run[n - 1].packet, run[n - 1].auth)] else [])
  }

  function Standing(run: seq<Delivery>): seq<Grant> {
    StandingUpTo(run, |run|)
  }

  function Without(gs: seq<Grant>, p: Announcement): seq<Grant> {
    if gs == [] then []
    else
      var g := gs[|gs| - 1];
      Without(gs[..|gs| - 1], p) + (if Replaces(p, g.packet) then [] else [g])
  }

  lemma {:induction false} StandingListed(run: seq<Delivery>, i: nat, n: nat)
    requires i < n <= |run| && Stands(run, i)
    ensures Grant(run[i].packet, run[i].auth) in StandingUpTo(run, n)
  {
    if i < n - 1 {
      StandingListed(run, i, n - 1);
    }
  }

  lemma {:induction false} ListedStands(run: seq<Delivery>, n: nat, g: Grant) returns (i: nat)
    requires n <= |run| && g in StandingUpTo(run, n)
    ensures i < n && Stands(run, i) && g == Grant(run[i].packet, run[i].auth)
  {
    if Stands(run, n - 1) && g == Grant(run[n - 1].packet, run[n - 1].auth) {
      i := n - 1;
    } else {
      i := ListedStands(run, n - 1, g);
    }
  }

  // ---------------------------------------------------------------- one more delivery

  /** Acceptable, and newer than every acceptable delivery of the run that has its replay key. */
  predicate Newest(run: seq<Delivery>, d: Delivery) {
    Acceptable(d)
    && forall j :: 0 <= j < |run| && Acceptable(run[j]) && KeyOf(run[j].packet) == KeyOf(d.packet)
         ==> Time(run[j]) < Time(d)
  }

  lemma FreshStep(run: seq<Delivery>, d: Delivery)
    ensures forall i :: 0 <= i < |run| ==> (Fresh(run + [d], i) <==> Fresh(run, i))
    ensures Fresh(run + [d], |run|) <==> Newest(run, d)
  {
    hide KeyOf, Acceptable;
    var more := run + [d];
    forall i | 0 <= i < |run| ensures more[i] == run[i] {
    }
    assert more[|run|] == d;
  }

  /** Who still stands when one more delivery has come. */
  lemma StandsStep(run: seq<Delivery>, d: Delivery, i: nat)
    requires i < |run|
    ensures Stands(run + [d], i) <==> Stands(run, i) && !(Newest(run, d) && Replaces(d.packet, run[i].packet))
  {
    hide Fresh, Newest, Replaces;
    FreshStep(run, d);
    var more := run + [d];
    assert forall j :: 0 <= j < |run| ==> more[j] == run[j];
    assert more[|run|] == d;
    if Stands(more, i) {
      forall j | i < j < |run| && Fresh(run, j) ensures !Replaces(run[j].packet, run[i].packet) {
        assert Fresh(more, j);
      }
    }
  }

  lemma {:induction false} StandingUpToStep(run: seq<Delivery>, d: Delivery, n: nat)
    requires n <= |run|
    ensures StandingUpTo(run + [d], n) ==
            if Newest(run, d) then Without(StandingUpTo(run, n), d.packet) else StandingUpTo(run, n)
  {
    hide Stands, Newest, Replaces;
    if n > 0 {
      StandingUpToStep(run, d, n - 1);
      StandsStep(run, d, n - 1);
      assert (run + [d])[n - 1] == run[n - 1];
      assert StandingUpTo(run, n - 1) + [] == StandingUpTo(run, n - 1);
    }
  }

  /** What stands changes in one way only: the newest of its replay key takes the place of what it replaces. */
  lemma StandingStep(run: seq<Delivery>, d: Delivery)
    ensures Standing(run + [d]) ==
            if Newest(run, d) then Without(Standing(run), d.packet) + [Grant(d.packet, d.auth)] else Standing(run)
  {
    hide Fresh, Newest, Without;
    StandingUpToStep(run, d, |run|);
    FreshStep(run, d);
    assert (run + [d])[|run|] == d;
    assert Stands(run + [d], |run|) <==> Newest(run, d);
  }

  // ---------------------------------------------------------------- what is in the index

  function Under(ks: seq<Keyed>, key: string): seq<ActionEntry> {
    if ks == [] then []
    else Under(ks[..|ks| - 1], key) + (if ks[|ks| - 1].key == key then [ks[|ks| - 1].entry] else [])
  }

  /** The entries of one announcement under a key. */
  function EntriesOf(g: Grant, key: string): seq<ActionEntry> {
    Under(Entries(g.packet, g.auth, g.packet.actions), key)
  }

  /** The index rebuilt from the announcements in force. */
  function Rebuilt(gs: seq<Grant>, key: string): seq<ActionEntry> {
    if gs == [] then [] else Rebuilt(gs[..|gs| - 1], key) + EntriesOf(gs[|gs| - 1], key)
  }

  lemma {:induction false} AtPushAll(index: Index, ks: seq<Keyed>, key: string)
    ensures At(PushAll(index, ks), key) == At(index, key) + Under(ks, key)
  {
    if ks != [] {
      AtPushAll(index, ks[..|ks| - 1], key);
    }
  }

  predicate AllFrom(es: seq<ActionEntry>, p: Announcement) {
    forall i :: 0 <= i < |es| ==> es[i].info == p.info && es[i].params == p.params
  }

  lemma {:induction false} AliasesFrom(p: Announcement, action: Action, flags: seq<Flag>)
    ensures forall i :: 0 <= i < |Aliases(p, action, flags)| ==>
              Aliases(p, action, flags)[i].entry.info == p.info && Aliases(p, action, flags)[i].entry.params == p.params
  {
    hide AliasKey, Namespace;
    if flags != [] {
      AliasesFrom(p, action, flags[..|flags| - 1]);
    }
  }

  lemma {:induction false} EntriesFrom(p: Announcement, auth: Authorization, actions: seq<Action>)
    ensures forall i :: 0 <= i < |Entries(p, auth, actions)| ==>
              Entries(p, auth, actions)[i].entry.info == p.info && Entries(p, auth, actions)[i].entry.params == p.params
  {
    hide Aliases, IndexKey;
    if actions != [] {
      EntriesFrom(p, auth, actions[..|actions| - 1]);
      AliasesFrom(p, actions[|actions| - 1], actions[|actions| - 1].flags);
    }
  }

  lemma {:induction false} UnderFrom(ks: seq<Keyed>, p: Announcement, key: string)
    requires forall i :: 0 <= i < |ks| ==> ks[i].entry.info == p.info && ks[i].entry.params == p.params
    ensures AllFrom(Under(ks, key), p)
  {
    if ks != [] {
      UnderFrom(ks[..|ks| - 1], p, key);
    }
  }

  lemma {:induction false} RetainedConcat(a: seq<ActionEntry>, b: seq<ActionEntry>, identity: string,
                                          fingerprint: string)
    ensures Retained(a + b, identity, fingerprint) == Retained(a, identity, fingerprint) +
            Retained(b, identity, fingerprint)
  {
    if b == [] {
      assert a + b == a;
    } else {
      assert (a + b)[..|a + b| - 1] == a + b[..|b| - 1];
      RetainedConcat(a, b[..|b| - 1], identity, fingerprint);
    }
  }

  lemma {:induction false} RetainedBlock(es: seq<ActionEntry>, p: Announcement, identity: string, fingerprint: string)
    requires AllFrom(es, p)
    ensures Retained(es, identity, fingerprint) ==
            if p.info.identity == identity && p.info.fingerprint == Some(fingerprint) then [] else es
  {
    if es != [] {
      RetainedBlock(es[..|es| - 1], p, identity, fingerprint);
    }
  }

  /** Taking replaced entries out of the rebuilt index leaves the index rebuilt without them. */
  lemma {:induction false} RetainedRebuilt(gs: seq<Grant>, p: Announcement, key: string)
    ensures Retained(Rebuilt(gs, key), p.info.identity, FingerprintOf(p.info)) == Rebuilt(Without(gs, p), key)
  {
    hide EntriesOf, Retained, FingerprintOf;
    var fingerprint := FingerprintOf(p.info);
    if gs == [] {
      RetainedBlock([], p, p.info.identity, fingerprint);
    } else {
      var front, g := gs[..|gs| - 1], gs[|gs| - 1];
      RetainedRebuilt(front, p, key);
      EntriesOfFrom(g, key);
      RetainedConcat(Rebuilt(front, key), EntriesOf(g, key), p.info.identity, fingerprint);
      RetainedBlock(EntriesOf(g, key), g.packet, p.info.identity, fingerprint);
      RebuiltSnoc(Without(front, p), g, key);
      if Replaces(p, g.packet) {
        assert Without(gs, p) == Without(front, p);
      }
    }
  }

  lemma EntriesOfFrom(g: Grant, key: string)
    ensures AllFrom(EntriesOf(g, key), g.packet)
  {
    hide Entries, Under;
    EntriesFrom(g.packet, g.auth, g.packet.actions);
    UnderFrom(Entries(g.packet, g.auth, g.packet.actions), g.packet, key);
  }

  lemma RebuiltSnoc(gs: seq<Grant>, g: Grant, key: string)
    ensures Rebuilt(gs + [g], key) == Rebuilt(gs, key) + EntriesOf(g, key)
  {
    hide EntriesOf;
    assert (gs + [g])[..|gs|] == gs;
  }

  // ---------------------------------------------------------------- refinement

  ghost predicate Holds(run: seq<Delivery>, key: string, time: real) {
    exists j :: 0 <= j < |run| && Acceptable(run[j]) && KeyOf(run[j].packet) == key && Time(run[j]) == time
  }

  /** The replay table holds of each replay key the newest timestamp that was acceptable, and nothing else. */
  ghost predicate SeenFits(seen: map<string, real>, run: seq<Delivery>) {
    && (forall key :: key in seen ==> Holds(run, key, seen[key]))
    && (forall j :: 0 <= j < |run| && Acceptable(run[j]) ==>
          KeyOf(run[j].packet) in seen && Time(run[j]) <= seen[KeyOf(run[j].packet)])
  }

  ghost predicate Refines(t: Table, run: seq<Delivery>) {
    (forall key :: At(t.index, key) == Rebuilt(Standing(run), key)) && SeenFits(t.seen, run)
  }

  /** The replay check lets through exactly what is newest. */
  lemma SeenDecides(seen: map<string, real>, run: seq<Delivery>, d: Delivery)
    requires SeenFits(seen, run)
    ensures Newest(run, d) <==>
            Acceptable(d) && !(KeyOf(d.packet) in seen && Time(d) <= seen[KeyOf(d.packet)])
  {
    hide KeyOf, Acceptable;
  }

  lemma HoldsMore(run: seq<Delivery>, d: Delivery, key: string, time: real)
    requires Holds(run, key, time)
    ensures Holds(run + [d], key, time)
  {
    hide KeyOf, Acceptable;
    var j :| 0 <= j < |run| && Acceptable(run[j]) && KeyOf(run[j].packet) == key && Time(run[j]) == time;
    assert (run + [d])[j] == run[j];
  }

  lemma SeenStep(seen: map<string, real>, run: seq<Delivery>, d: Delivery)
    requires SeenFits(seen, run)
    ensures SeenFits(if Newest(run, d) then seen[KeyOf(d.packet) := Time(d)] else seen, run + [d])
  {
    hide KeyOf, Acceptable, Newest;
    SeenDecides(seen, run, d);
    var seen' := if Newest(run, d) then seen[KeyOf(d.packet) := Time(d)] else seen;
    var more := run + [d];
    assert more[|run|] == d;
    forall key | key in seen' ensures Holds(more, key, seen'[key]) {
      if Newest(run, d) && key == KeyOf(d.packet) {
      } else {
        HoldsMore(run, d, key, seen[key]);
      }
    }
    forall j | 0 <= j < |more| && Acceptable(more[j])
      ensures KeyOf(more[j].packet) in seen' && Time(more[j]) <= seen'[KeyOf(more[j].packet)]
    {
      assert j < |run| ==> more[j] == run[j];
    }
  }

  /** Nothing to take out while the replay key is unknown. */
  lemma {:induction false} WithoutNothing(gs: seq<Grant>, p: Announcement)
    requires forall i :: 0 <= i < |gs| ==> !Replaces(p, gs[i].packet)
    ensures Without(gs, p) == gs
  {
    hide Replaces;
    if gs != [] {
      var n := |gs| - 1;
      assert forall i :: 0 <= i < n ==> gs[..n][i] == gs[i];
      WithoutNothing(gs[..n], p);
      assert !Replaces(p, gs[n].packet);
      assert gs == gs[..n] + [gs[n]];
    }
  }

  lemma UnknownReplacesNothing(seen: map<string, real>, run: seq<Delivery>, p: Announcement)
    requires SeenFits(seen, run) && KeyOf(p) !in seen
    ensures Without(Standing(run), p) == Standing(run)
  {
    hide Without;
    forall g | g in Standing(run) ensures !Replaces(p, g.packet) {
      var i := ListedStands(run, |run|, g);
    }
    WithoutNothing(Standing(run), p);
  }

  lemma IndexStep(t: Table, run: seq<Delivery>, d: Delivery, key: string)
    requires Refines(t, run) && Newest(run, d)
    ensures At(Inject(t, d).index, key) == Rebuilt(Without(Standing(run), d.packet) + [Grant(d.packet, d.auth)], key)
  {
    hide Entries, Under, Retained, Rebuilt, Without, Standing, PushAll, Acceptable, Newest, SeenFits;
    var p := d.packet;
    SeenDecides(t.seen, run, d);
    var index :=
      if KeyOf(p) in t.seen then RetainedEverywhere(t.index, p.info.identity, FingerprintOf(p.info)) else t.index;
    AtPushAll(index, Entries(p, d.auth, p.actions), key);
    RebuiltSnoc(Without(Standing(run), p), Grant(p, d.auth), key);
    if KeyOf(p) in t.seen {
      RetainedRebuilt(Standing(run), p, key);
      RetainedBlock([], p, p.info.identity, FingerprintOf(p.info));
    } else {
      UnknownReplacesNothing(t.seen, run, p);
    }
  }

  /** One more packet keeps the index equal to the one rebuilt from the history. */
  lemma InjectRefines(t: Table, run: seq<Delivery>, d: Delivery)
    requires Refines(t, run)
    ensures Refines(Inject(t, d), run + [d])
  {
    hide Entries, Without, Standing, Newest, Acceptable, Rebuilt, RetainedEverywhere, PushAll, At, SeenFits;
    StandingStep(run, d);
    SeenDecides(t.seen, run, d);
    SeenStep(t.seen, run, d);
    if Newest(run, d) {
      forall key ensures At(Inject(t, d).index, key) == Rebuilt(Standing(run + [d]), key) {
        IndexStep(t, run, d, key);
      }
    }
  }

  lemma {:induction false} RunRefines(run: seq<Delivery>)
    ensures Refines(InjectAll(run), run)
  {
    hide Inject;
    if run == [] {
      NothingRefines();
    } else {
      var front, d := run[..|run| - 1], run[|run| - 1];
      RunRefines(front);
      InjectRefines(InjectAll(front), front, d);
      assert run == front + [d];
    }
  }

  lemma NothingRefines()
    ensures Refines(Table(map[], map[]), [])
  {
  }

  /** After any run of announcements whatever, with or without certificates, at any times and under any authorization
      tables, the index holds under every key exactly the entries of the announcements that stand, in the order
      of acceptance, and the replay table the newest acceptable timestamp of each replay key. */
  lemma IndexIsHistory(run: seq<Delivery>)
    ensures forall key :: At(InjectAll(run).index, key) == Rebuilt(Standing(run), key)
    ensures SeenFits(InjectAll(run).seen, run)
  {
    hide Standing, Rebuilt, SeenFits;
    RunRefines(run);
  }

  // ---------------------------------------------------------------- last writer wins

  predicate SameSource(a: Announcement, b: Announcement) {
    a.info.identity == b.info.identity && FingerprintOf(a.info) == FingerprintOf(b.info)
  }

  /** A certificate fingerprint as `cert_sha1_fingerprint` makes it, of hexadecimal pairs and colons, or none. */
  predicate Unspaced(p: Announcement) {
    ' ' !in FingerprintOf(p.info)
  }

  predicate AllUnspaced(run: seq<Delivery>) {
    forall i :: 0 <= i < |run| ==> Unspaced(run[i].packet)
  }

  /** Deliveries `i` and `j` are acceptable and of the same source. */
  predicate Rivals(run: seq<Delivery>, i: nat, j: nat)
    requires i < |run| && j < |run|
  {
    Acceptable(run[i]) && Acceptable(run[j]) && SameSource(run[i].packet, run[j].packet)
  }

  /** Of all acceptable deliveries of its source, this is the newest, and the first of that age. */
  predicate Wins(run: seq<Delivery>, i: nat)
    requires i < |run|
  {
    Acceptable(run[i])
    && forall j :: 0 <= j < |run| && Rivals(run, i, j) ==>
         (j < i ==> Time(run[j]) < Time(run[i])) && (j > i ==> Time(run[j]) <= Time(run[i]))
  }

  /** With a certificate the last writer remains; without one everybody who was newer than all before. */
  predicate Remains(run: seq<Delivery>, i: nat)
    requires i < |run|
  {
    if run[i].packet.info.fingerprint.Some? then Wins(run, i) else Fresh(run, i)
  }

  /** What remains of the first `n` deliveries, in the order they arrived. */
  function RemainingOf(run: seq<Delivery>, n: nat): seq<Grant>
    requires n <= |run|
  {
    if n == 0 then []
    else RemainingOf(run, n - 1) + (if Remains(run, n - 1) then [Grant(run[n - 1].packet, run[n - 1].auth)] else [])
  }

  function Remaining(run: seq<Delivery>): seq<Grant> {
    RemainingOf(run, |run|)
  }

  /** The best of the first `n` acceptable deliveries of the source of `run[j]`. */
  lemma {:induction false} Best(run: seq<Delivery>, j: nat, n: nat) returns (i: nat)
    requires j < n <= |run| && Acceptable(run[j])
    ensures i < n && Rivals(run, i, j) && Time(run[j]) <= Time(run[i])
    ensures forall k :: 0 <= k < n && Rivals(run, i, k) ==>
              (k < i ==> Time(run[k]) < Time(run[i])) && (k > i ==> Time(run[k]) <= Time(run[i]))
    decreases n
  {
    assert Rivals(run, j, j);
    if k :| 0 <= k < n - 1 && Rivals(run, j, k) {
      var best := Best(run, k, n - 1);
      i := best;
      if Rivals(run, best, n - 1) && Time(run[n - 1]) > Time(run[best]) {
        i := n - 1;
        forall k | 0 <= k < n - 1 && Rivals(run, i, k) ensures Time(run[k]) < Time(run[i]) {
          assert Rivals(run, best, k);
        }
      }
    } else {
      i := j;
    }
  }

  lemma KeyTellsSource(p: Announcement, q: Announcement)
    requires Unspaced(p) && Unspaced(q)
    ensures KeyOf(p) == KeyOf(q) <==> SameSource(p, q)
    ensures Replaces(p, q) <==> SameSource(p, q) && q.info.fingerprint.Some?
  {
    if KeyOf(p) == KeyOf(q) {
      FirstSplitUnique(FingerprintOf(p.info), p.info.identity, FingerprintOf(q.info), q.info.identity, ' ');
    }
  }

  /** The first delivery after the `i`th that is newer, among acceptable ones of its source. */
  lemma {:induction false} FirstNewer(run: seq<Delivery>, i: nat, j: nat) returns (k: nat)
    requires i < j < |run| && Rivals(run, i, j) && Time(run[j]) > Time(run[i])
    ensures i < k <= j && Rivals(run, i, k) && Time(run[k]) > Time(run[i])
    ensures forall l :: i < l < k && Rivals(run, i, l) ==> Time(run[l]) <= Time(run[i])
  {
    if l :| i < l < j && Rivals(run, i, l) && Time(run[l]) > Time(run[i]) {
      k := FirstNewer(run, i, l);
    } else {
      k := j;
    }
  }

  lemma StandsIsRemains(run: seq<Delivery>, i: nat)
    requires AllUnspaced(run) && i < |run|
    ensures Stands(run, i) <==> Remains(run, i)
  {
    hide Acceptable, Unspaced, KeyOf, Replaces, SameSource;
    forall j, k | 0 <= j < |run| && 0 <= k < |run|
      ensures KeyOf(run[j].packet) == KeyOf(run[k].packet) <==> SameSource(run[j].packet, run[k].packet)
      ensures Replaces(run[j].packet, run[k].packet)
          <==> SameSource(run[j].packet, run[k].packet) && run[k].packet.info.fingerprint.Some?
    {
      KeyTellsSource(run[j].packet, run[k].packet);
    }
    if run[i].packet.info.fingerprint.Some? {
      if Wins(run, i) {
        WinnerStands(run, i);
      }
      if Stands(run, i) {
        StanderWins(run, i);
      }
    }
  }

  ghost predicate KeysTell(run: seq<Delivery>) {
    forall j, k :: 0 <= j < |run| && 0 <= k < |run| ==>
      && (KeyOf(run[j].packet) == KeyOf(run[k].packet) <==> SameSource(run[j].packet, run[k].packet))
      && (Replaces(run[j].packet, run[k].packet)
          <==> SameSource(run[j].packet, run[k].packet) && run[k].packet.info.fingerprint.Some?)
  }

  lemma WinnerStands(run: seq<Delivery>, i: nat)
    requires KeysTell(run) && i < |run| && Wins(run, i)
    ensures Stands(run, i)
  {
    hide Acceptable, KeyOf, Replaces;
    assert SameSource(run[i].packet, run[i].packet);
    forall j | 0 <= j < |run| && Acceptable(run[j]) && KeyOf(run[j].packet) == KeyOf(run[i].packet)
      ensures (j < i ==> Time(run[j]) < Time(run[i])) && (j > i ==> Time(run[j]) <= Time(run[i]))
    {
      assert Rivals(run, i, j);
    }
    forall j | i < j < |run| && Fresh(run, j) ensures !Replaces(run[j].packet, run[i].packet) {
    }
  }

  lemma StanderWins(run: seq<Delivery>, i: nat)
    requires KeysTell(run) && i < |run| && Stands(run, i) && run[i].packet.info.fingerprint.Some?
    ensures Wins(run, i)
  {
    hide Acceptable, KeyOf, Replaces;
    forall j | 0 <= j < |run| && Rivals(run, i, j)
      ensures (j < i ==> Time(run[j]) < Time(run[i])) && (j > i ==> Time(run[j]) <= Time(run[i]))
    {
      assert KeyOf(run[j].packet) == KeyOf(run[i].packet);
      if j > i && Time(run[j]) > Time(run[i]) {
        var k := FirstNewer(run, i, j);
        assert Replaces(run[k].packet, run[i].packet);
        forall l | 0 <= l < k && Acceptable(run[l]) && KeyOf(run[l].packet) == KeyOf(run[k].packet)
          ensures Time(run[l]) < Time(run[k])
        {
          assert Rivals(run, i, l);
        }
      }
    }
  }

  lemma {:induction false} StandingRemains(run: seq<Delivery>, n: nat)
    requires AllUnspaced(run) && n <= |run|
    ensures StandingUpTo(run, n) == RemainingOf(run, n)
  {
    hide Stands, Remains, AllUnspaced;
    if n > 0 {
      StandingRemains(run, n - 1);
      StandsIsRemains(run, n - 1);
    }
  }

  /** The index holds under every key exactly the entries, primary keys and aliases alike, of the latest accepted
      announcement of each source with a certificate, and of every announcement without one that was newer than
      all before it, in the order of acceptance; the replay table holds the latest timestamp of each source. */
  lemma LastWriterWins(run: seq<Delivery>)
    requires AllUnspaced(run)
    ensures forall key :: At(InjectAll(run).index, key) == Rebuilt(Remaining(run), key)
    ensures forall i :: 0 <= i < |run| && Wins(run, i) ==>
              KeyOf(run[i].packet) in InjectAll(run).seen && InjectAll(run).seen[KeyOf(run[i].packet)] == Time(run[i])
    ensures forall key :: key in InjectAll(run).seen ==>
              exists i :: 0 <= i < |run| && Wins(run, i) && KeyOf(run[i].packet) == key
  {
    hide InjectAll, Rebuilt, Unspaced, KeyOf, Acceptable, Replaces, SameSource, At, Standing, Remaining;
    IndexIsHistory(run);
    StandingRemains(run, |run|);
    assert Standing(run) == Remaining(run) by { StandingIsRemaining(run); }
    var seen := InjectAll(run).seen;
    forall j, k | 0 <= j < |run| && 0 <= k < |run|
      ensures KeyOf(run[j].packet) == KeyOf(run[k].packet) <==> SameSource(run[j].packet, run[k].packet)
    {
      KeyTellsSource(run[j].packet, run[k].packet);
    }
    forall i | 0 <= i < |run| && Wins(run, i)
      ensures KeyOf(run[i].packet) in seen && seen[KeyOf(run[i].packet)] == Time(run[i])
    {
      WinnerSeen(seen, run, i);
    }
    forall key | key in seen ensures exists i :: 0 <= i < |run| && Wins(run, i) && KeyOf(run[i].packet) == key {
      var j :| 0 <= j < |run| && Acceptable(run[j]) && KeyOf(run[j].packet) == key && Time(run[j]) == seen[key];
      var i := Best(run, j, |run|);
      assert Wins(run, i);
    }
  }

  lemma StandingIsRemaining(run: seq<Delivery>)
    requires StandingUpTo(run, |run|) == RemainingOf(run, |run|)
    ensures Standing(run) == Remaining(run)
  {
  }

  lemma WinnerSeen(seen: map<string, real>, run: seq<Delivery>, i: nat)
    requires SeenFits(seen, run) && i < |run| && Wins(run, i)
    requires forall j :: 0 <= j < |run| && KeyOf(run[j].packet) == KeyOf(run[i].packet)
               ==> SameSource(run[i].packet, run[j].packet)
    ensures KeyOf(run[i].packet) in seen && seen[KeyOf(run[i].packet)] == Time(run[i])
  {
    hide KeyOf, Acceptable, SameSource;
    var key := KeyOf(run[i].packet);
    var j :| 0 <= j < |run| && Acceptable(run[j]) && KeyOf(run[j].packet) == key && Time(run[j]) == seen[key];
    assert Rivals(run, i, j);
  }
}
