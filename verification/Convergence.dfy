/** When the order in which announcements arrive does not matter. */
module Convergence {
  import opened Actions
  import opened Registry
  import opened RegistryTheorems

  ghost predicate Accepted(run: seq<Delivery>, p: Announcement) {
    exists i :: 0 <= i < |run| && Acceptable(run[i]) && run[i].packet == p
  }

  ghost predicate SameAccepted(a: seq<Delivery>, b: seq<Delivery>) {
    forall p :: Accepted(a, p) <==> Accepted(b, p)
  }

  ghost predicate UnderOneTable(run: seq<Delivery>, auth: Authorization) {
    forall i :: 0 <= i < |run| ==> run[i].auth == auth
  }

  /** Of the acceptable deliveries with its replay key, this announcement alone is the newest, and replaces the
      others. */
  predicate Tops(run: seq<Delivery>, p: Announcement) {
    forall j :: 0 <= j < |run| && Acceptable(run[j]) && KeyOf(run[j].packet) == KeyOf(p) ==>
      run[j].packet == p || (Time(run[j]) < p.params.timestamp && Replaces(p, run[j].packet))
  }

  predicate Topped(run: seq<Delivery>, key: string) {
    exists r :: 0 <= r < |run| && Acceptable(run[r]) && KeyOf(run[r].packet) == key && Tops(run, run[r].packet)
  }

  /** Every replay key has such an announcement. */
  predicate Settled(run: seq<Delivery>) {
    forall i :: 0 <= i < |run| && Acceptable(run[i]) ==> Topped(run, KeyOf(run[i].packet))
  }

  lemma TopOf(run: seq<Delivery>, i: nat) returns (r: nat)
    requires Settled(run) && i < |run| && Acceptable(run[i])
    ensures r < |run| && Acceptable(run[r]) && KeyOf(run[r].packet) == KeyOf(run[i].packet) && Tops(run, run[r].packet)
  {
    hide Acceptable, KeyOf, Tops;
    assert Topped(run, KeyOf(run[i].packet));
    r :| 0 <= r < |run| && Acceptable(run[r]) && KeyOf(run[r].packet) == KeyOf(run[i].packet) &&
      Tops(run, run[r].packet);
  }

  // ---------------------------------------------------------------- settled runs

  /** The first acceptable delivery of a packet. */
  lemma {:induction false} FirstOf(run: seq<Delivery>, p: Announcement, n: nat) returns (i: nat)
    requires n < |run| && Acceptable(run[n]) && run[n].packet == p
    ensures i <= n && Acceptable(run[i]) && run[i].packet == p
    ensures forall j :: 0 <= j < i && Acceptable(run[j]) ==> run[j].packet != p
  {
    hide Acceptable;
    if j :| 0 <= j < n && Acceptable(run[j]) && run[j].packet == p {
      i := FirstOf(run, p, j);
    } else {
      i := n;
    }
  }

  lemma ReplacesSharesKey(p: Announcement, q: Announcement)
    requires Replaces(p, q)
    ensures KeyOf(p) == KeyOf(q)
  {
  }

  /** A top stands. */
  lemma TopStands(run: seq<Delivery>, p: Announcement) returns (i: nat)
    requires Accepted(run, p) && Tops(run, p)
    ensures i < |run| && Stands(run, i) && run[i].packet == p
  {
    hide Acceptable, KeyOf, Replaces;
    var n :| 0 <= n < |run| && Acceptable(run[n]) && run[n].packet == p;
    i := FirstOf(run, p, n);
    forall j | i < j < |run| && Fresh(run, j) ensures !Replaces(run[j].packet, run[i].packet) {
      if Replaces(run[j].packet, run[i].packet) {
        ReplacesSharesKey(run[j].packet, run[i].packet);
      }
    }
  }

  /** In a settled run only tops stand. */
  lemma StanderTops(run: seq<Delivery>, i: nat)
    requires Settled(run) && i < |run| && Stands(run, i)
    ensures Tops(run, run[i].packet)
  {
    hide Acceptable, KeyOf, Replaces, Settled;
    var r := TopOf(run, i);
    if run[r].packet != run[i].packet {
      var first := FirstOf(run, run[r].packet, r);
    }
  }

  /** A settled run is one in whatever order it comes. */
  lemma SettledBoth(a: seq<Delivery>, b: seq<Delivery>)
    requires Settled(a) && SameAccepted(a, b)
    ensures Settled(b)
    ensures forall p :: Accepted(a, p) && Tops(a, p) ==> Tops(b, p)
  {
    hide Acceptable, KeyOf, Tops, SameAccepted;
    forall p | Accepted(a, p) && Tops(a, p) ensures Tops(b, p) {
      TopBoth(a, b, p);
    }
    forall i | 0 <= i < |b| && Acceptable(b[i]) ensures Topped(b, KeyOf(b[i].packet)) {
      var i' := DeliveredToo(b, a, i);
      var r' := TopOf(a, i');
      var r := DeliveredToo(a, b, r');
    }
  }

  lemma DeliveredToo(a: seq<Delivery>, b: seq<Delivery>, i: nat) returns (j: nat)
    requires (SameAccepted(a, b) || SameAccepted(b, a)) && i < |a| && Acceptable(a[i])
    ensures j < |b| && Acceptable(b[j]) && b[j].packet == a[i].packet
  {
    hide Acceptable;
    assert Accepted(a, a[i].packet);
    assert Accepted(b, a[i].packet);
    j :| 0 <= j < |b| && Acceptable(b[j]) && b[j].packet == a[i].packet;
  }

  lemma TopBoth(a: seq<Delivery>, b: seq<Delivery>, p: Announcement)
    requires SameAccepted(a, b) && Tops(a, p)
    ensures Tops(b, p)
  {
    hide Acceptable, KeyOf, Replaces, SameAccepted;
    forall j | 0 <= j < |b| && Acceptable(b[j]) && KeyOf(b[j].packet) == KeyOf(p)
      ensures b[j].packet == p || (Time(b[j]) < p.params.timestamp && Replaces(p, b[j].packet))
    {
      var j' := DeliveredToo(b, a, j);
    }
  }

  ghost predicate SameStanding(a: seq<Delivery>, b: seq<Delivery>) {
    forall g :: g in Standing(a) <==> g in Standing(b)
  }

  lemma StandsInBoth(a: seq<Delivery>, b: seq<Delivery>, auth: Authorization, g: Grant)
    requires Settled(a) && SameAccepted(a, b) && UnderOneTable(a, auth) && UnderOneTable(b, auth)
    requires g in Standing(a)
    ensures g in Standing(b)
  {
    hide Stands, Settled, Tops, Acceptable;
    var i := ListedStands(a, |a|, g);
    StanderTops(a, i);
    assert Accepted(a, g.packet) by { StanderAccepted(a, i); }
    SettledBoth(a, b);
    var k := TopStands(b, g.packet);
    StandingListed(b, k, |b|);
  }

  lemma StanderAccepted(run: seq<Delivery>, i: nat)
    requires i < |run| && Stands(run, i)
    ensures Accepted(run, run[i].packet)
  {
    hide Acceptable, KeyOf;
  }

  lemma SettledConverges(a: seq<Delivery>, b: seq<Delivery>, auth: Authorization)
    requires Settled(a) && SameAccepted(a, b) && UnderOneTable(a, auth) && UnderOneTable(b, auth)
    ensures SameStanding(a, b)
  {
    hide Settled, Standing, Accepted, UnderOneTable;
    assert SameAccepted(b, a);
    SettledBoth(a, b);
    forall g ensures g in Standing(a) <==> g in Standing(b) {
      if g in Standing(a) {
        StandsInBoth(a, b, auth, g);
      }
      if g in Standing(b) {
        StandsInBoth(b, a, auth, g);
      }
    }
  }

  // ---------------------------------------------------------------- what stands decides the index

  ghost predicate NoDuplicates(gs: seq<Grant>) {
    forall i, j :: 0 <= i < j < |gs| ==> gs[i] != gs[j]
  }

  /** No announcement stands twice: its second delivery is not newer. */
  lemma {:induction false} StandingDistinct(run: seq<Delivery>, n: nat)
    requires n <= |run|
    ensures NoDuplicates(StandingUpTo(run, n))
  {
    if n > 0 {
      StandingDistinct(run, n - 1);
      var gs := StandingUpTo(run, n - 1);
      if Stands(run, n - 1) {
        forall k | 0 <= k < |gs| ensures gs[k].packet != run[n - 1].packet {
          var i := ListedStands(run, n - 1, gs[k]);
        }
      }
    }
  }

  lemma {:induction false} RebuiltConcat(gs: seq<Grant>, hs: seq<Grant>, key: string)
    ensures Rebuilt(gs + hs, key) == Rebuilt(gs, key) + Rebuilt(hs, key)
  {
    hide EntriesOf;
    if hs == [] {
      assert gs + hs == gs;
    } else {
      assert (gs + hs)[..|gs + hs| - 1] == gs + hs[..|hs| - 1];
      RebuiltConcat(gs, hs[..|hs| - 1], key);
    }
  }

  /** The rebuilt index depends only on which announcements stand. */
  lemma {:induction false} MembersDecide(gs: seq<Grant>, hs: seq<Grant>, key: string)
    requires NoDuplicates(gs) && NoDuplicates(hs)
    requires forall g :: g in gs <==> g in hs
    ensures multiset(Rebuilt(gs, key)) == multiset(Rebuilt(hs, key))
  {
    hide Rebuilt, NoDuplicates;
    if gs == [] {
      HasMember(hs);
    } else {
      var front, g := gs[..|gs| - 1], gs[|gs| - 1];
      assert gs == front + [g];
      assert g in hs;
      var k :| 0 <= k < |hs| && hs[k] == g;
      var x, y := hs[..k], hs[k + 1..];
      assert hs == x + [g] + y;
      Removed(front, x, g, y);
      MembersDecide(front, x + y, key);
      RebuiltConcat(x, [g], key);
      RebuiltConcat(x + [g], y, key);
      RebuiltConcat(x, y, key);
      RebuiltConcat(front, [g], key);
    }
  }

  lemma HasMember(gs: seq<Grant>)
    ensures gs == [] || exists g :: g in gs
  {
    assert gs != [] ==> gs[0] in gs;
  }

  lemma Removed(front: seq<Grant>, x: seq<Grant>, g: Grant, y: seq<Grant>)
    requires NoDuplicates(front + [g]) && NoDuplicates(x + [g] + y)
    requires forall h :: h in front + [g] <==> h in x + [g] + y
    ensures NoDuplicates(front) && NoDuplicates(x + y)
    ensures forall h :: h in front <==> h in x || h in y
  {
    var gs, hs, rest := front + [g], x + [g] + y, x + y;
    assert gs[|front|] == g && hs[|x|] == g;
    forall i | 0 <= i < |front| ensures front[i] in gs && front[i] != g {
      assert gs[i] == front[i];
    }
    forall i, j | 0 <= i < j < |front| ensures front[i] != front[j] {
      assert gs[i] == front[i] && gs[j] == front[j];
    }
    forall i | 0 <= i < |rest| ensures rest[i] in hs && rest[i] != g {
      assert if i < |x| then hs[i] == rest[i] else hs[i + 1] == rest[i];
    }
    forall i, j | 0 <= i < j < |rest| ensures rest[i] != rest[j] {
      var i', j' := if i < |x| then i else i + 1, if j < |x| then j else j + 1;
      assert hs[i'] == rest[i] && hs[j'] == rest[j];
    }
    forall h ensures h in front <==> h in rest {
      assert h in front ==> h in gs && h != g;
      assert h in rest ==> h in hs && h != g;
    }
  }

  /** The replay table depends only on what was acceptable. */
  lemma SeenDecided(s: map<string, real>, t: map<string, real>, a: seq<Delivery>, b: seq<Delivery>)
    requires SeenFits(s, a) && SeenFits(t, b) && SameAccepted(a, b)
    ensures s == t
  {
    hide SeenFits;
    forall key ensures key in s <==> key in t {
      SeenBelow(s, t, a, b, key);
      SeenBelow(t, s, b, a, key);
    }
    forall key | key in s ensures s[key] == t[key] {
      SeenBelow(s, t, a, b, key);
      SeenBelow(t, s, b, a, key);
    }
  }

  lemma SeenBelow(s: map<string, real>, t: map<string, real>, a: seq<Delivery>, b: seq<Delivery>, key: string)
    requires SeenFits(s, a) && SeenFits(t, b) && SameAccepted(a, b)
    ensures key in s ==> key in t && s[key] <= t[key]
  {
    hide KeyOf, Acceptable;
    if key in s {
      var j :| 0 <= j < |a| && Acceptable(a[j]) && KeyOf(a[j].packet) == key && Time(a[j]) == s[key];
      assert Accepted(a, a[j].packet);
      var k :| 0 <= k < |b| && Acceptable(b[k]) && b[k].packet == a[j].packet;
    }
  }

  /** Two runs under one authorization table that accept the same packets, in any order and any number of times, leave
      the same entries under every key and the same replay table, if the packets are settled. */
  lemma Convergence(a: seq<Delivery>, b: seq<Delivery>, auth: Authorization)
    requires UnderOneTable(a, auth) && UnderOneTable(b, auth)
    requires SameAccepted(a, b) && Settled(a)
    ensures forall key :: multiset(At(InjectAll(a).index, key)) == multiset(At(InjectAll(b).index, key))
    ensures InjectAll(a).seen == InjectAll(b).seen
  {
    hide InjectAll, Rebuilt, Standing, At, Settled, SeenFits, Accepted, UnderOneTable;
    SettledConverges(a, b, auth);
    StandingOnce(a);
    StandingOnce(b);
    IndexIsHistory(a);
    IndexIsHistory(b);
    forall key ensures multiset(At(InjectAll(a).index, key)) == multiset(At(InjectAll(b).index, key)) {
      MembersDecide(Standing(a), Standing(b), key);
    }
    SeenDecided(InjectAll(a).seen, InjectAll(b).seen, a, b);
  }

  lemma StandingOnce(run: seq<Delivery>)
    ensures NoDuplicates(Standing(run))
  {
    StandingDistinct(run, |run|);
  }

  // ---------------------------------------------------------------- and only then

  /** A newest acceptable delivery among those with a replay key. */
  lemma {:induction false} NewestOfKey(run: seq<Delivery>, i: nat, n: nat) returns (r: nat)
    requires i < n <= |run| && Acceptable(run[i])
    ensures r < n && Acceptable(run[r]) && KeyOf(run[r].packet) == KeyOf(run[i].packet)
    ensures forall j :: 0 <= j < n && Acceptable(run[j]) && KeyOf(run[j].packet) == KeyOf(run[i].packet)
              ==> Time(run[j]) <= Time(run[r])
    decreases n
  {
    hide Acceptable, KeyOf;
    if k :| 0 <= k < n - 1 && Acceptable(run[k]) && KeyOf(run[k].packet) == KeyOf(run[i].packet) {
      r := NewestOfKey(run, k, n - 1);
      if Acceptable(run[n - 1]) && KeyOf(run[n - 1].packet) == KeyOf(run[i].packet) && Time(run[n - 1]) > Time(run[r]) {
        r := n - 1;
      }
    } else {
      r := i;
    }
  }

  lemma AcceptedFrom(run: seq<Delivery>, front: seq<Delivery>)
    requires forall i :: 0 <= i < |front| ==> front[i] in run
    ensures SameAccepted(run, front + run)
  {
    hide Acceptable;
    var more := front + run;
    forall p ensures Accepted(run, p) <==> Accepted(more, p) {
      if Accepted(run, p) {
        var i :| 0 <= i < |run| && Acceptable(run[i]) && run[i].packet == p;
        assert more[|front| + i] == run[i];
      }
      if Accepted(more, p) {
        var i :| 0 <= i < |more| && Acceptable(more[i]) && more[i].packet == p;
        assert more[i] in run;
      }
    }
  }

  /** Delivered before a newest one that does not replace it, a packet stays; delivered after, it never stands. */
  lemma OrderMatters(run: seq<Delivery>, q: nat, r: nat)
    requires q < |run| && r < |run| && Acceptable(run[q]) && Acceptable(run[r])
    requires KeyOf(run[q].packet) == KeyOf(run[r].packet) && run[q].packet != run[r].packet
    requires forall j :: 0 <= j < |run| && Acceptable(run[j]) && KeyOf(run[j].packet) == KeyOf(run[q].packet)
               ==> Time(run[j]) <= Time(run[r])
    requires !(Time(run[q]) < Time(run[r]) && Replaces(run[r].packet, run[q].packet))
    ensures Grant(run[q].packet, run[q].auth) in Standing([run[q], run[r]] + run)
    ensures forall g :: g in Standing([run[r]] + run) ==> g.packet != run[q].packet
  {
    hide Acceptable, KeyOf, Replaces;
    var early, late := [run[q], run[r]] + run, [run[r]] + run;
    assert forall j :: 0 <= j < |early| ==> 
      early[j] == if j == 0 then run[q] else if j == 1 then run[r] else run[j - 2];
    assert forall j :: 0 <= j < |late| ==> late[j] == if j == 0 then run[r] else run[j - 1];
    assert Fresh(early, 0);
    forall j | 0 < j < |early| && Replaces(early[j].packet, early[0].packet) ensures !Fresh(early, j) {
      ReplacesSharesKey(early[j].packet, early[0].packet);
      assert early[1] == run[r];
      if j > 1 && Acceptable(early[j]) {
        assert Time(early[j]) <= Time(early[1]);
      }
    }
    StandingListed(early, 0, |early|);
    forall i | 0 <= i < |late| && late[i].packet == run[q].packet ensures !Fresh(late, i) {
      assert late[0] == run[r] && Time(late[i]) <= Time(late[0]);
    }
    forall g | g in Standing(late) ensures g.packet != run[q].packet {
      var i := ListedStands(late, |late|, g);
    }
  }

  /** The order does not matter exactly if the packets are settled. */
  lemma ConvergenceExact(a: seq<Delivery>, auth: Authorization)
    requires UnderOneTable(a, auth)
    ensures (forall b :: UnderOneTable(b, auth) && SameAccepted(a, b) ==> SameStanding(a, b)) <==> Settled(a)
  {
    hide Settled, Standing, Accepted, Acceptable;
    if Settled(a) {
      forall b | UnderOneTable(b, auth) && SameAccepted(a, b) ensures SameStanding(a, b) {
        SettledConverges(a, b, auth);
      }
    } else {
      var q, r := Unsettled(a);
      OrderMatters(a, q, r);
      var early, late := [a[q], a[r]] + a, [a[r]] + a;
      AcceptedFrom(a, [a[q], a[r]]);
      AcceptedFrom(a, [a[r]]);
      assert UnderOneTable(early, auth) && UnderOneTable(late, auth);
      var g := Grant(a[q].packet, a[q].auth);
      assert g in Standing(early) && g !in Standing(late);
      assert !(SameStanding(a, early) && SameStanding(a, late));
    }
  }

  lemma Unsettled(run: seq<Delivery>) returns (q: nat, r: nat)
    requires !Settled(run)
    ensures q < |run| && r < |run| && Acceptable(run[q]) && Acceptable(run[r])
    ensures KeyOf(run[q].packet) == KeyOf(run[r].packet) && run[q].packet != run[r].packet
    ensures forall j :: 0 <= j < |run| && Acceptable(run[j]) && KeyOf(run[j].packet) == KeyOf(run[q].packet)
              ==> Time(run[j]) <= Time(run[r])
    ensures !(Time(run[q]) < Time(run[r]) && Replaces(run[r].packet, run[q].packet))
  {
    hide Acceptable, KeyOf, Replaces;
    hide Tops;
    var i :| 0 <= i < |run| && Acceptable(run[i]) && !Topped(run, KeyOf(run[i].packet));
    r := NewestOfKey(run, i, |run|);
    assert !Tops(run, run[r].packet);
    q := NotTop(run, r);
  }

  lemma NotTop(run: seq<Delivery>, r: nat) returns (q: nat)
    requires r < |run| && !Tops(run, run[r].packet)
    ensures q < |run| && Acceptable(run[q]) && KeyOf(run[q].packet) == KeyOf(run[r].packet)
    ensures run[q].packet != run[r].packet && !(Time(run[q]) < Time(run[r]) && Replaces(run[r].packet, run[q].packet))
  {
    hide Acceptable, KeyOf, Replaces;
    q :| 0 <= q < |run| && Acceptable(run[q]) && KeyOf(run[q].packet) == KeyOf(run[r].packet)
         && !(run[q].packet == run[r].packet
              || (Time(run[q]) < run[r].packet.params.timestamp && Replaces(run[r].packet, run[q].packet)));
  }

  /** No source announces two different things at one time. */
  predicate TimestampsTell(run: seq<Delivery>) {
    forall i, j :: 0 <= i < |run| && 0 <= j < |run| && Rivals(run, i, j) && Time(run[i]) == Time(run[j])
      ==> run[i].packet == run[j].packet
  }

  predicate AllCertified(run: seq<Delivery>) {
    forall i :: 0 <= i < |run| ==> run[i].packet.info.fingerprint.Some?
  }

  /** Packets with certificates, of sources that use no timestamp twice, are settled. */
  lemma DistinctTimesSettle(run: seq<Delivery>)
    requires AllUnspaced(run) && AllCertified(run) && TimestampsTell(run)
    ensures Settled(run)
  {
    hide Acceptable, KeyOf, Replaces, SameSource, Unspaced;
    forall i | 0 <= i < |run| && Acceptable(run[i])
      ensures Topped(run, KeyOf(run[i].packet))
    {
      var r := NewestOfKey(run, i, |run|);
      forall j | 0 <= j < |run| && Acceptable(run[j]) && KeyOf(run[j].packet) == KeyOf(run[r].packet)
        ensures run[j].packet == run[r].packet
             || (Time(run[j]) < Time(run[r]) && Replaces(run[r].packet, run[j].packet))
      {
        KeyTellsSource(run[r].packet, run[j].packet);
        assert Rivals(run, r, j);
      }
      assert Tops(run, run[r].packet);
    }
  }

  /** Two different announcements of one identity without a certificate are not settled. */
  lemma UncertifiedUnsettled(run: seq<Delivery>, i: nat, j: nat)
    requires i < |run| && j < |run| && Acceptable(run[i]) && Acceptable(run[j]) && run[i].packet != run[j].packet
    requires run[i].packet.info.fingerprint.None? && run[j].packet.info.fingerprint.None?
    requires run[i].packet.info.identity == run[j].packet.info.identity
    ensures !Settled(run)
  {
    hide Acceptable, Settled;
    if Settled(run) {
      var r := TopOf(run, i);
      assert !Replaces(run[r].packet, run[i].packet) && !Replaces(run[r].packet, run[j].packet);
      SameKey(run[i].packet, run[j].packet);
    }
  }

  lemma SameKey(p: Announcement, q: Announcement)
    requires p.info.fingerprint == q.info.fingerprint && p.info.identity == q.info.identity
    ensures KeyOf(p) == KeyOf(q)
  {
  }
}
