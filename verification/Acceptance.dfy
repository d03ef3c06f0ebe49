/** Until when an announcement is accepted, and that this is what its announcer meant. */
module Acceptance {
  import opened Wrappers
  import opened Actions
  import opened Json
  import opened Registry
  import Announce
  import AnnouncementParser
  import AnnouncementTheorems

  /** Certificate fingerprint, if any, and identity: what a timestamp is remembered under. */
  function ReplayKey(p: Announcement): string {
    (if p.info.fingerprint.Some? then p.info.fingerprint.value else "") + " " + p.info.identity
  }

  /** An announcement is taken exactly if its signature is valid, it is no older than 2.1 of its intervals (which are in
      milliseconds), and its timestamp is newer than the one remembered; otherwise the registry stays as it is. */
  lemma TakenExactly(t: Table, d: Delivery)
    ensures
      var p, key := d.packet, ReplayKey(d.packet);
      var taken :=
        && p.valid
        && 10000.0 * (d.now as real - p.params.timestamp) <= 21.0 * p.params.interval as real
        && (key in t.seen ==> t.seen[key] < p.params.timestamp);
      Inject(t, d).seen == (if taken then t.seen[key := p.params.timestamp] else t.seen)
      && (!taken ==> Inject(t, d) == t)
  {
    hide Entries, PushAll;
  }

  /** So the first announcement of a source changes the replay table exactly until it is 2.1 intervals old. */
  lemma FirstTakenExactly(t: Table, d: Delivery)
    requires d.packet.valid && ReplayKey(d.packet) !in t.seen
    ensures Inject(t, d).seen != t.seen
        <==> 10000.0 * (d.now as real - d.packet.params.timestamp) <= 21.0 * d.packet.params.interval as real
    ensures Inject(t, d).seen == t.seen ==> Inject(t, d) == t
  {
    hide Inject, ReplayKey;
    TakenExactly(t, d);
  }

  /** An announcement that is made for every `n` seconds, sent and read back, is accepted by a registry that does not
      know its source exactly until 2.1 `n` seconds after its timestamp; from 4294968 seconds on, where the interval
      in milliseconds no longer fits 32 bits, only for the rest that does. */
  lemma AnnouncedLasts(identity: string, sector: string, envelopes: seq<string>, uri: string,
                       infos: seq<Announce.ActionInfo>, weight: U32, n: U32, timestamp: real,
                       fingerprint: Option<string>, t: Table, now: nat, auth: Authorization)
    requires
      AnnouncementParser.ParseDocument(
        Announce.Document(identity, sector, envelopes, uri, infos, weight, n, true, timestamp)).Ok?
    ensures
      var body := AnnouncementParser.ParseDocument(
        Announce.Document(identity, sector, envelopes, uri, infos, weight, n, true, timestamp)).value;
      var p := Announcement(true, body.info.(fingerprint := fingerprint), body.params, body.actions);
      ReplayKey(p) !in t.seen ==>
        (Inject(t, Delivery(p, now, auth)).seen != t.seen
         <==> 10000.0 * (now as real - timestamp) <= 21.0 * (n * 1000 % 0x1_0000_0000) as real)
        && (n <= 4294967 ==> (Inject(t, Delivery(p, now, auth)).seen != t.seen
                              <==> 10.0 * (now as real - timestamp) <= 21.0 * n as real))
  {
    hide AnnouncementParser.ParseDocument, Announce.Document, Inject, ReplayKey;
    var order := AnnouncementTheorems.AnnouncementBack(identity, sector, envelopes, uri, infos, weight, n, true,
                                                       timestamp);
    var body := AnnouncementParser.ParseDocument(
      Announce.Document(identity, sector, envelopes, uri, infos, weight, n, true, timestamp)).value;
    var p := Announcement(true, body.info.(fingerprint := fingerprint), body.params, body.actions);
    if ReplayKey(p) !in t.seen {
      FirstTakenExactly(t, Delivery(p, now, auth));
      if n <= 4294967 {
        assert n * 1000 % 0x1_0000_0000 == n * 1000;
      }
    }
  }
}
