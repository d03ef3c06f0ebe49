/** What services announce (discovery/service_info/mod.rs). */
module Actions {
  import opened Wrappers

  datatype CrudOp = Create | Read | Update | Delete

  datatype Flag = NoAuth | Timeout(seconds: nat) | Crud(op: CrudOp) | Other(text: string)

  datatype PacketSection = V3 | V4

  datatype Action = Action(
    path: string, version: nat, pathver: string, flags: seq<Flag>, sector: string,
    envelopes: seq<string>, section: PacketSection)

  datatype ServiceInfo = ServiceInfo(identity: string, uri: string, fingerprint: Option<string>)

  /** `interval` is in milliseconds, `timestamp` in seconds. */
  datatype Params = Params(weight: nat, interval: nat, timestamp: real)

  /** A parsed announcement packet; `valid` tells whether its signature verifies. */
  datatype Announcement = Announcement(valid: bool, info: ServiceInfo, params: Params, actions: seq<Action>)
}
