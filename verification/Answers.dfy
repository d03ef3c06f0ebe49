/** What a service answers, in terms of what is registered with it. */
module Answers {
  import opened Wrappers
  import opened Text
  import opened Packets
  import opened Messages
  import opened Client
  import opened ReplyStream
  import opened System
  import opened SystemTheorems
  import Server

  /** The name under which the action of a request is registered: in lower case, with its version. */
  function RegisteredName(h: PacketHeader): string {
    Lower(h.action) + ".v" + (if h.version < 0 then "-" + Decimal(-h.version) else Decimal(h.version))
  }

  /** Nothing bars the request: there is no checker, or the action needs no ticket, or there is a ticket and the checker
      has nothing against it. */
  predicate Admitted(service: Server.Service, k: nat, h: PacketHeader) {
    var name := RegisteredName(h);
    || service.access.None?
    || (name in service.actions && "noauth" in service.actions[name].flags)
    || (h.ticket != "" && service.access.value(k, h.action, h.ticket).None?)
  }

  /** The reply to the `k`th request, if it is this one. An admitted request for a registered action gets what the
      handler makes of exactly this request; any other gets an empty body and says why: the action is unknown, there
      was no ticket, or the checker's words. */
  predicate RightReply(service: Server.Service, k: nat, request: Message, reply: Message) {
    var h, r := request.header, reply.header;
    var name := RegisteredName(h);
    && r.requestId == h.requestId && r.messageType == Reply && r.envelope == Json
    && r.action == "" && r.version == 0 && r.clientId == 0 && r.ticket == "" && r.identifyingToken == ""
    && if Admitted(service, k, h) && name in service.actions then
         var answer := service.actions[name].handler(k, Server.ScampRequest(
           h.action, h.version, h.envelope, h.requestId, h.clientId, h.ticket, h.identifyingToken, request.body));
         && reply.body == answer.body
         && r.error == answer.error && r.errorCode == answer.errorCode && r.errorData == answer.errorData
       else
         && reply.body == [] && r.errorData == None
         && if Admitted(service, k, h) then
              r.errorCode == Some("not_found") && r.error == Some("No such action: " + name)
            else
              && r.errorCode == Some("unauthorized")
              && r.error == if h.ticket == "" then Some("Authentication required")
                            else service.access.value(k, h.action, h.ticket)
  }

  lemma AnswerRight(service: Server.Service, k: nat, request: Message)
    ensures RightReply(service, k, request, Server.ReplyMessage(service, k, request))
  {
    hide Lower, Decimal;
  }

  /** For every byte stream of any client, cut into reads in any way: while the writer works, what is on the wire for
      the `k`th request that ended is the right reply to it, whole. */
  lemma RepliesRight(codec: HeaderCodec, service: Server.Service, budget: nat, events: seq<Server.ReadEvent>, k: nat)
    returns (reply: Message)
    requires
      var s := Server.ServeAll(codec, service, Server.Connection(Server.Fresh(budget), [], true), events).state;
      s.budget > 0 && k < |s.dispatched|
    ensures
      var s := Server.ServeAll(codec, service, Server.Connection(Server.Fresh(budget), [], true), events).state;
      Of(s.wire, k) == Full(k, reply) && RightReply(service, k, s.dispatched[k].request, reply)
  {
    hide Server.ServeAll, RightReply, Of, Full, Server.ReplyMessage;
    ReplyStreamInOrder(codec, service, budget, events);
    var s := Server.ServeAll(codec, service, Server.Connection(Server.Fresh(budget), [], true), events).state;
    reply := Server.ReplyMessage(service, k, s.dispatched[k].request);
    AnswerRight(service, k, s.dispatched[k].request);
  }

  /** End to end: what is delivered to a call without a transport error is the right reply to its own request. */
  lemma DeliveredRight(service: Server.Service, budget: nat, moves: seq<Move>, id: int) returns (k: nat, reply: Message)
    requires
      var c := Execute(service, budget, moves).client;
      id in c.delivered && c.delivered[id].error.None?
    ensures
      var c := Execute(service, budget, moves).client;
      && id in c.calls && RightReply(service, k, Message(c.calls[id].header, c.calls[id].body), reply)
      && c.delivered[id] == Response(reply.header, reply.body, None)
  {
    hide Execute, RightReply, Server.Respond;
    EndToEnd(service, budget, moves, id);
    var s := Execute(service, budget, moves);
    k :| ExactReply(service, s.client, s.server.dispatched, id, s.client.delivered[id], k);
    var request := Message(s.client.calls[id].header, s.client.calls[id].body);
    reply := Server.ReplyMessage(service, k, request);
    AnswerRight(service, k, request);
  }

  /** Two services with the same checker and the same actions under the same flags. */
  ghost predicate HandlersAside(a: Server.Service, b: Server.Service) {
    a.access == b.access && a.actions.Keys == b.actions.Keys
    && forall name :: name in a.actions ==> a.actions[name].flags == b.actions[name].flags
  }

  /** No handler has a say in the reply to a request that is not admitted. */
  lemma RefusedBeforeHandlers(a: Server.Service, b: Server.Service, k: nat, request: Message, ra: Message, rb: Message)
    requires HandlersAside(a, b) && !Admitted(a, k, request.header)
    requires RightReply(a, k, request, ra) && RightReply(b, k, request, rb)
    ensures ra == rb && ra.header.errorCode == Some("unauthorized")
  {
    hide Lower, Decimal;
  }
}
