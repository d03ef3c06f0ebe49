# scamp-rs, modelled and proved

scamp-rs carries remote calls over BEEPish, a packet protocol that runs many calls over one byte stream, and finds
services through signed announcements kept in a registry. This project models both, and the two text formats they rest
on, and proves what callers depend on. `dafny verify dfyconfig.toml` checks everything.

**The transport.** `Packets` is the frame parser and printer, `PacketGrammar` exactly what the parser says of which
bytes, `Framing` the accumulate, parse and drain loop with its cap, `Messages` what a receiver holds of many
interleaved messages. `Server` is the server end of a connection, `Client` the client end: the code between two
awaits, once as a step on a value and once as a method of the connection object proved equal to that step.
`SendRequest` puts the sections of `send_request` together as the source does, with anything at all happening on the
connection at each await. `ReplyStream`, `ClientInvariant` and `ClientTheorems` treat each end against an arbitrary
peer; `System*` both ends over packet streams, with any number of concurrent calls and any interleaving; `ReplyAcks`
and `Completion` say what the client acknowledges and that replies get through. `Outcomes` is about how calls end and
why, `AckRecord` about what they take as acknowledged, `Answers` about what a service replies in terms of what is
registered with it. `AnyPeer` and `ConnectionReads` say exactly what either end holds, answers and survives, whatever
packets and reads come. `Traffic` says what travels between the ends, and `Wire` has the same system over bytes, cut
into reads in any way.

**The registry.** `Registry` is the index, the replay table, the failure state and the lookups. `RegistryTheorems`
shows that the index is what the history of accepted announcements says and nothing else, and that this is the latest
one of each source with a certificate; `Convergence` exactly when the order of arrival does not matter; `Lookup` that
a lookup by key is a scan of everything announced; `Acceptance` until when an announcement is accepted; `Backoff` that
the failure state is the failure history.

**Announcements.** `Rle` is the run-length code of announcement vectors, `Announce` the builder of the announcement,
`AnnouncementParser` its reader, `AnnouncementTheorems` the round trip, `AnnouncementErrors` which announcements the
reader takes and on which it aborts, `ActionMeaning` what the actions it reads say, field by field.

**Configuration.** `Config` is the tree, its parser, its lookup and its printer. `ConfigTheorems` compares the tree
with the plain list of its lines, `ConfigLines` with the parts those lines are written with; `ConfigRoundTrip`,
`ConfigText` and `ConfigPrinting` lead to the exact condition under which a tree survives being printed and parsed.

`Text` and `SortedMap` stand for the parts of the Rust standard library the code relies on (decimal numerals, `parse`,
splitting, trimming, UTF-8, `BTreeMap`), `Json` for the values of serde_json.

Some properties hold under a condition only, and the condition is proved exact: which errors of the parser are final
(`FatalExtends`), which packet streams can trip the read buffer's cap (`CapExact`, with a stream that does in
`LargestTrip`), which announcements may come in any order (`ConvergenceExact`), which sectors have keys that tell
their actions apart (`KeysApartExact`; what a clash does to a lookup is `StrayArises`), on which announcements the
parser aborts (`DocumentOutcome`), which registered actions can be announced (`AnnouncementBack`, with
`NegativeVersionRefused`), and which configurations survive printing (`PrintParse`, with `RootListLost` and
`EmptyNameLost`).

In two places the code and the words around it differ, and the model follows the code: the comment on `mark_failed`
speaks of exponential backoff, the code adds one minute for each failure of the last day; and the printer is said to
write the original format, which it does not for lists at the root and for names below an empty name.

## Model

| member | source | states |
|---|---|---|
| Packets.WritePacket | scamp/src/transport/beepish/proto/packet.rs:27-55 | appends exactly one frame to the stream, and returns its length |
| Packets.ParseFramed | scamp/src/transport/beepish/proto/packet.rs:27-158 | for every well-formed packet and any bytes after it, parsing what was written succeeds with that packet and uses exactly its bytes |
| Packets.ParseTruncated | scamp/src/transport/beepish/proto/packet.rs:57-158 | every strict prefix of a written packet is too short, or needs exactly the bytes that are missing |
| Packets.SuccessExtends | scamp/src/transport/beepish/proto/packet.rs:57-158 | on arbitrary bytes, a packet found stays found, with the same length, when bytes are appended |
| Packets.NeedBytesExtends | scamp/src/transport/beepish/proto/packet.rs:96-158 | a shortfall shrinks by each byte that arrives, and once met the parser decides |
| Packets.FatalExtends | scamp/src/transport/beepish/proto/packet.rs:57-158 | an error stands whatever follows exactly if it is not a bare line feed after which a CR LF can still fall among the first 80 bytes: it is another error, or 80 bytes are there, or 79 that do not end in a carriage return |
| Packets.BareNewlineUndone | scamp/src/transport/beepish/proto/packet.rs:66-84 | for every other bare line feed, bytes after which the error is gone |
| Packets.OutsizedRefused | scamp/src/transport/beepish/proto/packet.rs:86-112 | of a packet with a number or size beyond what the parser takes it never makes anything: it waits for the header line and then stops |
| PacketGrammar.ParseExactly | scamp/src/transport/beepish/proto/packet.rs:58-158 | the parser gives a packet exactly for its frame, each error exactly for its reason, the exact number of bytes missing once the header line is complete, and otherwise asks for more |
| Text.DecodedIsUtf8 | scamp/src/transport/beepish/proto/packet.rs:79-83 | the bytes of a header line are read as a text exactly if they are its UTF-8 form as RFC 3629 gives it |
| Text.ParseUnsignedExactly | scamp/src/transport/beepish/proto/packet.rs:90-97 | a field is taken for a number exactly if it is the number's decimal numeral with any zeros and at most one plus sign before it, and the number fits |
| Framing.SegmentationIndependent | scamp/src/transport/beepish/client/reader.rs:46-88 | for arbitrary bytes cut into reads in any way, the loop routes the packets one parse of everything read would give |
| Framing.StreamDelivered | scamp/src/transport/beepish/client/reader.rs:46-88 | a stream of packets of at most 127077 framed bytes, in any reads of 1 to 4096 bytes, is routed whole and in order and never trips the cap |
| Framing.CapExact | scamp/src/service/server_connection.rs:80-116 | all ways of reading a stream deliver it exactly if no packet is over 127077 framed bytes with more than 131172 bytes of stream from its start on |
| Framing.TrippingReads | scamp/src/service/server_connection.rs:80-85 | otherwise there are reads, of the same stream, that do trip the cap |
| Framing.LargestTrip | scamp/src/transport/beepish/client/reader.rs:56-60 | two DATA packets of 131072 bytes, both legal, with reads that trip the cap |
| Framing.DrainHonest | scamp/src/transport/beepish/client/reader.rs:62-88 | from any cut of a stream of packets with readable headers, of whatever size, the loop takes the first packets of the stream and no others |
| Messages.FullShape | scamp/src/transport/beepish/client/connection.rs:194-262 | a message is its HEADER, its body cut every 2048 bytes, and an empty EOF, all under its number |
| Messages.AckValueOfPacket | scamp/src/transport/beepish/client/reader.rs:145-205 | the number an ACK carries is the number its receiver reads, if it is positive and fits 64 bits |
| Messages.AssembleStep | scamp/src/service/server_connection.rs:131-178 | of each interleaved message the receiver holds the header and exactly the body bytes that have arrived, kept by every packet |
| Messages.CompleteAtEof | scamp/src/service/server_connection.rs:170-178 | when its EOF arrives, a message is assembled with its whole body |
| Server.ServerConnection.SendReply | scamp/src/service/server_reply.rs:12-84 | writes HEADER, chunks of at most 2048 bytes and EOF under the next number, up to the first failed write, and leaves nothing in `outgoing` |
| Server.ServerConnection.DispatchAndReply | scamp/src/service/server_connection.rs:232-285 | one reply for the request: refusal without a ticket or by the access check, except for noauth actions; the handler's; or not_found |
| Server.ServerConnection.RoutePacket | scamp/src/service/server_connection.rs:121-230 | the whole new state and whether the connection stays open, for every packet, legal or not |
| Server.ServerConnection.OnBytes | scamp/src/service/server_connection.rs:80-116 | one read: what the loop over the buffer does is draining the buffer and routing its packets in order |
| Server.ServerConnection.HandleConnection | scamp/src/service/server_connection.rs:38-118 | the read loop, with end of stream and idle timeout, follows the step function until the connection closes |
| ReplyStream.RouteKeeps | scamp/src/service/server_connection.rs:121-230 | no packet of any peer brings the reply stream out of order |
| ReplyStream.ReplyStreamInOrder | scamp/src/service/server_connection.rs:51-118 | for any bytes, reads, handlers and write failure: at every read `outgoing` is empty, so busy means some request is half received; reply HEADERs are numbered 0, 1, 2, ...; reply k is complete and answers the k-th request that ended |
| ReplyStream.AcksChangeNothing | scamp/src/service/server_connection.rs:189-210 | an ACK a server reads between replies changes nothing |
| Client.ConnectionHandle.AcceptAck | scamp/src/transport/beepish/client/reader.rs:196-220 | an ACK counts exactly if it is a positive number that moves forward and not past what was sent |
| Client.ConnectionHandle.RoutePacket | scamp/src/transport/beepish/client/reader.rs:106-234 | the whole new state for every packet, legal or not |
| Client.ConnectionHandle.NotifyAllPending | scamp/src/transport/beepish/client/reader.rs:94-103 | every pending call gets the error and the map is empty |
| Client.ConnectionHandle.OnBytes | scamp/src/transport/beepish/client/reader.rs:56-92 | one read: the buffer is drained, its packets routed in order, and an error or a full buffer ends the reader |
| SendRequest.SendRequest | scamp/src/transport/beepish/client/connection.rs:160-278 | every execution, loops and clean-ups included, with anything else happening at its awaits, is a run of the step system; the call of the new id asks for action, version, envelope, ticket, client and body of the arguments throughout, and what is returned is how that call ended in that run |
| SendRequest.ForeignKeeps | scamp/src/transport/beepish/client/connection.rs:160-278 | nothing other calls, the reader or the connection do touches the local variables of a call |
| Outcomes.WhyEnded | scamp/src/transport/beepish/client/connection.rs:195-273 | over every run a call fails only for its reason: timed out if its timer ran out while it waited, not sent if the writer task refused one of its packets, closed if it found the connection closed at the window check, and never for a lost reply; a reply it returns was delivered before it took it |
| Outcomes.ReplyTaken | scamp/src/transport/beepish/client/connection.rs:263-272 | a waiting call whose response has been delivered returns exactly that, whatever others do before it has cleaned up |
| Outcomes.TimeoutReturned | scamp/src/transport/beepish/client/connection.rs:266-272 | a waiting call whose timer runs out ends with the timeout, its id and message number forgotten |
| Outcomes.FailureReturned | scamp/src/transport/beepish/client/connection.rs:275-278 | a call that gives up ends with its failure, its id and message number forgotten |
| Outcomes.StillWaits | scamp/src/transport/beepish/client/connection.rs:263 | a waiting call whose response has not come goes on waiting |
| SendRequest.ReturnedOnce | scamp/src/transport/beepish/client/connection.rs:263-278 | when it returns, its id has left the pending map exactly once, and a reply it returns is the one response delivered to that id |
| ClientInvariant.RunKeeps | scamp/src/transport/beepish/client/connection.rs:160-278 | byte conservation: in every run the queue holds of each message exactly the packets its call has got to, whatever the interleaving |
| ClientTheorems.FlowControlWindow | scamp/src/transport/beepish/client/connection.rs:207-245 | in every run, against any peer: acknowledged <= sent <= enqueued, and at most 67583 enqueued bytes of a message are unacknowledged |
| AckRecord.WindowExactly | scamp/src/transport/beepish/client/connection.rs:206-222 | at the window check a call goes on exactly if the connection is not closed and fewer than 65536 of its bytes are unacknowledged, gives up exactly if it is closed, and waits otherwise |
| AckRecord.AcknowledgedIsLargest | scamp/src/transport/beepish/client/reader.rs:194-220 | against any peer, what is taken as acknowledged is the largest number an ACK told that was no more than what had been counted as sent when it came, or 0 |
| AckRecord.EverythingAcknowledged | scamp/src/transport/beepish/client/reader.rs:206-220 | when everything sent has been received, the connection open and no ACK before its chunk was counted, every byte enqueued is acknowledged: a message sent whole to its whole length |
| ClientTheorems.AcknowledgedRises | scamp/src/transport/beepish/client/reader.rs:206-219 | over any stretch of any run the acknowledged count of a message only rises |
| ClientTheorems.PendingConserved | scamp/src/transport/beepish/client/reader.rs:154-195 | a registered id is pending, or has left the map exactly once: by reply, TXERR or loss with one response, or by its own call with none |
| ClientTheorems.ExitIsFinal | scamp/src/transport/beepish/client/reader.rs:164-194 | later replies to an id that has left the map complete nobody |
| ClientTheorems.DrainCompletesAll | scamp/src/transport/beepish/client/reader.rs:90-103 | the loss of the connection empties the map and completes every pending call with the error |
| SystemInvariant.ExecuteKeeps | scamp/src/service/server_connection.rs:131-188 | the invariant of both ends together, kept by every step of every run |
| SystemTheorems.EndToEnd | scamp/src/transport/beepish/client/connection.rs:173-273 | whatever the interleaving, a reply without error carries the id of its call and exactly what the service answered to exactly that header and body, dispatched once |
| SystemTheorems.DispatchedOnce | scamp/src/service/server_connection.rs:170-178 | no request is dispatched twice, and only complete requests of calls are |
| SystemTheorems.RepliesInSequence | scamp/src/transport/beepish/client/reader.rs:116-122 | the client's sequence check passes for every HEADER the server sends |
| SystemTheorems.AcksSound | scamp/src/service/server_connection.rs:150-168 | in every run acknowledged <= received by the server <= enqueued <= acknowledged + 65536 |
| SystemTheorems.ServerHolds | scamp/src/service/server_connection.rs:150-153 | what the server holds of an unfinished request is what it has received of it, a prefix of the caller's body |
| SystemTheorems.AckSequence | scamp/src/service/server_connection.rs:154-168 | the ACKs of a request are one for each chunk received, with strictly increasing prefix sums, the last one the body length |
| ReplyAcks.ReplyAckSequence | scamp/src/transport/beepish/client/reader.rs:142-152 | the ACKs of a reply tell strictly increasing prefix sums of its chunks, none beyond what has been received |
| ReplyAcks.ReplyAcksComplete | scamp/src/transport/beepish/client/reader.rs:145-152 | while the writer task takes packets there is one ACK for each chunk of a reply received |
| Completion.OpenExactly | scamp/src/service/server_connection.rs:132-138 | while the writer works, the server keeps the connection open exactly if the HEADERs received are numbered 0, 1, 2, ... |
| Completion.StaysOpen | scamp/src/service/server_connection.rs:132-138 | if the channel to the client's writer, once closed, stays closed, the server never closes for a HEADER out of sequence |
| Completion.Completed | scamp/src/transport/beepish/client/connection.rs:246-273 | when everything sent has been received, with the reader running and the writers working, every waiting call has its response, the reply of the service to exactly its request |
| Completion.Returned | scamp/src/transport/beepish/client/connection.rs:263-273 | and once it has looked at its reply channel and cleaned up, whatever others do meanwhile, it has returned that reply |
| Answers.RepliesRight | scamp/src/service/server_connection.rs:229-284 | for every byte stream, while the writer works, the reply to each request that ended is on the wire whole and right: the handler's answer to exactly that request if the request is admitted and its action registered, else "not_found" or "unauthorized" with its words and no body |
| Answers.DeliveredRight | scamp/src/service/server_connection.rs:229-284 | what is delivered to a call without a transport error is the right reply to its own header and body |
| Answers.RefusedBeforeHandlers | scamp/src/service/server_connection.rs:247-265 | the reply to a request that is not admitted does not depend on any handler |
| AnyPeer.ServerReflects | scamp/src/service/server_connection.rs:120-227 | whatever packets come, the server stays open exactly while HEADERs come in their turn and its ACKs and PONGs can be written; it holds of each request exactly what has come of it, has dispatched exactly those that ended, and has written exactly the answers, as many as the writer takes |
| AnyPeer.ClientHolds | scamp/src/transport/beepish/client/reader.rs:115-194 | in every run the client's reader holds of each message exactly what has come of it since its HEADER |
| AnyPeer.ReaderDoes | scamp/src/transport/beepish/client/reader.rs:115-226 | one more packet of any peer: DATA of a message held gets an ACK of all its bytes so far, PING a PONG; EOF, or TXERR with a text, completes the call its header names, if pending, with what has come and that text; nothing else completes anybody |
| ConnectionReads.ServedExactly | scamp/src/service/server_connection.rs:51-118 | for every sequence of reads, silences and ends of stream the server is open exactly if it survived each: silence only while a request is half received, bytes only if they fit, hold no error and close nothing; and then its state is that of the packets of the framing loop |
| ConnectionReads.ClientReads | scamp/src/transport/beepish/client/reader.rs:46-93 | for all reads the client routes exactly the packets of the framing loop and, where that stops, completes all pending calls with the reason |
| Traffic.ExecuteTraffic | scamp/src/service/server_connection.rs:150-226 | in every run the server writes replies and ACKs only, the client requests and ACKs of replies that tell no more than their length |
| Traffic.AllDeliverable | scamp/src/transport/beepish/proto/packet.rs:27-55 | if the headers sent so far are read back as they were and at most 127036 bytes long, every packet sent so far is legal and at most 127077 bytes long |
| Traffic.AllHonestSent | scamp/src/transport/beepish/proto/packet.rs:27-55 | if the headers sent so far are read back as they were, nothing sent so far can be taken for anything else |
| Wire.ReadStep | scamp/src/transport/beepish/client/reader.rs:46-88 | one read of a growing stream routes the next packets of it and no others, and unless the loop stops it keeps the bytes after them |
| Wire.BytesRefinePackets | scamp/src/service/server_connection.rs:51-118 | every run over byte streams, read in any pieces and stopped by whatever cap or error, ends in the states of some run over packets, as long as headers are read back as they were |
| Wire.EndToEndOverBytes | scamp/src/transport/beepish/client/connection.rs:173-273 | end to end over bytes, for what is delivered and for what a call returns |
| Wire.ReadsNeverStop | scamp/src/transport/beepish/client/reader.rs:56-85 | with headers of at most 127036 bytes no read overflows a buffer or ends in a protocol error |
| Registry.ServiceRegistry.InjectPacket | scamp/src/discovery/service_registry.rs:81-143 | the whole new index and replay table: unchanged for a bad signature, an expired or an old packet; else the source's old entries go and the new ones, aliases included, are appended |
| Registry.ServiceRegistry.ReloadFromCache | scamp/src/discovery/service_registry.rs:174-180 | the registry is what injecting the cached announcements, in order, into an empty one gives |
| Registry.ServiceRegistry.RecordFailure | scamp/src/discovery/service_registry.rs:208-219 | prunes failures older than a day, adds this one and sets the time of reactivation |
| Registry.ServiceRegistry.PickHealthy | scamp/src/discovery/service_registry.rs:237-253 | whatever the random number: a candidate, healthy if any is; nothing only if there is none |
| Registry.ServiceRegistry.GetAction | scamp/src/discovery/service_registry.rs:197-204 | picks among exactly the entries under the lower-cased key with positive weight and authorization |
| Registry.ServiceRegistry.FindActionWithEnvelope | scamp/src/discovery/service_registry.rs:227-234 | picks among exactly the entries under the action's key with positive weight, authorization and the envelope |
| RegistryTheorems.StandingStep | scamp/src/discovery/service_registry.rs:96-109 | an acceptable announcement newer than all of its replay key takes the place of what it replaces; any other changes nothing |
| RegistryTheorems.InjectRefines | scamp/src/discovery/service_registry.rs:81-143 | one more packet, with or without a certificate, keeps the index equal to the one rebuilt from the history |
| RegistryTheorems.IndexIsHistory | scamp/src/discovery/service_registry.rs:81-143 | after any run of packets whatever, the index holds under every key exactly the entries of the announcements accepted and not replaced, and the replay table the newest acceptable timestamp of each replay key |
| RegistryTheorems.LastWriterWins | scamp/src/discovery/service_registry.rs:96-142 | these are the latest accepted announcement of each source with a certificate and, in order, every announcement without one that was newer than all before it; the replay table holds exactly the latest timestamps |
| Convergence.Convergence | scamp/src/discovery/service_registry.rs:89-142 | two runs under one authorization table that accept the same packets, in any order and any number of times, leave equal multisets under every key and equal timestamps, if in each replay key one packet is newest and replaces the others |
| Convergence.ConvergenceExact | scamp/src/discovery/service_registry.rs:96-109 | all delivery orders leave the same announcements exactly under that condition |
| Convergence.DistinctTimesSettle | scamp/src/discovery/service_registry.rs:97-102 | packets with certificates, of sources that use no timestamp twice, meet it |
| Convergence.UncertifiedUnsettled | scamp/src/discovery/service_registry.rs:103-107 | two different packets of one identity without a certificate do not |
| Lookup.KeysApartExact | scamp/src/discovery/service_registry.rs:37-39 | index keys tell the actions of two sectors apart, up to case, exactly if neither sector followed by a colon begins the other |
| Lookup.ClashCollides | scamp/src/discovery/service_registry.rs:37-39 | for two sectors that clash, paths under which they share a key in every version |
| Lookup.KeyTellsAction | scamp/src/discovery/service_registry.rs:37-45 | for sectors that do not clash, keys are equal exactly if sector and path are equal up to case and versions are equal |
| Lookup.IndexIsScan | scamp/src/discovery/service_registry.rs:111-142 | after any run an entry is under the key of a name exactly if an announcement that stands has it under that name, its own or a CRUD alias (then authorized), or under another name with that key in a sector that clashes; without clashing sectors there are none of these |
| Lookup.StrayArises | scamp/src/discovery/service_registry.rs:111-142 | for any two sectors that clash, one announcement in the first makes an entry that is found under a name of the second |
| Lookup.LookupIsScan | scamp/src/discovery/service_registry.rs:227-253 | after any run a lookup finds something exactly if such a scan finds a match with positive weight, authorization and envelope; what it finds is one, healthy whenever a healthy one exists; without clashing sectors the scan is by name alone |
| Acceptance.TakenExactly | scamp/src/discovery/service_registry.rs:84-109 | an announcement is taken exactly if its signature is valid, it is at most 2.1 of its intervals in milliseconds old and newer than what is remembered under its fingerprint and identity; otherwise the registry stays as it is |
| Acceptance.AnnouncedLasts | scamp/src/service/announce.rs:94-117 | an announcement made for every n seconds and read back is accepted, where its source is not known, exactly until 2.1 n seconds after its timestamp; from 4294968 s on only for what fits 32 bits of milliseconds |
| Backoff.BackoffIsHistory | scamp/src/discovery/service_registry.rs:208-219 | whatever the clock does, the stored times are exactly the failures that no later one was more than 86400 s after, reactivation is min(60, their number) minutes after the last, hence 60 to 3600 s, and a service counts as failed exactly until then |
| Backoff.KeptIsLastDay | scamp/src/discovery/service_registry.rs:215-216 | under a clock that does not run back these are exactly the failures of the 86400 s before the last one |
| Rle.Encode | scamp/src/service/announce.rs:146-183 | the nested loops compute the run-length code |
| Rle.UnrleField | scamp/src/discovery/service_info/parse.rs:95-130 | missing, scalar and array fields, with the first error of an array |
| Rle.FieldRead | scamp/src/discovery/service_info/parse.rs:95-130 | a missing field is an error or so many defaults, a single value so many of it; an array is taken exactly if each entry is a value or a pair of a 64-bit count and a value, else the first bad entry is reported for what is wrong with it |
| Rle.RoundTrip | scamp/src/service/announce.rs:146-183 | decoding the code of any vector, of a length that fits 64 bits, gives the vector |
| AnnouncementTheorems.ColumnsBack | scamp/src/discovery/service_info/parse.rs:64-72 | whatever seven vectors are coded into a version 4 extension, the parser reads the same columns |
| Rle.NeighboursDiffer | scamp/src/service/announce.rs:152-160 | no two adjacent entries repeat the same value |
| Rle.Shortest | scamp/src/discovery/service_info/parse.rs:107-124 | nothing the decoder turns into a vector, zero counts included, is shorter than the code made for it |
| Announce.SortOrders | scamp/src/service/announce.rs:56-62 | sorting keeps each flag as often as it was there, in ascending order |
| Announce.BuildAnnouncement | scamp/src/service/announce.rs:36-123 | builds the announcement's JSON: actions grouped by namespace in a sorted map, version 1 left out, null without classes, weight 0 when inactive |
| AnnouncementParser.ParseV3Actions | scamp/src/discovery/service_info/parse.rs:11-62 | appends the actions of all classes, or reports the first error |
| AnnouncementParser.ReadAllColumns | scamp/src/discovery/service_info/parse.rs:65-72 | reads the seven columns in order and reports the first error |
| AnnouncementParser.ParseV4Actions | scamp/src/discovery/service_info/parse.rs:64-93 | appends the compatible rows of the version 4 columns, or reports the first error |
| AnnouncementParser.ParseAnnouncementBody | scamp/src/discovery/service_info/parse.rs:134-186 | the checks on the nine elements in order, envelopes and version 4 actions, then version 3 actions |
| AnnouncementParser.NoCompatNoRows | scamp/src/discovery/service_info/parse.rs:70-78 | without a compatibility column every version 4 row is dropped |
| AnnouncementErrors.FlagListAborts | scamp/src/discovery/service_info/parse.rs:189-204 | reading a list of flags aborts exactly if one of them is `t` and digits of a value of 2^32 or more |
| AnnouncementErrors.V3Aborts | scamp/src/discovery/service_info/parse.rs:11-62 | the class list is taken exactly if each action in it is well formed and without such a flag; it aborts the parser exactly if all that comes before the first action not taken is fine, and that action is well formed but for such a flag |
| AnnouncementErrors.V4Aborts | scamp/src/discovery/service_info/parse.rs:64-93 | columns that are read abort the parser exactly if a compatible row has such a flag, and are taken otherwise |
| AnnouncementErrors.DocumentOutcome | scamp/src/discovery/service_info/parse.rs:134-186 | the exact condition under which a whole announcement is taken, and under which it aborts the parser |
| ActionMeaning.FlagMeans | scamp/src/discovery/service_info/parse.rs:189-214 | exactly which texts are read as which flag |
| ActionMeaning.AnnouncedMeaning | scamp/src/service/announce.rs:46-81 | an announcement read back describes each dotted action once: its path in lower case with dots for slashes, version, sector, envelopes, and in ascending order exactly those of its flags that are announced |
| ActionMeaning.InactiveAnnounced | scamp/src/service/announce.rs:91-122 | an inactive service announces weight 0 and no classes, whatever is registered, and others refuse it for the missing classes |
| ActionMeaning.ExtensionMeaning | scamp/src/discovery/service_info/parse.rs:74-91 | whatever seven columns are coded into a version 4 extension, the actions read are its compatible rows in order, each saying what its row says |
| AnnouncementTheorems.AnnounceableFlag | scamp/src/service/announce.rs:56-61 | a flag that is announced is not empty, holds no comma and never makes the parser abort |
| AnnouncementTheorems.FlagsBack | scamp/src/discovery/service_info/parse.rs:189-214 | the joined flags of an action parse to what each flag means, none to none |
| AnnouncementTheorems.ActionBack | scamp/src/discovery/service_info/parse.rs:22-51 | one announced action parses to its normalised path, version and flags, or fails exactly for a negative version |
| AnnouncementTheorems.GroupedFits | scamp/src/service/announce.rs:46-81 | grouping loses nothing, adds nothing and keeps the order within each namespace |
| AnnouncementTheorems.V3Back | scamp/src/discovery/service_info/parse.rs:11-62 | for any registered actions the class list parses exactly if no dotted action has a negative version, to one action each, in order within a namespace |
| AnnouncementTheorems.AnnouncementBack | scamp/src/service/announce.rs:36-123 | an announcement is read back exactly if it is active, with a dotted action and no negative version; with identity, address, weight, interval in milliseconds cut to 32 bits, and every dotted action once |
| AnnouncementTheorems.NegativeVersionRefused | scamp/src/discovery/service_info/parse.rs:31-36 | one negative version makes a whole announcement unreadable |
| Config.ParseConfig | scamp/src/config.rs:125-183 | builds the tree of all lines: comments cut, white space trimmed, numeric segments into lists, values rewritten, first value kept |
| Config.GetElement | scamp/src/config.rs:187-193 | the loop over the segments finds the child at the end of the key, or nothing |
| Config.WriteToFile | scamp/src/config.rs:197-217 | appends the text of a subtree: value, children in order, list items in order |
| ConfigTheorems.ValueAtSet | scamp/src/config.rs:146-174 | a line changes the tree at its own path only, and only if there was no value |
| ConfigTheorems.FirstWins | scamp/src/config.rs:171-174 | under every path, lists included, is the value of the first line that spells it |
| ConfigTheorems.GetIsFirst | scamp/src/config.rs:56-61 | for any text, rewrites and key, `get` gives the value of the first line whose trimmed key equals it, rewritten; a key with a numeric segment is never found |
| ConfigLines.GetIsFirstWritten | scamp/src/config.rs:128-180 | the same from the parts the lines are written with: key, equals sign, value and comment, white space around them, or a line without a pair |
| ConfigLines.PairBinds | scamp/src/config.rs:136-143 | a key, the first equals sign and a value bind the one to the other, both trimmed |
| ConfigLines.CommentCut | scamp/src/config.rs:130-133 | a comment sign and what follows it are as if they were not there |
| ConfigLines.BindsNothingExactly | scamp/src/config.rs:130-144 | a line binds nothing exactly if no equals sign stands before its first comment sign |
| ConfigLines.TextParts | scamp/src/config.rs:128 | every text that ends its last line is written with such parts |
| ConfigLines.LastLineEnded | scamp/src/config.rs:128 | ending the last line makes no difference |
| ConfigLines.RewritesInOrder | scamp/src/config.rs:158-169 | rewrites apply in order, each exactly if it is for all keys or its test takes the key |
| ConfigRoundTrip.SetCanonical | scamp/src/config.rs:146-157 | parsed trees have sorted children, a value below every child, and lists no longer than their last value needs |
| ConfigRoundTrip.Rebuild | scamp/src/config.rs:146-174 | a tree of that shape is rebuilt from its values alone, list gaps and lengths included |
| ConfigText.PrefixesShown | scamp/src/config.rs:203-213 | the prefix the printer builds spells the node's path, except that an empty prefix is dropped before a name and kept before a number |
| ConfigText.WrittenIsLeaves | scamp/src/config.rs:197-217 | a subtree prints one line for each of its values |
| ConfigText.TextRead | scamp/src/config.rs:128-180 | the parser reads printed text back line by line, the key trimmed, the value as it was |
| ConfigPrinting.ParsedTidy | scamp/src/config.rs:125-183 | everything in a tree parsed without rewrites is printable: no comment sign, line end or stray white space in any key or value |
| ConfigPrinting.PrintParse | scamp/src/config.rs:197-217 | for any text and rewrites, parsing the printed tree gives the same tree exactly if there is no list at the root, no named child below the empty name and no rewritten value with a comment sign, a line end or white space around it |
| ConfigPrinting.RootListLost | scamp/src/config.rs:211-214 | the text `1 = x` makes a tree that does not survive |
| ConfigPrinting.EmptyNameLost | scamp/src/config.rs:202-207 | nor does the text `.a = x` |

## Left out

- TLS, TCP, UDP multicast, compression, signatures, certificates and the cache file's iterator: whether a signature is valid, and which announcements a file holds, are inputs.
- The JSON text of packet headers and announcements: header text is an abstract codec that must read back what it wrote (which excludes the envelopes `Other("json")` and `Other("jsonstore")`), announcements are JSON values. `errorData` is kept as its text.
- Authorization tables, tickets and access checks: functions given as parameters.
- Integer widths: request ids, message numbers and byte counts are unbounded (64 bits in the source); message numbers on the wire and ACK values are held to 64 bits by the parser.
- SendRequest.SendRequest: taking a message number and enqueueing its HEADER is one step, although the source awaits in between, so the order of HEADERs under racing calls is not the model's. Whether a waiting call is ever woken is not modelled either (one wake-up serves all calls, and the reader does not wake anybody when it exits).
- Client.ConnectionHandle: the reply channels of the pending map are not objects; the map is its set of keys, and a response is recorded under its id.
- Client.ConnectionHandle.OnBytes: while one read is routed, the channel to the writer task closes at most once and stays closed.
- Completion.Completed: says what has happened once everything has been received, not that it will be received.
- Server.ServerConnection.SendReply: a writer takes some number of packets and then fails for good; a failed write leaves no partial packet, and flush errors, which the source logs only, do not occur.
- Server.ServerConnection.DispatchAndReply: handlers are functions of the request and of how many requests were dispatched before; the action key is lower-cased for ASCII letters only.
- Server.ServerConnection.HandleConnection: the idle timer is an event, 120 seconds without bytes.
- Wire.EndToEndOverBytes: headers must be read back as they were.
- Registry.ServiceRegistry.InjectPacket: time and timestamps are whole seconds and real numbers, not floating point; keys are lower-cased for ASCII letters only.
- Registry.ServiceRegistry.GetAction: lower case is that of ASCII; other letters are left as they are.
- Registry.ServiceRegistry.FindActionWithEnvelope: lower case is that of ASCII; other letters are left as they are.
- Registry.ServiceRegistry.ReloadFromCache: configuration, staleness warning and file errors are not modelled.
- RegistryTheorems.LastWriterWins: fingerprints with a space, which no certificate has; `IndexIsHistory` covers them.
- Registry entries are never evicted by the source; nothing is said about the age of what a lookup finds.
- AnnouncementParser.ParseV3Actions: where the source aborts, the model reports an error of its own, `Panic`; decimal digits outside ASCII count as no digits; paths are lower-cased for ASCII letters only.
- AnnouncementParser.ParseV4Actions: paths and sectors are lower-cased for ASCII letters only. The builder's version 4 vectors are always empty, so there is no round trip of rows.
- Announce.BuildAnnouncement: signing, the certificate and the base64 lines after the JSON.
- Config.ParseConfig: the source walks a mutable pointer down the tree; the model puts the value in by recursion and returns the new tree, so update in place is not captured. A rewrite's regular expressions are a test and a function. The memory a huge list index takes is not modelled.
- Config.GetElement: the conversion of a value to the caller's type.
- The connection pool, the retry in the requester, the command line, the sample service, the proxy and the listener.
