# GB28181 node: a verified model

This project models the media path, the signalling state machines, the text formats and the legacy receiver of a
GB/T 28181 video node, and proves what they keep. `dafny verify dfyconfig.toml` checks all of it.

| files | part of the node |
|---|---|
| `Common.dfy`, `Text.dfy` | bytes and big-endian numbers, decimal texts, line splitting |
| `ElementaryStream.dfy`, `ProgramStream.dfy`, `RtpPacket.dfy` | Annex-B scanning, MPEG program streams, RTP packets |
| `MediaSession.dfy`, `MediaPipeline.dfy` | reassembly of one session as a function, and the path from frame to frame |
| `MediaTables.dfy`, `MediaManager.dfy` | port pool and session table as values, and the object that updates them |
| `InviteSignalling.dfy`, `InviteHandlers.dfy` | INVITE, ACK, BYE and call requests, as steps and as handlers on the manager |
| `Registration.dfy`, `RegistrationRuns.dfy` | the digest challenge table, the REGISTER handler, and whole runs of it |
| `Sdp.dfy` | session descriptions |
| `ManscdpItem.dfy`, `ItemMap.dfy`, `Snapshot.dfy`, `Catalog.dfy`, `BusinessState.dfy` | catalogue and record lists, their snapshot text, catalogue synchronisation |
| `Manscdp.dfy`, `ManscdpPrint.dfy`, `ManscdpMessages.dfy`, `ManscdpBodies.dfy` | reading MANSCDP bodies, and the bodies the node prints |
| `LegacyReceiver.dfy`, `FragmentGrouping.dfy` | loss-aware reassembly with an incremental demuxer, and grouping of its output |
| `ThreadPool.dfy`, `LegacyPortPool.dfy` | the worker pool as interleaved steps, and the RTP/RTCP pair pool |

Code that works step by step is modelled as methods and classes that update the same fields; each is proved against
a function of the old state, and the properties are proved about those functions, mostly over whole runs. The sink,
the RTP adapter, the demuxer, the network, clocks and nonces are inputs that may answer anything. MD5 is a function
parameter of which only its hexadecimal output is used.

Where the code does less than its comments or the formats suggest, the model follows the code and says exactly when
it does what it should:

- the receiver takes what the sender sends if and only if the SSRC text is canonical (`SsrcTextMustBeCanonical`);
- a middle loss is noticed by the program stream parser if and only if the frame has at most 65532 bytes
  (`LossNoticedIffBounded`), and of a longer one a truncated frame is delivered if and only if what is left parses
  (`LongFrameAfterLoss`);
- a catalogue completes if and only if it is not empty, every device arrived and no device id is repeated
  (`CompleteIffAllArrived`);
- the legacy receiver begins a buffer inside a frame if and only if the packet before it was lost and belongs to the
  same frame (`InsideIffPredecessorLost`);
- the legacy port pool serves the same runs as the new one if and only if the range ends odd or holds no even port
  (`SameRunsIffOddEnd`) and every port of it that is returned is held (`SameIffDisciplined`);
- a call survives a response if and only if it is a success of an unknown peer or one that is read and acknowledged;
  a provisional response closes it (`ResponseKeepsSession`);
- a heading that a MANSCDP message lacks is taken from its list, for each message the node prints
  (`ListResponseIsRead`, `OwnRecordIsRead`).

## Model

| member | source | states |
|---|---|---|
| `MediaPipeline.EndToEndIdentity` | src/media/MediaManager.cpp:325-558 | For every frame the elementary-stream parser accepts, every positive chunk size and a receiver in any valid state without a payload open under the new timestamp: the packets of the built sample, fed in order, deliver exactly one frame whose bytes are the input, counted as ceil((23+n)/max) packets, with the parser's key verdict. |
| `MediaPipeline.DatagramIdentity` | src/media/MediaManager.cpp:325-558 | The same over datagrams: what `buildOutboundRtpPackets` prints for a session with a canonical decimal SSRC is accepted by a receiver of that SSRC text and delivers the frame once. |
| `MediaPipeline.SsrcTextMustBeCanonical` | src/media/MediaManager.cpp:344 | Among the SSRC texts a sender can use, the receiver of the same text accepts the sender's packets if and only if the text is all digits with no zero in front of others, and so the canonical decimal; with any other one (a sign, white space, 007) every such packet is refused and changes nothing. |
| `MediaPipeline.LossDeliversNothing` | src/media/MediaManager.cpp:367-396 | For frames up to 65532 bytes and chunks of at least 20 bytes: if the first and the marker packet arrive and any packets between them are lost, nothing is written, the reassembly buffer is empty and the held frame is untouched. |
| `MediaPipeline.LossNoticedIffBounded` | src/media/ProgramStream.cpp:140-152 | With chunks of at least 23 bytes a middle loss is accepted by the program stream parser if and only if the frame is longer than 65532 bytes, because only then the PES length is 0. |
| `MediaPipeline.LongFrameAfterLoss` | src/media/MediaManager.cpp:387-506 | For every frame over 65532 bytes and chunks of at least 23 bytes: after a middle loss one frame is delivered exactly when the bytes that arrive behind the 23 header bytes still parse as an elementary stream, and it is what was held followed by exactly those bytes; otherwise nothing is written and what was held is kept. |
| `MediaPipeline.LongFrameDeliveredTruncated` | src/media/MediaManager.cpp:387-506 | Past 65532 bytes truncated frames do get through: of a padded IDR frame of that size, sent in chunks of at least 27 bytes, whatever middle packets are lost, a shorter frame is delivered behind what was held. |
| `MediaSessions.RunConserves` | src/media/MediaManager.cpp:350-508 | Over every run, with sink failures anywhere: completed frames followed by the frame still held are the video bytes of all decided payloads in order, and received bytes are bytes closed by a marker plus bytes dropped on a timestamp change plus bytes buffered. |
| `MediaSessions.DatagramRunConserves` | src/media/MediaManager.cpp:325-509 | The same conservation for arbitrary datagrams fed to a fresh session. |
| `MediaSessions.VideoBytesMeaning` | src/media/MediaManager.cpp:387-451 | A decided payload is accepted if and only if its program stream is, each of its video payloads is an elementary stream, and all have one codec; it then contributes its video payloads in order, and nothing otherwise. |
| `MediaSessions.ReceiveKeepsValid` | src/media/MediaManager.cpp:350-508 | Buffers and their counters stay consistent whatever arrives and whatever the sink answers. |
| `MediaSessions.SegmentsAreSegmentation` | src/media/MediaManager.cpp:350-396 | Cutting the accepted packets at markers and timestamp changes is a segmentation of them: nothing is lost or reordered, each piece has one timestamp and its marker, if any, at its end. |
| `MediaSessions.DatagramsRunAsAccepted` | src/media/MediaManager.cpp:332-349 | Datagrams that do not decode, or carry another SSRC, leave the run as if they had not come. |
| `MediaManagement.MediaManager.ReceiveRtpPacket` | src/media/MediaManager.cpp:325-509 | The imperative receiver with its early errors, buffers, counters and retry of the sink ends in the session state, error and sink writes of the receive function. |
| `MediaManagement.MediaManager.BuildOutboundRtpPackets` | src/media/MediaManager.cpp:511-558 | Packets are built exactly for a known session, a nonempty frame and a numeric SSRC, as the outbound function says. |
| `MediaManagement.MediaManager.SendAnnexBFrame` | src/media/MediaManager.cpp:560-618 | All packets of the sample go to the adapter in order, or a prefix up to the packet it refuses; the totals grow exactly when all were taken. |
| `MediaManagement.SamePackets` | src/media/MediaManager.cpp:560-618 | The adapter path cuts a sample at the same places, with the same markers, as the datagram path. |
| `MediaManagement.MediaManager.Configure` | src/media/MediaManager.cpp:108-153 | Starts over with the even ports of every usable range, in ascending order, each once, and no session. |
| `MediaManagement.MediaManager.AllocateRtpPort` | src/media/MediaManager.cpp:155-172 | The queue, the two port sets and the answer are those of the pool's allocate operation; stale queue entries are skipped. |
| `MediaManagement.MediaManager.ReleaseRtpPort` | src/media/MediaManager.cpp:179-190 | Only an allocated port goes back, once, to the end of the queue. |
| `MediaManagement.MediaManager.CreateMediaSession` | src/media/MediaManager.cpp:192-211 | A new session is stored; one it replaces gives its port back. |
| `MediaManagement.MediaManager.UpdateMediaSession` | src/media/MediaManager.cpp:213-223 | Replaces a known session by one with the same port, and refuses otherwise. |
| `MediaManagement.MediaManager.CloseMediaSession` | src/media/MediaManager.cpp:620-632 | Stops the adapter, releases the port and forgets the session, or refuses an unknown one. |
| `MediaManagement.MediaManager.StartRtpSessionAdapter` | src/media/MediaManager.cpp:255-295 | An adapter runs only for a known session. |
| `MediaTables.AllocateFromValid` | src/media/MediaManager.cpp:155-172 | In a valid pool the next port is the front of the queue; it moves from the available to the allocated ports. |
| `MediaTables.ReleaseToValid` | src/media/MediaManager.cpp:179-190 | Releasing an allocated port puts it at the end of the queue; releasing any other port changes nothing. |
| `MediaTables.CreateKeepsOwned` | src/media/MediaManager.cpp:192-211 | A session created on a freshly allocated port takes it over, and the port of a replaced session is released: afterwards no port is loose. |
| `MediaTables.CloseKeepsOwned` | src/media/MediaManager.cpp:620-632 | Closing keeps the ownership of ports exact. |
| `MediaTables.OwnedCounts` | src/media/MediaManager.cpp:155-223 | Available ports plus live sessions are the configured ports. |
| `RtpPackets.DecodeIffWire` | src/media/RtpPacket.cpp:57-120 | A datagram is accepted as a packet if and only if it is an encoding of that packet in the wire format of section 5.1 of RFC 3550 (CSRC list, extension and padding included). |
| `RtpPackets.ParseRtpPacket` | src/media/RtpPacket.cpp:57-120 | The offset-driven parser computes that decoding. |
| `RtpPackets.BuildThenDecode` | src/media/RtpPacket.cpp:122-138 | A built packet parses back to its fields. |
| `RtpPackets.PacketizeRtpPayload` | src/media/RtpPacket.cpp:140-171 | The cutting loop produces the list of datagrams, or refuses an empty payload or chunk size. |
| `RtpPackets.PacketizationFaithful` | src/media/RtpPacket.cpp:140-171 | Each datagram decodes to a packet of the stated stream, sequence numbers run on modulo 2^16, the marker is on the last packet alone and the payloads join to the input. |
| `RtpPackets.PacketsCover` | src/media/RtpPacket.cpp:150-169 | The packet payloads join to the input, and there are ceil(length/max) of them. |
| `ProgramStreams.UnitsIffGrammar` | src/media/ProgramStream.cpp:78-179 | Bytes read as a list of units if and only if the list obeys the grammar (pack headers with 0 to 7 stuffing bytes, sections, PES packets, a zero length only on the last) and encodes to the bytes. |
| `ProgramStreams.ParseProgramStreamPayload` | src/media/ProgramStream.cpp:78-179 | The offset-driven loop terminates and counts exactly the units of that grammar; the video payloads are those of the video PES packets in order; the answer asks for a pack header and some media. |
| `ProgramStreams.ReadUnit` | src/media/ProgramStream.cpp:90-178 | One round of the loop takes exactly the unit at the offset and adds it to the tally. |
| `ProgramStreams.ReadPes` | src/media/ProgramStream.cpp:128-176 | A PES packet ends where its length or the input says, and its payload starts behind an MPEG-2 PES header. |
| `ProgramStreams.SamplesRoundTrip` | src/media/ProgramStream.cpp:181-204 | Samples of the builder laid end to end, all but the last of at most 65532 bytes, parse back to the list of their payloads with exact counters. |
| `ElementaryStreams.ParseElementaryStream` | src/media/ElementaryStream.cpp:116-172 | The scanning loop computes the units between start codes, their headers and counts, and refuses unknown or mixed codecs. |
| `ElementaryStreams.FindStartCode` | src/media/ElementaryStream.cpp:27-37 | Finds the first 3- or 4-byte start code, or the end. |
| `ElementaryStreams.ClassifyNal` | src/media/ElementaryStream.cpp:39-95 | One header: its codec must be known and agree with the units before it; the counters of its type grow. |
| `ElementaryStreams.ParseSound` | src/media/ElementaryStream.cpp:116-172 | What acceptance means: behind a lead without start codes the bytes are a nonempty join of nonempty units that hold no start code of their own, one per counted unit. |
| `ElementaryStreams.NalsCover` | src/media/ElementaryStream.cpp:130-168 | No byte is lost between the units. |
| `ElementaryStreams.ScanUndoesJoin` | src/media/ElementaryStream.cpp:116-172 | Scanning a join of start codes and units gives back the headers of the units, trailing zeros allowed. |
| `ElementaryStreams.AnnexBScanUndoesJoin` | src/media/ElementaryStream.cpp:77-172 | A nonempty list of H.264 units of type 1, 5, 6, 7 or 8 behind 3- or 4-byte start codes is reported as exactly that many H.264 units with the SPS, PPS and IDR counts of the list. |
| `InviteSignalling.RunKeepsOwned` | src/capabilities/GB28181Capabilities.cpp:1274-1497 | After any sequence of INVITE, repeated INVITE, ACK, BYE, INVITE responses, placed and ended calls: the allocated ports are exactly the local ports of the live sessions, one session per port, adapters belong to sessions, and available ports plus sessions are the configured ports. |
| `InviteSignalling.StepKeepsOwned` | src/core/GB28181Node.cpp:253-346 | Every single event keeps that ownership, whatever the surroundings answer. |
| `InviteSignalling.ServerInviteOutcome` | src/capabilities/GB28181Capabilities.cpp:1425-1497 | Silence when no port is free, 400 with the port given back for a body that is no offer, and otherwise a session on the first free port answered with that port. |
| `InviteSignalling.ReInviteConserves` | src/capabilities/GB28181Capabilities.cpp:1425-1497 | A repeated INVITE of a dialog swaps the port and keeps the number of free ports and of sessions. |
| `InviteSignalling.CallSetUp` | src/core/GB28181Node.cpp:253-318 | When the INVITE body of one node reaches the other and its 200 comes back, the two sessions name each other's address and port, agree on SSRC and transport, and each records the direction the other side wrote: the caller ends with sendonly, the callee with recvonly. |
| `InviteSignalling.ResponseKeepsSession` | src/capabilities/GB28181Capabilities.cpp:1274-1341 | A call survives a response to its INVITE if and only if the status is 2xx and either its peer is unknown, when nothing changes, or the body parses and the ACK is sent, when it is confirmed; any other response, a provisional one included, closes it and frees its port and adapter, and a response to no call changes nothing. |
| `InviteSignalling.ByeUndoesInvite` | src/capabilities/GB28181Capabilities.cpp:1404-1497 | After the BYE of a new dialog the callee has its old sessions, adapters and free ports. |
| `InviteHandlers.HandleInvite` | src/capabilities/GB28181Capabilities.cpp:1425-1497 | The handler run on a media manager does what the INVITE function says, reply included. |
| `InviteHandlers.HandleAck` | src/capabilities/GB28181Capabilities.cpp:1356-1402 | The ACK handler on a media manager: a known dialog is confirmed, any other is refused. |
| `InviteHandlers.HandleBye` | src/capabilities/GB28181Capabilities.cpp:1404-1423 | The BYE handler on a media manager: a known dialog is closed and its port released, any other gets 481. |
| `InviteHandlers.HandleInviteResponse` | src/capabilities/GB28181Capabilities.cpp:1274-1341 | The caller's handler: a 200 with a usable answer and a sent ACK confirms the stream, anything else closes it. |
| `InviteHandlers.PlaceCall` | src/core/GB28181Node.cpp:253-318 | Placing a call on a media manager: the session is created before the INVITE goes out and closed when it cannot be sent. |
| `InviteHandlers.EndCall` | src/core/GB28181Node.cpp:320-346 | The search loop of a hang-up: it is refused when no stream or several streams show the device, when the peer is unknown, or when the BYE cannot be sent, and otherwise closes that one stream. |
| `RegistrationRuns.NoReplayInAnyRun` | src/capabilities/GB28181Capabilities.cpp:821-902 | In any run that starts without challenges, if nonces are fresh: for each nonce the accepted nonce-counts strictly increase, a response without qop is accepted at most once, and nothing is accepted at or after expiry. |
| `RegistrationRuns.RepeatedNonceReplays` | src/capabilities/GB28181Capabilities.cpp:821-887 | Freshness is needed: a nonce issued a second time is accepted a second time. |
| `RegistrationRuns.RefusalChangesNothing` | src/capabilities/GB28181Capabilities.cpp:833-902 | A refused request changes no unexpired challenge and no peer. |
| `RegistrationRuns.AttemptTakesAtMostTwo` | src/capabilities/GB28181Capabilities.cpp:751-790 | A client that answers every 401 when it can sends at most two REGISTERs in one attempt, whatever the server holds, whatever the accounts and whatever is served in between: the second exactly when the first gets a 401 with a nonce and the client has a password, and the second is never answered with a 401. |
| `RegistrationRuns.HonestDigestMatches` | src/core/DigestAuth.cpp:154-207 | The digest a client with the same account computes is the one the registrar computes, with or without qop. |
| `RegistrationRuns.HonestRegistrationCompletes` | src/capabilities/GB28181Capabilities.cpp:749-1002 | From any challenge table a known client with the right account is challenged once and its retry, within the expiry window and with other traffic in between (refused, about other keys, or to endpoints without a digest), is accepted and leaves it registered for the time it asked, at the address it named. |
| `Registration.ParseNonceCount` | src/capabilities/GB28181Capabilities.cpp:179-216 | Accepts exactly the nonempty hexadecimal texts whose value fits, and returns that value; the digit loop refuses before it would overflow. |
| `Registration.RegisterServer.CleanupExpiredChallenges` | src/capabilities/GB28181Capabilities.cpp:889-902 | Removes exactly the expired challenges. |
| `Registration.RegisterServer.IssueChallenge` | src/capabilities/GB28181Capabilities.cpp:821-831 | Cleans up and stores the new challenge under its key. |
| `Registration.RegisterServer.VerifyChallenge` | src/capabilities/GB28181Capabilities.cpp:833-887 | Answers and changes the table as the verification function says, step by step through its checks. |
| `Registration.RegisterServer.HandleRegister` | src/capabilities/GB28181Capabilities.cpp:904-1002 | One REGISTER: the answer and the whole new state. |
| `Sdp.ParseSdp` | src/media/SdpSession.cpp:82-163 | The line loop computes the parsed record, or refuses. |
| `Sdp.ReadField` | src/media/SdpSession.cpp:100-158 | One line's effect on the record. |
| `Sdp.Trim` | src/media/SdpSession.cpp:24-37 | The two trimming loops. |
| `Sdp.SplitValue` | src/media/SdpSession.cpp:9-22 | The nonempty parts between delimiters. |
| `Sdp.AnswerRoundTrip` | src/media/SdpSession.cpp:183-208 | The answer to any offer the parser accepts parses: it names the answerer's id, address and port, keeps session name (or Play), times, transport and SSRC, is sendonly, and takes the complementary setup role for active or passive and none otherwise. |
| `Sdp.OfferRoundTrip` | src/media/SdpSession.cpp:165-181 | An offer parses back to what it was built from. |
| `Sdp.ParsedIsClean` | src/media/SdpSession.cpp:82-163 | What any parsed offer can contain: values on one line without white space at the end, a transport without blanks, numbers within their types. |
| `Snapshots.SnapshotRoundTrip` | src/core/BusinessState.cpp:277-368 | Restoring what was serialized gives the state back with empty lists dropped, whatever characters the texts hold (tabs, line breaks and backslashes included). |
| `Snapshots.SerializedTextIsStable` | src/core/BusinessState.cpp:277-368 | A restored state serializes to the very text it came from. |
| `Snapshots.AcceptedTextHasCanonicalForm` | src/core/BusinessState.cpp:298-368 | Any accepted text, however laid out, restores to the same state as the canonical text of that state. |
| `Snapshots.RestoredMapsAreValid` | src/core/BusinessState.cpp:318-368 | Whatever text is accepted, the maps are in key order and hold no empty list. |
| `Snapshots.UnescapeUndoesEscape` | src/core/BusinessState.cpp:23-84 | Escaping is undone by unescaping, and an escaped text holds no tab and no line break. |
| `Snapshots.EscapeValue` | src/core/BusinessState.cpp:23-48 | The character loop computes the escaped text. |
| `Snapshots.UnescapeValue` | src/core/BusinessState.cpp:50-84 | The character loop computes the unescaped text, or refuses a bad escape. |
| `Snapshots.SplitUndoesJoin` | src/core/BusinessState.cpp:86-102 | Splitting at tabs undoes joining with tabs. |
| `Snapshots.SplitFields` | src/core/BusinessState.cpp:86-102 | The character loop computes that split. |
| `Snapshots.LineRoundTrip` | src/core/BusinessState.cpp:109-175 | A printed line decodes to the item, peer and type it was printed from. |
| `Snapshots.OldLineRoundTrip` | src/core/BusinessState.cpp:150-175 | A line of the 19-field form decodes too, with an empty parental flag. |
| `BusinessStates.BusinessState.RestoreState` | src/core/BusinessState.cpp:298-368 | Reads the whole text before it changes anything: on any error the state is unchanged, otherwise it is the restored one. |
| `BusinessStates.BusinessState.SerializeState` | src/core/BusinessState.cpp:277-296 | The nested loops print the snapshot text. |
| `BusinessStates.BusinessState.AppendCatalog` | src/core/BusinessState.cpp:190-207 | Each item replaces the one of its device id in place, or goes to the end; other peers keep their lists. |
| `BusinessStates.BusinessState.UpdateCatalog` | src/core/BusinessState.cpp:185-188 | Replaces a peer's list, as a catalogue query does with the empty one. |
| `BusinessStates.BusinessState.UpdateRecords` | src/core/BusinessState.cpp:209-212 | Replaces a peer's record list. |
| `BusinessStates.BusinessState.ReceiveRecordResponse` | src/capabilities/GB28181Capabilities.cpp:1184-1205 | A consistent record response replaces the peer's records, so of a list in several responses only the last part is kept. |
| `BusinessStates.BusinessState.CatalogOwners` | src/core/BusinessState.cpp:239-258 | The peers that hold the device, none for an empty id. |
| `BusinessStates.BusinessState.ReceiveCatalogResponse` | src/capabilities/GB28181Capabilities.cpp:1077-1105 | A consistent response joins the peer's catalogue and is complete when the announced number of items is there. |
| `Catalogs.OwnersAreTheHolders` | src/core/BusinessState.cpp:239-258 | Every peer that holds the device is listed once, in key order, and nobody else. |
| `Catalogs.CatalogFromEmpty` | src/core/GB28181Node.cpp:382-386 | From the empty snapshot of a query, whatever arrives in whatever order and however often: each device once, in order of first arrival, with what was heard of it last. |
| `Catalogs.BatchingIsIrrelevant` | src/core/BusinessState.cpp:190-207 | How items are spread over responses does not matter. |
| `Catalogs.CompleteIffEnoughDevices` | src/capabilities/GB28181Capabilities.cpp:1077-1105 | After any responses to a query, consistent or not, the completion test holds if and only if the last one carries items, announces a positive number, and at least as many different devices have arrived. |
| `Catalogs.CompleteIffAllArrived` | src/capabilities/GB28181Capabilities.cpp:1096-1103 | Of a peer that announces all its items every time and sends only them: a response completes the catalogue if and only if it carries an item, every device has arrived and no two items share a device id; so a catalogue with a repeated id never completes, and an empty one neither. |
| `Catalogs.CompleteCatalogHasAllItems` | src/capabilities/GB28181Capabilities.cpp:1096-1103 | A complete catalogue holds exactly the announced items, whatever the order and the repetitions. |
| `ItemMaps.PutThenGet` | src/core/BusinessState.cpp:185-207 | Storing a list keeps the key order and changes that one list. |
| `ManscdpMessages.ParseUndoesPrint` | src/core/ManscdpMessage.cpp:24-217 | Reading a printed body gives back its root, headings and items, for any number of items and any texts without <; white space around a text goes; without a command type nothing is read. |
| `ManscdpPrint.ItemsOfPrinted` | src/core/ManscdpMessage.cpp:99-158 | A printed list reads back item by item, for any number of items. |
| `ManscdpPrint.BlockOfRender` | src/core/ManscdpMessage.cpp:74-97 | Searching a printed text for an element finds the text behind its first begin tag up to its end tag. |
| `ManscdpPrint.IdentifyName` | src/core/ManscdpMessage.cpp:24-158 | No element name the node uses is a prefix of another, so a search by prefix finds no wrong element. |
| `ManscdpBodies.KeepaliveIsRead` | src/capabilities/GB28181Capabilities.cpp:345-356 | A keepalive reads back with root, command, number and device. |
| `ManscdpBodies.QueryIsRead` | src/capabilities/GB28181Capabilities.cpp:358-373 | A query reads back, with its times for a record query. |
| `ManscdpBodies.ListResponseIsRead` | src/capabilities/GB28181Capabilities.cpp:375-422 | A response with a list of at most one item reads back with root, command, number, device, result, announced count and item; its times are those of the item, because the search for a heading does not stop at the list. |
| `ManscdpBodies.CatalogIsRead` | src/capabilities/GB28181Capabilities.cpp:452-489 | A catalogue response reads back with the count of the whole catalogue and its entry field by field. |
| `ManscdpBodies.EmptyCatalogIsRead` | src/capabilities/GB28181Capabilities.cpp:439-449 | The response for an empty catalogue reads back with count 0 and no item. |
| `ManscdpBodies.OwnCatalogIsRead` | src/capabilities/GB28181Capabilities.cpp:387-406 | The response with the node's own entry, for want of a catalogue file, reads back with that one item. |
| `ManscdpBodies.OwnRecordIsRead` | src/capabilities/GB28181Capabilities.cpp:407-421 | The response with the node's own record comes back with its times twice: in the item, and as headings nobody printed. |
| `Manscdp.ParseManscdpMessage` | src/core/ManscdpMessage.cpp:190-215 | The parser computes the message read by the functions above, or nothing without root or command. |
| `Manscdp.ParseItemsInBlock` | src/core/ManscdpMessage.cpp:99-158 | The cursor loop reads every item of a block; the cursor strictly advances on every input. |
| `Manscdp.ElementBlock` | src/core/ManscdpMessage.cpp:74-97 | The searches for begin tag, > and end tag. |
| `Manscdp.RootName` | src/core/ManscdpMessage.cpp:24-42 | The loop passes over declarations, instructions and comments. |
| `Manscdp.TrimText` | src/core/ManscdpMessage.cpp:8-22 | The two trimming loops. |
| `Manscdp.FindIsFirst` | src/core/ManscdpMessage.cpp:44-97 | The string search the parser relies on gives the first occurrence, and none only when there is none. |
| `LegacyReceivers.RunKeeps` | SipSupService/src/Gb28181Session.cpp:415-590 | For packets with strictly increasing numbers and any demuxer: the buffer is always an end of the payloads of the consecutively numbered packets, and it is empty while a loss is waited out. |
| `LegacyReceivers.NoInputSpansAGap` | SipSupService/src/Gb28181Session.cpp:494-570 | Every demuxer input of the whole run is an end of the payloads of one stretch of consecutively numbered packets. |
| `LegacyReceivers.RecentIsMaximal` | SipSupService/src/Gb28181Session.cpp:425-430 | The stretch is what its name says: consecutive numbers, with a gap before them. |
| `LegacyReceivers.RunConserves` | SipSupService/src/Gb28181Session.cpp:415-590 | Over any run at all, every received byte meets one fate, in order: demuxed, dropped, or still buffered. |
| `LegacyReceivers.GapFreeRunDropsNothing` | SipSupService/src/Gb28181Session.cpp:415-590 | Without gaps and demuxer errors no byte is dropped. |
| `LegacyReceivers.ConsumeShowsSuffixes` | SipSupService/src/Gb28181Session.cpp:515-540 | Whatever the demuxer answers, it only sees ends of the buffer, starting with the whole of it. |
| `LegacyReceivers.DuplicateIsAppendedAgain` | SipSupService/src/Gb28181Session.cpp:425-457 | Increasing numbers are needed: a packet received twice is appended twice. |
| `LegacyReceivers.InsideIffPredecessorLost` | SipSupService/src/Gb28181Session.cpp:415-590 | Over any run of packets taken from a consecutively numbered stream: a buffer, however begun, begins inside a frame if and only if the packet sent before its first one belongs to the same frame and was lost. |
| `LegacyReceivers.StartIsCertainIffNext` | SipSupService/src/Gb28181Session.cpp:458-481 | A restart is at a frame start in every stream that fits what arrived if and only if the packet's number follows the one before; otherwise some stream that fits has it inside a frame. |
| `LegacyReceivers.RestartIsShown` | SipSupService/src/Gb28181Session.cpp:458-570 | A restart inside a frame goes unnoticed: when the frame's marked packet comes, the demuxer is shown what arrived of the frame from the restart on. |
| `LegacyReceivers.PackProcStat.OnRtpPacketProcPs` | SipSupService/src/Gb28181Session.cpp:415-590 | The object with its reallocated buffer ends in the state, and shows the demuxer the inputs, of the receive function; the fill level stays within the buffer. |
| `LegacyReceivers.PackProcStat.FeedDemuxer` | SipSupService/src/Gb28181Session.cpp:515-540 | The consume loop terminates for any demuxer and computes the consumption. |
| `LegacyReceivers.PackProcStat.ConsumeBuffer` | SipSupService/src/Gb28181Session.cpp:494-570 | What was not taken moves to the front of the buffer; an error drops it together with the demuxer. |
| `LegacyReceivers.PackProcStat.AwaitFrameStart` | SipSupService/src/Gb28181Session.cpp:458-481 | While a loss is waited out the buffer is emptied, and only the start of a frame refills it. |
| `LegacyReceivers.PackProcStat.Append` | SipSupService/src/Gb28181Session.cpp:446-454 | Grows the buffer when needed and appends the payload. |
| `FragmentGrouping.SentAndPendingAreTheGroups` | SipSupService/src/Gb28181Session.cpp:61-176 | For any sequence of callbacks the packets sent and the pending buffer are the maximal runs of the fragments of known codec by codec and time, without the empty ones. |
| `FragmentGrouping.GroupsAreMaximalRuns` | SipSupService/src/Gb28181Session.cpp:78-176 | The grouping keeps every byte in order, and neighbouring groups differ in codec or time. |
| `FragmentGrouping.BytesAreKept` | SipSupService/src/Gb28181Session.cpp:61-176 | No byte of a known codec is lost, repeated or reordered. |
| `FragmentGrouping.PackProcStat.OnPacket` | SipSupService/src/Gb28181Session.cpp:61-176 | The callback on its reallocated buffer collects as the collecting function says; the fill level stays within the buffer. |
| `ThreadPools.PoolIsSafe` | SipSupService/src/ThreadPool.cpp:39-88 | For any number of workers and posters and any interleaving: one thread at a time is inside a critical section, tasks are taken in the order they were pushed, each once, and no woken worker meets an empty queue. |
| `ThreadPools.AdvanceKeepsValid` | SipSupService/src/ThreadPool.cpp:39-88 | Every atomic step keeps: queue length is the semaphore plus the threads between push and post plus the threads between wait and pop, the lock is held by exactly the thread inside, and taken tasks are started or in hand. |
| `ThreadPools.AtRestEveryTaskWasRun` | SipSupService/src/ThreadPool.cpp:39-88 | When no thread can go on, every posted task was run exactly once; and that is so if and only if ten steps were made per posted task, so no wakeup is lost. |
| `ThreadPools.SomeThreadCanGo` | SipSupService/src/ThreadPool.cpp:39-88 | While there is work and a worker, some thread can go on. |
| `ThreadPools.RunKeepsValid` | SipSupService/src/ThreadPool.cpp:39-88 | Steps made plus steps left are ten per posted task, in any interleaving, so runs end. |
| `LegacyPorts.PoolsAgree` | SipSupService/src/SipLocalConfig.cpp:184-212 | For one range any run of takes and returns in which every port of the range that comes back is held gives the same ports from the legacy queue as from the media manager's pool; the queue stays a sequence of (even, even + 1) pairs and its unguarded pops never meet an empty queue. |
| `LegacyPorts.SameIffDisciplined` | SipSupService/src/SipLocalConfig.cpp:184-212 | The discipline is exact: a run is disciplined if and only if no part of it, followed by any number of takes, hands out different ports or runs past the end of the legacy queue. |
| `LegacyPorts.SameRunsIffOddEnd` | SipSupService/src/SipLocalConfig.cpp:162-212 | From one configured range, the media manager's configuration and the legacy initialisation serve all disciplined runs alike if and only if the range ends odd or holds no even port. |
| `LegacyPorts.LegacyStaysInRange` | SipSupService/src/SipLocalConfig.cpp:162-212 | As long as no odd port of the range comes back the legacy pops never underflow and hand out only ports of the range made to end odd, so never the last port of a range that ends even. |
| `LegacyPorts.SamePoolsIffOddEnd` | SipSupService/src/SipLocalConfig.cpp:162-182 | Both pools start with the same ports if and only if the range ends odd or holds no even port; of a range that ends even the legacy pool does not hold the last port. |
| `LegacyPorts.ConfiguredQueue` | src/media/MediaManager.cpp:108-153 | What the media manager's configuration leaves in its queue for one range. |
| `LegacyPorts.FirstInFirstOut` | src/media/MediaManager.cpp:155-190 | Over any run of takes and returns the ports handed out, followed by those still queued, are the ports queued at first followed by the ports returned while held, in order. |
| `LegacyPorts.ReleasedComesLast` | src/media/MediaManager.cpp:155-190 | A released port is handed out only after all ports then available. |
| `LegacyPorts.SipLocalConfig.InitRandPort` | SipSupService/src/SipLocalConfig.cpp:162-182 | The range is made to start even and end odd, and the queue filled with its pairs. |
| `LegacyPorts.SipLocalConfig.PopOneRandNum` | SipSupService/src/SipLocalConfig.cpp:184-200 | Takes a port with its RTCP port; a queue of pairs stays one. |
| `LegacyPorts.SipLocalConfig.PushOneRandNum` | SipSupService/src/SipLocalConfig.cpp:202-212 | Only ports of the range come back, with their RTCP ports, to the end of the queue. |

## Left out

- PJSIP, JRTPLIB, libevent, tinyxml2, jsoncpp, sockets, threads' run-time system, files and logging: their answers are inputs or are not modelled.
- Data races inside the media manager and the business state: the code has no locks there, and each call is one atomic step here.
- Byte and packet counters are unbounded numbers; the wrap-around of 64-bit counters and of the semaphore's maximum is not modelled.
- `int` overflow for port numbers near the largest `int` in the port loops of both pools, and of `curSeq - rSeq` for numbers of opposite sign in the legacy receiver.
- `incompleteVideoFrames` and the log records of the session manager: nothing reads them back.
- Equality of a running adapter's bound port with the session's port after a repeated INVITE: the session's port is replaced without touching the adapter.
- More than one clock reading within one request.
- Registration.RegisterServer.HandleRegister: the text of the Contact header is not parsed; the address it names, if any, is an input.
- H.265 streams: several H.265 headers are read as H.264 ones by the codec test, so unit counts are stated for H.264 types 1, 5, 6, 7 and 8.
- The stream header that `SendPacket` prepends, the dump file of the grouping callback and the media class of a codec: the STREAM_* codec numbers are not part of this model.
- Failure of `realloc` and of `ps_demuxer_create` in the legacy receiver.
- Fairness of the operating system's scheduler towards single workers, and the second semaphore of the thread pool, which no task uses.
- Manscdp.ParseManscdpMessage: the count is read with saturation at the bounds of `int`, where `atoi` is undefined beyond them.
- ManscdpMessages.ParseUndoesPrint: texts that contain < are not covered; the printers do not escape them.
- ManscdpBodies.CatalogIsRead: the catalogue file itself, a JSON text, is not parsed here; its entries are the input.
- BusinessStates.BusinessState.ReceiveCatalogResponse: the checks that root, command and sender of the message match are not repeated; a response that fails them changes nothing.
- Snapshots of files on disk (`saveToFile`, `loadFromFile`): only their texts are modelled.
- Duplicated legacy copies in `SipSubService`, configuration readers, the C interface, the management server and the command line.
