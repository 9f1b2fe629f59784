# cirno-im core, modelled in Dafny

cirno-im is an instant-messaging backend written in Go. Clients connect to a gateway
over TCP or WebSocket. The gateway authenticates the login packet, gives the
connection a channel id and forwards every logic packet to a logic service. It picks
that service through a service container, which holds clients for the registered
services. Logic services route packets by command to handler chains. They answer
through the container's push path, and the gateway delivers each answer to the listed
channels. Sessions and account locations live in Redis. Messages are stored as one
content row and one index row per participant.

This project models that core:
- the binary wire format, in little-endian, and the transport frames;
- the logic packet and its metadata;
- the channel's write queue and read loop;
- the command router;
- the container: its lifecycle, client maps, selectors, lookup, forward and push;
- the gateway and logic-service handlers;
- the Redis session storage;
- the message-insert handlers;
- the node-id rule.

Objects whose fields the Go code updates in place are Dafny classes, with `modifies`
clauses on their methods. Pure code is written as functions and lemmas. Go behaviours
that matter are written out:
- `io.ReadFull`'s EOF versus unexpected-EOF split;
- uint16/uint32 truncation of lengths;
- a missing map key reading as "";
- panics, which become explicit outcomes.

Anything outside the program is a parameter of the operation that uses it:
- I/O errors;
- codecs;
- the random choice;
- the database's and Redis's failures.

## Model

| member | source | states |
|---|---|---|
| Endian.ReadUint8 | wire/endian/endian.go:11-17 | succeeds iff one byte is left; returns that byte and consumes exactly it |
| Endian.ReadUint16 | wire/endian/endian.go:19-25 | succeeds iff two bytes are left; consumes exactly two; value below 2^16 |
| Endian.ReadUint32 | wire/endian/endian.go:27-33 | succeeds iff four bytes are left; consumes exactly four; value below 2^32 |
| Endian.ReadUint64 | wire/endian/endian.go:35-41 | succeeds iff eight bytes are left; consumes exactly eight |
| Endian.ReadFull | wire/endian/endian.go:64-70 | `io.ReadFull`: succeeds iff n bytes remain and returns exactly them; otherwise EOF when nothing was left, unexpected EOF after a partial read |
| Endian.ReadUint | wire/endian/endian.go:19-41 | a w-byte read succeeds iff w bytes remain, and the bytes consumed are the little-endian encoding of the value |
| Endian.WriteUint8 | wire/endian/endian.go:72-78 | appends exactly the one byte |
| Endian.WriteUint16 | wire/endian/endian.go:80-87 | appends exactly two bytes after what was written |
| Endian.WriteUint32 | wire/endian/endian.go:89-96 | appends exactly four bytes after what was written |
| Endian.WriteUint64 | wire/endian/endian.go:98-105 | appends exactly eight bytes after what was written |
| Endian.FromLEOfLE | wire/endian/endian.go:80-105 | decoding the little-endian bytes of a value gives the value back |
| Endian.LEOfFromLE | wire/endian/endian.go:19-41 | re-encoding decoded bytes gives the same bytes |
| Endian.LittleEndianOrder | wire/endian/endian.go:80-87 | the first byte written is the least significant one |
| Endian.ReadUintOfLE | wire/endian/endian.go:19-41 | reading the encoding of v returns v and leaves the following bytes unread |
| Endian.Uint8RoundTrip | wire/endian/endian.go:11-17 | ReadUint8 after WriteUint8 returns the byte and leaves the rest |
| Endian.Uint16RoundTrip | wire/endian/endian.go:19-25 | ReadUint16 after WriteUint16 returns the value and leaves the rest |
| Endian.Uint32RoundTrip | wire/endian/endian.go:27-33 | ReadUint32 after WriteUint32 returns the value and leaves the rest |
| Endian.Uint64RoundTrip | wire/endian/endian.go:35-41 | ReadUint64 after WriteUint64 returns the value and leaves the rest |
| Endian.ReadBytes | wire/endian/endian.go:51-62 | succeeds iff a 4-byte length and that many payload bytes are present; returns the payload and the bytes after it |
| Endian.WriteBytes | wire/endian/endian.go:114-124 | appends a 4-byte length, then the bytes themselves |
| Endian.ReadShortBytes | wire/endian/endian.go:138-149 | as ReadBytes, with a 2-byte length |
| Endian.WriteShortBytes | wire/endian/endian.go:126-136 | appends a 2-byte length, then the bytes |
| Endian.BytesRoundTrip | wire/endian/endian.go:51-62 | ReadBytes after WriteBytes returns the bytes and leaves the following bytes unread |
| Endian.ShortBytesRoundTrip | wire/endian/endian.go:126-149 | the short round trip holds for fewer than 65536 bytes |
| Endian.ShortBytesTruncated | wire/endian/endian.go:126-136 | 65536 bytes are written with length 0, so reading back yields an empty slice and leaves the payload unread |
| Endian.ReadBytesFailures | wire/endian/endian.go:53-60 | a missing length or a short payload is an error: EOF when nothing was there, unexpected EOF otherwise |
| Endian.ReadString | wire/endian/endian.go:43-49 | succeeds exactly when ReadBytes does; the string's bytes are the payload |
| Endian.WriteString | wire/endian/endian.go:107-112 | appends the 4-byte length and the string's bytes |
| Endian.ReadShortString | wire/endian/endian.go:151-157 | succeeds exactly when ReadShortBytes does; the string's bytes are the payload |
| Endian.StringRoundTrip | wire/endian/endian.go:43-49 | ReadString after WriteString returns the string |
| Endian.ShortStringRoundTrip | wire/endian/endian.go:151-157 | the short string round trip holds below 65536 bytes |
| Endian.ReadFixedBytes | wire/endian/endian.go:64-70 | returns exactly n bytes or fails, and fails iff fewer than n remain |
| Crc32.Checksum | container/selector.go:10-17 | a CRC-32/IEEE value is below 2^32 |
| Crc32.ReferenceValues | services/gateway/serv/selector.go:96-100 | the bitwise definition gives the IEEE reference sums: 0 for the empty input and 0xE8B7BE43 for "a" |
| Location.Encode | location.go:14-22 | the encoding is the two short strings, 4 bytes of lengths plus both ids |
| Location.Bytes | location.go:14-22 | a nil location encodes to nothing; otherwise to the channel and the gateway as short strings |
| Location.UnmarshalSpec | location.go:24-38 | empty data fails with "data is empty" and keeps the fields; a success yields byte strings |
| Location.Location.Unmarshal | location.go:24-38 | the fields and the error after unmarshalling in place are those of the specification function on the old fields |
| Location.RoundTrip | location.go:14-38 | unmarshalling Bytes() of a location restores its channel and gateway, whatever follows |
| Location.FirstFieldFails | location.go:28-32 | a bad channel field clears the channel, keeps the old gateway and fails |
| Location.OneByteFails | location.go:24-38 | a single byte fails with unexpected EOF and clears the channel |
| Location.SecondFieldMissing | location.go:33-36 | a channel field with no gateway field sets the channel, clears the gateway and fails with EOF |
| TcpConnection.WriteFrameTo | tcp/connection.go:81-89 | a frame is the opcode byte, a 4-byte payload length, then the payload |
| TcpConnection.ParseFrame | tcp/connection.go:55-68 | a read succeeds iff an opcode and a complete length-prefixed payload are present |
| TcpConnection.FrameRoundTrip | tcp/connection.go:55-89 | reading a written frame returns its opcode and payload and leaves what follows |
| TcpConnection.TwoFramesInOrder | tcp/connection.go:55-89 | two written frames are read back in order |
| TcpConnection.WritesAppend | tcp/connection.go:71-89 | writes append to the buffered output |
| TcpConnection.FrameBytes | tcp/connection.go:81-89 | the exact byte layout of a frame |
| TcpConnection.ParseFrameFailures | tcp/connection.go:55-68 | empty or opcode-only input is EOF; a cut length is unexpected EOF; a short payload fails |
| TcpConnection.TcpConn.ReadFrame | tcp/connection.go:55-68 | a fresh frame with the parsed opcode and payload, or the read error; the input advances |
| TcpConnection.TcpConn.WriteFrame | tcp/connection.go:71-89 | an earlier write error is returned and nothing is written; a frame that fits the 1024-byte buffer is appended to it; otherwise the socket is written: on success the bytes sent and buffered are the old ones followed by the frame, and a socket error is returned and kept |
| TcpConnection.TcpConn.Flush | tcp/connection.go:76-78 | an earlier error is returned; an empty buffer is left alone; otherwise the buffer is sent and emptied, or the socket error is returned and kept with no byte lost or reordered |
| TcpConnection.TcpConn.constructor | tcp/connection.go:39-45 | a new connection reads the given input and has an empty write buffer, nothing sent and no error |
| TcpConnection.WriteFlushReadBack | tcp/connection.go:55-89 | a frame written and flushed on a healthy connection is read back with its opcode and payload |
| TcpConnection.ErrorIsSticky | tcp/connection.go:71-78 | after a failed write, a flush returns the same error and sends nothing more |
| TcpConnection.Frame.GetOpCode | tcp/connection.go:20-22 | returns the frame's opcode |
| TcpConnection.Frame.GetPayload | tcp/connection.go:24-26 | returns the frame's payload |
| TcpConnection.Frame.SetOpCode | tcp/connection.go:16-18 | sets the opcode, keeps the payload |
| TcpConnection.Frame.SetPayload | tcp/connection.go:28-30 | sets the payload, keeps the opcode |
| WebsocketConnection.Cipher | websocket/connection.go:26-33 | byte i is XORed with mask byte i mod 4 |
| WebsocketConnection.XorInvolution | websocket/connection.go:26-33 | XOR with the same byte twice is the identity |
| WebsocketConnection.CipherInvolution | websocket/connection.go:26-33 | masking twice with one key restores the payload |
| WebsocketConnection.CipherInPlace | websocket/connection.go:26-33 | unmasking in place leaves the array holding exactly `Cipher` of its old contents |
| WebsocketConnection.Frame.GetPayload | websocket/connection.go:26-33 | a masked payload is unmasked in place, once: the frame becomes unmasked and a second read returns the same bytes |
| WebsocketConnection.MaskedRoundTrip | websocket/connection.go:26-33 | reading a payload sent masked yields the original data |
| WebsocketConnection.Frame.SetOpCode | websocket/connection.go:14-16 | sets the opcode, keeps mask and payload |
| WebsocketConnection.Frame.SetPayload | websocket/connection.go:22-24 | sets the payload, keeps opcode and mask |
| WebsocketConnection.Frame.GetOpCode | websocket/connection.go:18-20 | returns the frame's opcode |
| WebsocketConnection.WsConn.Flush | websocket/connection.go:69-71 | flushing never fails |
| Packet.ApplyOptions | wire/pkt/packet.go:46-56 | header options leave command, metadata and flag unchanged |
| Packet.ApplyOptionsAppend | wire/pkt/packet.go:46-56 | options apply left to right |
| Packet.LastOptionWins | wire/pkt/packet.go:40-44 | the last destination option decides the destination |
| Packet.LogicPkt.New | wire/pkt/packet.go:46-56 | the command and options are applied; a zero sequence is replaced by the next counter value, and the counter moves exactly one step (`Wire.Successor`); otherwise the counter is untouched; the sequence is never 0 |
| Packet.NewFrom | wire/pkt/packet.go:58-68 | a reply header copies command, channel, sequence, status and destination, with the default flag and no metadata |
| Packet.LogicPkt.FromHeader | wire/pkt/packet.go:58-68 | a packet built from a header carries NewFrom of it and an empty body |
| Packet.ServiceNameOf | wire/pkt/packet.go:119-125 | the text before the first "." of the command, or "default" when there is none |
| Packet.LogicPkt.ServiceName | wire/pkt/packet.go:119-125 | the packet's service name is ServiceNameOf its command |
| Packet.LogicPkt.AddMeta | wire/pkt/packet.go:127-129 | appends the entries and changes nothing else |
| Packet.LogicPkt.AddStringMeta | wire/pkt/packet.go:131-137 | appends one string entry and changes nothing else |
| Packet.FindMeta | wire/pkt/packet.go:139-160 | the index of the first entry with the key, or none when no entry has it |
| Packet.GetMetaOf | wire/pkt/packet.go:139-160 | the first entry with the key decides: a string entry gives its text; an int entry gives the parsed integer, or nothing when it does not parse; a float entry gives its text; no entry gives nothing |
| Packet.LogicPkt.GetMeta | wire/pkt/packet.go:139-160 | the lookup on the packet's own entries: nothing without an entry, the text of a string entry, the parsed value of an int entry or nothing when it does not parse |
| Packet.GetMetaAfterAdd | wire/pkt/packet.go:127-160 | appending entries never changes the value read for a key already present |
| Packet.FindMetaPrefix | wire/pkt/packet.go:139-160 | appending entries never moves the first match of a key already present |
| Packet.GetMetaAddedString | wire/pkt/packet.go:131-160 | a string entry added for a new key reads back as that string |
| Packet.FindMetaAppendNew | wire/pkt/packet.go:127-160 | an entry added for a new key is found at the end |
| Packet.DelMetaOf | wire/pkt/packet.go:162-172 | deleting never lengthens the list |
| Packet.LogicPkt.DelMeta | wire/pkt/packet.go:162-172 | the in-place deletion loop leaves exactly DelMetaOf of the old entries |
| Packet.DelMetaAbsent | wire/pkt/packet.go:162-172 | deleting an absent key changes nothing |
| Packet.DelMetaUnique | wire/pkt/packet.go:162-172 | with a single entry for the key, exactly that entry is removed |
| Packet.DelMetaAgreesWhenUnique | wire/pkt/packet.go:162-172 | when the key occurs at most once, DelMeta equals the filter that removes every entry with the key |
| Packet.FilterMeta | wire/pkt/packet.go:162-172 | every remaining entry has another key, and every entry with another key remains |
| Packet.FilterMetaAppend | wire/pkt/packet.go:162-172 | the filter distributes over concatenation |
| Packet.FilterMetaAbsent | wire/pkt/packet.go:162-172 | filtering an absent key changes nothing |
| Packet.DelMetaAdjacentDuplicates | wire/pkt/packet.go:162-172 | two adjacent entries with the key: one of them survives |
| Packet.DelMetaSeparatedDuplicates | wire/pkt/packet.go:162-172 | two entries with the key around another: the unrelated entry is deleted too |
| Packet.EncodeSpec | wire/pkt/packet.go:85-97 | the encoding is the length-prefixed header bytes followed by the length-prefixed body |
| Packet.LogicPkt.Encode | wire/pkt/packet.go:85-97 | the packet's encoding is EncodeSpec of its header and body |
| Packet.DecodeSpec | wire/pkt/packet.go:70-83 | a successful decode unmarshals the first length-prefixed field as the header; a failed first read keeps the packet; a header that does not parse leaves an empty header and the old body; a failed body read leaves a nil body and an error; without an error the body is exactly the second length-prefixed field |
| Packet.LogicPkt.Decode | wire/pkt/packet.go:70-83 | decoding in place leaves the packet, the rest and the error of DecodeSpec |
| Packet.EncodeDecode | wire/pkt/packet.go:70-97 | decoding an encoded packet restores header and body and leaves what follows |
| Packet.EncodeSplits | wire/pkt/packet.go:85-97 | the encoding is the header field followed by the body field |
| Packet.LogicPkt.WriteBody | wire/pkt/packet.go:103-109 | a nil value leaves the body; an encoding replaces it; a failed encoding leaves a nil body; the packet itself is returned |
| NamingService.NewEntry | naming/service.go:33-41 | the entry answers the given id, name, protocol, address and port, with no namespace, tags or metadata |
| NamingService.DefaultService.ServiceID | naming/service.go:44-47 | returns the registration's id |
| NamingService.DefaultService.GetNamespace | naming/service.go:49 | returns the namespace |
| NamingService.DefaultService.ServiceName | naming/service.go:52 | returns the service name |
| NamingService.DefaultService.PublicAddress | naming/service.go:55 | returns the address |
| NamingService.DefaultService.PublicPort | naming/service.go:58 | returns the port |
| NamingService.DefaultService.GetProtocol | naming/service.go:61 | returns the protocol |
| NamingService.DefaultService.GetTags | naming/service.go:71 | returns the tags |
| NamingService.DefaultService.GetMetadata | naming/service.go:74 | returns the metadata |
| NamingService.DefaultService.DialURL | naming/service.go:63-68 | "address:port" for tcp, "protocol://address:port" otherwise |
| NamingService.DialURLPort | naming/service.go:63-68 | the text after the last ":" of the URL parses back to the port |
| NamingService.DialURLScheme | naming/service.go:63-68 | a tcp URL starts with the address; any other starts with "protocol://" |
| ContainerClient.ClientsImpl.Add | container/client.go:26-33 | the client is stored under its id, replacing any client with that id |
| ContainerClient.ClientsImpl.Remove | container/client.go:35-37 | the id is gone and nothing else changes |
| ContainerClient.ClientsImpl.Get | container/client.go:39-50 | found iff the id is stored, and then it is that client |
| ContainerClient.ClientsImpl.Services | container/client.go:53-68 | nil unless 0 or 2 filter strings are given; otherwise exactly the stored clients whose metadata matches the pair, each once |
| ContainerSelector.HashCode | container/selector.go:10-17 | the CRC-32 of the key, below 2^32 |
| ContainerSelector.HashLookup | container/hash_selector.go:12-20 | the chosen id is one of the candidates' ids |
| ContainerSelector.HashLookupSticky | container/hash_selector.go:12-20 | packets of one channel are sent to the same candidate |
| RouteSelector.ChooseZone | services/gateway/serv/selector.go:43-58 | a whitelisted app gets its zone; otherwise the zone of the slot the hash of the app or account selects |
| RouteSelector.InZone | services/gateway/serv/selector.go:75-83 | exactly the candidates whose "zone" metadata is the zone, in order |
| RouteSelector.FilterSrvs | services/gateway/serv/selector.go:75-83 | the filtering loop computes InZone |
| RouteSelector.SlotTable | services/gateway/serv/selector.go:85-91 | ten consecutive slots for each candidate |
| RouteSelector.SlotsPerCandidate | services/gateway/serv/selector.go:85-91 | candidate i owns exactly slots 10i to 10i+9 |
| RouteSelector.SelectSpec | services/gateway/serv/selector.go:85-94 | the selected server is one of the zone's candidates |
| RouteSelector.SelectSrvs | services/gateway/serv/selector.go:85-94 | the slot-filling loop selects SelectSpec's server |
| RouteSelector.Lookup | services/gateway/serv/selector.go:30-73 | a selection is always one of the candidates |
| RouteSelector.Hashcode | services/gateway/serv/selector.go:96-100 | the CRC-32 of the key fits in 32 bits, so the `int` it becomes is never negative |
| RouteSelector.MissingMetaIsRandom | services/gateway/serv/selector.go:34-37 | without app or account metadata the random pick is used |
| RouteSelector.LookupSelectsInZone | services/gateway/serv/selector.go:30-73 | with both entries, the pick is in the chosen zone when it has servers, else random over all |
| RouteSelector.WhitelistPinsZone | services/gateway/serv/selector.go:44-45 | a whitelisted app's zone does not depend on the account |
| Channel.ChannelImpl.constructor | channel.go:23-44 | a new channel is open, with an empty queue and the default read and write waits |
| Channel.ChannelImpl.ID | channel.go:74-76 | the channel's id |
| Channel.ChannelImpl.Push | channel.go:78-84 | refused with "channel X has closed" after Close; otherwise queued, or blocked when the 5-slot queue is full |
| Channel.ChannelImpl.Close | channel.go:94-100 | closing runs once: the close signal fires and the queue closes, and a second Close changes nothing |
| Channel.ChannelImpl.SetWriteWait | channel.go:137-142 | a zero duration is ignored |
| Channel.ChannelImpl.SetReadWait | channel.go:144-149 | a zero duration is ignored |
| Channel.ChannelImpl.WriteStep | channel.go:45-72 | one wake-up of the write loop writes every queued payload as a binary frame in FIFO order and flushes once; the close signal, a closed queue and write or flush errors end it as the source does |
| Channel.ChannelImpl.ReadLoop | channel.go:102-135 | the read loop's outcome, dispatched payloads and pongs are those of the read specification |
| Channel.NonEmptyPayloads | channel.go:129-133 | only non-empty payloads are dispatched |
| Channel.PingCount | channel.go:122-127 | at most one pong per frame |
| Channel.ReadSpecDispatchesAll | channel.go:102-135 | with no close and no failure, every non-empty payload is dispatched in order and every ping answered |
| Channel.ReadSpecDispatchesNonEmpty | channel.go:129-133 | no empty payload is ever dispatched |
| Channel.ReadSpecStopsAtClose | channel.go:119-121 | a close frame ends the loop as remote-closed, and nothing after it is read |
| Channel.ReadSpecBounds | channel.go:102-135 | only non-empty payloads reach the listener, at most one payload and one pong per frame; a run still waiting met no failed read, no close and no failed pong |
| Channel.BinaryFrames | channel.go:52-63 | each queued payload becomes one binary frame |
| Router.FuncTree.Add | router.go:73-75 | handlers are appended to the path's chain; other paths are unchanged |
| Router.FuncTree.Get | router.go:77-80 | the chain and whether the path was ever added |
| Router.Router.Handle | router.go:26-28 | registering appends to the command's chain |
| Router.Router.ChainFor | router.go:48-57 | the registered chain, or handleNoFound alone |
| Router.Router.Serve | router.go:30-46 | a missing dispatcher, then a missing cache, is refused; otherwise the chain for the command runs and nil is returned |
| Router.EmptyChainIsFound | router.go:77-80 | a command registered with no handlers runs an empty chain, not handleNoFound |
| Router.UnknownCommandNotFound | router.go:48-61 | an unknown command runs handleNoFound alone |
| Container.Container.constructor | container/container.go:60-62 | the default container is uninitialised, with no clients and the hash selector |
| Container.Container.Init | container/container.go:64-79 | as written: a second Init fails with "container already inited" and changes nothing; the first sets the server and clears the clients, and the dependency set is never extended; no other field changes |
| Container.Container.InitIntended | container/container.go:64-79 | corrected: a second Init changes nothing; the first also records every dependency; no other field changes |
| Container.InitDropsDependencies | container/container.go:70-75 | Init as written leaves the dependency set empty |
| Container.InitIntendedRecordsDependencies | container/container.go:70-75 | the corrected Init records the dependency it is given |
| Container.Container.SetServiceNaming | container/container.go:93-95 | sets whether a registry is present, and changes no other field |
| Container.Container.SetDialer | container/container.go:81-83 | sets whether a dialer is present, and changes no other field |
| Container.Container.SetSelector | container/container.go:89-91 | replaces the selector, and changes no other field |
| Container.Container.ConnectDependencies | container/container.go:114-121 | every dependency ends up with a fresh empty client map and a subscription; other client maps and the rest of the container are unchanged |
| Container.Container.Start | container/container.go:97-136 | fails without naming, or unless initialised; otherwise started, with an empty client map and a subscription per dependency, and registered iff the server has an address and a port (`subscribed` and `registered` record the calls; their errors are only logged) |
| Container.Container.Signal | container/container.go:131-135 | a signal shuts the container down; the result is that of shutdown |
| Container.Container.ShutdownContainer | container/container.go:293-317 | only a started container shuts down, and it is then closed; deregistration and unsubscription happen as far as no error stops them |
| Container.ShutdownResult | container/container.go:293-317 | no error iff both steps succeed; a shutdown error takes precedence |
| Container.Container.BuildClient | container/container.go:197-240 | an existing id is left alone; a non-TCP service or a missing dialer or a failed connect adds nothing; otherwise a young client is stored under its id |
| Container.YoungClient | container/container.go:179 | a new client is young and carries the service's id, name and metadata |
| Container.Container.Watch | container/container.go:173-190 | the subscription callback adds exactly the clients Connected describes |
| Container.Connected | container/container.go:173-190 | existing clients are never replaced |
| Container.ConnectedKeepsIds | container/container.go:173-190 | every client stays stored under its own id; with no dialer nothing is added |
| Container.Container.Promote | container/container.go:180-183 | a young client becomes adult and nothing else changes |
| Container.Container.ClientClosed | container/container.go:230-237 | a client whose read loop ends is removed |
| Container.Container.Lookup | container/container.go:319-333 | "service X not found", "no service found" or "no client found"; otherwise the client the selector names among exactly the adult clients, each listed once |
| Container.IdsOf | container/container.go:323-327 | the ids of a candidate list, both directions of membership |
| Container.DistinctIdsCount | container/container.go:323-327 | a list with distinct ids has as many ids as entries |
| Container.AdultCandidatesCount | container/container.go:319-333 | the candidate list has exactly the ids of the adult clients, so its length is the number of adult clients |
| Container.DefaultSelector | container/hash_selector.go:12-20 | the default selector picks one of the candidates |
| Container.Container.Push | container/container.go:139-142 | the packet is tagged with the destination server and pushed to it |
| Container.Tagged | container/container.go:164 | tagging appends the dest.server entry naming this server |
| Container.Container.Forward | container/container.go:145-156 | a nil packet, an empty command or an empty channel id is refused with nothing sent; otherwise the outcome of ForwardWithSelector |
| Container.Container.ForwardWithSelector | container/container.go:159-167 | each lookup failure is returned with nothing sent and the packet untouched; otherwise the packet, tagged with this server's id, is sent to exactly the client the selector picked among the adult clients, and the send's error is returned |
| Container.Container.HashForwardReachesAdult | container/container.go:159-167 | with the hash selector and an adult client present, forwarding sends exactly one packet, to an adult client of the service, and returns the send's error |
| Container.Container.PushMessage | container/container.go:269-291 | a packet for another server, or one with no `dest.channels` entry, is refused with an error (`DestServerMismatch`, `DestChannelsMissing`) that the read loop logs, and nothing changes; a non-string channel list is the type-assertion panic (`ChannelsNotString`); otherwise both routing entries are deleted and the payload is delivered to each listed channel in order |
| Container.Deliveries | container/container.go:284-289 | one delivery per channel, in order, all with the same payload |
| Container.DeliveriesAppend | container/container.go:284-289 | deliveries extend one channel at a time |
| ServerHandler.Push | service/server/serv/handler.go:24-27 | the packet gets the joined channel list and is pushed to the gateway |
| ServerHandler.ChannelsMeta | service/server/serv/handler.go:24-27 | the channel list is a string entry under dest.channels |
| ServerHandler.DispatchedChannelsRecovered | service/server/serv/handler.go:24-27 | the gateway splits the list back into the channels it was given, for a non-empty list of ids without "," |
| ServerHandler.EmptyChannelListReadsAsOne | service/server/serv/handler.go:24-27 | an empty list reads back as one empty channel id |
| ServerHandler.Accept | service/server/serv/handler.go:49-65 | an error iff the deadline, the read or the handshake fails, and then an empty id; otherwise the service id from the handshake |
| ServerHandler.Receive | service/server/serv/handler.go:67-96 | unreadable payloads are dropped; a sign-in takes its gateway from dest.server and panics if that is not a string; other commands take the cached session or get SessionNotFound / SystemException |
| ServerHandler.SignInIgnoresCache | service/server/serv/handler.go:75-81 | a sign-in does not depend on the cache |
| ServerHandler.ErrorRepliesAreResponses | service/server/serv/handler.go:83-107 | every error reply is a response to the same command and channel, with a non-success status |
| ServerHandler.RespErr | service/server/serv/handler.go:98-107 | the reply keeps command, channel and sequence and carries the status and the response flag |
| GatewayHandler.GetIP | services/gateway/serv/handler.go:152-157 | the address before its last ":port", or the whole address |
| GatewayHandler.GetIPStripsPort | services/gateway/serv/handler.go:152-157 | "host:port" gives host, even when host contains ":" |
| GatewayHandler.GetIPOfDialAddress | services/gateway/serv/handler.go:152-157 | the dial address of a peer gives back its address |
| GatewayHandler.ChannelIDOf | services/gateway/serv/handler.go:159-161 | a channel id starts with the service id |
| GatewayHandler.ChannelIDSequence | services/gateway/serv/handler.go:159-161 | the text after the last "_" parses back to the sequence number |
| GatewayHandler.ChannelIDsDiffer | services/gateway/serv/handler.go:159-161 | distinct sequence numbers give distinct channel ids |
| GatewayHandler.GenerateChannelID | services/gateway/serv/handler.go:159-161 | the counter moves exactly one step (`Wire.Successor`) and the id is built from the new value |
| GatewayHandler.RefusalReply | services/gateway/serv/handler.go:48-56 | a refusal copies command, channel and sequence and carries the status |
| GatewayHandler.CheckLoginAsWritten | services/gateway/serv/handler.go:27-75 | as written: a refusal may carry no error, when the Unauthorized reply was written |
| GatewayHandler.CheckLogin | services/gateway/serv/handler.go:27-75 | corrected: admitted iff deadline, read, sign-in command, login body and token all succeed; every refusal carries an error; replies are InvalidCommand or Unauthorized |
| GatewayHandler.CheckLoginAgrees | services/gateway/serv/handler.go:27-75 | both checks admit the same logins, identically, and refuse with the same reply |
| GatewayHandler.BadTokenLosesError | services/gateway/serv/handler.go:65-74 | an expired token with a successful reply write: no error as written, the token error when corrected |
| GatewayHandler.LoginSession | services/gateway/serv/handler.go:79-85 | the session has the channel, the gateway, the token's account and app, and the peer IP |
| GatewayHandler.Accept | services/gateway/serv/handler.go:27-93 | corrected (built on CheckLogin, see Findings): refusals return their reply and error with nothing sent; an admitted login gets a fresh channel id from exactly one counter step (a refusal leaves the counter untouched), and its session is forwarded to the login service exactly as ForwardWithSelector describes; the id is returned iff forwarding succeeds |
| GatewayHandler.Rewritten | services/gateway/serv/handler.go:111-123 | the packet takes the agent's channel id and, when the agent has metadata, app and account entries |
| GatewayHandler.RewrittenCarriesAgentIdentity | services/gateway/serv/handler.go:111-123 | those entries read back as the agent's app and account |
| GatewayHandler.AgentValue | services/gateway/serv/handler.go:118-121 | a missing metadata key reads as "" |
| GatewayHandler.Receive | services/gateway/serv/handler.go:95-133 | a ping gets a pong; other basic packets are ignored; a logic packet is rewritten and forwarded to the service its command names: sent to the selector's pick among the adult clients, or a lookup error with nothing sent |
| GatewayHandler.DisConnect | services/gateway/serv/handler.go:135-148 | a sign-out packet for the channel, with the next sequence number, is forwarded to the login service: sent to the selector's pick, or a lookup error with nothing sent |
| RedisStorage.KeySession | storage/redis_impl.go:115-117 | "login:sn:" followed by the channel id |
| RedisStorage.KeyLocation | storage/redis_impl.go:119-124 | "login:loc:" followed by the account, and ":device" when a device is given |
| RedisStorage.KeyLocationInjective | storage/redis_impl.go:119-124 | distinct accounts have distinct location keys |
| RedisStorage.SessionAndLocationKeysDiffer | storage/redis_impl.go:115-124 | session keys and location keys never collide |
| RedisStorage.KeyLocations | storage/redis_impl.go:126-132 | one location key per account, in the same order |
| RedisStorage.Stored | storage/redis_impl.go:28-47 | after adding a session, exactly its location key and session key are new or replaced, and the session key holds the encoded session |
| RedisStorage.StoredLocationReadsBack | storage/redis_impl.go:28-47 | the location stored for an account unmarshals back to the session's channel and gateway |
| RedisStorage.RedisStorage.Add | storage/redis_impl.go:28-47 | the location is set first, then the session; the first failure is returned and stops |
| RedisStorage.RedisStorage.Delete | storage/redis_impl.go:50-63 | the location is deleted first, then the session; the first failure stops |
| RedisStorage.RedisStorage.Get | storage/redis_impl.go:66-78 | a missing session is ErrSessionNil; a store failure is returned; otherwise the decoded session |
| RedisStorage.RedisStorage.GetLocation | storage/redis_impl.go:101-113 | a missing key is ErrSessionNil; otherwise a new location unmarshalled from the stored bytes |
| RedisStorage.FoundLocations | storage/redis_impl.go:80-99 | no more locations than accounts, and none when no account has a key |
| RedisStorage.FoundLocationsEmpty | storage/redis_impl.go:95-97 | the result is empty iff no account has a stored location |
| RedisStorage.FoundLocationsAppend | storage/redis_impl.go:87-94 | locations are collected account by account |
| RedisStorage.RedisStorage.GetLocations | storage/redis_impl.go:80-99 | missing keys are skipped and the rest are unmarshalled in account order; none found is ErrSessionNil |
| MessageHandler.ContentOf | services/service/handler/message_handler.go:24-31 | the content row has the message id, the body, the extra data, the send time and the type truncated to a byte |
| MessageHandler.UserIndexes | services/service/handler/message_handler.go:33-49 | two rows, with the two index ids in drawing order, both for the message |
| MessageHandler.ToByte | services/service/handler/message_handler.go:27 | byte() keeps the low eight bits |
| MessageHandler.UserIndexesMirror | services/service/handler/message_handler.go:33-49 | a user message has two index rows: (dest, sender, 0) and (sender, dest, 1), with the same message id and send time |
| MessageHandler.GroupIndex | services/service/handler/message_handler.go:88-99 | a member's row has the member, the sender and the member's group; direction is 1 exactly for the sender's row |
| MessageHandler.GroupIndexes | services/service/handler/message_handler.go:86-100 | one row per member, in member order, the k-th row with the k-th id drawn |
| MessageHandler.GroupIndexIdsDistinct | services/service/handler/message_handler.go:86-100 | rows built from increasing ids have increasing ids, all above the message id and none above the last id drawn |
| MessageHandler.MembersOf | services/service/handler/message_handler.go:79-80 | the members of the group; an empty group name matches every member |
| MessageHandler.IDGenerator.Next | services/service/handler/message_handler.go:24 | each id handed out is larger than the one before |
| MessageHandler.AppendKeepsIdsUnique | services/service/handler/message_handler.go:50-58 | storing rows with fresh ids keeps every stored id unique |
| MessageHandler.ServiceHandler.InsertUserMessage | services/service/handler/message_handler.go:18-69 | 400 for a bad body and nothing drawn; otherwise three increasing ids are drawn, the message id first; the transaction stores both index rows and the content row or nothing; 500 on failure, else the message id; the stored ids stay unique |
| MessageHandler.ServiceHandler.NewGroupRows | services/service/handler/message_handler.go:86-100 | the member loop draws one increasing id per member and yields exactly the rows `GroupIndexes` specifies for those ids |
| MessageHandler.ServiceHandler.InsertGroupMessage | services/service/handler/message_handler.go:71-125 | 400 for a bad body; the message id is drawn first; 500 if the member query fails; otherwise one row per member with increasing ids above the message id; the transaction stores all or nothing; the stored ids stay unique |
| MessageHandler.UserMessageStoresTwoRows | services/service/handler/message_handler.go:33-49 | a stored user message adds two rows, both for the returned message id |
| ServiceServer.HashCode | services/service/server.go:145-149 | the CRC-32 of the id reduced modulo 1000, so always below 1000 |
| ServiceServer.HashCodeReferenceValues | services/service/server.go:145-149 | "" hashes to 0 and "a" to 907 |
| ServiceServer.NodeID | services/service/server.go:58-60 | a configured non-zero node id is kept; 0 becomes the service id's hash |

## Left out

- Codecs are function parameters: the protobuf and JSON codecs of headers, bodies, login requests, tokens and sessions, including `pkt.Read`, `MustReadLogicPkt`, `pkt.Marshal` and `BasicPkt`. Their source is not part of this model.
- Packet.GetMetaOf: a float entry is returned as its text, unparsed. Go parses it and reports the entry as absent when the text is not a float; the model reports it as present.
- Packet.DecodeSpec: a header that fails to parse leaves an empty header. The protobuf decoder may have filled some fields before it failed; those partial fields are not modelled.
- RouteSelector.Lookup: `pkt.FindMeta` is not part of this model. It is taken to return the first entry with the key, converted as `GetMeta` converts it. Under that reading an int-typed app entry makes `app.(string)` panic (`Panic`), and so does an int-typed account wherever `account.(string)` is evaluated: for the routing key when routing by account, and when the chosen zone has servers.
- GatewayHandler.Accept: it is built on the corrected login check. As written, a bad token whose refusal is written returns `("", nil, nil)`; `CheckLoginAsWritten` and `BadTokenLosesError` state that case.
- TcpConnection.TcpConn.WriteFrame: `bufio.Writer` splits an oversized write between the buffer and the socket in a fixed way. The model states only the byte stream: what is sent followed by what is buffered. On a failed write it states that this stream is a prefix of the intended one.
- Endian.ReadFixedBytes: the length is a `nat`. Go's `make` panics on a negative length, and that case is not modelled.
- Channel.ChannelImpl.SetWriteWait and Channel.ChannelImpl.SetReadWait: the duration is a `nat`. No caller passes a negative duration, so that case is not modelled.
- The Prometheus counters and all logging are left out.
- Goroutines, `sync` primitives and `signal.Notify` are not modelled as concurrency. The container's signal wait, the ten-second young-to-adult timer and the channel's reader and writer become explicit steps: `Signal`, `Promote`, `WriteStep` and `ReadLoop`.
- The Go blocking send on a full channel queue becomes the `blocked` result of `Push`.
- The channel's `closed` event is a boolean. Its type is not part of this model.
- Channel.ChannelImpl.constructor: Go's `NewChannel` (channel.go:28-36) never sets the `closed` field, so it is nil, and `writeLoop`, `Push` and `Close` call methods on it. The model assumes the event was initialised to an unfired one; what calling those methods on a nil event does depends on the `Event` type, which is not part of this model.
- Socket I/O and the WebSocket library (framing, `Upgrade`) are left out beyond the masking rule. The dialers, the servers, and the TCP and WebSocket clients are left out too.
- Channel.ChannelImpl.WriteStep: each write or flush error is an injected outcome, and deadlines are not modelled.
- Container.Container.ClientClosed: the container client's own read loop (`readLoop`) is represented only by the removal when it ends. The packets it forwards to `pushMessage` arrive through `PushMessage` directly.
- Container.Container.Watch: the callback writes the young state into the registration's live metadata map. A nil metadata map would make that write panic; the model starts the client's metadata from an empty map instead.
- NamingService.DefaultService.GetMetadata returns the map by value. Writes through the live map that Go hands out are not visible on the service.
- `wire/seq.go` is not part of this model. `Wire.Sequence` is a counter that skips 0 and wraps below 2^32; `Wire.Successor` is its step.
- The values of `constants.MetaKeyApp` ("app") and `constants.MetaKeyAccount` ("account") are assumed, since that file is not part of this model.
- The zero values of the `Status` and `Flag` enums are assumed to be `Success` and `Request`.
- Crc32.Checksum: the hasher's `Write` error branch is left out, because it cannot fail.
- Randomness: `rand.Intn(n)` is a parameter `rnd`, used as `rnd % n`. Its uniformity is not modelled.
- Redis key expiry (48 hours) is not modelled, and neither is the network client.
- The router's context pool, `Next` and what each handler does are left out: `Serve` returns the chain it runs.
- Error texts that embed formatted values are abbreviated to outcome constructors, for example `PushOutcome` and a failed connect. The texts without formatted values are kept verbatim.
- The ping and pong codes of the gateway's basic packets are not in the modelled files. A basic packet is modelled as ping or not.
- The gateway's `Accept` always returns nil metadata; that result is omitted.
- MessageHandler.IDGenerator.Next: the snowflake layout of the id (timestamp, node id, sequence) is not modelled. The contract keeps only what the handlers rely on: every id is larger than the one before, assuming the clock does not go back. The handlers report the ids they drew as ghost results.
- The database transaction's failure is an injected outcome, and so is the database's treatment of an empty row list.
- The group-member query and response negotiation are represented by their outcomes.
- The other HTTP handlers of the message service are left out: acknowledgements, groups and offline sync.
- Strings are sequences of characters, and `[]byte(s)` maps each character to one byte. Round trips are stated for strings whose characters are all below 256. UTF-8 encoding is not modelled.

## Findings

| source | as written | input that shows it | evidently intended | confidence | as-written member | corrected member |
|---|---|---|---|---|---|---|
| container/container.go:70-75 | the dependency loop skips every dependency that is not already in the set (`if !ok { continue }`), so nothing is ever added | `Init(srv, "chat")` on a new container leaves the dependency set empty, so `Start` subscribes to nothing | record each dependency | not executed | Container.InitDropsDependencies | Container.InitIntendedRecordsDependencies |
| wire/pkt/packet.go:162-172 | `DelMeta` ranges over the original slice while shifting it, so with repeated keys it deletes the wrong entries | metadata `[k=a, x=1, k=b]` with key `k` ends empty; `x` is lost | remove exactly the entries with the key | not executed | Packet.DelMetaSeparatedDuplicates | Packet.DelMetaAgreesWhenUnique |
| services/gateway/serv/handler.go:65-74 | on a bad token the Unauthorized reply's write result overwrites `err`, so when the write succeeds `Accept` returns an empty id and no error | an expired token with a working connection returns `("", nil, nil)`, and the refused login is not reported | return the token error; the modelled `GatewayHandler.Accept` is built on the corrected check | not executed | GatewayHandler.BadTokenLosesError | GatewayHandler.CheckLogin |
