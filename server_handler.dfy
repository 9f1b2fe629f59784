/**
 * The logic-service side of the gateway link (service/server/serv/handler.go): the
 * dispatcher that pushes packets back to gateways, the handshake, and the routing of an
 * incoming packet to a session and the router.
 *
 * Decoding a packet, decoding the handshake and the session cache are parameters; the
 * router call is represented by the header and session it is given.
 */
module ServerHandler {
  import opened Wrappers
  import opened GoStrings
  import opened Sessions
  import Wire
  import Packet
  import Container

  /** What the session cache reports for a missing session, and any other failure. */
  datatype CacheError = SessionNil | CacheFailure(message: string)

  /** How `Receive` ends: dropped, answered with an error reply, handed to the router, or panicked. */
  datatype ReceiveOutcome =
    | Dropped
    | Replied(reply: Packet.Header)
    | Served(header: Packet.Header, session: Session)
    | GateAssertionPanic

  const AuthGenerated: string := "AuthGenerated"

  /**
   * `RespErr`'s reply header: the request's command, channel, sequence, status-less
   * copy via `NewFrom`, with the given status and the response flag, and no metadata.
   */
  function RespErr(h: Packet.Header, status: Packet.Status): (r: Packet.Header)
    ensures r.command == h.command && r.channelID == h.channelID && r.sequence == h.sequence
    ensures r.dest == h.dest && r.meta == []
    ensures r.status == status && r.flag == Packet.Response
  {
    Packet.NewFrom(h).(status := status, flag := Packet.Response)
  }

  /**
   * `Accept`: a failed deadline, a failed read or an undecodable handshake is returned
   * with an empty id; otherwise the id is the service id the handshake names.
   */
  function Accept(deadlineErr: Option<string>, frame: Result<seq<byte>, string>,
                  decode: seq<byte> -> Result<string, string>): (r: (string, Option<string>))
    ensures r.1.None? <==> deadlineErr.None? && frame.Ok? && decode(frame.value).Ok?
    ensures r.1.None? ==> r.0 == decode(frame.value).value
    ensures r.1.Some? ==> r.0 == ""
    ensures deadlineErr.Some? ==> r.1 == deadlineErr
  {
    if deadlineErr.Some? then ("", deadlineErr)
    else if frame.Err? then ("", Some(frame.error))
    else match decode(frame.value)
      case Err(e) => ("", Some(e))
      case Ok(id) => (id, None)
  }

  /**
   * `Receive`: an unreadable payload is dropped. A sign-in builds its session from the
   * `dest.server` entry without asking the cache (the type assertion panics unless
   * that entry is a string); any other command takes its session from the cache, and
   * a missing session or a cache failure is answered with an error reply instead.
   */
  function Receive(payload: seq<byte>, read: seq<byte> -> Option<Packet.Header>,
                   cacheGet: string -> Result<Session, CacheError>): (o: ReceiveOutcome)
    ensures read(payload).None? <==> o == Dropped
    ensures read(payload).Some? ==> var h := read(payload).value;
      (h.command == Wire.CommandLoginSignIn ==>
        match Packet.GetMetaOf(h.meta, Wire.MetaDestServer)
        case Some(StringValue(gate)) => o == Served(h, Blank.(channelID := h.channelID, gateID := gate, tags := [AuthGenerated]))
        case _ => o == GateAssertionPanic) &&
      (h.command != Wire.CommandLoginSignIn ==>
        match cacheGet(h.channelID)
        case Ok(s) => o == Served(h, s)
        case Err(SessionNil) => o == Replied(RespErr(h, Packet.SessionNotFound))
        case Err(CacheFailure(_)) => o == Replied(RespErr(h, Packet.SystemException)))
  {
    match read(payload)
    case None => Dropped
    case Some(h) =>
      if h.command == Wire.CommandLoginSignIn then
        match Packet.GetMetaOf(h.meta, Wire.MetaDestServer)
        case Some(StringValue(gate)) => Served(h, Blank.(channelID := h.channelID, gateID := gate, tags := [AuthGenerated]))
        case _ => GateAssertionPanic
      else
        match cacheGet(h.channelID)
        case Ok(s) => Served(h, s)
        case Err(SessionNil) => Replied(RespErr(h, Packet.SessionNotFound))
        case Err(CacheFailure(_)) => Replied(RespErr(h, Packet.SystemException))
  }

  /** A sign-in never depends on the cache: any two caches give the same outcome. */
  lemma SignInIgnoresCache(payload: seq<byte>, read: seq<byte> -> Option<Packet.Header>,
                           cache1: string -> Result<Session, CacheError>, cache2: string -> Result<Session, CacheError>)
    requires read(payload).Some? && read(payload).value.command == Wire.CommandLoginSignIn
    ensures Receive(payload, read, cache1) == Receive(payload, read, cache2)
  {
  }

  /** An error reply is always a response to the same command and channel, with a non-success status. */
  lemma ErrorRepliesAreResponses(payload: seq<byte>, read: seq<byte> -> Option<Packet.Header>,
                                 cacheGet: string -> Result<Session, CacheError>)
    ensures var o := Receive(payload, read, cacheGet);
      o.Replied? ==> (o.reply.flag == Packet.Response && o.reply.status != Packet.Success &&
                      o.reply.command == read(payload).value.command &&
                      o.reply.channelID == read(payload).value.channelID)
  {
  }

  /** The `dest.channels` entry the dispatcher adds: the channel ids joined with ",". */
  function ChannelsMeta(channels: seq<string>): (m: Packet.Meta)
    ensures m.key == Wire.MetaDestChannels && m.mtype == Packet.MetaString
  {
    Packet.Meta(Wire.MetaDestChannels, Join(channels, ','), Packet.MetaString)
  }

  /**
   * The list the gateway reads back from a packet the dispatcher tagged is the list it
   * was given, provided the packet had no channel list before, the list is non-empty
   * and no id contains ",".
   */
  lemma DispatchedChannelsRecovered(ms: seq<Packet.Meta>, channels: seq<string>)
    requires Packet.FindMeta(ms, Wire.MetaDestChannels).None?
    requires |channels| >= 1 && forall k :: 0 <= k < |channels| ==> ',' !in channels[k]
    ensures var v := Packet.GetMetaOf(ms + [ChannelsMeta(channels)], Wire.MetaDestChannels);
      v.Some? && v.value.StringValue? && Split(v.value.s, ',') == channels
  {
    var m := ChannelsMeta(channels);
    SplitJoin(channels, ',');
    Packet.GetMetaAddedString(ms, Wire.MetaDestChannels, m.value);
    assert m == Packet.Meta(Wire.MetaDestChannels, m.value, Packet.MetaString);
  }

  /** An empty channel list is joined to "", which reads back as the one channel "". */
  lemma EmptyChannelListReadsAsOne()
    ensures Split(ChannelsMeta([]).value, ',') == [""]
  {
    SplitJoinEmpty(',');
  }

  /**
   * `ServerDispatcher.Push`: the packet is tagged with the joined channel list and then
   * pushed to the gateway through the container, which tags it with the gateway.
   */
  method Push(c: Container.Container, gateway: string, channels: seq<string>, p: Packet.LogicPkt,
              marshal: (Packet.Header, seq<byte>) -> seq<byte>, pushErr: Option<string>)
    returns (err: Option<string>)
    modifies c`pushed, p
    ensures p.header == old(p.header).(meta := old(p.header.meta) +
      [ChannelsMeta(channels), Packet.Meta(Wire.MetaDestServer, gateway, Packet.MetaString)])
    ensures p.body == old(p.body)
    ensures c.pushed == old(c.pushed) + [(gateway, marshal(p.header, p.body))]
    ensures err == pushErr
  {
    var m := ChannelsMeta(channels);
    p.AddStringMeta(Wire.MetaDestChannels, m.value);
    err := c.Push(gateway, p, marshal, pushErr);
  }
}
