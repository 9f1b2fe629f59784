/**
 * The gateway's connection handler (services/gateway/serv/handler.go): the login
 * handshake, the rewriting and forwarding of client packets, the logout on disconnect,
 * and its two string helpers.
 *
 * The connection, packet decoding, the login body, token parsing and session encoding
 * are parameters; forwarding goes through the container.
 */
module GatewayHandler {
  import opened Wrappers
  import opened GoStrings
  import opened Sessions
  import Constants
  import Wire
  import Packet
  import Container

  /** A parsed login token: the account and app it names. */
  datatype Token = Token(account: string, app: string)

  /** A client payload as the reader classifies it. */
  datatype Incoming = Unreadable | Basic(isPing: bool) | Logic(header: Packet.Header, body: seq<byte>)

  /**
   * What the first steps of `Accept` decide: reject (with the reply written to the
   * connection, if any, and the error returned), or admit the login request.
   */
  datatype Checked =
    | Rejected(reply: Option<Packet.Header>, err: Option<string>)
    | Admitted(header: Packet.Header, body: seq<byte>, token: Token)

  const InvalidCommandError: string := "must be a invalidCommand command"

  // ---------------------------------------------------------------------------
  // getIP and generateChannelID

  /** Whether the address ends in ':' and one or more decimal digits. */
  predicate HasPortSuffix(addr: string)
  {
    ':' in addr && LastIndexOf(addr, ':') + 1 < |addr| && AllDigits(addr[LastIndexOf(addr, ':') + 1..])
  }

  /**
   * `getIP`: the remote address with a trailing ":digits" removed (what replacing the
   * end-anchored pattern `:[0-9]+` with "" does); any other address is kept.
   */
  function GetIP(remoteAddr: string): (ip: string)
    ensures remoteAddr == "" ==> ip == ""
    ensures !HasPortSuffix(remoteAddr) ==> ip == remoteAddr
    ensures HasPortSuffix(remoteAddr) ==> ip == remoteAddr[..LastIndexOf(remoteAddr, ':')]
  {
    if remoteAddr == "" then ""
    else if HasPortSuffix(remoteAddr) then remoteAddr[..LastIndexOf(remoteAddr, ':')]
    else remoteAddr
  }

  /** The host part of "host:port" comes back whatever the host contains. */
  lemma GetIPStripsPort(host: string, port: nat)
    ensures GetIP(host + ":" + NatToDecimal(port)) == host
  {
    var digits := NatToDecimal(port);
    assert ':' !in digits by {
      assert forall i :: 0 <= i < |digits| ==> IsDigit(digits[i]);
    }
    var addr := host + ":" + digits;
    assert addr == host + [':'] + digits;
    LastIndexOfSuffix(host, ':', digits);
    assert addr[|host| + 1..] == digits;
    assert addr[..|host|] == host;
  }

  /** A tcp dial address of a service with a non-negative port reads back as its host. */
  lemma GetIPOfDialAddress(address: string, port: int)
    requires port >= 0
    ensures GetIP(address + ":" + Itoa(port)) == address
  {
    GetIPStripsPort(address, port);
  }

  /** `generateChannelID` for a drawn sequence number n: "serviceID_account_n". */
  function ChannelIDOf(serviceID: string, account: string, n: nat): (id: string)
    ensures |id| > |serviceID| + |account| + 2
    ensures id[..|serviceID|] == serviceID
  {
    serviceID + "_" + account + "_" + NatToDecimal(n)
  }

  /** The sequence number is the text after the last '_', so ids with distinct numbers differ. */
  lemma ChannelIDSequence(serviceID: string, account: string, n: nat)
    requires n <= MaxInt64
    ensures '_' in ChannelIDOf(serviceID, account, n)
    ensures var id := ChannelIDOf(serviceID, account, n); Atoi(id[LastIndexOf(id, '_') + 1..]) == Some(n)
  {
    var digits := NatToDecimal(n);
    assert '_' !in digits by {
      assert forall i :: 0 <= i < |digits| ==> IsDigit(digits[i]);
    }
    var prefix := serviceID + "_" + account;
    var id := ChannelIDOf(serviceID, account, n);
    assert id == prefix + ['_'] + digits;
    LastIndexOfSuffix(prefix, '_', digits);
    assert id[|prefix| + 1..] == digits;
    AtoiItoa(n);
  }

  lemma ChannelIDsDiffer(serviceID: string, account: string, n1: nat, n2: nat)
    requires n1 != n2
    ensures ChannelIDOf(serviceID, account, n1) != ChannelIDOf(serviceID, account, n2)
  {
    var prefix := serviceID + "_" + account + "_";
    if ChannelIDOf(serviceID, account, n1) == ChannelIDOf(serviceID, account, n2) {
      var id := ChannelIDOf(serviceID, account, n1);
      assert id[|prefix|..] == NatToDecimal(n1);
      assert ChannelIDOf(serviceID, account, n2)[|prefix|..] == NatToDecimal(n2);
      DecimalValueOfNat(n1);
      DecimalValueOfNat(n2);
      assert false;
    }
  }

  /** `generateChannelID`: draws the next sequence number. */
  method GenerateChannelID(serviceID: string, account: string, counter: Wire.Sequence) returns (id: string)
    requires counter.Valid()
    modifies counter
    ensures counter.Valid() && counter.num != 0
    ensures id == ChannelIDOf(serviceID, account, counter.num)
    ensures counter.num == Wire.Successor(old(counter.num))
  {
    var n := counter.Next();
    id := serviceID + "_" + account + "_" + NatToDecimal(n);
  }

  // ---------------------------------------------------------------------------
  // Accept

  /** The reply written when the login request is refused: a copy of its header with the status. */
  function RefusalReply(h: Packet.Header, status: Packet.Status): (r: Packet.Header)
    ensures r.command == h.command && r.channelID == h.channelID && r.sequence == h.sequence
    ensures r.status == status && r.meta == []
  {
    Packet.NewFrom(h).(status := status)
  }

  /**
   * The checks of `Accept` AS WRITTEN. On a bad token the reply's write error is
   * assigned over the token error, so when the reply is written the request is
   * rejected with no error at all.
   */
  function CheckLoginAsWritten(deadlineErr: Option<string>, frame: Result<seq<byte>, string>,
                               readPkt: seq<byte> -> Result<(Packet.Header, seq<byte>), string>,
                               readLogin: seq<byte> -> Result<string, string>,
                               parseToken: string -> Result<Token, string>,
                               writeErr: Option<string>): (r: Checked)
    ensures r.Rejected? && r.err.None? ==> r.reply.Some? && r.reply.value.status == Packet.Unauthorized
  {
    if deadlineErr.Some? then Rejected(None, deadlineErr)
    else if frame.Err? then Rejected(None, Some(frame.error))
    else match readPkt(frame.value)
      case Err(e) => Rejected(None, Some(e))
      case Ok((h, body)) =>
        if h.command != Wire.CommandLoginSignIn then
          Rejected(Some(RefusalReply(h, Packet.InvalidCommand)), Some(InvalidCommandError))
        else match readLogin(body)
          case Err(e) => Rejected(None, Some(e))
          case Ok(tok) =>
            match parseToken(tok)
            case Err(_) => Rejected(Some(RefusalReply(h, Packet.Unauthorized)), writeErr)
            case Ok(tk) => Admitted(h, body, tk)
  }

  /** The checks of `Accept` as intended: a bad token is rejected with the token error. */
  function CheckLogin(deadlineErr: Option<string>, frame: Result<seq<byte>, string>,
                      readPkt: seq<byte> -> Result<(Packet.Header, seq<byte>), string>,
                      readLogin: seq<byte> -> Result<string, string>,
                      parseToken: string -> Result<Token, string>): (r: Checked)
    ensures r.Rejected? ==> r.err.Some?
    ensures r.Admitted? <==>
      deadlineErr.None? && frame.Ok? && readPkt(frame.value).Ok? &&
      readPkt(frame.value).value.0.command == Wire.CommandLoginSignIn &&
      readLogin(readPkt(frame.value).value.1).Ok? &&
      parseToken(readLogin(readPkt(frame.value).value.1).value).Ok?
    ensures r.Admitted? ==> (r.header == readPkt(frame.value).value.0 && r.body == readPkt(frame.value).value.1 &&
                             r.token == parseToken(readLogin(r.body).value).value)
    ensures r.Rejected? && r.reply.Some? ==>
      r.reply.value.status in {Packet.InvalidCommand, Packet.Unauthorized} &&
      frame.Ok? && readPkt(frame.value).Ok? && r.reply.value.command == readPkt(frame.value).value.0.command
  {
    if deadlineErr.Some? then Rejected(None, deadlineErr)
    else if frame.Err? then Rejected(None, Some(frame.error))
    else match readPkt(frame.value)
      case Err(e) => Rejected(None, Some(e))
      case Ok((h, body)) =>
        if h.command != Wire.CommandLoginSignIn then
          Rejected(Some(RefusalReply(h, Packet.InvalidCommand)), Some(InvalidCommandError))
        else match readLogin(body)
          case Err(e) => Rejected(None, Some(e))
          case Ok(tok) =>
            match parseToken(tok)
            case Err(e) => Rejected(Some(RefusalReply(h, Packet.Unauthorized)), Some(e))
            case Ok(tk) => Admitted(h, body, tk)
  }

  /** The two versions differ only on a bad token whose refusal is written successfully. */
  lemma CheckLoginAgrees(deadlineErr: Option<string>, frame: Result<seq<byte>, string>,
                         readPkt: seq<byte> -> Result<(Packet.Header, seq<byte>), string>,
                         readLogin: seq<byte> -> Result<string, string>,
                         parseToken: string -> Result<Token, string>, writeErr: Option<string>)
    ensures var w := CheckLoginAsWritten(deadlineErr, frame, readPkt, readLogin, parseToken, writeErr);
      var c := CheckLogin(deadlineErr, frame, readPkt, readLogin, parseToken);
      w.Admitted? == c.Admitted? && (w.Admitted? ==> w == c) &&
      (w.Rejected? ==> w.reply == c.reply && (w.err.Some? || c.reply.Some?))
  {
  }

  /**
   * A login with a token that does not parse, whose refusal is written without error,
   * is rejected with no error as written: the caller sees an accepted connection with
   * an empty channel id. The intended version returns the token error.
   */
  lemma BadTokenLosesError()
    ensures var h := Packet.EmptyHeader.(command := Wire.CommandLoginSignIn);
      var readPkt := (b: seq<byte>) => Ok((h, b));
      var readLogin := (b: seq<byte>) => Ok("token");
      var parseToken := (t: string) => Err("token is expired");
      CheckLoginAsWritten(None, Ok([]), readPkt, readLogin, parseToken, None) ==
        Rejected(Some(RefusalReply(h, Packet.Unauthorized)), None) &&
      CheckLogin(None, Ok([]), readPkt, readLogin, parseToken) ==
        Rejected(Some(RefusalReply(h, Packet.Unauthorized)), Some("token is expired"))
  {
  }

  /** The session record the gateway attaches to an admitted login. */
  function LoginSession(channelID: string, serviceID: string, tk: Token, remoteAddr: string): (s: Session)
    ensures s.channelID == channelID && s.gateID == serviceID && s.account == tk.account && s.app == tk.app
    ensures s.remoteIP == GetIP(remoteAddr) && s.tags == []
  {
    Session(channelID, serviceID, tk.account, GetIP(remoteAddr), tk.app, [])
  }

  /**
   * `Accept`, with the intended checks. An admitted login gets a fresh channel id; the
   * request, carrying that id and the encoded session as its body, is forwarded to the
   * login service, and the id is returned unless forwarding fails. The metadata result
   * of the source is always nil and is left out.
   */
  method Accept(c: Container.Container, counter: Wire.Sequence, serviceID: string, remoteAddr: string,
                deadlineErr: Option<string>, frame: Result<seq<byte>, string>,
                readPkt: seq<byte> -> Result<(Packet.Header, seq<byte>), string>,
                readLogin: seq<byte> -> Result<string, string>,
                parseToken: string -> Result<Token, string>,
                encodeSession: Session -> seq<byte>,
                marshal: (Packet.Header, seq<byte>) -> seq<byte>, sendErr: Option<string>)
    returns (id: string, reply: Option<Packet.Header>, err: Option<string>)
    requires c.Valid() && counter.Valid()
    modifies c`sent, counter
    ensures c.Valid() && counter.Valid()
    ensures var chk := CheckLogin(deadlineErr, frame, readPkt, readLogin, parseToken);
      (chk.Rejected? ==>
        id == "" && reply == chk.reply && err == chk.err && c.sent == old(c.sent) && counter.num == old(counter.num)) &&
      (chk.Admitted? ==>
        var cid := ChannelIDOf(serviceID, chk.token.account, counter.num);
        reply.None? && counter.num == Wire.Successor(old(counter.num)) &&
        c.ForwardedBy(chk.header.(channelID := cid), encodeSession(LoginSession(cid, serviceID, chk.token, remoteAddr)),
                      Wire.SNLogin, marshal, sendErr, old(c.sent), c.sent, err) &&
        id == (if err.None? then cid else ""))
  {
    var chk := CheckLogin(deadlineErr, frame, readPkt, readLogin, parseToken);
    if chk.Rejected? {
      return "", chk.reply, chk.err;
    }
    var channelID := GenerateChannelID(serviceID, chk.token.account, counter);
    var p := new Packet.LogicPkt.Of(chk.header.(channelID := channelID), chk.body);
    var _ := p.WriteBody(Some(Ok(encodeSession(LoginSession(channelID, serviceID, chk.token, remoteAddr)))));
    err := c.Forward(Wire.SNLogin, p, marshal, sendErr);
    reply := None;
    id := if err.None? then channelID else "";
  }

  // ---------------------------------------------------------------------------
  // Receive and DisConnect

  /** A metadata value of the agent; a missing key reads as "". */
  function AgentValue(meta: map<string, string>, key: string): (v: string)
    ensures key in meta ==> v == meta[key]
    ensures key !in meta ==> v == ""
  {
    if key in meta then meta[key] else ""
  }

  /**
   * The packet a client sent, as the gateway forwards it: its channel id replaced by
   * the agent's, and, when the agent has metadata, the app and then the account
   * appended as string metadata.
   */
  function Rewritten(h: Packet.Header, agentID: string, agentMeta: Option<map<string, string>>): (r: Packet.Header)
    ensures r.channelID == agentID && r.command == h.command && r.sequence == h.sequence && r.dest == h.dest
    ensures agentMeta.None? ==> r.meta == h.meta
    ensures agentMeta.Some? ==> r.meta == h.meta + [
      Packet.Meta(Constants.MetaKeyApp, AgentValue(agentMeta.value, Constants.MetaKeyApp), Packet.MetaString),
      Packet.Meta(Constants.MetaKeyAccount, AgentValue(agentMeta.value, Constants.MetaKeyAccount), Packet.MetaString)]
  {
    var h1 := h.(channelID := agentID);
    if agentMeta.None? then h1
    else h1.(meta := h1.meta + [
      Packet.Meta(Constants.MetaKeyApp, AgentValue(agentMeta.value, Constants.MetaKeyApp), Packet.MetaString),
      Packet.Meta(Constants.MetaKeyAccount, AgentValue(agentMeta.value, Constants.MetaKeyAccount), Packet.MetaString)])
  }

  /**
   * The app and account a client packet carries after the rewrite are the agent's,
   * whatever the client put in the packet, as long as the client sent no such entry.
   */
  lemma RewrittenCarriesAgentIdentity(h: Packet.Header, agentID: string, meta: map<string, string>)
    requires Packet.FindMeta(h.meta, Constants.MetaKeyApp).None?
    requires Packet.FindMeta(h.meta, Constants.MetaKeyAccount).None?
    ensures var r := Rewritten(h, agentID, Some(meta));
      Packet.GetMetaOf(r.meta, Constants.MetaKeyApp) == Some(Packet.StringValue(AgentValue(meta, Constants.MetaKeyApp))) &&
      Packet.GetMetaOf(r.meta, Constants.MetaKeyAccount) == Some(Packet.StringValue(AgentValue(meta, Constants.MetaKeyAccount)))
  {
    var app := Packet.Meta(Constants.MetaKeyApp, AgentValue(meta, Constants.MetaKeyApp), Packet.MetaString);
    var acc := Packet.Meta(Constants.MetaKeyAccount, AgentValue(meta, Constants.MetaKeyAccount), Packet.MetaString);
    var r := Rewritten(h, agentID, Some(meta));
    assert r.meta == (h.meta + [app]) + [acc];
    Packet.GetMetaAddedString(h.meta, Constants.MetaKeyApp, app.value);
    Packet.GetMetaAfterAdd(h.meta + [app], [acc], Constants.MetaKeyApp);
    Packet.FindMetaAppendNew(h.meta, app);
    Packet.GetMetaAddedString(h.meta + [app], Constants.MetaKeyAccount, acc.value);
  }

  /**
   * `Receive`: an unreadable payload is dropped; a basic packet is answered with a pong
   * when it is a ping and otherwise ignored; a logic packet is rewritten and forwarded
   * to the service its command names.
   */
  method Receive(c: Container.Container, agentID: string, agentMeta: Option<map<string, string>>, incoming: Incoming,
                 marshal: (Packet.Header, seq<byte>) -> seq<byte>, sendErr: Option<string>)
    returns (pong: bool, err: Option<string>)
    requires c.Valid()
    modifies c`sent
    ensures c.Valid()
    ensures pong <==> incoming.Basic? && incoming.isPing
    ensures !incoming.Logic? ==> err.None? && c.sent == old(c.sent)
    ensures incoming.Logic? ==>
      var h := Rewritten(incoming.header, agentID, agentMeta);
      (h.command == "" ==> err == Some("command is empty in packet") && c.sent == old(c.sent)) &&
      (h.command != "" && agentID == "" ==> err == Some("ChannelId is empty in packet") && c.sent == old(c.sent)) &&
      (h.command != "" && agentID != "" ==>
        c.ForwardedBy(h, incoming.body, Packet.ServiceNameOf(h.command), marshal, sendErr, old(c.sent), c.sent, err))
  {
    pong, err := false, None;
    if incoming.Basic? {
      pong := incoming.isPing;
    } else if incoming.Logic? {
      var p := new Packet.LogicPkt.Of(incoming.header, incoming.body);
      p.header := p.header.(channelID := agentID);
      if agentMeta.Some? {
        p.AddStringMeta(Constants.MetaKeyApp, AgentValue(agentMeta.value, Constants.MetaKeyApp));
        p.AddStringMeta(Constants.MetaKeyAccount, AgentValue(agentMeta.value, Constants.MetaKeyAccount));
      }
      assert p.header == Rewritten(incoming.header, agentID, agentMeta);
      err := c.Forward(p.ServiceName(), p, marshal, sendErr);
    }
  }

  /**
   * `DisConnect`: a sign-out for the channel, drawn with the next sequence number, is
   * forwarded to the login service, and the forwarding error is returned.
   */
  method DisConnect(c: Container.Container, counter: Wire.Sequence, id: string,
                    marshal: (Packet.Header, seq<byte>) -> seq<byte>, sendErr: Option<string>)
    returns (err: Option<string>, ghost logout: Packet.Header)
    requires c.Valid() && counter.Valid()
    modifies c`sent, counter
    ensures c.Valid() && counter.Valid()
    ensures logout.command == Wire.CommandLoginSignOut && logout.channelID == id && logout.meta == []
    ensures logout.sequence == counter.num && counter.num == Wire.Successor(old(counter.num))
    ensures id == "" ==> err == Some("ChannelId is empty in packet") && c.sent == old(c.sent)
    ensures id != "" ==> c.ForwardedBy(logout, [], Wire.SNLogin, marshal, sendErr, old(c.sent), c.sent, err)
  {
    var p := new Packet.LogicPkt.New(Wire.CommandLoginSignOut, [Packet.WithChannel(id)], counter);
    logout := p.header;
    err := c.Forward(Wire.SNLogin, p, marshal, sendErr);
  }
}
