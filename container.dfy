/**
 * The process-wide service container (container/container.go): it owns the local server,
 * keeps one client map per dependency service, and routes packets between the two.
 *
 * The container is a state machine Uninitialized -> Initialized -> Started -> Closed
 * whose transitions are compare-and-swaps. Goroutines and the signal wait are replaced by
 * explicit events: `Watch` is the naming subscription callback, `Promote` the delayed
 * young-to-adult switch, `ClientClosed` the end of a client's read loop and `Signal` the
 * arrival of a termination signal. The server, the naming registry and the dialer are
 * seen through what they report; their failures are parameters.
 */
module Container {
  import opened Wrappers
  import opened GoStrings
  import opened Cim
  import Wire
  import Packet
  import NamingService
  import ContainerClient
  import ContainerSelector

  const StateUninitialized: nat := 0
  const StateInitialized: nat := 1
  const StateStarted: nat := 2
  const StateClosed: nat := 3

  /** The metadata key and values that mark a freshly connected client and a usable one. */
  const KeyServiceState: string := "service_state"
  const StateYoung: string := "young"
  const StateAdult: string := "adult"

  /** The local server as the container sees it: the identity it registers under. */
  datatype ServerInfo = ServerInfo(id: string, name: string, address: string, port: int)

  /** How `pushMessage` ends: pushed, refused with an error, or the type assertion panics. */
  datatype PushOutcome = Pushed | DestServerMismatch | DestChannelsMissing | ChannelsNotString

  /** A client is eligible for routing once its metadata marks it adult. */
  predicate IsAdult(s: Service)
  {
    s.MetaValue(KeyServiceState) == StateAdult
  }

  /** The default selector: `HashSelector`, which is only ever asked about a non-empty list. */
  function DefaultSelector(h: Packet.Header, srvs: seq<Service>): (id: string)
    ensures |srvs| > 0 ==> exists j :: 0 <= j < |srvs| && srvs[j].id == id
  {
    if |srvs| > 0 then ContainerSelector.HashLookup(h, srvs) else ""
  }

  /** What every channel of a push receives: the same payload, in the listed order. */
  function Deliveries(channels: seq<string>, payload: seq<byte>): (d: seq<(string, seq<byte>)>)
    ensures |d| == |channels|
    ensures forall k :: 0 <= k < |d| ==> d[k] == (channels[k], payload)
  {
    if channels == [] then [] else [(channels[0], payload)] + Deliveries(channels[1..], payload)
  }

  /** A packet header tagged with the server it goes through, as `AddStringMeta(dest.server, …)` does. */
  function Tagged(h: Packet.Header, server: string): (r: Packet.Header)
    ensures r.meta == h.meta + [Packet.Meta(Wire.MetaDestServer, server, Packet.MetaString)]
    ensures r.command == h.command && r.channelID == h.channelID && r.sequence == h.sequence
  {
    h.(meta := h.meta + [Packet.Meta(Wire.MetaDestServer, server, Packet.MetaString)])
  }

  /** What `shutdown` returns once it closes: the server's error, else the registry's. */
  function ShutdownResult(shutdownErr: Option<string>, deregisterErr: Option<string>): (err: Option<string>)
    ensures err.None? <==> shutdownErr.None? && deregisterErr.None?
    ensures shutdownErr.Some? ==> err == shutdownErr
  {
    if shutdownErr.Some? then shutdownErr else deregisterErr
  }

  /** The services the subscription callback turns into clients, as `buildClient` decides. */
  function Connected(clients: map<string, Service>, services: seq<NamingService.DefaultService>,
                     connectOk: seq<bool>, hasDialer: bool): (m: map<string, Service>)
    requires |connectOk| == |services|
    ensures clients.Keys <= m.Keys
    ensures forall id :: id in clients ==> m[id] == clients[id]
    decreases |services|
  {
    if services == [] then clients
    else
      var s := services[0];
      var m0 := if s.id in clients || s.protocol != Wire.ProtocolTCP || !hasDialer || !connectOk[0] then clients
                else clients[s.id := YoungClient(s)];
      Connected(m0, services[1..], connectOk[1..], hasDialer)
  }

  /** The client built for a service: its id, name and metadata, the latter marked young. */
  function YoungClient(s: NamingService.DefaultService): (c: Service)
    ensures c.id == s.id && c.name == s.name && !IsAdult(c)
    ensures forall k :: k != KeyServiceState ==> c.MetaValue(k) == (if s.meta.Some? && k in s.meta.value then s.meta.value[k] else "")
  {
    var meta := if s.meta.Some? then s.meta.value else map[];
    Service(s.id, s.name, meta[KeyServiceState := StateYoung])
  }

  /** Every connected client is stored under its own id, and only TCP services get one. */
  lemma ConnectedKeepsIds(clients: map<string, Service>, services: seq<NamingService.DefaultService>,
                          connectOk: seq<bool>, hasDialer: bool)
    requires |connectOk| == |services|
    requires forall id :: id in clients ==> clients[id].id == id
    ensures var m := Connected(clients, services, connectOk, hasDialer);
      forall id :: id in m ==> m[id].id == id
    ensures !hasDialer ==> Connected(clients, services, connectOk, hasDialer) == clients
    decreases |services|
  {
    if services != [] {
      var s := services[0];
      var m0 := if s.id in clients || s.protocol != Wire.ProtocolTCP || !hasDialer || !connectOk[0] then clients
                else clients[s.id := YoungClient(s)];
      ConnectedKeepsIds(m0, services[1..], connectOk[1..], hasDialer);
    }
  }

  class Container {
    var state: nat
    var hasNaming: bool
    var hasDialer: bool
    var srv: ServerInfo
    var deps: set<string>
    var srvClients: map<string, ContainerClient.ClientsImpl>
    var selector: (Packet.Header, seq<Service>) -> string
    /** Observable effects on the server and the registry. */
    var serverStarted: bool
    var registered: bool
    var deregistered: bool
    var subscribed: set<string>
    var unsubscribed: set<string>
    /** `Srv.Push(channel, payload)` calls, and `cli.Send(payload)` calls by client id. */
    var pushed: seq<(string, seq<byte>)>
    var sent: seq<(string, seq<byte>)>

    ghost predicate Valid()
      reads this, srvClients.Values
    {
      state <= StateClosed &&
      forall name :: name in srvClients ==> srvClients[name].Valid()
    }

    /** The package variable `c`: uninitialized, with the hash selector. */
    constructor ()
      ensures Valid() && state == StateUninitialized && deps == {} && srvClients == map[]
      ensures !hasNaming && !hasDialer && selector == DefaultSelector
      ensures !serverStarted && !registered && !deregistered && subscribed == {} && unsubscribed == {}
      ensures pushed == [] && sent == []
    {
      state := StateUninitialized;
      hasNaming, hasDialer := false, false;
      srv := ServerInfo("", "", "", 0);
      deps := {};
      srvClients := map[];
      selector := DefaultSelector;
      serverStarted, registered, deregistered := false, false, false;
      subscribed, unsubscribed := {}, {};
      pushed, sent := [], [];
    }

    /**
     * `Init` as written: the loop skips every dependency that is NOT yet in the map, so on
     * a fresh container no dependency is ever recorded.
     */
    method Init(server: ServerInfo, dependencies: seq<string>) returns (err: Option<string>)
      requires Valid()
      modifies this`state, this`srv, this`deps, this`srvClients
      ensures Valid()
      ensures old(state) != StateUninitialized ==>
        err == Some("container already inited") && state == old(state) && srv == old(srv) && srvClients == old(srvClients)
      ensures old(state) == StateUninitialized ==>
        err == None && state == StateInitialized && srv == server && srvClients == map[]
      ensures deps == old(deps)
    {
      if state != StateUninitialized {
        return Some("container already inited");
      }
      state := StateInitialized;
      srv := server;
      var i := 0;
      while i < |dependencies|
        invariant 0 <= i <= |dependencies|
        invariant deps == old(deps) && state == StateInitialized && srv == server
      {
        if dependencies[i] !in deps {
          i := i + 1;
          continue;
        }
        deps := deps + {dependencies[i]};
        i := i + 1;
      }
      srvClients := map[];
      err := None;
    }

    /** `Init` as evidently intended: every listed dependency is recorded. */
    method InitIntended(server: ServerInfo, dependencies: seq<string>) returns (err: Option<string>)
      requires Valid()
      modifies this`state, this`srv, this`deps, this`srvClients
      ensures Valid()
      ensures old(state) != StateUninitialized ==>
        err == Some("container already inited") && state == old(state) && srv == old(srv) && deps == old(deps) &&
        srvClients == old(srvClients)
      ensures old(state) == StateUninitialized ==>
        err == None && state == StateInitialized && srv == server && srvClients == map[] &&
        deps == old(deps) + set d | d in dependencies
    {
      if state != StateUninitialized {
        return Some("container already inited");
      }
      state := StateInitialized;
      srv := server;
      var i := 0;
      while i < |dependencies|
        invariant 0 <= i <= |dependencies|
        invariant deps == old(deps) + set d | d in dependencies[..i]
        invariant state == StateInitialized && srv == server
      {
        if dependencies[i] in deps {
          i := i + 1;
          assert dependencies[..i] == dependencies[..i - 1] + [dependencies[i - 1]];
          continue;
        }
        deps := deps + {dependencies[i]};
        i := i + 1;
        assert dependencies[..i] == dependencies[..i - 1] + [dependencies[i - 1]];
      }
      assert dependencies[..i] == dependencies;
      srvClients := map[];
      err := None;
    }

    /** `SetServiceNaming`: only whether a registry is present changes. */
    method SetServiceNaming(present: bool)
      modifies this`hasNaming
      ensures hasNaming == present
    {
      hasNaming := present;
    }

    /** `SetDialer`: only whether a dialer is present changes. */
    method SetDialer(present: bool)
      modifies this`hasDialer
      ensures hasDialer == present
    {
      hasDialer := present;
    }

    /** `SetSelector`: only the selector changes. */
    method SetSelector(s: (Packet.Header, seq<Service>) -> string)
      modifies this`selector
      ensures selector == s
    {
      selector := s;
    }

    /**
     * `Start` up to its wait for a signal: without a naming registry it refuses; a second
     * start is refused; otherwise the server is started, every dependency gets a fresh
     * empty client map and a subscription, and the server is registered when it has a
     * public address and port.
     */
    method Start() returns (err: Option<string>)
      requires Valid()
      modifies this`state, this`serverStarted, this`srvClients, this`subscribed, this`registered
      ensures Valid()
      ensures !old(hasNaming) ==>
        err == Some("naming is nil") && state == old(state) && srvClients == old(srvClients)
      ensures old(hasNaming) && old(state) != StateInitialized ==>
        err == Some("container already started") && state == old(state) && srvClients == old(srvClients)
      ensures old(hasNaming) && old(state) == StateInitialized ==>
        err == None && state == StateStarted && serverStarted &&
        srvClients.Keys == old(srvClients).Keys + deps &&
        (forall name :: name in old(srvClients) && name !in deps ==> srvClients[name] == old(srvClients)[name]) &&
        (forall name :: name in deps ==> fresh(srvClients[name]) && srvClients[name].clients == map[]) &&
        subscribed == old(subscribed) + deps &&
        registered == (old(registered) || (srv.address != "" && srv.port != 0))
      ensures !old(hasNaming) || old(state) != StateInitialized ==>
        serverStarted == old(serverStarted) && subscribed == old(subscribed) && registered == old(registered)
    {
      if !hasNaming {
        return Some("naming is nil");
      }
      if state != StateInitialized {
        return Some("container already started");
      }
      state := StateStarted;
      serverStarted := true;
      ConnectDependencies();
      if srv.address != "" && srv.port != 0 {
        registered := true;
      }
      err := None;
    }

    /**
     * The loop over the dependencies in `Start`: each gets a fresh empty client map and
     * a subscription to its service's changes.
     */
    method ConnectDependencies()
      requires Valid()
      modifies this`srvClients, this`subscribed
      ensures Valid()
      ensures srvClients.Keys == old(srvClients).Keys + deps
      ensures forall name :: name in old(srvClients) && name !in deps ==> srvClients[name] == old(srvClients)[name]
      ensures forall name :: name in deps ==> fresh(srvClients[name]) && srvClients[name].clients == map[]
      ensures subscribed == old(subscribed) + deps
    {
      var remaining := deps;
      ghost var done: set<string> := {};
      while remaining != {}
        invariant remaining <= deps && done == deps - remaining
        invariant srvClients.Keys == old(srvClients).Keys + done
        invariant forall name :: name in old(srvClients) && name !in done ==> srvClients[name] == old(srvClients)[name]
        invariant forall name :: name in done ==> fresh(srvClients[name]) && srvClients[name].clients == map[]
        invariant forall name :: name in srvClients ==> srvClients[name].Valid()
        invariant subscribed == old(subscribed) + done
        decreases remaining
      {
        var dep :| dep in remaining;
        remaining := remaining - {dep};
        var clients := new ContainerClient.ClientsImpl();
        srvClients := srvClients[dep := clients];
        subscribed := subscribed + {dep};
        done := done + {dep};
      }
    }

    /** A termination signal ends `Start`'s wait; `Start` then returns `shutdown`'s result. */
    method Signal(shutdownErr: Option<string>, deregisterErr: Option<string>) returns (err: Option<string>)
      requires Valid()
      modifies this`state, this`deregistered, this`unsubscribed
      ensures Valid()
      ensures old(state) != StateStarted ==>
        err == Some("container already shutdown") && state == old(state) &&
        deregistered == old(deregistered) && unsubscribed == old(unsubscribed)
      ensures old(state) == StateStarted ==> state == StateClosed && err == ShutdownResult(shutdownErr, deregisterErr)
      ensures old(state) == StateStarted ==> deregistered == (old(deregistered) || shutdownErr.None?)
      ensures old(state) == StateStarted ==>
        unsubscribed == (if shutdownErr.None? && deregisterErr.None? then old(unsubscribed) + deps else old(unsubscribed))
    {
      err := ShutdownContainer(shutdownErr, deregisterErr);
    }

    /**
     * `shutdown`: only a started container closes. The state becomes closed before the
     * server is shut down; a failing server shutdown or deregistration is returned at
     * once, and otherwise every dependency is unsubscribed.
     */
    method ShutdownContainer(shutdownErr: Option<string>, deregisterErr: Option<string>) returns (err: Option<string>)
      requires Valid()
      modifies this`state, this`deregistered, this`unsubscribed
      ensures Valid()
      ensures old(state) != StateStarted ==>
        err == Some("container already shutdown") && state == old(state) &&
        deregistered == old(deregistered) && unsubscribed == old(unsubscribed)
      ensures old(state) == StateStarted ==> state == StateClosed && err == ShutdownResult(shutdownErr, deregisterErr)
      ensures old(state) == StateStarted ==> deregistered == (old(deregistered) || shutdownErr.None?)
      ensures old(state) == StateStarted ==>
        unsubscribed == (if shutdownErr.None? && deregisterErr.None? then old(unsubscribed) + deps else old(unsubscribed))
    {
      if state != StateStarted {
        return Some("container already shutdown");
      }
      state := StateClosed;
      if shutdownErr.Some? {
        return shutdownErr;
      }
      deregistered := true;
      if deregisterErr.Some? {
        return deregisterErr;
      }
      unsubscribed := unsubscribed + deps;
      err := None;
    }

    /**
     * `buildClient`: a service already in the map yields neither client nor error; a
     * non-TCP service, a missing dialer or a failed connection yield an error; otherwise
     * the new client, marked young, is stored under the service id.
     */
    method BuildClient(name: string, service: NamingService.DefaultService, connectOk: bool)
      returns (cli: Option<Service>, err: Option<string>)
      requires Valid() && name in srvClients
      modifies srvClients[name]
      ensures Valid()
      ensures var old_clients := old(srvClients[name].clients);
        if service.id in old_clients then cli.None? && err.None? && srvClients[name].clients == old_clients
        else if service.protocol != Wire.ProtocolTCP then
          cli.None? && err == Some("service is not a TCP protocol") && srvClients[name].clients == old_clients
        else if !hasDialer then
          cli.None? && err == Some("dialer is nil") && srvClients[name].clients == old_clients
        else if !connectOk then
          cli.None? && err.Some? && srvClients[name].clients == old_clients
        else
          cli == Some(YoungClient(service)) && err.None? &&
          srvClients[name].clients == old_clients[service.id := YoungClient(service)]
    {
      var clients := srvClients[name];
      if clients.Get(service.id).Some? {
        return None, None;
      }
      if service.protocol != Wire.ProtocolTCP {
        return None, Some("service is not a TCP protocol");
      }
      if !hasDialer {
        return None, Some("dialer is nil");
      }
      if !connectOk {
        return None, Some("connect failed");
      }
      var c := YoungClient(service);
      clients.Add(c);
      cli, err := Some(c), None;
    }

    /**
     * The subscription callback for one dependency: every service not yet known is marked
     * young and handed to `buildClient`; `connectOk[k]` says whether dialing the k-th
     * service succeeds. Errors are only logged.
     */
    method Watch(name: string, services: seq<NamingService.DefaultService>, connectOk: seq<bool>)
      requires Valid() && name in srvClients && |connectOk| == |services|
      modifies srvClients[name]
      ensures Valid()
      ensures srvClients[name].clients == Connected(old(srvClients[name].clients), services, connectOk, hasDialer)
    {
      var i := 0;
      while i < |services|
        invariant 0 <= i <= |services|
        invariant Valid()
        invariant Connected(srvClients[name].clients, services[i..], connectOk[i..], hasDialer) ==
          Connected(old(srvClients[name].clients), services, connectOk, hasDialer)
      {
        if srvClients[name].Get(services[i].id).Some? {
          i := i + 1;
          continue;
        }
        var _, _ := BuildClient(name, services[i], connectOk[i]);
        i := i + 1;
      }
    }

    /** The delayed switch that makes a young client usable for routing. */
    method Promote(name: string, id: string)
      requires Valid() && name in srvClients
      modifies srvClients[name]
      ensures Valid()
      ensures var m := old(srvClients[name].clients);
        srvClients[name].clients ==
          if id in m then m[id := m[id].(meta := m[id].meta[KeyServiceState := StateAdult])] else m
      ensures id in srvClients[name].clients ==> IsAdult(srvClients[name].clients[id])
    {
      var clients := srvClients[name];
      var c := clients.Get(id);
      if c.Some? {
        clients.Add(c.value.(meta := c.value.meta[KeyServiceState := StateAdult]));
      }
    }

    /** The end of a client's read loop: the client is dropped from its map. */
    method ClientClosed(name: string, id: string)
      requires Valid() && name in srvClients
      modifies srvClients[name]
      ensures Valid()
      ensures srvClients[name].clients == old(srvClients[name].clients) - {id}
    {
      srvClients[name].Remove(id);
    }

    /**
     * `lookup`: an unknown service name, no adult client, or a selector pick that names
     * no client is an error; otherwise the client the selector picked among the adult
     * ones. `srvs` is the candidate list in the order the map was visited.
     */
    method Lookup(name: string, header: Packet.Header)
      returns (cli: Option<Service>, err: Option<string>, ghost srvs: seq<Service>)
      requires Valid()
      ensures Valid()
      ensures cli.Some? <==> err.None?
      ensures name !in srvClients ==> err == Some("service " + name + " not found")
      ensures name in srvClients ==> var m := srvClients[name].clients;
        (forall j :: 0 <= j < |srvs| ==> srvs[j].id in m && m[srvs[j].id] == srvs[j] && IsAdult(srvs[j])) &&
        (forall id :: id in m && IsAdult(m[id]) ==> m[id] in srvs) &&
        (forall i, j :: 0 <= i < j < |srvs| ==> srvs[i].id != srvs[j].id) &&
        (|srvs| == 0 ==> err == Some("no service found")) &&
        (|srvs| > 0 && selector(header, srvs) in m ==> cli == Some(m[selector(header, srvs)])) &&
        (|srvs| > 0 && selector(header, srvs) !in m ==> err == Some("no client found")) &&
        (|srvs| > 0 && (exists j :: 0 <= j < |srvs| && srvs[j].id == selector(header, srvs)) ==>
           cli.Some? && IsAdult(cli.value))
    {
      srvs := [];
      if name !in srvClients {
        return None, Some("service " + name + " not found"), srvs;
      }
      var clients := srvClients[name];
      var r := clients.Services([KeyServiceState, StateAdult]);
      var list := r.value;
      srvs := list;
      assert forall j :: 0 <= j < |srvs| ==> IsAdult(srvs[j]) by {
        forall j | 0 <= j < |srvs| ensures IsAdult(srvs[j]) {
          assert ContainerClient.Matches(srvs[j], [KeyServiceState, StateAdult]);
        }
      }
      if |list| == 0 {
        return None, Some("no service found"), srvs;
      }
      var id := selector(header, list);
      var c := clients.Get(id);
      if c.None? {
        return None, Some("no client found"), srvs;
      }
      cli, err := c, None;
    }

    /**
     * `Push`: the packet is tagged with the destination server and handed to the local
     * server; `pushErr` is what the server's `Push` reports.
     */
    method Push(server: string, p: Packet.LogicPkt, marshal: (Packet.Header, seq<byte>) -> seq<byte>,
                pushErr: Option<string>) returns (err: Option<string>)
      modifies this`pushed, p
      ensures p.header == old(p.header).(meta := old(p.header.meta) + [Packet.Meta(Wire.MetaDestServer, server, Packet.MetaString)])
      ensures p.body == old(p.body)
      ensures pushed == old(pushed) + [(server, marshal(p.header, p.body))]
      ensures err == pushErr
    {
      p.AddStringMeta(Wire.MetaDestServer, server);
      pushed := pushed + [(server, marshal(p.header, p.body))];
      err := pushErr;
    }

    /**
     * `Forward`: a nil packet, an empty command or an empty channel id is refused;
     * otherwise the packet goes through the container's selector.
     */
    method Forward(name: string, p: Packet.LogicPkt?, marshal: (Packet.Header, seq<byte>) -> seq<byte>,
                   sendErr: Option<string>) returns (err: Option<string>)
      requires Valid()
      modifies this`sent, p
      ensures Valid()
      ensures p == null ==> err == Some("packet is nil") && sent == old(sent)
      ensures p != null && old(p.header.command) == "" ==>
        err == Some("command is empty in packet") && sent == old(sent) && p.header == old(p.header)
      ensures p != null && old(p.header.command) != "" && old(p.header.channelID) == "" ==>
        err == Some("ChannelId is empty in packet") && sent == old(sent) && p.header == old(p.header)
      ensures p != null && old(p.header.command) != "" && old(p.header.channelID) != "" ==>
        ForwardedBy(old(p.header), old(p.body), name, marshal, sendErr, old(sent), sent, err)
      ensures p != null ==> p.header == (if sent == old(sent) then old(p.header) else Tagged(old(p.header), srv.id))
      ensures p != null ==> p.body == old(p.body)
    {
      if p == null {
        return Some("packet is nil");
      }
      if p.header.command == "" {
        return Some("command is empty in packet");
      }
      if p.header.channelID == "" {
        return Some("ChannelId is empty in packet");
      }
      err := ForwardWithSelector(name, p, marshal, sendErr);
    }

    /**
     * `srvs` lists exactly the adult clients of `m`, each once and as stored under its
     * id, in some order: the candidates `lookup` hands to the selector.
     */
    ghost predicate AdultCandidates(srvs: seq<Service>, m: map<string, Service>)
    {
      (forall j :: 0 <= j < |srvs| ==> srvs[j].id in m && m[srvs[j].id] == srvs[j] && IsAdult(srvs[j])) &&
      (forall id :: id in m && IsAdult(m[id]) ==> m[id] in srvs) &&
      (forall i, j :: 0 <= i < j < |srvs| ==> srvs[i].id != srvs[j].id)
    }

    /**
     * The outcome of forwarding a packet with header `h` when the adult candidates were
     * visited in the order `srvs`: each way `lookup` fails is returned with nothing sent;
     * otherwise the packet, tagged with this server's id, is sent to the client the
     * selector picked, and the send's own error is returned.
     */
    ghost predicate ForwardOutcome(h: Packet.Header, body: seq<byte>, name: string,
                                   marshal: (Packet.Header, seq<byte>) -> seq<byte>, sendErr: Option<string>,
                                   srvs: seq<Service>, sent0: seq<(string, seq<byte>)>,
                                   sent': seq<(string, seq<byte>)>, err: Option<string>)
      reads this, srvClients.Values
    {
      if name !in srvClients then sent' == sent0 && err == Some("service " + name + " not found")
      else
        var m := srvClients[name].clients;
        AdultCandidates(srvs, m) &&
        if |srvs| == 0 then sent' == sent0 && err == Some("no service found")
        else if selector(h, srvs) !in m then sent' == sent0 && err == Some("no client found")
        else sent' == sent0 + [(selector(h, srvs), marshal(Tagged(h, srv.id), body))] && err == sendErr
    }

    /**
     * The outcome of forwarding for some visiting order of the adult candidates; the
     * order of a Go map's iteration is not fixed.
     */
    ghost predicate ForwardedBy(h: Packet.Header, body: seq<byte>, name: string,
                                marshal: (Packet.Header, seq<byte>) -> seq<byte>, sendErr: Option<string>,
                                sent0: seq<(string, seq<byte>)>,
                                sent': seq<(string, seq<byte>)>, err: Option<string>)
      reads this, srvClients.Values
    {
      exists srvs: seq<Service> :: ForwardOutcome(h, body, name, marshal, sendErr, srvs, sent0, sent', err)
    }

    /**
     * With the hash selector, forwarding to a service that has an adult client always
     * sends exactly one packet, to an adult client of that service, and returns the
     * send's error.
     */
    lemma HashForwardReachesAdult(h: Packet.Header, body: seq<byte>, name: string,
                                  marshal: (Packet.Header, seq<byte>) -> seq<byte>, sendErr: Option<string>,
                                  sent0: seq<(string, seq<byte>)>,
                                  sent': seq<(string, seq<byte>)>, err: Option<string>)
      requires selector == DefaultSelector && name in srvClients
      requires exists id :: id in srvClients[name].clients && IsAdult(srvClients[name].clients[id])
      requires ForwardedBy(h, body, name, marshal, sendErr, sent0, sent', err)
      ensures err == sendErr
      ensures exists id :: (id in srvClients[name].clients && IsAdult(srvClients[name].clients[id]) &&
                            sent' == sent0 + [(id, marshal(Tagged(h, srv.id), body))])
    {
      var m := srvClients[name].clients;
      var srvs: seq<Service> :| ForwardOutcome(h, body, name, marshal, sendErr, srvs, sent0, sent', err);
      var a :| a in m && IsAdult(m[a]);
      assert m[a] in srvs;
      var pick := DefaultSelector(h, srvs);
      var j :| 0 <= j < |srvs| && srvs[j].id == pick;
      assert pick in m && IsAdult(m[pick]);
    }

    /**
     * `ForwardWithSelector`: a failed lookup is returned as is; otherwise the packet is
     * tagged with this server's id and sent to the picked client.
     */
    method ForwardWithSelector(name: string, p: Packet.LogicPkt, marshal: (Packet.Header, seq<byte>) -> seq<byte>,
                               sendErr: Option<string>) returns (err: Option<string>)
      requires Valid()
      modifies this`sent, p
      ensures Valid()
      ensures ForwardedBy(old(p.header), old(p.body), name, marshal, sendErr, old(sent), sent, err)
      ensures p.header == (if sent == old(sent) then old(p.header) else Tagged(old(p.header), srv.id))
      ensures p.body == old(p.body)
    {
      var cli, lookupErr, srvs := Lookup(name, p.header);
      if lookupErr.Some? {
        assert ForwardOutcome(p.header, p.body, name, marshal, sendErr, srvs, sent, sent, lookupErr);
        return lookupErr;
      }
      var c := cli.value;
      assert c.id == selector(p.header, srvs);
      p.AddStringMeta(Wire.MetaDestServer, srv.id);
      sent := sent + [(c.id, marshal(p.header, p.body))];
      err := sendErr;
      assert ForwardOutcome(old(p.header), old(p.body), name, marshal, sendErr, srvs, old(sent), sent, err);
    }

    /**
     * `pushMessage`, for a packet read from a dependency: it must be addressed to this
     * server and carry a string list of channels; both routing entries are deleted and
     * the remaining packet is pushed to every listed channel, in order, whatever each
     * push reports.
     */
    method PushMessage(p: Packet.LogicPkt, marshal: (Packet.Header, seq<byte>) -> seq<byte>)
      returns (r: PushOutcome)
      modifies this`pushed, p
      ensures old(p.GetMeta(Wire.MetaDestServer)) != Some(Packet.StringValue(srv.id)) ==>
        r == DestServerMismatch && p.header == old(p.header) && pushed == old(pushed)
      ensures old(p.GetMeta(Wire.MetaDestServer)) == Some(Packet.StringValue(srv.id)) &&
              old(p.GetMeta(Wire.MetaDestChannels)).None? ==>
        r == DestChannelsMissing && p.header == old(p.header) && pushed == old(pushed)
      ensures old(p.GetMeta(Wire.MetaDestServer)) == Some(Packet.StringValue(srv.id)) &&
              old(p.GetMeta(Wire.MetaDestChannels)).Some? && !old(p.GetMeta(Wire.MetaDestChannels)).value.StringValue? ==>
        r == ChannelsNotString && p.header == old(p.header) && pushed == old(pushed)
      ensures old(p.GetMeta(Wire.MetaDestServer)) == Some(Packet.StringValue(srv.id)) &&
              old(p.GetMeta(Wire.MetaDestChannels)).Some? && old(p.GetMeta(Wire.MetaDestChannels)).value.StringValue? ==>
        r == Pushed &&
        p.header == old(p.header).(meta := Packet.DelMetaOf(Packet.DelMetaOf(old(p.header.meta), Wire.MetaDestServer), Wire.MetaDestChannels)) &&
        pushed == old(pushed) + Deliveries(Split(old(p.GetMeta(Wire.MetaDestChannels)).value.s, ','), marshal(p.header, p.body))
      ensures p.body == old(p.body)
    {
      var server := p.GetMeta(Wire.MetaDestServer);
      if server != Some(Packet.StringValue(srv.id)) {
        return DestServerMismatch;
      }
      var channels := p.GetMeta(Wire.MetaDestChannels);
      if channels.None? {
        return DestChannelsMissing;
      }
      if !channels.value.StringValue? {
        return ChannelsNotString;
      }
      var channelIDs := Split(channels.value.s, ',');
      p.DelMeta(Wire.MetaDestServer);
      p.DelMeta(Wire.MetaDestChannels);
      var payload := marshal(p.header, p.body);
      ghost var h := p.header;
      var i := 0;
      while i < |channelIDs|
        invariant 0 <= i <= |channelIDs|
        invariant pushed == old(pushed) + Deliveries(channelIDs[..i], payload)
        invariant p.header == h && p.body == old(p.body)
      {
        DeliveriesAppend(channelIDs[..i], channelIDs[i], payload);
        assert channelIDs[..i + 1] == channelIDs[..i] + [channelIDs[i]];
        pushed := pushed + [(channelIDs[i], payload)];
        i := i + 1;
      }
      assert channelIDs[..i] == channelIDs;
      r := Pushed;
    }
  }

  /** The ids of a list of clients. */
  function IdsOf(srvs: seq<Service>): (ids: set<string>)
    ensures forall j :: 0 <= j < |srvs| ==> srvs[j].id in ids
    ensures forall id :: id in ids ==> exists j :: 0 <= j < |srvs| && srvs[j].id == id
  {
    set j | 0 <= j < |srvs| :: srvs[j].id
  }

  /** A list whose clients have pairwise distinct ids has as many ids as entries. */
  lemma {:induction false} DistinctIdsCount(srvs: seq<Service>)
    requires forall i, j :: 0 <= i < j < |srvs| ==> srvs[i].id != srvs[j].id
    ensures |IdsOf(srvs)| == |srvs|
    decreases |srvs|
  {
    if srvs != [] {
      var init := srvs[..|srvs| - 1];
      var last := srvs[|srvs| - 1];
      DistinctIdsCount(init);
      assert IdsOf(srvs) == IdsOf(init) + {last.id};
      assert last.id !in IdsOf(init);
    }
  }

  /**
   * The candidates `lookup` hands to the selector are exactly the adult clients, one
   * entry each: the list's length is the number of adult clients, so a selector that
   * reduces a hash modulo the length sees the same count Go does.
   */
  lemma AdultCandidatesCount(srvs: seq<Service>, m: map<string, Service>)
    requires forall j :: 0 <= j < |srvs| ==> srvs[j].id in m && m[srvs[j].id] == srvs[j] && IsAdult(srvs[j])
    requires forall id :: id in m && IsAdult(m[id]) ==> m[id] in srvs
    requires forall i, j :: 0 <= i < j < |srvs| ==> srvs[i].id != srvs[j].id
    requires forall id :: id in m ==> m[id].id == id
    ensures IdsOf(srvs) == (set id | id in m && IsAdult(m[id]))
    ensures |srvs| == |set id | id in m && IsAdult(m[id])|
  {
    DistinctIdsCount(srvs);
    forall id | id in m && IsAdult(m[id])
      ensures id in IdsOf(srvs)
    {
      var j :| 0 <= j < |srvs| && srvs[j] == m[id];
    }
  }

  lemma DeliveriesAppend(channels: seq<string>, c: string, payload: seq<byte>)
    ensures Deliveries(channels + [c], payload) == Deliveries(channels, payload) + [(c, payload)]
  {
  }

  /**
   * On a fresh container, `Init` as written records none of the listed dependencies, so
   * `Start` later subscribes to nothing.
   */
  method InitDropsDependencies() returns (deps: set<string>)
    ensures deps == {}
  {
    var c := new Container();
    var _ := c.Init(ServerInfo("gateway01", "tgateway", "127.0.0.1", 8000), [Wire.SNLogin]);
    deps := c.deps;
  }

  /** The intended `Init` on a fresh container records exactly the listed dependencies. */
  method InitIntendedRecordsDependencies() returns (deps: set<string>)
    ensures deps == {Wire.SNLogin}
  {
    var c := new Container();
    var _ := c.InitIntended(ServerInfo("gateway01", "tgateway", "127.0.0.1", 8000), [Wire.SNLogin]);
    deps := c.deps;
  }
}
