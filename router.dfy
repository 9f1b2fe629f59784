/**
 * The command router of a logic service (router.go): a table from command to handler
 * chain, and `Serve`, which picks the chain for a packet's command.
 *
 * Handlers are opaque; a chain is the list of handlers the context runs in order. What
 * a handler does, the context pool and `Next` are not part of this model: `Serve`
 * reports the chain it hands to the context.
 */
module Router {
  import opened Wrappers
  import Packet

  /** A handler of a chain: a registered one, identified by name, or `handleNoFound`. */
  datatype HandlerFunc = Named(name: string) | HandleNoFound

  /** The reply `handleNoFound` sends: status NotImplemented with the message "NoImplemented". */
  datatype Reply = Reply(status: Packet.Status, message: string)

  const NoFoundReply: Reply := Reply(Packet.NotImplemented, "NoImplemented")

  class FuncTree {
    var nodes: map<string, seq<HandlerFunc>>

    constructor ()
      ensures nodes == map[]
    {
      nodes := map[];
    }

    /** `Add` appends to the chain already registered for the path (an absent one is empty). */
    method Add(path: string, handlers: seq<HandlerFunc>)
      modifies this
      ensures nodes == old(nodes)[path := (if path in old(nodes) then old(nodes)[path] else []) + handlers]
      ensures Get(path) == ((if path in old(nodes) then old(nodes)[path] else []) + handlers, true)
      ensures forall p :: p != path ==> Get(p) == old(Get(p))
    {
      var chain := if path in nodes then nodes[path] else [];
      nodes := nodes[path := chain + handlers];
    }

    /** `Get`: the chain and whether the path was ever added, even with no handlers. */
    function Get(path: string): (r: (seq<HandlerFunc>, bool))
      reads this
      ensures r.1 <==> path in nodes
      ensures r.1 ==> r.0 == nodes[path]
      ensures !r.1 ==> r.0 == []
    {
      if path in nodes then (nodes[path], true) else ([], false)
    }
  }

  class Router {
    const handlers: FuncTree

    constructor ()
      ensures fresh(handlers) && handlers.nodes == map[]
    {
      handlers := new FuncTree();
    }

    /** `Handle` registers handlers for a command, after any registered before. */
    method Handle(command: string, hs: seq<HandlerFunc>)
      modifies handlers
      ensures handlers.Get(command) == (old(handlers.Get(command)).0 + hs, true)
      ensures forall p :: p != command ==> handlers.Get(p) == old(handlers.Get(p))
    {
      handlers.Add(command, hs);
    }

    /** `serveContext`: the chain registered for the command, or `handleNoFound` alone. */
    function ChainFor(header: Packet.Header): (chain: seq<HandlerFunc>)
      reads this, handlers
      ensures header.command in handlers.nodes ==> chain == handlers.nodes[header.command]
      ensures header.command !in handlers.nodes ==> chain == [HandleNoFound]
    {
      var (chain, ok) := handlers.Get(header.command);
      if ok then chain else [HandleNoFound]
    }

    /**
     * `Serve`: a missing dispatcher, then a missing session storage, is refused before
     * any context is used; otherwise the packet runs through its chain and the call
     * returns nil.
     */
    method Serve(header: Packet.Header, hasDispatcher: bool, hasCache: bool)
      returns (err: Option<string>, chain: seq<HandlerFunc>)
      ensures !hasDispatcher ==> err == Some("dispacher is nil") && chain == []
      ensures hasDispatcher && !hasCache ==> err == Some("cache is nil") && chain == []
      ensures hasDispatcher && hasCache ==> err.None?
      ensures hasDispatcher && hasCache && header.command in handlers.nodes ==> chain == handlers.nodes[header.command]
      ensures hasDispatcher && hasCache && header.command !in handlers.nodes ==> chain == [HandleNoFound]
    {
      if !hasDispatcher {
        return Some("dispacher is nil"), [];
      }
      if !hasCache {
        return Some("cache is nil"), [];
      }
      chain := ChainFor(header);
      err := None;
    }
  }

  /** Registering a command with no handlers still makes it known, so it never falls through to `handleNoFound`. */
  method EmptyChainIsFound(header: Packet.Header) returns (chain: seq<HandlerFunc>)
    ensures chain == []
  {
    var r := new Router();
    r.Handle(header.command, []);
    var err;
    err, chain := r.Serve(header, true, true);
  }

  /** An unregistered command runs only `handleNoFound`. */
  method UnknownCommandNotFound(header: Packet.Header) returns (chain: seq<HandlerFunc>)
    ensures chain == [HandleNoFound]
  {
    var r := new Router();
    var err;
    err, chain := r.Serve(header, true, true);
  }
}
