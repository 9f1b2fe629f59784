/**
 * A service registration entry of the naming package (naming/service.go).
 */
module NamingService {
  import opened Wrappers
  import opened GoStrings
  import Wire

  /** `DefaultService`; nil tags and nil metadata are `None`. */
  datatype DefaultService = DefaultService(
    id: string,
    name: string,
    address: string,
    port: int,
    protocol: string,
    namespace: string,
    tags: Option<seq<string>>,
    meta: Option<map<string, string>>)
  {
    function ServiceID(): (r: string)
      ensures r == id
    {
      id
    }

    function ServiceName(): (r: string)
      ensures r == name
    {
      name
    }

    function PublicAddress(): (r: string)
      ensures r == address
    {
      address
    }

    function PublicPort(): (r: int)
      ensures r == port
    {
      port
    }

    function GetProtocol(): (r: string)
      ensures r == protocol
    {
      protocol
    }

    function GetNamespace(): (r: string)
      ensures r == namespace
    {
      namespace
    }

    function GetTags(): (r: Option<seq<string>>)
      ensures r == tags
    {
      tags
    }

    function GetMetadata(): (r: Option<map<string, string>>)
      ensures r == meta
    {
      meta
    }

    /**
     * The address to dial: "address:port" for tcp, and "protocol://address:port" for any
     * other protocol.
     */
    function DialURL(): (url: string)
      ensures protocol == Wire.ProtocolTCP ==> url == address + ":" + Itoa(port)
      ensures protocol != Wire.ProtocolTCP ==> url == protocol + "://" + address + ":" + Itoa(port)
    {
      if protocol == Wire.ProtocolTCP then address + ":" + Itoa(port)
      else protocol + "://" + address + ":" + Itoa(port)
    }
  }

  /** `NewEntry`: the five given fields set, namespace "", tags and metadata nil. */
  function NewEntry(id: string, name: string, protocol: string, address: string, port: int): (s: DefaultService)
    ensures s.ServiceID() == id && s.ServiceName() == name && s.GetProtocol() == protocol
    ensures s.PublicAddress() == address && s.PublicPort() == port
    ensures s.GetNamespace() == "" && s.GetTags().None? && s.GetMetadata().None?
  {
    DefaultService(id, name, address, port, protocol, "", None, None)
  }

  /**
   * The port can be read back from a dial URL: the text after its last ':' is the
   * port's decimal form.
   */
  lemma DialURLPort(s: DefaultService)
    requires MinInt64 <= s.port <= MaxInt64
    ensures ':' in s.DialURL()
    ensures Atoi(s.DialURL()[LastIndexOf(s.DialURL(), ':') + 1..]) == Some(s.port)
  {
    var digits := Itoa(s.port);
    assert ':' !in digits;
    var prefix := if s.protocol == Wire.ProtocolTCP then s.address else s.protocol + "://" + s.address;
    assert s.DialURL() == prefix + [':'] + digits;
    LastIndexOfSuffix(prefix, ':', digits);
    assert s.DialURL()[|prefix| + 1..] == digits;
    AtoiItoa(s.port);
  }

  /** A tcp URL carries no scheme; any other URL starts with the protocol and "://". */
  lemma DialURLScheme(s: DefaultService)
    ensures s.protocol == Wire.ProtocolTCP ==> s.DialURL()[..|s.address|] == s.address
    ensures s.protocol != Wire.ProtocolTCP ==> s.DialURL()[..|s.protocol| + 3] == s.protocol + "://"
  {
  }
}
