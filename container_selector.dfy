/**
 * The container's default selector (container/selector.go, container/hash_selector.go):
 * a packet goes to the candidate whose position is the CRC-32 of its channel id modulo
 * the number of candidates.
 */
module ContainerSelector {
  import opened GoStrings
  import opened Cim
  import Crc32
  import Packet

  /** `HashCode(key)`: the CRC-32/IEEE of the key's bytes, as a non-negative int. */
  function HashCode(key: string): (r: nat)
    ensures r < 0x1_0000_0000
  {
    Crc32.Checksum(ToBytes(key))
  }

  /**
   * `HashSelector.Lookup`. The candidate list must be non-empty, since the source takes
   * the hash modulo its length.
   */
  function HashLookup(header: Packet.Header, srvs: seq<Service>): (id: string)
    requires |srvs| > 0
    ensures exists j :: 0 <= j < |srvs| && srvs[j].id == id
  {
    srvs[HashCode(header.channelID) % |srvs|].id
  }

  /** Only the channel id matters: packets of one channel stick to one candidate. */
  lemma HashLookupSticky(h1: Packet.Header, h2: Packet.Header, srvs: seq<Service>)
    requires |srvs| > 0 && h1.channelID == h2.channelID
    ensures HashLookup(h1, srvs) == HashLookup(h2, srvs)
  {
  }
}
