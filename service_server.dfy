/**
 * The node id of the message service (services/service/server.go): the id generator's
 * node id is taken from the configuration, and a configured 0 is replaced by a hash of
 * the service id.
 */
module ServiceServer {
  import opened GoStrings
  import Crc32

  /** `HashCode`: the CRC-32/IEEE of the id's bytes, reduced modulo 1000. */
  function HashCode(id: string): (r: nat)
    ensures r < 1000
    ensures exists q: nat :: Crc32.Checksum(ToBytes(id)) == 1000 * q + r
  {
    var sum := Crc32.Checksum(ToBytes(id));
    assert sum == 1000 * (sum / 1000) + sum % 1000;
    sum % 1000
  }

  /** Reference values: the empty id hashes to 0 and "a" (CRC-32 0xE8B7BE43) to 907. */
  lemma HashCodeReferenceValues()
    ensures HashCode("") == 0
    ensures HashCode("a") == 907
  {
    Crc32.ReferenceValues();
    EmptyIdBytes();
    IdABytes();
    assert Crc32.Checksum(ToBytes("a")) == 0xE8B7_BE43;
    assert 0xE8B7_BE43 % 1000 == 907;
  }

  lemma EmptyIdBytes()
    ensures ToBytes("") == []
  {
  }

  lemma IdABytes()
    ensures ToBytes("a") == [0x61]
  {
    assert "a"[0] as int == 0x61;
  }

  /** The node id after start-up: a configured non-zero id is kept, 0 becomes the service id's hash. */
  function NodeID(configured: int, serviceID: string): (r: int)
    ensures configured != 0 ==> r == configured
    ensures configured == 0 ==> r == HashCode(serviceID) && 0 <= r < 1000
  {
    if configured == 0 then HashCode(serviceID) else configured
  }
}
