/**
 * The wire package: packet commands, metadata keys, protocol and service names, and the
 * process-wide sequence counter `wire.Seq`.
 */
module Wire {
  const CommandLoginSignIn: string := "login.signin"
  const CommandLoginSignOut: string := "login.signout"

  const MetaDestServer: string := "dest.server"
  const MetaDestChannels: string := "dest.channels"

  const ProtocolTCP: string := "tcp"

  const SNLogin: string := "chat"

  const MaxUint32: nat := 0xFFFF_FFFF

  /** The value the counter moves to after `num`: the next number, or 1 once 2^32 - 1 is reached. */
  function Successor(num: nat): (r: nat)
    ensures 0 < r && (num < MaxUint32 ==> r < MaxUint32)
    ensures num + 1 < MaxUint32 ==> r == num + 1
    ensures num + 1 >= MaxUint32 ==> r == 1
  {
    if num + 1 < MaxUint32 then num + 1 else 1
  }

  /**
   * The sequence counter: each `Next` yields the following uint32, skipping 0, so a drawn
   * sequence number is never 0 ("not yet assigned").
   */
  class Sequence {
    var num: nat

    ghost predicate Valid()
      reads this
    {
      num < MaxUint32
    }

    constructor ()
      ensures Valid() && num == 0
    {
      num := 0;
    }

    method Next() returns (n: nat)
      requires Valid()
      modifies this
      ensures Valid() && 0 < n < MaxUint32 && num == n
      ensures n == Successor(old(num))
    {
      num := if num + 1 < MaxUint32 then num + 1 else 1;
      n := num;
    }
  }
}
