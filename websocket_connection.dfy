/**
 * The WebSocket transport's frame view (websocket/connection.go). Reading the payload of
 * a masked frame unmasks it in place, as section 5.3 of RFC 6455 describes: octet i of
 * the payload is XORed with octet i mod 4 of the masking key.
 */
module WebsocketConnection {
  import opened Wrappers
  import opened GoStrings

  /** Bitwise exclusive or of the low k bits of a and b, least significant bit first. */
  function XorBits(a: nat, b: nat, k: nat): (r: nat)
    ensures r < Pow2(k)
    decreases k
  {
    if k == 0 then 0 else (if a % 2 == b % 2 then 0 else 1) + 2 * XorBits(a / 2, b / 2, k - 1)
  }

  function Pow2(k: nat): (p: nat)
    ensures p >= 1
  {
    if k == 0 then 1 else 2 * Pow2(k - 1)
  }

  /** Exclusive or of two octets. */
  function Xor(a: byte, b: byte): (r: byte)
  {
    assert Pow2(8) == 256;
    XorBits(a, b, 8)
  }

  /** The low bit and the rest of `c + 2 * q`, for a bit `c`. */
  lemma SplitLowBit(c: nat, q: nat)
    requires c < 2
    ensures (c + 2 * q) % 2 == c && (c + 2 * q) / 2 == q
  {
  }

  /** Halving a number below 2^k leaves one below 2^(k-1). */
  lemma HalfBelow(a: nat, k: nat)
    requires 0 < k && a < Pow2(k)
    ensures a / 2 < Pow2(k - 1) && a == 2 * (a / 2) + a % 2
  {
  }

  lemma {:induction false} XorBitsInvolution(a: nat, b: nat, k: nat)
    requires a < Pow2(k)
    ensures XorBits(XorBits(a, b, k), b, k) == a
    decreases k
  {
    if k > 0 {
      var c := if a % 2 == b % 2 then 0 else 1;
      var q := XorBits(a / 2, b / 2, k - 1);
      assert XorBits(a, b, k) == c + 2 * q;
      SplitLowBit(c, q);
      HalfBelow(a, k);
      XorBitsInvolution(a / 2, b / 2, k - 1);
      assert XorBits(c + 2 * q, b, k) == (if c == b % 2 then 0 else 1) + 2 * XorBits(q, b / 2, k - 1);
      assert (if c == b % 2 then 0 else 1) == a % 2;
    }
  }

  /** XOR with the same key octet twice gives back the octet. */
  lemma XorInvolution(a: byte, b: byte)
    ensures Xor(Xor(a, b), b) == a
  {
    assert Pow2(8) == 256;
    XorBitsInvolution(a, b, 8);
  }

  /** `ws.Cipher(payload, mask, 0)`: every octet XORed with the key octet at its position mod 4. */
  function Cipher(payload: seq<byte>, mask: seq<byte>): (r: seq<byte>)
    requires |mask| == 4
    ensures |r| == |payload|
    ensures forall i :: 0 <= i < |payload| ==> r[i] == Xor(payload[i], mask[i % 4])
  {
    seq(|payload|, i requires 0 <= i < |payload| => Xor(payload[i], mask[i % 4]))
  }

  /** Masking and unmasking are the same operation, so applying it twice restores the payload. */
  lemma CipherInvolution(payload: seq<byte>, mask: seq<byte>)
    requires |mask| == 4
    ensures Cipher(Cipher(payload, mask), mask) == payload
  {
    var once := Cipher(payload, mask);
    forall i | 0 <= i < |payload|
      ensures Cipher(once, mask)[i] == payload[i]
    {
      XorInvolution(payload[i], mask[i % 4]);
    }
  }

  /** `ws.Cipher(payload, mask, 0)` as it runs: the array's octets are XORed in place, one by one. */
  method CipherInPlace(a: array<byte>, mask: seq<byte>)
    requires |mask| == 4
    modifies a
    ensures a[..] == Cipher(old(a[..]), mask)
  {
    var i := 0;
    while i < a.Length
      invariant 0 <= i <= a.Length
      invariant forall j :: 0 <= j < i ==> a[j] == Xor(old(a[j]), mask[j % 4])
      invariant forall j :: i <= j < a.Length ==> a[j] == old(a[j])
    {
      a[i] := Xor(a[i], mask[i % 4]);
      i := i + 1;
    }
  }

  class Frame {
    var opCode: byte
    var masked: bool
    var mask: seq<byte>
    var payload: array<byte>

    ghost predicate Valid()
      reads this
    {
      |mask| == 4
    }

    constructor (opCode: byte, masked: bool, mask: seq<byte>, payload: array<byte>)
      requires |mask| == 4
      ensures Valid()
      ensures this.opCode == opCode && this.masked == masked && this.mask == mask && this.payload == payload
    {
      this.opCode := opCode;
      this.masked := masked;
      this.mask := mask;
      this.payload := payload;
    }

    method SetOpCode(code: byte)
      modifies this
      ensures opCode == code
      ensures masked == old(masked) && mask == old(mask) && payload == old(payload)
    {
      opCode := code;
    }

    function GetOpCode(): (c: byte)
      reads this
      ensures c == opCode
    {
      opCode
    }

    /** Stores the given array itself as the payload. */
    method SetPayload(p: array<byte>)
      modifies this
      ensures payload == p
      ensures opCode == old(opCode) && masked == old(masked) && mask == old(mask)
    {
      payload := p;
    }

    /**
     * Unmasks a masked payload in place, clears the masked flag and returns the payload
     * array itself. On a frame that is not masked it returns the payload untouched, so a
     * second call returns the same bytes and changes nothing.
     */
    method GetPayload() returns (p: array<byte>)
      requires Valid()
      modifies this, payload
      ensures Valid() && !masked && p == payload
      ensures payload == old(payload) && opCode == old(opCode) && mask == old(mask)
      ensures p[..] == if old(masked) then Cipher(old(payload[..]), mask) else old(payload[..])
    {
      if masked {
        CipherInPlace(payload, mask);
      }
      masked := false;
      p := payload;
    }
  }

  /** Masking a payload and then reading it through `GetPayload` yields the original bytes. */
  method MaskedRoundTrip(data: seq<byte>, mask: seq<byte>) returns (p: array<byte>)
    requires |mask| == 4
    ensures p[..] == data
  {
    var masked := Cipher(data, mask);
    var a := new byte[|masked|](i requires 0 <= i < |masked| => masked[i]);
    var f := new Frame(0x2, true, mask, a);
    p := f.GetPayload();
    CipherInvolution(data, mask);
  }

  class WsConn {
    constructor ()
    {
    }

    /** Writes go straight to the connection, so there is nothing to flush. */
    method Flush() returns (err: Option<string>)
      ensures err == None
    {
      err := None;
    }
  }
}
