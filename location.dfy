/**
 * Where a user's channel lives: the channel id and the id of the gateway holding it,
 * serialised as two strings with 2-byte lengths (location.go).
 */
module Location {
  import opened Wrappers
  import opened GoStrings
  import opened Endian

  datatype LocationError = DataEmpty | Io(IoError)

  class Location {
    var channelID: string
    var gateID: string

    constructor (channelID: string, gateID: string)
      ensures this.channelID == channelID && this.gateID == gateID
    {
      this.channelID := channelID;
      this.gateID := gateID;
    }

    /**
     * Reads the channel id and then the gateway id. Each field is assigned as soon as its
     * read returns, so a failed read leaves "" in that field and the error in `err`.
     */
    method Unmarshal(data: seq<byte>) returns (err: Option<LocationError>)
      modifies this
      ensures Unmarshalled(channelID, gateID, err) == UnmarshalSpec(data, old(channelID), old(gateID))
    {
      if |data| == 0 {
        return Some(DataEmpty);
      }
      var buf := data;
      var first := ReadShortString(buf);
      buf := first.rest;
      channelID := if first.result.Ok? then first.result.value else "";
      if first.result.Err? {
        return Some(Io(first.result.error));
      }
      var second := ReadShortString(buf);
      gateID := if second.result.Ok? then second.result.value else "";
      if second.result.Err? {
        return Some(Io(second.result.error));
      }
      err := None;
    }
  }

  /** The two short strings in order: channel id, then gateway id. */
  function Encode(channelID: string, gateID: string): (b: seq<byte>)
    ensures |b| == 4 + |channelID| + |gateID|
  {
    WriteShortBytes(WriteShortBytes([], ToBytes(channelID)), ToBytes(gateID))
  }

  /** `Bytes`: a nil location serialises to no bytes at all. */
  function Bytes(l: Location?): (b: seq<byte>)
    reads l
    ensures l == null ==> b == []
    ensures l != null ==> |b| == 4 + |l.channelID| + |l.gateID|
  {
    if l == null then [] else Encode(l.channelID, l.gateID)
  }

  /** The receiver's fields and the error after `Unmarshal`. */
  datatype Unmarshalled = Unmarshalled(channelID: string, gateID: string, err: Option<LocationError>)

  function UnmarshalSpec(data: seq<byte>, channelID: string, gateID: string): (u: Unmarshalled)
    ensures data == [] ==> u == Unmarshalled(channelID, gateID, Some(DataEmpty))
    ensures u.err.None? ==> IsByteString(u.channelID) && IsByteString(u.gateID)
  {
    if data == [] then Unmarshalled(channelID, gateID, Some(DataEmpty))
    else
      var first := ReadShortString(data);
      match first.result
      case Err(e) => Unmarshalled("", gateID, Some(Io(e)))
      case Ok(c) =>
        var second := ReadShortString(first.rest);
        match second.result
        case Err(e) => Unmarshalled(c, "", Some(Io(e)))
        case Ok(g) => Unmarshalled(c, g, None)
  }

  /**
   * Unmarshalling what `Bytes` produced restores both fields, whatever the receiver held
   * before, and ignores any bytes that follow.
   */
  lemma RoundTrip(channelID: string, gateID: string, trailing: seq<byte>, oldChannel: string, oldGate: string)
    requires IsByteString(channelID) && |channelID| < Max16
    requires IsByteString(gateID) && |gateID| < Max16
    ensures UnmarshalSpec(Encode(channelID, gateID) + trailing, oldChannel, oldGate)
      == Unmarshalled(channelID, gateID, None)
  {
    var c, g := ToBytes(channelID), ToBytes(gateID);
    var data := Encode(channelID, gateID) + trailing;
    assert WriteShortBytes(WriteShortBytes([], c), g) == WriteShortBytes([], c) + WriteShortBytes([], g);
    assert data == WriteShortBytes([], c) + (WriteShortBytes([], g) + trailing);
    ShortStringRoundTrip(channelID, WriteShortBytes([], g) + trailing);
    ShortStringRoundTrip(gateID, trailing);
  }

  /** A failure in the first field clears the channel id and keeps the gateway id. */
  lemma FirstFieldFails(data: seq<byte>, oldChannel: string, oldGate: string)
    requires data != [] && ReadShortString(data).result.Err?
    ensures UnmarshalSpec(data, oldChannel, oldGate).channelID == ""
    ensures UnmarshalSpec(data, oldChannel, oldGate).gateID == oldGate
    ensures UnmarshalSpec(data, oldChannel, oldGate).err.Some?
  {
  }

  /** A lone byte is not enough for the first length: UnexpectedEOF, channel id cleared. */
  lemma OneByteFails(b: byte, oldChannel: string, oldGate: string)
    ensures UnmarshalSpec([b], oldChannel, oldGate) == Unmarshalled("", oldGate, Some(Io(UnexpectedEOF)))
  {
  }

  /** A complete first field followed by nothing: the second read hits EOF and clears the gateway id. */
  lemma SecondFieldMissing(channelID: string, oldChannel: string, oldGate: string)
    requires IsByteString(channelID) && |channelID| < Max16
    ensures UnmarshalSpec(WriteShortBytes([], ToBytes(channelID)), oldChannel, oldGate)
      == Unmarshalled(channelID, "", Some(Io(EOF)))
  {
    ShortStringRoundTrip(channelID, []);
    assert WriteShortBytes([], ToBytes(channelID)) + [] == WriteShortBytes([], ToBytes(channelID));
  }
}
