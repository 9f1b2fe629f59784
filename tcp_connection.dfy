/**
 * The TCP transport's frame: one opcode byte, then the payload as a byte string with a
 * 4-byte little-endian length (tcp/connection.go).
 */
module TcpConnection {
  import opened Wrappers
  import opened GoStrings
  import opened Endian

  /** A frame as the transport hands it to the upper layers. */
  class Frame {
    var opCode: byte
    var payload: seq<byte>

    constructor (opCode: byte, payload: seq<byte>)
      ensures this.opCode == opCode && this.payload == payload
    {
      this.opCode := opCode;
      this.payload := payload;
    }

    method SetOpCode(code: byte)
      modifies this
      ensures opCode == code && payload == old(payload)
    {
      opCode := code;
    }

    function GetOpCode(): (c: byte)
      reads this
      ensures c == opCode
    {
      opCode
    }

    function GetPayload(): (p: seq<byte>)
      reads this
      ensures p == payload
    {
      payload
    }

    method SetPayload(p: seq<byte>)
      modifies this
      ensures payload == p && opCode == old(opCode)
    {
      payload := p;
    }
  }

  /** The package-level `WriteFrame(w, code, payload)`: the opcode byte, then `WriteBytes` of the payload. */
  function WriteFrameTo(w: seq<byte>, code: byte, payload: seq<byte>): (w': seq<byte>)
    ensures |w'| == |w| + 5 + |payload| && w'[..|w|] == w
    ensures w'[|w|] == code && w'[|w| + 5..] == payload
  {
    WriteBytes(WriteUint8(w, code), payload)
  }

  /** What `TcpConn.ReadFrame` reads: `ReadUint8` for the opcode, then `ReadBytes`. */
  function ParseFrame(r: seq<byte>): (x: Read<(byte, seq<byte>)>)
    ensures x.result.Ok? <==> |r| >= 1 && ReadBytes(r[1..]).result.Ok?
    ensures x.result.Ok? ==> x.result.value.0 == r[0] && x.result.value.1 == ReadBytes(r[1..]).result.value
    ensures x.result.Ok? ==> x.rest == ReadBytes(r[1..]).rest
    ensures x.result.Err? ==> x.rest == []
  {
    var op := ReadUint8(r);
    match op.result
    case Err(e) => Read(Err(e), op.rest)
    case Ok(code) =>
      var body := ReadBytes(op.rest);
      match body.result
      case Err(e) => Read(Err(e), body.rest)
      case Ok(payload) => Read(Ok((code as byte, payload)), body.rest)
  }

  /** A frame reads back as written, and the bytes after it stay in the reader. */
  lemma FrameRoundTrip(code: byte, payload: seq<byte>, rest: seq<byte>)
    requires |payload| < Max32
    ensures ParseFrame(WriteFrameTo([], code, payload) + rest) == Read(Ok((code, payload)), rest)
  {
    var t := WriteBytes([], payload) + rest;
    FrameThenRest(code, payload, rest);
    OpcodeThenRest(code, t);
    BytesRoundTrip(payload, rest);
    var x := ParseFrame([code] + t);
    assert x.result.Ok?;
    assert x.result.value == (code, payload) && x.rest == rest;
  }

  lemma FrameThenRest(code: byte, payload: seq<byte>, rest: seq<byte>)
    ensures WriteFrameTo([], code, payload) + rest == [code] + (WriteBytes([], payload) + rest)
  {
    assert WriteUint8([], code) == [code];
    WriteBytesAfter([code], payload);
    AppendAssoc([code], WriteBytes([], payload), rest);
  }

  lemma OpcodeThenRest(code: byte, t: seq<byte>)
    ensures |[code] + t| >= 1 && ([code] + t)[0] == code && ([code] + t)[1..] == t
  {
  }

  /** Two frames written one after the other are read back in the same order. */
  lemma TwoFramesInOrder(c1: byte, p1: seq<byte>, c2: byte, p2: seq<byte>)
    requires |p1| < Max32 && |p2| < Max32
    ensures var x := ParseFrame(WriteFrameTo(WriteFrameTo([], c1, p1), c2, p2));
      x == Read(Ok((c1, p1)), WriteFrameTo([], c2, p2))
      && ParseFrame(x.rest) == Read(Ok((c2, p2)), [])
  {
    WritesAppend([], c1, p1, c2, p2);
    FrameRoundTrip(c1, p1, WriteFrameTo([], c2, p2));
    FrameRoundTrip(c2, p2, []);
    assert WriteFrameTo([], c2, p2) + [] == WriteFrameTo([], c2, p2);
  }

  /** Writing a frame appends its encoding, so successive writes appear in call order. */
  lemma WritesAppend(w: seq<byte>, c1: byte, p1: seq<byte>, c2: byte, p2: seq<byte>)
    ensures WriteFrameTo(w, c1, p1) == w + WriteFrameTo([], c1, p1)
    ensures WriteFrameTo(WriteFrameTo(w, c1, p1), c2, p2) == w + WriteFrameTo([], c1, p1) + WriteFrameTo([], c2, p2)
  {
    FrameBytes(w, c1, p1);
    FrameBytes([], c1, p1);
    FrameBytes(WriteFrameTo(w, c1, p1), c2, p2);
    FrameBytes([], c2, p2);
  }

  lemma FrameBytes(w: seq<byte>, code: byte, payload: seq<byte>)
    ensures WriteFrameTo(w, code, payload) == w + ([code] + LE(|payload| % Max32, 4) + payload)
  {
    var n := |payload| % Max32;
    Pow256Widths();
    assert WriteUint8(w, code) == w + [code];
    assert WriteFrameTo(w, code, payload) == w + [code] + LE(n, 4) + payload;
    AppendAssoc(w, [code], LE(n, 4));
    AppendAssoc(w, [code] + LE(n, 4), payload);
  }

  /** Reading fails when the stream ends before the opcode, inside the length, or inside the payload. */
  lemma ParseFrameFailures(r: seq<byte>)
    ensures r == [] ==> ParseFrame(r) == Read(Err(EOF), [])
    ensures |r| == 1 ==> ParseFrame(r) == Read(Err(EOF), [])
    ensures 1 < |r| < 5 ==> ParseFrame(r) == Read(Err(UnexpectedEOF), [])
    ensures |r| >= 5 && FromLE(r[1..5]) > |r| - 5 ==> ParseFrame(r).result.Err?
  {
    if |r| >= 1 {
      ReadBytesFailures(r[1..]);
      if |r| >= 5 {
        assert r[1..][..4] == r[1..5];
      }
    }
  }

  /** A connection with its buffered reader and buffered writer. */
  /** The size `NewConn` gives the buffered writer. */
  const WriteBufferSize := 1024

  class TcpConn {
    /** Bytes the reader has yet to deliver. */
    var rd: seq<byte>
    /** Bytes buffered by the writer and not yet flushed. */
    var wr: seq<byte>
    /** Bytes flushed to the socket. */
    var sent: seq<byte>
    /** The buffered writer's error: once a socket write fails, every later write and flush returns it. */
    var werr: Option<string>

    ghost predicate Valid()
      reads this
    {
      |wr| <= WriteBufferSize
    }

    constructor (input: seq<byte>)
      ensures Valid() && rd == input && wr == [] && sent == [] && werr == None
    {
      rd := input;
      wr := [];
      sent := [];
      werr := None;
    }

    /** Reads one frame; on failure no frame is returned and the reader is drained. */
    method ReadFrame() returns (f: Frame?, err: Option<IoError>)
      modifies this`rd
      ensures var x := ParseFrame(old(rd));
        rd == x.rest
        && (x.result.Ok? ==>
              err == None && f != null && fresh(f) && f.opCode == x.result.value.0 && f.payload == x.result.value.1)
        && (x.result.Err? ==> f == null && err == Some(x.result.error))
    {
      var op := ReadUint8(rd);
      rd := op.rest;
      if op.result.Err? {
        return null, Some(op.result.error);
      }
      var body := ReadBytes(rd);
      rd := body.rest;
      if body.result.Err? {
        return null, Some(body.result.error);
      }
      f := new Frame(op.result.value as byte, body.result.value);
      err := None;
    }

    /**
     * Writes one frame through the buffered writer. An earlier error is returned and
     * nothing is written. A frame that fits the free space stays in the buffer. A frame
     * that does not fit makes the writer write to the socket; `sockErr` is what that
     * write reports. On success every byte of the frame is on its way, in order; on
     * failure the error is returned and kept, and at most a prefix of the frame has
     * been written or buffered.
     */
    method WriteFrame(code: byte, payload: seq<byte>, sockErr: Option<string>) returns (err: Option<string>)
      requires Valid()
      modifies this`wr, this`sent, this`werr
      ensures Valid()
      ensures var frame := WriteFrameTo([], code, payload);
        if old(werr).Some? then
          err == old(werr) && werr == old(werr) && wr == old(wr) && sent == old(sent)
        else if |old(wr)| + |frame| <= WriteBufferSize then
          err == None && werr == None && wr == old(wr) + frame && sent == old(sent)
        else if sockErr.None? then
          err == None && werr == None && old(sent) <= sent && sent + wr == old(sent) + old(wr) + frame
        else
          err == sockErr && werr == sockErr && old(sent) <= sent && sent + wr <= old(sent) + old(wr) + frame
    {
      if werr.Some? {
        return werr;
      }
      var frame := WriteFrameTo([], code, payload);
      if |wr| + |frame| <= WriteBufferSize {
        wr := wr + frame;
        return None;
      }
      if sockErr.Some? {
        werr := sockErr;
        return sockErr;
      }
      sent := sent + wr + frame;
      wr := [];
      err := None;
    }

    /**
     * Hands the buffered bytes to the socket. An earlier error is returned; an empty
     * buffer is left alone; a failing socket write is returned and kept, with what was
     * not written still buffered.
     */
    method Flush(sockErr: Option<string>) returns (err: Option<string>)
      requires Valid()
      modifies this`wr, this`sent, this`werr
      ensures Valid()
      ensures if old(werr).Some? then err == old(werr) && werr == old(werr) && wr == old(wr) && sent == old(sent)
        else if old(wr) == [] then err == None && werr == None && wr == [] && sent == old(sent)
        else if sockErr.None? then err == None && werr == None && wr == [] && sent == old(sent) + old(wr)
        else err == sockErr && werr == sockErr && old(sent) <= sent && sent + wr == old(sent) + old(wr)
    {
      if werr.Some? {
        return werr;
      }
      if wr == [] {
        return None;
      }
      if sockErr.Some? {
        werr := sockErr;
        return sockErr;
      }
      sent := sent + wr;
      wr := [];
      err := None;
    }
  }

  /**
   * A frame written and flushed on a healthy connection reaches the socket as its
   * exact encoding, and a reader on the other end gets the opcode and payload back.
   */
  method WriteFlushReadBack(code: byte, payload: seq<byte>) returns (f: Frame?, err: Option<IoError>)
    requires |payload| < Max32
    ensures err == None && f != null && f.opCode == code && f.payload == payload
  {
    var out := new TcpConn([]);
    var _ := out.WriteFrame(code, payload, None);
    assert out.sent + out.wr == WriteFrameTo([], code, payload);
    var _ := out.Flush(None);
    assert out.sent == WriteFrameTo([], code, payload);
    var inp := new TcpConn(out.sent);
    FrameRoundTrip(code, payload, []);
    assert out.sent + [] == out.sent;
    f, err := inp.ReadFrame();
  }

  /**
   * Once a write has failed, a later flush returns that error and sends nothing more,
   * even when the socket would now accept the bytes.
   */
  method ErrorIsSticky(code: byte, payload: seq<byte>)
    returns (err1: Option<string>, err2: Option<string>, sentBefore: seq<byte>, sentAfter: seq<byte>)
    requires |payload| > WriteBufferSize
    ensures err1 == Some("broken pipe") && err2 == err1 && sentAfter == sentBefore
  {
    var c := new TcpConn([]);
    err1 := c.WriteFrame(code, payload, Some("broken pipe"));
    sentBefore := c.sent;
    err2 := c.Flush(None);
    sentAfter := c.sent;
  }
}
