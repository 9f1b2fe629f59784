/**
 * The logic packet of wire/pkt: a header (command, channel, sequence, flag, status,
 * destination and a list of typed metadata entries) and an opaque body.
 *
 * The header's protobuf encoding is not modelled: `Encode` and `Decode` take the header
 * codec as a function parameter and only rely on it where a lemma says so.
 */
module Packet {
  import opened Wrappers
  import opened GoStrings
  import opened Endian
  import Wire

  datatype MetaType = MetaInt | MetaString | MetaFloat

  datatype Meta = Meta(key: string, value: string, mtype: MetaType)

  datatype Status =
    | Success | NoDestination | InvalidPacketBody | InvalidCommand | Unauthorized
    | SystemException | NotImplemented | SessionNotFound

  datatype Flag = Request | Response | Push

  datatype Header = Header(
    command: string,
    channelID: string,
    sequence: nat,
    flag: Flag,
    status: Status,
    dest: string,
    meta: seq<Meta>)

  /** The zero header: every field at its Go/protobuf zero value. */
  const EmptyHeader: Header := Header("", "", 0, Request, Success, "", [])

  /** The header options of `New`; each sets one field. */
  datatype HeaderOption = WithStatus(status: Status) | WithSequence(sequence: nat) | WithChannel(channelID: string) | WithDest(dest: string)

  function ApplyOption(h: Header, o: HeaderOption): (r: Header)
    ensures r.command == h.command && r.meta == h.meta && r.flag == h.flag
  {
    match o
    case WithStatus(s) => h.(status := s)
    case WithSequence(n) => h.(sequence := n)
    case WithChannel(c) => h.(channelID := c)
    case WithDest(d) => h.(dest := d)
  }

  /** The options applied one after another, first to last. */
  function ApplyOptions(h: Header, options: seq<HeaderOption>): (r: Header)
    ensures r.command == h.command && r.meta == h.meta && r.flag == h.flag
    decreases |options|
  {
    if options == [] then h else ApplyOptions(ApplyOption(h, options[0]), options[1..])
  }

  lemma {:induction false} ApplyOptionsAppend(h: Header, a: seq<HeaderOption>, b: seq<HeaderOption>)
    ensures ApplyOptions(h, a + b) == ApplyOptions(ApplyOptions(h, a), b)
    decreases |a|
  {
    if a == [] {
      assert a + b == b;
    } else {
      assert (a + b)[1..] == a[1..] + b;
      ApplyOptionsAppend(ApplyOption(h, a[0]), a[1..], b);
    }
  }

  /** The last option that sets a field decides it: a later `WithDest` overrides an earlier one. */
  lemma LastOptionWins(h: Header, options: seq<HeaderOption>, d: string)
    ensures ApplyOptions(h, options + [WithDest(d)]).dest == d
  {
    ApplyOptionsAppend(h, options, [WithDest(d)]);
  }

  /** `NewFrom`: a fresh header carrying over command, channel, sequence, status and destination only. */
  function NewFrom(h: Header): (r: Header)
    ensures r.command == h.command && r.channelID == h.channelID && r.sequence == h.sequence
    ensures r.status == h.status && r.dest == h.dest
    ensures r.flag == EmptyHeader.flag && r.meta == []
  {
    EmptyHeader.(command := h.command, channelID := h.channelID, sequence := h.sequence,
                 status := h.status, dest := h.dest)
  }

  /** `ServiceName`: the command's text before its first '.', or "default" when it has none. */
  function ServiceNameOf(command: string): (r: string)
    ensures '.' !in command ==> r == "default"
    ensures '.' in command ==> '.' !in r && exists rest :: command == r + "." + rest
  {
    if '.' !in command then "default"
    else
      var k := IndexOf(command, '.');
      assert command == command[..k] + "." + command[k + 1..];
      command[..k]
  }

  /** A value `GetMeta` hands back; the float text is kept unparsed. */
  datatype MetaValue = IntValue(i: int) | StringValue(s: string) | FloatText(text: string)

  /** The position of the first entry with the given key. */
  function FindMeta(ms: seq<Meta>, key: string): (r: Option<nat>)
    ensures r.Some? ==> r.value < |ms| && ms[r.value].key == key
    ensures r.Some? ==> forall j :: 0 <= j < r.value ==> ms[j].key != key
    ensures r.None? ==> forall j :: 0 <= j < |ms| ==> ms[j].key != key
    decreases |ms|
  {
    if ms == [] then None
    else if ms[0].key == key then Some(0)
    else
      match FindMeta(ms[1..], key)
      case None => None
      case Some(k) => Some(k + 1)
  }

  /** `GetMeta` on a metadata list: the first entry with the key, converted by its type. */
  function GetMetaOf(ms: seq<Meta>, key: string): (r: Option<MetaValue>)
    ensures FindMeta(ms, key).None? ==> r.None?
    ensures FindMeta(ms, key).Some? && ms[FindMeta(ms, key).value].mtype == MetaString ==>
      r == Some(StringValue(ms[FindMeta(ms, key).value].value))
    ensures FindMeta(ms, key).Some? && ms[FindMeta(ms, key).value].mtype == MetaInt ==>
      (r.Some? <==> Atoi(ms[FindMeta(ms, key).value].value).Some?) &&
      (r.Some? ==> r == Some(IntValue(Atoi(ms[FindMeta(ms, key).value].value).value)))
    ensures FindMeta(ms, key).Some? && ms[FindMeta(ms, key).value].mtype == MetaFloat ==>
      r == Some(FloatText(ms[FindMeta(ms, key).value].value))
  {
    match FindMeta(ms, key)
    case None => None
    case Some(k) =>
      var m := ms[k];
      match m.mtype
      case MetaInt =>
        (match Atoi(m.value)
         case None => None
         case Some(v) => Some(IntValue(v)))
      case MetaFloat => Some(FloatText(m.value))
      case MetaString => Some(StringValue(m.value))
  }

  /** Appending entries never hides an earlier entry from `GetMeta`. */
  lemma GetMetaAfterAdd(ms: seq<Meta>, extra: seq<Meta>, key: string)
    requires FindMeta(ms, key).Some?
    ensures GetMetaOf(ms + extra, key) == GetMetaOf(ms, key)
  {
    var k := FindMeta(ms, key).value;
    assert (ms + extra)[k] == ms[k];
    assert forall j :: 0 <= j < k ==> (ms + extra)[j] == ms[j];
    FindMetaPrefix(ms, extra, key);
  }

  lemma {:induction false} FindMetaPrefix(ms: seq<Meta>, extra: seq<Meta>, key: string)
    requires FindMeta(ms, key).Some?
    ensures FindMeta(ms + extra, key) == FindMeta(ms, key)
    decreases |ms|
  {
    assert (ms + extra)[0] == ms[0];
    if ms[0].key != key {
      assert (ms + extra)[1..] == ms[1..] + extra;
      FindMetaPrefix(ms[1..], extra, key);
    }
  }

  /** Appending a string entry makes it visible to `GetMeta` unless the key was already there. */
  lemma GetMetaAddedString(ms: seq<Meta>, key: string, value: string)
    requires FindMeta(ms, key).None?
    ensures GetMetaOf(ms + [Meta(key, value, MetaString)], key) == Some(StringValue(value))
  {
    FindMetaAppendNew(ms, Meta(key, value, MetaString));
  }

  lemma {:induction false} FindMetaAppendNew(ms: seq<Meta>, m: Meta)
    requires FindMeta(ms, m.key).None?
    ensures FindMeta(ms + [m], m.key) == Some(|ms|)
    decreases |ms|
  {
    if ms != [] {
      assert (ms + [m])[0] == ms[0];
      assert (ms + [m])[1..] == ms[1..] + [m];
      FindMetaAppendNew(ms[1..], m);
    }
  }

  // ---------------------------------------------------------------------------
  // DelMeta, exactly as the range loop runs it

  /**
   * `copy(b[i:n], b[i+1:n])`: the entries after position i move one place down within the
   * first n slots; slots from n - 1 on keep their old contents.
   */
  function ShiftDown(b: seq<Meta>, i: nat, n: nat): (r: seq<Meta>)
    requires i < n <= |b|
    ensures |r| == |b|
    ensures forall j :: 0 <= j < i ==> r[j] == b[j]
    ensures forall j :: i <= j < n - 1 ==> r[j] == b[j + 1]
    ensures forall j :: n - 1 <= j < |b| ==> r[j] == b[j]
  {
    b[..i] + b[i + 1..n] + b[n - 1..]
  }

  /**
   * One iteration of the range loop, at index i, over the backing array b whose live
   * slice has length n. `range` reads b[i] even when i is past the live length.
   */
  function DelStep(b: seq<Meta>, n: nat, i: nat, key: string): (r: (seq<Meta>, nat))
    requires i < |b| && n <= |b| && n + i >= |b|
    ensures |r.0| == |b| && r.1 + i + 1 >= |b|
  {
    if b[i].key != key then (b, n)
    else if i < n - 1 then (ShiftDown(b, i, n), n - 1)
    else (b, n - 1)
  }

  /** The iterations from index i to the end of the original length. */
  function DelFrom(b: seq<Meta>, n: nat, i: nat, key: string): (r: (seq<Meta>, nat))
    requires i <= |b| && n <= |b| && n + i >= |b|
    ensures |r.0| == |b| && r.1 <= n
    decreases |b| - i
  {
    if i == |b| then (b, n)
    else
      var s := DelStep(b, n, i, key);
      DelFrom(s.0, s.1, i + 1, key)
  }

  /** The metadata left by `DelMeta(key)`. */
  function DelMetaOf(ms: seq<Meta>, key: string): (r: seq<Meta>)
    ensures |r| <= |ms|
  {
    var f := DelFrom(ms, |ms|, 0, key);
    f.0[..f.1]
  }

  /** With no matching entry from i on, the remaining iterations change nothing. */
  lemma {:induction false} DelFromNoMatch(b: seq<Meta>, n: nat, i: nat, key: string)
    requires i <= |b| && n <= |b| && n + i >= |b|
    requires forall j :: i <= j < |b| ==> b[j].key != key
    ensures DelFrom(b, n, i, key) == (b, n)
    decreases |b| - i
  {
    if i < |b| {
      DelFromNoMatch(b, n, i + 1, key);
    }
  }

  /** Leading iterations over non-matching entries change nothing. */
  lemma {:induction false} DelFromSkip(b: seq<Meta>, i: nat, k: nat, key: string)
    requires i <= k <= |b|
    requires forall j :: i <= j < k ==> b[j].key != key
    ensures DelFrom(b, |b|, i, key) == DelFrom(b, |b|, k, key)
    decreases k - i
  {
    if i < k {
      DelFromSkip(b, i + 1, k, key);
    }
  }

  /** An absent key leaves the metadata unchanged. */
  lemma DelMetaAbsent(ms: seq<Meta>, key: string)
    requires forall j :: 0 <= j < |ms| ==> ms[j].key != key
    ensures DelMetaOf(ms, key) == ms
  {
    DelFromNoMatch(ms, |ms|, 0, key);
  }

  /** A key held by exactly one entry: that entry goes, the others stay in order. */
  lemma DelMetaUnique(ms: seq<Meta>, key: string, k: nat)
    requires k < |ms| && ms[k].key == key
    requires forall j :: 0 <= j < |ms| && j != k ==> ms[j].key != key
    ensures DelMetaOf(ms, key) == ms[..k] + ms[k + 1..]
  {
    var L := |ms|;
    DelFromSkip(ms, 0, k, key);
    var s := DelStep(ms, L, k, key);
    if k < L - 1 {
      assert s == (ShiftDown(ms, k, L), L - 1);
      var b := ShiftDown(ms, k, L);
      assert forall j :: k + 1 <= j < L ==> b[j].key != key by {
        forall j | k + 1 <= j < L ensures b[j].key != key {
          if j < L - 1 { assert b[j] == ms[j + 1]; } else { assert b[j] == ms[j]; }
        }
      }
      DelFromNoMatch(b, L - 1, k + 1, key);
      assert b[..L - 1] == ms[..k] + ms[k + 1..];
    } else {
      DelFromNoMatch(ms, L - 1, k + 1, key);
    }
  }

  // ---------------------------------------------------------------------------
  // DelMeta as intended: drop every entry with the key

  /** The entries whose key differs from `key`, in their original order. */
  function FilterMeta(ms: seq<Meta>, key: string): (r: seq<Meta>)
    ensures |r| <= |ms|
    ensures forall j :: 0 <= j < |r| ==> r[j].key != key && r[j] in ms
    ensures forall m :: m in ms && m.key != key ==> m in r
    decreases |ms|
  {
    if ms == [] then []
    else if ms[0].key == key then FilterMeta(ms[1..], key)
    else [ms[0]] + FilterMeta(ms[1..], key)
  }

  lemma {:induction false} FilterMetaAppend(a: seq<Meta>, b: seq<Meta>, key: string)
    ensures FilterMeta(a + b, key) == FilterMeta(a, key) + FilterMeta(b, key)
    decreases |a|
  {
    if a == [] {
      assert a + b == b;
    } else {
      assert (a + b)[1..] == a[1..] + b;
      FilterMetaAppend(a[1..], b, key);
    }
  }

  /** With a unique or absent key, the loop as written and the filter agree. */
  lemma DelMetaAgreesWhenUnique(ms: seq<Meta>, key: string)
    requires forall i, j :: 0 <= i < j < |ms| && ms[i].key == key ==> ms[j].key != key
    ensures DelMetaOf(ms, key) == FilterMeta(ms, key)
  {
    if k :| 0 <= k < |ms| && ms[k].key == key {
      DelMetaAgreesAt(ms, key, k);
    } else {
      DelMetaAbsent(ms, key);
      FilterMetaAbsent(ms, key);
    }
  }

  /** The case of a single entry with the key, at position k. */
  lemma DelMetaAgreesAt(ms: seq<Meta>, key: string, k: nat)
    requires k < |ms| && ms[k].key == key
    requires forall j :: 0 <= j < |ms| && j != k ==> ms[j].key != key
    ensures DelMetaOf(ms, key) == FilterMeta(ms, key)
  {
    DelMetaUnique(ms, key, k);
    var pre, post := ms[..k], ms[k + 1..];
    assert ms == pre + [ms[k]] + post;
    assert forall j :: 0 <= j < |pre| ==> pre[j] == ms[j];
    assert forall j :: 0 <= j < |post| ==> post[j] == ms[k + 1 + j];
    FilterMetaDropOne(pre, ms[k], post, key);
  }

  /** Filtering a key held only by the middle entry drops exactly that entry. */
  lemma FilterMetaDropOne(pre: seq<Meta>, m: Meta, post: seq<Meta>, key: string)
    requires m.key == key
    requires forall j :: 0 <= j < |pre| ==> pre[j].key != key
    requires forall j :: 0 <= j < |post| ==> post[j].key != key
    ensures FilterMeta(pre + [m] + post, key) == pre + post
  {
    calc {
      FilterMeta(pre + [m] + post, key);
      { FilterMetaAppend(pre + [m], post, key); }
      FilterMeta(pre + [m], key) + FilterMeta(post, key);
      { FilterMetaAppend(pre, [m], key); }
      FilterMeta(pre, key) + FilterMeta([m], key) + FilterMeta(post, key);
      { assert [m][1..] == []; assert FilterMeta([m], key) == []; }
      FilterMeta(pre, key) + [] + FilterMeta(post, key);
      { FilterMetaAbsent(pre, key); FilterMetaAbsent(post, key); }
      pre + [] + post;
      { assert pre + [] == pre; }
      pre + post;
    }
  }

  lemma {:induction false} FilterMetaAbsent(ms: seq<Meta>, key: string)
    requires forall j :: 0 <= j < |ms| ==> ms[j].key != key
    ensures FilterMeta(ms, key) == ms
    decreases |ms|
  {
    if ms != [] {
      FilterMetaAbsent(ms[1..], key);
    }
  }

  /** Two adjacent entries with the key: only the first is deleted. */
  lemma DelMetaAdjacentDuplicates(key: string, a: Meta, b: Meta, x: Meta)
    requires a.key == key && b.key == key && x.key != key
    ensures DelMetaOf([a, b, x], key) == [b, x]
    ensures FilterMeta([a, b, x], key) == [x]
  {
    var s0: seq<Meta> := [a, b, x];
    var s1 := ShiftDown(s0, 0, 3);
    assert s1 == [b, x, x];
    assert DelFrom(s0, 3, 0, key) == DelFrom(s1, 2, 1, key);
    assert DelFrom(s1, 2, 1, key) == DelFrom(s1, 2, 2, key);
    assert DelFrom(s1, 2, 2, key) == DelFrom(s1, 2, 3, key);
    assert DelFrom(s1, 2, 3, key) == (s1, 2);
    assert s1[..2] == [b, x];
    assert s0[1..] == [b, x] && [b, x][1..] == [x] && [x][1..] == [];
  }

  /**
   * Two separated entries with the key: every entry is deleted, including the one in
   * between whose key differs.
   */
  lemma DelMetaSeparatedDuplicates(key: string, a: Meta, x: Meta, b: Meta)
    requires a.key == key && b.key == key && x.key != key
    ensures DelMetaOf([a, x, b], key) == []
    ensures FilterMeta([a, x, b], key) == [x]
  {
    var s0: seq<Meta> := [a, x, b];
    var s1 := ShiftDown(s0, 0, 3);
    assert s1 == [x, b, b];
    assert DelFrom(s0, 3, 0, key) == DelFrom(s1, 2, 1, key);
    assert DelFrom(s1, 2, 1, key) == DelFrom(s1, 1, 2, key);
    assert DelFrom(s1, 1, 2, key) == DelFrom(s1, 0, 3, key);
    assert DelFrom(s1, 0, 3, key) == (s1, 0);
    assert s0[1..] == [x, b] && [x, b][1..] == [b] && [b][1..] == [];
    assert FilterMeta([b], key) == [];
    assert FilterMeta([x, b], key) == [x] + FilterMeta([b], key);
  }

  // ---------------------------------------------------------------------------
  // The packet object

  datatype PacketError = Io(IoError) | BadHeader

  /** The packet's state and outcome after `Decode`. */
  datatype Decoded = Decoded(header: Header, body: seq<byte>, rest: seq<byte>, err: Option<PacketError>)

  /**
   * `Decode`: the length-prefixed header, handed to the header codec, then the
   * length-prefixed body. The codec resets the header before it parses, so a header that
   * does not parse leaves an empty one; the header is stored before the body is read, and
   * a failed body read stores a nil body.
   */
  function DecodeSpec(r: seq<byte>, unmarshal: seq<byte> -> Option<Header>, header: Header, body: seq<byte>): (d: Decoded)
    ensures d.err.None? ==> ReadBytes(r).result.Ok? && unmarshal(ReadBytes(r).result.value) == Some(d.header)
    ensures ReadBytes(r).result.Err? ==> d.header == header && d.body == body && d.err.Some?
    ensures ReadBytes(r).result.Ok? && unmarshal(ReadBytes(r).result.value).None? ==>
      d.header == EmptyHeader && d.body == body && d.err == Some(BadHeader)
    ensures ReadBytes(r).result.Ok? && unmarshal(ReadBytes(r).result.value).Some? &&
            ReadBytes(ReadBytes(r).rest).result.Err? ==>
      d.body == [] && d.err.Some?
    ensures d.err.None? ==>
      ReadBytes(ReadBytes(r).rest).result.Ok? && d.body == ReadBytes(ReadBytes(r).rest).result.value
  {
    var hb := ReadBytes(r);
    match hb.result
    case Err(e) => Decoded(header, body, hb.rest, Some(Io(e)))
    case Ok(bytes) =>
      match unmarshal(bytes)
      case None => Decoded(EmptyHeader, body, hb.rest, Some(BadHeader))
      case Some(h) =>
        var bb := ReadBytes(hb.rest);
        match bb.result
        case Err(e) => Decoded(h, [], bb.rest, Some(Io(e)))
        case Ok(b) => Decoded(h, b, bb.rest, None)
  }

  /** `Encode`: `WriteBytes` of the marshalled header, then `WriteBytes` of the body. */
  function EncodeSpec(w: seq<byte>, header: Header, body: seq<byte>, marshal: Header -> seq<byte>): (w': seq<byte>)
    ensures |w'| == |w| + 8 + |marshal(header)| + |body| && w'[..|w|] == w
  {
    WriteBytes(WriteBytes(w, marshal(header)), body)
  }

  /**
   * Decoding an encoded packet restores header and body and leaves the following bytes,
   * for any header codec that reads back what it wrote.
   */
  lemma EncodeDecode(header: Header, body: seq<byte>, marshal: Header -> seq<byte>,
                     unmarshal: seq<byte> -> Option<Header>, rest: seq<byte>, h0: Header, b0: seq<byte>)
    requires unmarshal(marshal(header)) == Some(header)
    requires |marshal(header)| < Max32 && |body| < Max32
    ensures DecodeSpec(EncodeSpec([], header, body, marshal) + rest, unmarshal, h0, b0)
      == Decoded(header, body, rest, None)
  {
    var hb := marshal(header);
    var tail := WriteBytes([], body) + rest;
    EncodeSplits(hb, body, rest);
    assert EncodeSpec([], header, body, marshal) + rest == WriteBytes([], hb) + tail;
    BytesRoundTrip(hb, tail);
    BytesRoundTrip(body, rest);
    var r := WriteBytes([], hb) + tail;
    assert ReadBytes(r) == Read(Ok(hb), tail);
    assert ReadBytes(tail) == Read(Ok(body), rest);
  }

  lemma EncodeSplits(hb: seq<byte>, body: seq<byte>, rest: seq<byte>)
    ensures WriteBytes(WriteBytes([], hb), body) + rest == WriteBytes([], hb) + (WriteBytes([], body) + rest)
  {
    assert WriteBytes([], hb) == LE(|hb| % Max32, 4) + hb;
    assert WriteBytes([], body) == LE(|body| % Max32, 4) + body;
  }

  class LogicPkt {
    var header: Header
    var body: seq<byte>

    /**
     * `New`: the command, then each option in turn; a sequence still 0 afterwards is
     * drawn from the counter.
     */
    constructor New(command: string, options: seq<HeaderOption>, counter: Wire.Sequence)
      requires counter.Valid()
      modifies counter
      ensures counter.Valid()
      ensures var h := ApplyOptions(EmptyHeader.(command := command), options);
        (h.sequence != 0 ==> header == h && counter.num == old(counter.num))
        && (h.sequence == 0 ==> header == h.(sequence := counter.num) && counter.num == Wire.Successor(old(counter.num)))
      ensures header.sequence != 0 && header.command == command && header.meta == []
      ensures body == []
    {
      var h := EmptyHeader.(command := command);
      var i := 0;
      while i < |options|
        invariant 0 <= i <= |options|
        invariant ApplyOptions(h, options[i..]) == ApplyOptions(EmptyHeader.(command := command), options)
      {
        assert options[i..][1..] == options[i + 1..];
        h := ApplyOption(h, options[i]);
        i := i + 1;
      }
      if h.sequence == 0 {
        var n := counter.Next();
        h := h.(sequence := n);
      }
      header := h;
      body := [];
    }

    /** A packet as the reader hands it over: the decoded header and body. */
    constructor Of(h: Header, b: seq<byte>)
      ensures header == h && body == b
    {
      header := h;
      body := b;
    }

    /** A packet whose header is `NewFrom(h)` and whose body is empty. */
    constructor FromHeader(h: Header)
      ensures header == NewFrom(h) && body == []
    {
      header := NewFrom(h);
      body := [];
    }

    function ServiceName(): (r: string)
      reads this
      ensures '.' !in header.command ==> r == "default"
      ensures '.' in header.command ==> '.' !in r && exists rest :: header.command == r + "." + rest
    {
      ServiceNameOf(header.command)
    }

    method AddMeta(ms: seq<Meta>)
      modifies this
      ensures header == old(header).(meta := old(header.meta) + ms) && body == old(body)
    {
      header := header.(meta := header.meta + ms);
    }

    method AddStringMeta(key: string, value: string)
      modifies this
      ensures header == old(header).(meta := old(header.meta) + [Meta(key, value, MetaString)])
      ensures body == old(body)
    {
      AddMeta([Meta(key, value, MetaString)]);
    }

    /** `GetMeta`: the lookup of `GetMetaOf` on the packet's own entries. */
    function GetMeta(key: string): (r: Option<MetaValue>)
      reads this
      ensures r == GetMetaOf(header.meta, key)
      ensures FindMeta(header.meta, key).None? ==> r.None?
      ensures FindMeta(header.meta, key).Some? && header.meta[FindMeta(header.meta, key).value].mtype == MetaString ==>
        r == Some(StringValue(header.meta[FindMeta(header.meta, key).value].value))
      ensures FindMeta(header.meta, key).Some? && header.meta[FindMeta(header.meta, key).value].mtype == MetaInt ==>
        r == (match Atoi(header.meta[FindMeta(header.meta, key).value].value)
              case None => None
              case Some(v) => Some(IntValue(v)))
    {
      GetMetaOf(header.meta, key)
    }

    /** `DelMeta`: the range loop over a copy of the backing array, shifting in place. */
    method DelMeta(key: string)
      modifies this
      ensures header == old(header).(meta := DelMetaOf(old(header.meta), key)) && body == old(body)
    {
      var ms := header.meta;
      var a := new Meta[|ms|](j requires 0 <= j < |ms| => ms[j]);
      assert a[..] == ms;
      var n := a.Length;
      var i := 0;
      while i < a.Length
        invariant 0 <= i <= a.Length && n <= a.Length && n + i >= a.Length
        invariant DelFrom(a[..], n, i, key) == DelFrom(ms, |ms|, 0, key)
        invariant header == old(header) && body == old(body)
      {
        ghost var pre, n0 := a[..], n;
        if a[i].key == key {
          var length := n;
          if i < length - 1 {
            ghost var before := a[..];
            forall j | i <= j < length - 1 {
              a[j] := a[j + 1];
            }
            assert a[..] == ShiftDown(before, i, length);
          }
          n := length - 1;
        }
        assert (a[..], n) == DelStep(pre, n0, i, key);
        i := i + 1;
      }
      assert DelFrom(a[..], n, i, key) == (a[..], n);
      header := header.(meta := a[..n]);
    }

    /**
     * `WriteBody`: a nil value leaves the body alone; otherwise `encoded` is what the
     * JSON encoder returns for it, and its error is dropped, so a failed encoding leaves
     * a nil body.
     */
    method WriteBody(encoded: Option<Result<seq<byte>, string>>) returns (p: LogicPkt)
      modifies this`body
      ensures p == this
      ensures encoded.None? ==> body == old(body)
      ensures encoded.Some? && encoded.value.Ok? ==> body == encoded.value.value
      ensures encoded.Some? && encoded.value.Err? ==> body == []
    {
      if encoded.Some? {
        body := if encoded.value.Ok? then encoded.value.value else [];
      }
      p := this;
    }

    function Encode(w: seq<byte>, marshal: Header -> seq<byte>): (w': seq<byte>)
      reads this
      ensures |w'| == |w| + 8 + |marshal(header)| + |body| && w'[..|w|] == w
    {
      EncodeSpec(w, header, body, marshal)
    }

    method Decode(r: seq<byte>, unmarshal: seq<byte> -> Option<Header>) returns (rest: seq<byte>, err: Option<PacketError>)
      modifies this`header, this`body
      ensures Decoded(header, body, rest, err) == DecodeSpec(r, unmarshal, old(header), old(body))
    {
      var hb := ReadBytes(r);
      rest := hb.rest;
      if hb.result.Err? {
        return rest, Some(Io(hb.result.error));
      }
      var h := unmarshal(hb.result.value);
      if h.None? {
        header := EmptyHeader;
        return rest, Some(BadHeader);
      }
      header := h.value;
      var bb := ReadBytes(rest);
      rest := bb.rest;
      body := if bb.result.Ok? then bb.result.value else [];
      err := if bb.result.Ok? then None else Some(Io(bb.result.error));
    }
  }
}
