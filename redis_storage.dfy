/**
 * The Redis-backed session storage (storage/redis_impl.go): a session is kept under its
 * channel id and the account's location under the account, and both are read back.
 *
 * Redis is a key-value map of byte strings; a failing call is a parameter. Expiry times
 * are not modelled, and session encoding and decoding are parameters.
 */
module RedisStorage {
  import opened Wrappers
  import opened GoStrings
  import opened Sessions
  import opened Endian
  import Location

  /** `ErrSessionNil` for a missing key, or the store's own error. */
  datatype StorageError = ErrSessionNil | StoreFailure(message: string)

  const SessionPrefix: string := "login:sn:"
  const LocationPrefix: string := "login:loc:"

  /** `KeySession`. */
  function KeySession(channel: string): (k: string)
    ensures |k| == |SessionPrefix| + |channel| && k[..|SessionPrefix|] == SessionPrefix
    ensures k[|SessionPrefix|..] == channel
  {
    SessionPrefix + channel
  }

  /** `KeyLocation`: the account, followed by ":" and the device when one is given. */
  function KeyLocation(account: string, device: string): (k: string)
    ensures |k| >= |LocationPrefix| && k[..|LocationPrefix|] == LocationPrefix
    ensures device == "" ==> k[|LocationPrefix|..] == account
    ensures device != "" ==> k[|LocationPrefix|..] == account + ":" + device
  {
    if device == "" then LocationPrefix + account else LocationPrefix + account + ":" + device
  }

  /** Distinct accounts have distinct location keys. */
  lemma KeyLocationInjective(a1: string, a2: string)
    requires KeyLocation(a1, "") == KeyLocation(a2, "")
    ensures a1 == a2
  {
    assert a1 == KeyLocation(a1, "")[|LocationPrefix|..];
    assert a2 == KeyLocation(a2, "")[|LocationPrefix|..];
  }

  /** Session keys and location keys never collide. */
  lemma SessionAndLocationKeysDiffer(channel: string, account: string, device: string)
    ensures KeySession(channel) != KeyLocation(account, device)
  {
    assert KeySession(channel)[6] == 's';
    assert KeyLocation(account, device)[..|LocationPrefix|] == LocationPrefix;
    assert KeyLocation(account, device)[6] == 'l';
  }

  /** `KeyLocations`: one location key per account, in the same order. */
  method KeyLocations(accounts: seq<string>) returns (keys: seq<string>)
    ensures |keys| == |accounts|
    ensures forall i :: 0 <= i < |accounts| ==> keys[i] == KeyLocation(accounts[i], "")
  {
    var arr := new string[|accounts|];
    for i := 0 to |accounts|
      invariant forall j :: 0 <= j < i ==> arr[j] == KeyLocation(accounts[j], "")
    {
      arr[i] := KeyLocation(accounts[i], "");
    }
    keys := arr[..];
  }

  /** The store after a session is added: the location under the account, then the session. */
  function Stored(kv: map<string, seq<byte>>, s: Session, encode: Session -> seq<byte>): (kv': map<string, seq<byte>>)
    ensures kv'.Keys == kv.Keys + {KeyLocation(s.account, ""), KeySession(s.channelID)}
    ensures kv'[KeySession(s.channelID)] == encode(s)
    ensures forall k :: k in kv && k != KeyLocation(s.account, "") && k != KeySession(s.channelID) ==> kv'[k] == kv[k]
  {
    kv[KeyLocation(s.account, "") := Location.Encode(s.channelID, s.gateID)][KeySession(s.channelID) := encode(s)]
  }

  /**
   * The location stored for an account reads back as the session's channel and
   * gateway, for byte strings shorter than 65536.
   */
  lemma StoredLocationReadsBack(kv: map<string, seq<byte>>, s: Session, encode: Session -> seq<byte>)
    requires IsByteString(s.channelID) && |s.channelID| < Max16
    requires IsByteString(s.gateID) && |s.gateID| < Max16
    ensures var kv' := Stored(kv, s, encode);
      Location.UnmarshalSpec(kv'[KeyLocation(s.account, "")], "", "") == Location.Unmarshalled(s.channelID, s.gateID, None)
  {
    SessionAndLocationKeysDiffer(s.channelID, s.account, "");
    Location.RoundTrip(s.channelID, s.gateID, [], "", "");
    assert Location.Encode(s.channelID, s.gateID) + [] == Location.Encode(s.channelID, s.gateID);
  }

  /** The locations `GetLocations` finds: one per account whose key is present, in account order. */
  function FoundLocations(accounts: seq<string>, kv: map<string, seq<byte>>): (r: seq<Location.Unmarshalled>)
    ensures |r| <= |accounts|
    ensures (forall i :: 0 <= i < |accounts| ==> KeyLocation(accounts[i], "") !in kv) ==> r == []
  {
    if accounts == [] then []
    else
      var key := KeyLocation(accounts[0], "");
      (if key in kv then [Location.UnmarshalSpec(kv[key], "", "")] else []) + FoundLocations(accounts[1..], kv)
  }

  /** Any present account contributes a location, so the result is empty only if none is present. */
  lemma {:induction false} FoundLocationsEmpty(accounts: seq<string>, kv: map<string, seq<byte>>)
    ensures FoundLocations(accounts, kv) == [] <==> forall i :: 0 <= i < |accounts| ==> KeyLocation(accounts[i], "") !in kv
  {
    if accounts != [] {
      FoundLocationsEmpty(accounts[1..], kv);
      assert forall i :: 1 <= i < |accounts| ==> accounts[i] == accounts[1..][i - 1];
    }
  }

  lemma FoundLocationsAppend(accounts: seq<string>, a: string, kv: map<string, seq<byte>>)
    ensures FoundLocations(accounts + [a], kv) == FoundLocations(accounts, kv) +
      (if KeyLocation(a, "") in kv then [Location.UnmarshalSpec(kv[KeyLocation(a, "")], "", "")] else [])
  {
    if accounts != [] {
      assert (accounts + [a])[1..] == accounts[1..] + [a];
      FoundLocationsAppend(accounts[1..], a, kv);
    }
  }

  class RedisStorage {
    var kv: map<string, seq<byte>>

    constructor ()
      ensures kv == map[]
    {
      kv := map[];
    }

    /**
     * `Add`: the location (channel and gateway) is set under the account's key, then the
     * encoded session under the channel's; the first failing set is returned and stops.
     */
    method Add(s: Session, encode: Session -> seq<byte>, locErr: Option<string>, snErr: Option<string>)
      returns (err: Option<string>)
      modifies this
      ensures locErr.Some? ==> err == locErr && kv == old(kv)
      ensures locErr.None? && snErr.Some? ==>
        err == snErr && kv == old(kv)[KeyLocation(s.account, "") := Location.Encode(s.channelID, s.gateID)]
      ensures locErr.None? && snErr.None? ==> err.None? && kv == Stored(old(kv), s, encode)
    {
      if locErr.Some? {
        return locErr;
      }
      kv := kv[KeyLocation(s.account, "") := Location.Encode(s.channelID, s.gateID)];
      if snErr.Some? {
        return snErr;
      }
      kv := kv[KeySession(s.channelID) := encode(s)];
      err := None;
    }

    /** `Delete`: the account's location, then the channel's session, stopping at the first failure. */
    method Delete(account: string, channelID: string, locErr: Option<string>, snErr: Option<string>)
      returns (err: Option<string>)
      modifies this
      ensures locErr.Some? ==> err == locErr && kv == old(kv)
      ensures locErr.None? && snErr.Some? ==> err == snErr && kv == old(kv) - {KeyLocation(account, "")}
      ensures locErr.None? && snErr.None? ==>
        err.None? && kv == old(kv) - {KeyLocation(account, ""), KeySession(channelID)}
    {
      if locErr.Some? {
        return locErr;
      }
      kv := kv - {KeyLocation(account, "")};
      if snErr.Some? {
        return snErr;
      }
      kv := kv - {KeySession(channelID)};
      err := None;
    }

    /** `Get`: a missing session is `ErrSessionNil`; decoding errors are ignored. */
    method Get(channelID: string, decode: seq<byte> -> Session, getErr: Option<string>)
      returns (s: Option<Session>, err: Option<StorageError>)
      ensures s.Some? <==> err.None?
      ensures getErr.Some? ==> err == Some(StoreFailure(getErr.value))
      ensures getErr.None? && KeySession(channelID) !in kv ==> err == Some(ErrSessionNil)
      ensures getErr.None? && KeySession(channelID) in kv ==> s == Some(decode(kv[KeySession(channelID)]))
    {
      if getErr.Some? {
        return None, Some(StoreFailure(getErr.value));
      }
      var key := KeySession(channelID);
      if key !in kv {
        return None, Some(ErrSessionNil);
      }
      s, err := Some(decode(kv[key])), None;
    }

    /**
     * `GetLocation`: a missing key is `ErrSessionNil`; otherwise a new location filled
     * from the stored bytes, unmarshalling errors ignored.
     */
    method GetLocation(account: string, device: string, getErr: Option<string>)
      returns (loc: Location.Location?, err: Option<StorageError>)
      ensures loc != null <==> err.None?
      ensures getErr.Some? ==> err == Some(StoreFailure(getErr.value))
      ensures getErr.None? && KeyLocation(account, device) !in kv ==> err == Some(ErrSessionNil)
      ensures loc != null ==> KeyLocation(account, device) in kv
      ensures loc != null ==> var u := Location.UnmarshalSpec(kv[KeyLocation(account, device)], "", "");
        loc.channelID == u.channelID && loc.gateID == u.gateID
    {
      if getErr.Some? {
        return null, Some(StoreFailure(getErr.value));
      }
      var key := KeyLocation(account, device);
      if key !in kv {
        return null, Some(ErrSessionNil);
      }
      loc := new Location.Location("", "");
      var _ := loc.Unmarshal(kv[key]);
      err := None;
    }

    /**
     * `GetLocations`: the location keys of all accounts are fetched together; missing
     * ones are skipped and the rest, in account order, are unmarshalled into new
     * locations. Finding none is `ErrSessionNil`.
     */
    method GetLocations(accounts: seq<string>, mgetErr: Option<string>)
      returns (locs: seq<Location.Location>, err: Option<StorageError>)
      ensures mgetErr.Some? ==> locs == [] && err == Some(StoreFailure(mgetErr.value))
      ensures mgetErr.None? ==> var found := FoundLocations(accounts, kv);
        |locs| == |found| &&
        (forall k :: 0 <= k < |locs| ==> locs[k].channelID == found[k].channelID && locs[k].gateID == found[k].gateID) &&
        (err == if found == [] then Some(ErrSessionNil) else None)
    {
      if mgetErr.Some? {
        return [], Some(StoreFailure(mgetErr.value));
      }
      var keys := KeyLocations(accounts);
      var store := kv;
      var list := seq(|keys|, i requires 0 <= i < |keys| => if keys[i] in store then Some(store[keys[i]]) else None);
      locs := [];
      var i := 0;
      while i < |list|
        invariant 0 <= i <= |list|
        invariant var found := FoundLocations(accounts[..i], kv);
          |locs| == |found| &&
          forall k :: 0 <= k < |locs| ==> locs[k].channelID == found[k].channelID && locs[k].gateID == found[k].gateID
      {
        FoundLocationsAppend(accounts[..i], accounts[i], kv);
        assert accounts[..i + 1] == accounts[..i] + [accounts[i]];
        if list[i].None? {
          i := i + 1;
          continue;
        }
        var loc := new Location.Location("", "");
        var _ := loc.Unmarshal(list[i].value);
        locs := locs + [loc];
        i := i + 1;
      }
      assert accounts[..i] == accounts;
      err := if |locs| == 0 then Some(ErrSessionNil) else None;
    }
  }
}
