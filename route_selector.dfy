/**
 * The gateway's zone-aware selector (services/gateway/serv/selector.go). A packet that
 * carries app and account metadata is routed to a zone, chosen by a whitelist of apps or
 * else by a weighted slot table, and then to one of the zone's servers by the hash of
 * the account; anything else falls back to a random server.
 *
 * The random choice `rand.Intn(len(srvs))` is a parameter `rnd`, used as `rnd % len(srvs)`.
 * A Go panic (a failed type assertion, a division by zero, an index out of range) is
 * the outcome `Panic`.
 */
module RouteSelector {
  import opened Wrappers
  import opened GoStrings
  import opened Cim
  import Crc32
  import Packet
  import Constants

  datatype Zone = Zone(id: string, weight: int)

  /** The routing configuration: zones, the slot table of zone indexes, the app whitelist. */
  datatype Route = Route(zones: seq<Zone>, slots: seq<int>, whitelist: map<string, string>, routeBy: string)

  /** A route whose slot table is non-empty and names existing zones. */
  predicate ValidRoute(r: Route) {
    |r.slots| > 0 && forall k :: 0 <= k < |r.slots| ==> 0 <= r.slots[k] < |r.zones|
  }

  datatype Selection = Selected(id: string) | Panic

  function Hashcode(key: string): (r: nat)
    ensures r < 0x1_0000_0000
  {
    Crc32.Checksum(ToBytes(key))
  }

  /** The zone a packet goes to: the whitelisted zone of its app, or the zone of its slot. */
  function ChooseZone(route: Route, app: string, account: Packet.MetaValue): (z: Option<string>)
    ensures app in route.whitelist ==> z == Some(route.whitelist[app])
    ensures app !in route.whitelist && ValidRoute(route) && (route.routeBy == Constants.MetaKeyApp || account.StringValue?) ==>
      var key := if route.routeBy == Constants.MetaKeyApp then app else account.s;
      z == Some(route.zones[route.slots[Hashcode(key) % |route.slots|]].id)
  {
    if app in route.whitelist then Some(route.whitelist[app])
    else
      var key :=
        if route.routeBy == Constants.MetaKeyApp then Some(app)
        else if account.StringValue? then Some(account.s)
        else None;
      if key.None? || |route.slots| == 0 then None
      else
        var i := route.slots[Hashcode(key.value) % |route.slots|];
        if 0 <= i < |route.zones| then Some(route.zones[i].id) else None
  }

  /** The candidates whose "zone" metadata is the given zone, in their original order. */
  function InZone(srvs: seq<Service>, zone: string): (r: seq<Service>)
    ensures |r| <= |srvs|
    ensures forall j :: 0 <= j < |r| ==> r[j] in srvs && r[j].MetaValue("zone") == zone
    ensures forall s :: s in srvs && s.MetaValue("zone") == zone ==> s in r
    decreases |srvs|
  {
    if srvs == [] then []
    else if srvs[0].MetaValue("zone") == zone then [srvs[0]] + InZone(srvs[1..], zone)
    else InZone(srvs[1..], zone)
  }

  /** InZone of a suffix, one candidate at a time. */
  lemma InZoneStep(srvs: seq<Service>, i: nat, zone: string)
    requires i < |srvs|
    ensures InZone(srvs[i..], zone) ==
      (if srvs[i].MetaValue("zone") == zone then [srvs[i]] else []) + InZone(srvs[i + 1..], zone)
  {
    assert srvs[i..][0] == srvs[i] && srvs[i..][1..] == srvs[i + 1..];
  }

  /** `filterSrvs`: the append loop over the candidates. */
  method FilterSrvs(srvs: seq<Service>, zone: string) returns (res: seq<Service>)
    ensures res == InZone(srvs, zone)
  {
    res := [];
    var i := 0;
    while i < |srvs|
      invariant 0 <= i <= |srvs|
      invariant res + InZone(srvs[i..], zone) == InZone(srvs, zone)
    {
      InZoneStep(srvs, i, zone);
      if zone == srvs[i].MetaValue("zone") {
        assert res + InZone(srvs[i..], zone) == (res + [srvs[i]]) + InZone(srvs[i + 1..], zone);
        res := res + [srvs[i]];
      } else {
        assert InZone(srvs[i..], zone) == InZone(srvs[i + 1..], zone);
      }
      i := i + 1;
    }
    assert srvs[i..] == [];
  }

  /** The slot table of `selectSrvs`: ten consecutive slots for each candidate index. */
  function SlotTable(n: nat): (t: seq<nat>)
    ensures |t| == 10 * n
    ensures forall k :: 0 <= k < |t| ==> t[k] == k / 10
  {
    seq(10 * n, k requires 0 <= k < 10 * n => k / 10)
  }

  /** `selectSrvs`: the candidate owning slot `hashcode(account) mod 10n`. */
  function SelectSpec(srvs: seq<Service>, account: string): (s: Service)
    requires |srvs| > 0
    ensures s in srvs
  {
    var t := SlotTable(|srvs|);
    srvs[t[Hashcode(account) % |t|]]
  }

  method SelectSrvs(srvs: seq<Service>, account: string) returns (s: Service)
    requires |srvs| > 0
    ensures s == SelectSpec(srvs, account)
  {
    var slots: seq<nat> := [];
    var i := 0;
    while i < |srvs|
      invariant 0 <= i <= |srvs|
      invariant slots == SlotTable(i)
    {
      var j := 0;
      while j < 10
        invariant 0 <= j <= 10
        invariant |slots| == 10 * i + j
        invariant forall k :: 0 <= k < |slots| ==> slots[k] == k / 10
      {
        slots := slots + [i];
        j := j + 1;
      }
      i := i + 1;
    }
    var slot := Hashcode(account) % |slots|;
    s := srvs[slots[slot]];
  }

  /** Every candidate owns the same number of slots, so hashing spreads accounts evenly. */
  lemma SlotsPerCandidate(n: nat, i: nat)
    requires i < n
    ensures forall k :: 0 <= k < 10 * n ==> (SlotTable(n)[k] == i <==> 10 * i <= k < 10 * i + 10)
  {
  }

  /** `RouteSelector.Lookup`. */
  function Lookup(route: Route, meta: seq<Packet.Meta>, srvs: seq<Service>, rnd: nat): (r: Selection)
    requires |srvs| > 0
    ensures r.Selected? ==> exists j :: 0 <= j < |srvs| && srvs[j].id == r.id
  {
    var app := Packet.GetMetaOf(meta, Constants.MetaKeyApp);
    var account := Packet.GetMetaOf(meta, Constants.MetaKeyAccount);
    if app.None? || account.None? then Selected(srvs[rnd % |srvs|].id)
    else if !app.value.StringValue? then Panic
    else
      match ChooseZone(route, app.value.s, account.value)
      case None => Panic
      case Some(zone) =>
        var zoneSrvs := InZone(srvs, zone);
        if |zoneSrvs| == 0 then Selected(srvs[rnd % |srvs|].id)
        else if !account.value.StringValue? then Panic
        else
          var s := SelectSpec(zoneSrvs, account.value.s);
          assert s in srvs;
          Selected(s.id)
  }

  /** Without both app and account metadata the pick is the random one. */
  lemma MissingMetaIsRandom(route: Route, meta: seq<Packet.Meta>, srvs: seq<Service>, rnd: nat)
    requires |srvs| > 0
    requires Packet.GetMetaOf(meta, Constants.MetaKeyApp).None? || Packet.GetMetaOf(meta, Constants.MetaKeyAccount).None?
    ensures Lookup(route, meta, srvs, rnd) == Selected(srvs[rnd % |srvs|].id)
  {
  }

  /**
   * With string app and account metadata and a valid route, `Lookup` never panics: it
   * returns a server of the chosen zone when that zone has one, and otherwise falls back
   * to the random pick.
   */
  lemma LookupSelectsInZone(route: Route, meta: seq<Packet.Meta>, srvs: seq<Service>, rnd: nat, app: string, account: string)
    requires |srvs| > 0 && ValidRoute(route)
    requires Packet.GetMetaOf(meta, Constants.MetaKeyApp) == Some(Packet.StringValue(app))
    requires Packet.GetMetaOf(meta, Constants.MetaKeyAccount) == Some(Packet.StringValue(account))
    ensures ChooseZone(route, app, Packet.StringValue(account)).Some?
    ensures var zone := ChooseZone(route, app, Packet.StringValue(account)).value;
      var r := Lookup(route, meta, srvs, rnd);
      r.Selected?
      && (InZone(srvs, zone) != [] ==> exists s :: s in srvs && s.MetaValue("zone") == zone && s.id == r.id)
      && (InZone(srvs, zone) == [] ==> r == Selected(srvs[rnd % |srvs|].id))
  {
    var cz := ChooseZone(route, app, Packet.StringValue(account));
    assert cz.Some? by {
      if app !in route.whitelist {
        var key := if route.routeBy == Constants.MetaKeyApp then app else account;
        assert 0 <= route.slots[Hashcode(key) % |route.slots|] < |route.zones|;
      }
    }
    var zone := cz.value;
    var zs := InZone(srvs, zone);
    var r := Lookup(route, meta, srvs, rnd);
    if zs != [] {
      var s := SelectSpec(zs, account);
      assert r == Selected(s.id);
      assert s in zs;
    } else {
      assert r == Selected(srvs[rnd % |srvs|].id);
    }
  }

  /** A whitelisted app is pinned to its zone whatever the account. */
  lemma WhitelistPinsZone(route: Route, app: string, a1: Packet.MetaValue, a2: Packet.MetaValue)
    requires app in route.whitelist
    ensures ChooseZone(route, app, a1) == ChooseZone(route, app, a2) == Some(route.whitelist[app])
  {
  }
}
