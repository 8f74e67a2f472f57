/** `getIPLocation` of src/lib/dataCollection.ts and of
    src/lib/dataCollectionOptimized.ts: an ordered walk over location
    providers that stops at the first usable answer. The network is a
    parameter: each request is given as its outcome. */
module Geo {
  import opened Wrappers

  /** What one request yields: the promise rejected (network error, the
      five-second abort, or a body that is not JSON), a response that is not
      `ok`, or the decoded body, whose string members are the only ones the
      mapping reads. */
  datatype Outcome = Failed | NotOk | Body(data: map<string, string>)

  /** `data.key || dflt`: a missing or empty member falls back. */
  function Or(data: map<string, string>, key: string, dflt: string): (r: string)
    ensures Truthy(Get(data, key)) ==> r == data[key]
    ensures !Truthy(Get(data, key)) ==> r == dflt
  {
    if key in data && data[key] != "" then data[key] else dflt
  }

  datatype Provider = IpApiCo | IpApiCom | IpInfo | Ipify

  // ---------------------------------------------------------------------
  // src/lib/dataCollectionOptimized.ts

  /** The location object the legacy module stores in a session. The
      coordinates are `data.latitude || undefined`: absent (`None`) when the
      body has none. */
  datatype Location = Location(country: string, countryCode: string, region: string, city: string, timezone: string,
                               latitude: Option<string>, longitude: Option<string>)

  /** `data.key || undefined`. */
  function OrUndefined(data: map<string, string>, key: string): (r: Option<string>)
    ensures r.Some? <==> Truthy(Get(data, key))
    ensures r.Some? ==> r.value == data[key]
  {
    if key in data && data[key] != "" then Some(data[key]) else None
  }

  /** The legacy request list, in order; the last one returns only an IP. */
  const LEGACY_PROVIDERS: seq<Provider> := [IpApiCo, IpApiCom, Ipify]

  /** The provider-specific mapping of a body. The IP-only provider has none,
      so the loop goes on past it. */
  function MapLocation(p: Provider, data: map<string, string>): (r: Option<Location>)
    ensures r.Some? <==> p == IpApiCo || p == IpApiCom
    ensures r.Some? ==> r.value.country != "" && r.value.countryCode != "" && r.value.region != ""
                        && r.value.city != "" && r.value.timezone != ""
    ensures p == IpApiCo ==> r.value.countryCode == Or(data, "country_code", "XX")
    ensures p == IpApiCom ==> r.value.countryCode == Or(data, "countryCode", "XX")
    ensures p == IpApiCo ==> (r.value.latitude.Some? <==> Truthy(Get(data, "latitude")))
    ensures p == IpApiCom ==> (r.value.latitude.Some? <==> Truthy(Get(data, "lat")))
  {
    if p == IpApiCo then
      Some(Location(Or(data, "country_name", "Unknown"), Or(data, "country_code", "XX"),
                    Or(data, "region", "Unknown"), Or(data, "city", "Unknown"), Or(data, "timezone", "Unknown"),
                    OrUndefined(data, "latitude"), OrUndefined(data, "longitude")))
    else if p == IpApiCom then
      Some(Location(Or(data, "country", "Unknown"), Or(data, "countryCode", "XX"),
                    Or(data, "regionName", "Unknown"), Or(data, "city", "Unknown"), Or(data, "timezone", "Unknown"),
                    OrUndefined(data, "lat"), OrUndefined(data, "lon")))
    else None
  }

  /** The answer request `k` contributes, if any. */
  function Answer(providers: seq<Provider>, outcomes: seq<Outcome>, k: int): Option<Location>
    requires |providers| == |outcomes| && 0 <= k < |outcomes|
  {
    if outcomes[k].Body? then MapLocation(providers[k], outcomes[k].data) else None
  }

  /** The first answer in list order, or nothing. */
  function FirstLocation(providers: seq<Provider>, outcomes: seq<Outcome>): Option<Location>
    requires |providers| == |outcomes|
    decreases |outcomes|
  {
    if outcomes == [] then None
    else if Answer(providers, outcomes, 0).Some? then Answer(providers, outcomes, 0)
    else FirstLocation(providers[1..], outcomes[1..])
  }

  lemma AnswerTail(providers: seq<Provider>, outcomes: seq<Outcome>, k: int)
    requires |providers| == |outcomes| && 0 < k < |outcomes|
    ensures Answer(providers, outcomes, k) == Answer(providers[1..], outcomes[1..], k - 1)
  {
  }

  /** The first answering request decides, whatever comes after it. */
  lemma {:induction false} FirstLocationAt(providers: seq<Provider>, outcomes: seq<Outcome>, k: int)
    requires |providers| == |outcomes| && 0 <= k < |outcomes|
    requires Answer(providers, outcomes, k).Some?
    requires forall j :: 0 <= j < k ==> Answer(providers, outcomes, j).None?
    ensures FirstLocation(providers, outcomes) == Answer(providers, outcomes, k)
  {
    if k > 0 {
      assert Answer(providers, outcomes, 0).None?;
      forall j | 0 <= j < k - 1 ensures Answer(providers[1..], outcomes[1..], j).None? {
        AnswerTail(providers, outcomes, j + 1);
      }
      AnswerTail(providers, outcomes, k);
      FirstLocationAt(providers[1..], outcomes[1..], k - 1);
    }
  }

  /** Nothing is found exactly when no request answers. */
  lemma {:induction false} FirstLocationNone(providers: seq<Provider>, outcomes: seq<Outcome>)
    requires |providers| == |outcomes|
    ensures FirstLocation(providers, outcomes).None? <==>
      forall k :: 0 <= k < |outcomes| ==> Answer(providers, outcomes, k).None?
  {
    if outcomes != [] {
      FirstLocationNone(providers[1..], outcomes[1..]);
      forall k | 0 < k < |outcomes| {
        AnswerTail(providers, outcomes, k);
      }
      if Answer(providers, outcomes, 0).None? {
        forall k | 0 <= k < |outcomes| - 1
          ensures Answer(providers[1..], outcomes[1..], k) == Answer(providers, outcomes, k + 1)
        {
          AnswerTail(providers, outcomes, k + 1);
        }
      }
    }
  }

  /** The `for` loop with `continue` over the legacy request list. */
  method GetIPLocationLegacy(outcomes: seq<Outcome>) returns (r: Option<Location>)
    requires |outcomes| == |LEGACY_PROVIDERS|
    ensures r == FirstLocation(LEGACY_PROVIDERS, outcomes)
  {
    var i := 0;
    while i < |outcomes|
      invariant 0 <= i <= |outcomes|
      invariant FirstLocation(LEGACY_PROVIDERS, outcomes) == FirstLocation(LEGACY_PROVIDERS[i..], outcomes[i..])
    {
      var o := outcomes[i];
      assert Answer(LEGACY_PROVIDERS[i..], outcomes[i..], 0) == Answer(LEGACY_PROVIDERS, outcomes, i);
      assert LEGACY_PROVIDERS[i..][1..] == LEGACY_PROVIDERS[i + 1..];
      assert outcomes[i..][1..] == outcomes[i + 1..];
      if o.Body? {
        var loc := MapLocation(LEGACY_PROVIDERS[i], o.data);
        if loc.Some? {
          return loc;
        }
      }
      i := i + 1;
    }
    return None;
  }

  /** The legacy lookup is `null` exactly when neither location provider
      gave a body: the IP-only provider never supplies a location. */
  lemma LegacyNull(outcomes: seq<Outcome>)
    requires |outcomes| == |LEGACY_PROVIDERS|
    ensures FirstLocation(LEGACY_PROVIDERS, outcomes).None? <==> !outcomes[0].Body? && !outcomes[1].Body?
  {
    FirstLocationNone(LEGACY_PROVIDERS, outcomes);
    assert Answer(LEGACY_PROVIDERS, outcomes, 2).None?;
  }

  /** With the first provider down, the second provider's body is mapped. */
  lemma LegacySecond(outcomes: seq<Outcome>)
    requires |outcomes| == |LEGACY_PROVIDERS|
    requires !outcomes[0].Body? && outcomes[1].Body?
    ensures FirstLocation(LEGACY_PROVIDERS, outcomes) == MapLocation(IpApiCom, outcomes[1].data)
  {
    assert LEGACY_PROVIDERS[0] == IpApiCo && LEGACY_PROVIDERS[1] == IpApiCom;
    assert Answer(LEGACY_PROVIDERS, outcomes, 0).None?;
    assert Answer(LEGACY_PROVIDERS, outcomes, 1) == MapLocation(IpApiCom, outcomes[1].data);
    FirstLocationAt(LEGACY_PROVIDERS, outcomes, 1);
  }

  // ---------------------------------------------------------------------
  // src/lib/dataCollection.ts

  /** The result of the main module's lookup: it never fails, it falls back
      to `unknown` and `Unknown`. */
  datatype IpLocation = IpLocation(ipAddress: string, country: string, city: string)

  /** The location requests, made with the IP the first request returned. */
  const LOCATION_PROVIDERS: seq<Provider> := [IpApiCo, IpApiCom, IpInfo]

  /** Country and city of a body; every provider of the list is mapped. */
  function MapPlace(p: Provider, data: map<string, string>): (r: (string, string))
    ensures r.0 != "" && r.1 != ""
    ensures r.1 == Or(data, "city", "Unknown")
    ensures p != IpApiCo ==> r.0 == Or(data, "country", "Unknown")
  {
    if p == IpApiCo then (Or(data, "country_name", Or(data, "country", "Unknown")), Or(data, "city", "Unknown"))
    else (Or(data, "country", "Unknown"), Or(data, "city", "Unknown"))
  }

  /** The first body in list order, mapped. */
  function FirstPlace(providers: seq<Provider>, outcomes: seq<Outcome>): Option<(string, string)>
    requires |providers| == |outcomes|
    decreases |outcomes|
  {
    if outcomes == [] then None
    else if outcomes[0].Body? then Some(MapPlace(providers[0], outcomes[0].data))
    else FirstPlace(providers[1..], outcomes[1..])
  }

  /** A found place has non-empty fields; nothing is found exactly when no
      request gave a body. */
  lemma {:induction false} FirstPlaceFacts(providers: seq<Provider>, outcomes: seq<Outcome>)
    requires |providers| == |outcomes|
    ensures var r := FirstPlace(providers, outcomes);
      && (r.Some? ==> r.value.0 != "" && r.value.1 != "")
      && (r.None? <==> forall k :: 0 <= k < |outcomes| ==> !outcomes[k].Body?)
  {
    if outcomes != [] && !outcomes[0].Body? {
      FirstPlaceFacts(providers[1..], outcomes[1..]);
      assert forall k :: 0 < k < |outcomes| ==> outcomes[k] == outcomes[1..][k - 1];
    }
  }

  /** The whole lookup: an IP request that is not `ok` or carries no `ip`
      throws, and the handler returns the unknown record. */
  function Locate(ip: Outcome, outcomes: seq<Outcome>): IpLocation
    requires |outcomes| == |LOCATION_PROVIDERS|
  {
    if ip.Body? && Truthy(Get(ip.data, "ip")) then
      var userIP := ip.data["ip"];
      var place := FirstPlace(LOCATION_PROVIDERS, outcomes);
      if place.Some? then IpLocation(userIP, place.value.0, place.value.1)
      else IpLocation(userIP, "Unknown", "Unknown")
    else IpLocation("unknown", "Unknown", "Unknown")
  }

  method GetIPLocation(ip: Outcome, outcomes: seq<Outcome>) returns (r: IpLocation)
    requires |outcomes| == |LOCATION_PROVIDERS|
    ensures r == Locate(ip, outcomes)
  {
    if !ip.Body? || !Truthy(Get(ip.data, "ip")) {
      return IpLocation("unknown", "Unknown", "Unknown");
    }
    var userIP := ip.data["ip"];
    var i := 0;
    while i < |outcomes|
      invariant 0 <= i <= |outcomes|
      invariant FirstPlace(LOCATION_PROVIDERS, outcomes) == FirstPlace(LOCATION_PROVIDERS[i..], outcomes[i..])
    {
      assert LOCATION_PROVIDERS[i..][1..] == LOCATION_PROVIDERS[i + 1..];
      assert outcomes[i..][1..] == outcomes[i + 1..];
      if outcomes[i].Body? {
        var place := MapPlace(LOCATION_PROVIDERS[i], outcomes[i].data);
        return IpLocation(userIP, place.0, place.1);
      }
      i := i + 1;
    }
    return IpLocation(userIP, "Unknown", "Unknown");
  }

  /** Every field of the result is non-empty; the address is the one the IP
      request returned, or `unknown` when that request failed. */
  lemma LocateShape(ip: Outcome, outcomes: seq<Outcome>)
    requires |outcomes| == |LOCATION_PROVIDERS|
    ensures var r := Locate(ip, outcomes);
      && r.ipAddress != "" && r.country != "" && r.city != ""
      && (ip.Body? && Truthy(Get(ip.data, "ip")) ==> r.ipAddress == ip.data["ip"])
      && (!(ip.Body? && Truthy(Get(ip.data, "ip"))) ==> r == IpLocation("unknown", "Unknown", "Unknown"))
  {
    FirstPlaceFacts(LOCATION_PROVIDERS, outcomes);
  }

  /** With no location body the address is kept and the place is unknown. */
  lemma LocateNoBody(ip: Outcome, outcomes: seq<Outcome>)
    requires |outcomes| == |LOCATION_PROVIDERS|
    requires forall k :: 0 <= k < |outcomes| ==> !outcomes[k].Body?
    ensures Locate(ip, outcomes).country == "Unknown" && Locate(ip, outcomes).city == "Unknown"
  {
    FirstPlaceFacts(LOCATION_PROVIDERS, outcomes);
  }

  /** The two modules differ when only the last provider answers: the main
      module maps the third body, the legacy one returns `null`. */
  lemma OnlyLastAnswers(ip: Outcome, outcomes: seq<Outcome>)
    requires |outcomes| == 3
    requires ip.Body? && Truthy(Get(ip.data, "ip"))
    requires !outcomes[0].Body? && !outcomes[1].Body? && outcomes[2].Body?
    ensures Locate(ip, outcomes).city == Or(outcomes[2].data, "city", "Unknown")
    ensures Locate(ip, outcomes).country == Or(outcomes[2].data, "country", "Unknown")
    ensures FirstLocation(LEGACY_PROVIDERS, outcomes).None?
  {
    var ps, os := LOCATION_PROVIDERS, outcomes;
    assert FirstPlace(ps, os) == FirstPlace(ps[1..], os[1..]);
    assert FirstPlace(ps[1..], os[1..]) == FirstPlace(ps[2..], os[2..]);
    assert ps[2..][0] == IpInfo && os[2..][0] == os[2];
    assert FirstPlace(ps[2..], os[2..]) == Some(MapPlace(IpInfo, os[2].data));
    LegacyNull(outcomes);
  }
}
