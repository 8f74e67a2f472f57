/** `updateRealTimeStats` and `ensureStatsDocument` of
    src/lib/dataCollection.ts and src/lib/dataCollectionOptimized.ts: which
    counters a tracked event increments in the daily and the hourly summary
    documents. A counter is named by a dotted field path under `stats`; the
    update object is the set of counters it increments by one. */
module Stats {
  import opened Wrappers
  import opened Text

  /** `label.replace(/[^a-zA-Z0-9]/g, '_')`. */
  function StatsKey(s: string): (r: string)
    ensures |r| == |s|
    ensures forall i :: 0 <= i < |r| ==> IsAsciiAlnum(r[i]) || r[i] == '_'
    ensures forall i :: 0 <= i < |s| ==> (IsAsciiAlnum(s[i]) <==> r[i] == s[i] && r[i] != '_')
  {
    if s == [] then ""
    else [if IsAsciiAlnum(s[0]) then s[0] else '_'] + StatsKey(s[1..])
  }

  /** Sanitising a sanitised label changes nothing. */
  lemma StatsKeyIdempotent(s: string)
    ensures StatsKey(StatsKey(s)) == StatsKey(s)
  {
    var r := StatsKey(s);
    var rr := StatsKey(r);
    forall i | 0 <= i < |r| ensures rr[i] == r[i] {
      if !IsAsciiAlnum(r[i]) {
        assert r[i] == '_';
      }
    }
  }

  /** The single-number fields of `stats`. */
  datatype Scalar =
    | UniqueVisitors | TotalPageViews | AvgSessionDuration | BounceRate | Registrations
    | ConversionRate | FirefoxDownloads | ZipDownloads | AvgScrollDepth

  /** The fields of `stats` that hold one counter per label. */
  datatype Category = TopPages | TopReferrers | TopCountries | TopCities | DeviceTypes | Browsers | HourlyActivity

  datatype Field = Total(scalar: Scalar) | Labelled(category: Category, item: string)

  function ScalarName(s: Scalar): (n: string)
    ensures n != "" && forall i :: 0 <= i < |n| ==> IsAsciiAlnum(n[i])
  {
    match s
    case UniqueVisitors => "uniqueVisitors"
    case TotalPageViews => "totalPageViews"
    case AvgSessionDuration => "avgSessionDuration"
    case BounceRate => "bounceRate"
    case Registrations => "registrations"
    case ConversionRate => "conversionRate"
    case FirefoxDownloads => "firefoxDownloads"
    case ZipDownloads => "zipDownloads"
    case AvgScrollDepth => "avgScrollDepth"
  }

  function CategoryName(c: Category): (n: string)
    ensures n != "" && forall i :: 0 <= i < |n| ==> IsAsciiAlnum(n[i])
  {
    match c
    case TopPages => "topPages"
    case TopReferrers => "topReferrers"
    case TopCountries => "topCountries"
    case TopCities => "topCities"
    case DeviceTypes => "deviceTypes"
    case Browsers => "browsers"
    case HourlyActivity => "hourlyActivity"
  }

  /** The dotted path the source writes for a field. */
  function PathText(f: Field): string {
    match f
    case Total(s) => "stats." + ScalarName(s)
    case Labelled(c, x) => "stats." + CategoryName(c) + "." + x
  }

  /** What the current session contributes to a page view: its referrer
      and the host `new URL(referrer).hostname` yields (`None` when the
      constructor throws), its location and its device. The host is an
      input: URL parsing is not part of this model. */
  datatype Place = Place(country: string, countryCode: string, city: string)
  datatype SessionView = SessionView(
    referrer: string, referrerHost: Option<string>, location: Option<Place>,
    isMobile: bool, browser: string)

  /** The two modules differ in the country counter: src/lib/dataCollection.ts
      keys it by the sanitised country name, src/lib/dataCollectionOptimized.ts
      by the raw country code. */
  datatype Variant = Main | Optimized

  /** The referrer counter, present only for a referrer other than `''` and
      `'direct'`; an unparsable referrer throws. */
  function ReferrerKeys(s: SessionView): Result<set<Field>, Exception> {
    if s.referrer == "" || s.referrer == "direct" then Ok({})
    else if s.referrerHost.None? then Err(TypeError)
    else Ok({Labelled(TopReferrers, StatsKey(s.referrerHost.value))})
  }

  function CountryLabel(variant: Variant, p: Place): string {
    if variant == Main then StatsKey(p.country) else p.countryCode
  }

  function LocationKeys(variant: Variant, s: SessionView): set<Field> {
    if s.location.None? then {}
    else {Labelled(TopCountries, CountryLabel(variant, s.location.value)), Labelled(TopCities, StatsKey(s.location.value.city))}
  }

  function DeviceKeys(s: SessionView): set<Field> {
    {Labelled(DeviceTypes, if s.isMobile then "mobile" else "desktop"), Labelled(Browsers, StatsKey(s.browser))}
  }

  /** The counters of the common update object for one event. */
  function UpdateKeys(variant: Variant, session: Option<SessionView>, eventType: string, page: string): (r: Result<set<Field>, Exception>)
    ensures r.Ok? ==> forall f :: f in r.value ==> !(f.Labelled? && f.category == HourlyActivity)
    ensures eventType == "page_view" && r.Ok? ==>
      Total(TotalPageViews) in r.value && Labelled(TopPages, StatsKey(page)) in r.value
    ensures eventType == "form_complete" ==> r == Ok({Total(Registrations)})
    ensures eventType == "download" ==> r == Ok({Total(FirefoxDownloads)})
    ensures r.Err? <==> eventType == "page_view" && session.Some? && ReferrerKeys(session.value).Err?
  {
    if eventType == "page_view" then
      var base := {Total(TotalPageViews), Labelled(TopPages, StatsKey(page))};
      if session.None? then Ok(base)
      else
        var s := session.value;
        var referrer := ReferrerKeys(s);
        if referrer.Err? then Err(referrer.error)
        else Ok(base + referrer.value + LocationKeys(variant, s) + DeviceKeys(s))
    else if eventType == "form_complete" then Ok({Total(Registrations)})
    else if eventType == "download" then Ok({Total(FirefoxDownloads)})
    else Ok({})
  }

  /** A page view with a known location counts exactly one country: the
      sanitised country name in the main collector, the raw country code in
      the older one. */
  lemma PageViewCountryKey(variant: Variant, s: SessionView, page: string)
    requires s.location.Some? && ReferrerKeys(s).Ok?
    ensures var r := UpdateKeys(variant, Some(s), "page_view", page);
      r.Ok? && forall x :: Labelled(TopCountries, x) in r.value <==>
        x == (if variant == Optimized then s.location.value.countryCode else StatsKey(s.location.value.country))
  {
  }

  function HourKey(hour: nat): Field {
    Labelled(HourlyActivity, NatToString(hour))
  }

  /** The hourly update object: the common one plus the hour's slot. */
  function HourlyKeys(keys: set<Field>, hour: nat): set<Field> {
    keys + {HourKey(hour)}
  }

  /** The hourly update carries exactly one key more than the daily one. */
  lemma HourlyAddsOneKey(variant: Variant, session: Option<SessionView>, eventType: string, page: string, hour: nat)
    requires UpdateKeys(variant, session, eventType, page).Ok?
    ensures var keys := UpdateKeys(variant, session, eventType, page).value;
      HourKey(hour) !in keys && |HourlyKeys(keys, hour)| == |keys| + 1
  {
  }

  // ---------------------------------------------------------------------
  // Field paths

  /** The characters a dotted field path may not contain. */
  predicate Reserved(c: char) {
    c == '~' || c == '*' || c == '/' || c == '[' || c == ']'
  }

  predicate NoReserved(s: string) {
    forall i :: 0 <= i < |s| ==> !Reserved(s[i])
  }

  predicate NoEmptySegment(parts: seq<string>) {
    forall i :: 0 <= i < |parts| ==> parts[i] != ""
  }

  /** A dotted field path the client accepts: no reserved character and no
      empty segment. One rejected path fails the whole batch. */
  predicate ValidFieldPath(p: string) {
    NoReserved(p) && NoEmptySegment(Split(p, '.'))
  }

  /** The path of a counter is accepted: a scalar's always is, a labelled
      one's exactly when its label is a valid path on its own
      (`FieldValidMeans`). */
  predicate FieldValid(f: Field) {
    f.Total? || ValidFieldPath(f.item)
  }

  predicate AllValid(keys: set<Field>) {
    forall f :: f in keys ==> FieldValid(f)
  }

  lemma NoReservedConcat(a: string, b: string)
    ensures NoReserved(a + b) <==> NoReserved(a) && NoReserved(b)
  {
    if NoReserved(a + b) {
      assert forall i :: 0 <= i < |a| ==> a[i] == (a + b)[i];
      assert forall i :: 0 <= i < |b| ==> b[i] == (a + b)[|a| + i];
    }
  }

  lemma SplitTwo(a: string, b: string)
    requires '.' !in a && '.' !in b
    ensures Split(a + "." + b, '.') == [a, b]
  {
    assert [a, b][1..] == [b];
    assert Join([a, b], '.') == a + "." + b;
    SplitJoin([a, b], '.');
  }

  lemma SplitThree(a: string, b: string, c: string)
    requires '.' !in a && '.' !in b && '.' !in c
    ensures Split(a + "." + b + "." + c, '.') == [a, b, c]
  {
    assert [a, b, c][1..] == [b, c];
    assert [b, c][1..] == [c];
    assert Join([b, c], '.') == b + "." + c;
    assert Join([a, b, c], '.') == a + "." + Join([b, c], '.');
    assert a + "." + (b + "." + c) == a + "." + b + "." + c;
    SplitJoin([a, b, c], '.');
  }

  /** The segments of a path whose label has no dot. */
  lemma SegmentsTotal(sc: Scalar)
    ensures Split(PathText(Total(sc)), '.') == ["stats", ScalarName(sc)]
  {
    var n := ScalarName(sc);
    assert '.' !in n;
    StatsPrefix(n);
    SplitTwo("stats", n);
  }

  lemma SegmentsLabelled(c: Category, x: string)
    requires '.' !in x
    ensures Split(PathText(Labelled(c, x)), '.') == ["stats", CategoryName(c), x]
  {
    var n := CategoryName(c);
    assert '.' !in n;
    StatsPrefix(n + "." + x);
    assert "stats." + n + "." + x == "stats." + (n + "." + x);
    assert "stats" + "." + n + "." + x == "stats" + "." + (n + "." + x);
    SplitThree("stats", n, x);
  }

  lemma StatsPrefix(n: string)
    ensures "stats." + n == "stats" + "." + n
  {
    assert "stats" + "." == "stats.";
  }

  /** Names of different fields differ, so a set of fields stands for the set
      of keys of the update object. */
  lemma PathTextInjective(f: Field, g: Field)
    requires f.Labelled? ==> '.' !in f.item
    requires g.Labelled? ==> '.' !in g.item
    requires PathText(f) == PathText(g)
    ensures f == g
  {
    var sf := Segs(f);
    var sg := Segs(g);
    assert sf == sg;
    assert sf[1] == sg[1];
    if f.Total? && g.Total? {
      ScalarNameInjective(f.scalar, g.scalar);
    } else if f.Labelled? && g.Labelled? {
      CategoryNameInjective(f.category, g.category);
      assert sf[2] == sg[2];
    }
  }

  function Segs(f: Field): (r: seq<string>)
    requires f.Labelled? ==> '.' !in f.item
    ensures r == Split(PathText(f), '.')
    ensures f.Total? ==> r == ["stats", ScalarName(f.scalar)]
    ensures f.Labelled? ==> r == ["stats", CategoryName(f.category), f.item]
  {
    if f.Total? then SegmentsTotal(f.scalar); ["stats", ScalarName(f.scalar)]
    else SegmentsLabelled(f.category, f.item); ["stats", CategoryName(f.category), f.item]
  }

  lemma ScalarNameInjective(a: Scalar, b: Scalar)
    requires ScalarName(a) == ScalarName(b)
    ensures a == b
  {
  }

  lemma CategoryNameInjective(a: Category, b: Category)
    requires CategoryName(a) == CategoryName(b)
    ensures a == b
  {
  }

  /** A piece with no separator splits into itself. */
  lemma DotFreeValid(x: string)
    requires '.' !in x
    ensures ValidFieldPath(x) <==> x != "" && NoReserved(x)
  {
    assert IndexOf(x, '.') == |x|;
    assert Split(x, '.') == [x];
    assert [x][0] == x;
  }

  /** Splitting after a dot-free head peels that head off. */
  lemma SplitAfter(a: string, rest: string)
    requires '.' !in a
    ensures Split(a + "." + rest, '.') == [a] + Split(rest, '.')
  {
    var s := a + "." + rest;
    assert s[|a|] == '.' && s[..|a|] == a;
    IndexOfFirst(s, '.', |a|);
    assert s[|a| + 1..] == rest;
  }

  /** The segments of a labelled counter's name: the two fixed ones, then
      the label's own. */
  lemma LabelledSplit(n: string, x: string)
    requires '.' !in n
    ensures Split("stats." + n + "." + x, '.') == ["stats", n] + Split(x, '.')
  {
    var rest := n + "." + x;
    assert "stats." + n + "." + x == "stats" + "." + rest;
    SplitAfter("stats", rest);
    SplitAfter(n, x);
  }

  lemma NoEmptyAfterTwo(a: string, b: string, parts: seq<string>)
    requires a != "" && b != ""
    ensures NoEmptySegment([a, b] + parts) <==> NoEmptySegment(parts)
  {
    var all := [a, b] + parts;
    assert forall i :: 0 <= i < |parts| ==> all[i + 2] == parts[i];
  }

  /** The structural test agrees with the dotted-path rule on the counter's
      full name: the two fixed segments are always non-empty and clean. */
  lemma FieldValidMeans(f: Field)
    ensures FieldValid(f) <==> ValidFieldPath(PathText(f))
  {
    match f
    case Total(sc) => TotalValid(sc);
    case Labelled(c, x) =>
      var n := CategoryName(c);
      assert NoReserved(n);
      assert '.' !in n;
      LabelledSplit(n, x);
      NoEmptyAfterTwo("stats", n, Split(x, '.'));
      assert ["stats", n] + Split(x, '.') == Split(PathText(f), '.');
      NoReservedThree(n, x);
  }

  /** A scalar counter is always a valid path. */
  lemma TotalValid(sc: Scalar)
    ensures ValidFieldPath(PathText(Total(sc)))
  {
    var n := ScalarName(sc);
    assert '.' !in n && NoReserved(n);
    ScalarPathValid(n);
  }

  lemma ScalarPathValid(n: string)
    requires n != "" && '.' !in n && NoReserved(n)
    ensures ValidFieldPath("stats." + n)
  {
    StatsPrefix(n);
    SplitAfter("stats", n);
    DotFreeValid(n);
    NoEmptyAfterOne("stats", [n]);
    assert NoReserved("stats.");
    NoReservedConcat("stats.", n);
  }

  lemma NoEmptyAfterOne(a: string, parts: seq<string>)
    requires a != ""
    ensures NoEmptySegment([a] + parts) <==> NoEmptySegment(parts)
  {
    var all := [a] + parts;
    assert forall i :: 0 <= i < |parts| ==> all[i + 1] == parts[i];
  }

  /** A labelled counter is a valid path exactly when its label is non-empty
      and free of reserved characters. */
  lemma LabelledValid(c: Category, x: string)
    requires '.' !in x
    ensures ValidFieldPath(PathText(Labelled(c, x))) <==> x != "" && NoReserved(x)
  {
    FieldValidMeans(Labelled(c, x));
    DotFreeValid(x);
  }

  lemma NoReservedThree(n: string, x: string)
    requires NoReserved(n)
    ensures NoReserved("stats." + n + "." + x) <==> NoReserved(x)
  {
    assert NoReserved("stats.") && NoReserved(".");
    NoReservedConcat("stats.", n);
    NoReservedConcat("stats." + n, ".");
    NoReservedConcat("stats." + n + ".", x);
  }

  /** A sanitised label gives a valid path exactly when it is non-empty. */
  lemma SanitizedValid(c: Category, item: string)
    ensures ValidFieldPath(PathText(Labelled(c, StatsKey(item)))) <==> item != ""
  {
    var k := StatsKey(item);
    assert '.' !in k;
    assert NoReserved(k);
    LabelledValid(c, k);
  }

  // ---------------------------------------------------------------------
  // Summary documents

  /** A summary document: its counters and, for an hourly one, its hour. */
  datatype Doc = Doc(counters: map<Field, int>, hour: Option<nat>)

  function Val(d: Doc, f: Field): int {
    if f in d.counters then d.counters[f] else 0
  }

  /** `increment(1)` on every field of the update object: a missing field
      starts from zero. */
  function Apply(d: Doc, keys: set<Field>): (r: Doc)
    ensures r.hour == d.hour
    ensures r.counters.Keys == d.counters.Keys + keys
    ensures forall f :: f in r.counters ==> r.counters[f] == Val(d, f) + (if f in keys then 1 else 0)
  {
    Doc(map f | f in d.counters.Keys + keys :: Val(d, f) + (if f in keys then 1 else 0), d.hour)
  }

  /** Counters never go down. */
  lemma ApplyMonotone(d: Doc, keys: set<Field>, f: Field)
    requires f in d.counters
    ensures f in Apply(d, keys).counters && Apply(d, keys).counters[f] >= d.counters[f]
  {
  }

  /** Two updates give the same document in either order. */
  lemma ApplyCommutes(d: Doc, a: set<Field>, b: set<Field>)
    ensures Apply(Apply(d, a), b) == Apply(Apply(d, b), a)
  {
    var x, y := Apply(Apply(d, a), b), Apply(Apply(d, b), a);
    forall f | f in x.counters ensures x.counters[f] == y.counters[f] {
      assert Val(Apply(d, a), f) == Val(d, f) + (if f in a then 1 else 0);
      assert Val(Apply(d, b), f) == Val(d, f) + (if f in b then 1 else 0);
    }
    assert x.counters == y.counters;
  }

  /** The document `ensureStatsDocument` creates: every scalar and every
      device type at zero, the label maps empty, and for an hourly
      document the hour it belongs to. */
  function ZeroStats(hour: Option<nat>): (d: Doc)
    ensures d.hour == hour
    ensures forall f :: f in d.counters ==> d.counters[f] == 0
  {
    Doc(map[
      Total(UniqueVisitors) := 0, Total(TotalPageViews) := 0, Total(AvgSessionDuration) := 0,
      Total(BounceRate) := 0, Total(Registrations) := 0, Total(ConversionRate) := 0,
      Total(FirefoxDownloads) := 0, Total(ZipDownloads) := 0, Total(AvgScrollDepth) := 0,
      Labelled(DeviceTypes, "mobile") := 0, Labelled(DeviceTypes, "desktop") := 0,
      Labelled(DeviceTypes, "tablet") := 0], hour)
  }

  /** The two summary collections, each a map from document id to document. */
  datatype StatsDb = StatsDb(daily: map<string, Doc>, hourly: map<string, Doc>)

  /** The document id of an hour: the date, `_`, and the hour in two digits. */
  function HourlyId(today: string, hour: nat): string {
    today + "_" + Pad2(hour)
  }

  /** `ensureStatsDocument` for both documents: an existing document is left
      alone, a missing one is created at zero. */
  function Ensure(db: StatsDb, today: string, hourId: string, hour: nat): (r: StatsDb)
    ensures today in r.daily && hourId in r.hourly
    ensures r.daily.Keys == db.daily.Keys + {today}
    ensures r.hourly.Keys == db.hourly.Keys + {hourId}
    ensures forall id :: id in db.daily ==> r.daily[id] == db.daily[id]
    ensures forall id :: id in db.hourly ==> r.hourly[id] == db.hourly[id]
    ensures today !in db.daily ==> r.daily[today] == ZeroStats(None)
    ensures hourId !in db.hourly ==> r.hourly[hourId] == ZeroStats(Some(hour))
  {
    StatsDb(
      if today in db.daily then db.daily else db.daily[today := ZeroStats(None)],
      if hourId in db.hourly then db.hourly else db.hourly[hourId := ZeroStats(Some(hour))])
  }

  /** `updateRealTimeStats`: create the two documents if needed, then apply
      the update objects as one batch. A thrown URL error or an invalid
      path loses the whole batch; the created documents stay. `today` is the
      UTC date and `hour` the local hour, as the source computes them. Only
      the day's and the hour's documents change. */
  function UpdateRealTimeStats(db: StatsDb, variant: Variant, session: Option<SessionView>,
                               eventType: string, page: string, today: string, hour: nat): (r: StatsDb)
    ensures r.daily.Keys == db.daily.Keys + {today}
    ensures r.hourly.Keys == db.hourly.Keys + {HourlyId(today, hour)}
    ensures forall id :: id in db.daily && id != today ==> r.daily[id] == db.daily[id]
    ensures forall id :: id in db.hourly && id != HourlyId(today, hour) ==> r.hourly[id] == db.hourly[id]
  {
    var h := HourlyId(today, hour);
    var e := Ensure(db, today, h, hour);
    var keys := UpdateKeys(variant, session, eventType, page);
    if keys.Ok? && AllValid(HourlyKeys(keys.value, hour)) then
      StatsDb(e.daily[today := Apply(e.daily[today], keys.value)], e.hourly[h := Apply(e.hourly[h], HourlyKeys(keys.value, hour))])
    else e
  }

  /** No counter in any document goes down. */
  lemma UpdateMonotone(db: StatsDb, variant: Variant, session: Option<SessionView>,
                       eventType: string, page: string, today: string, hour: nat, id: string, f: Field)
    ensures var r := UpdateRealTimeStats(db, variant, session, eventType, page, today, hour);
      && (id in db.daily && f in db.daily[id].counters ==> f in r.daily[id].counters && r.daily[id].counters[f] >= db.daily[id].counters[f])
      && (id in db.hourly && f in db.hourly[id].counters ==> f in r.hourly[id].counters && r.hourly[id].counters[f] >= db.hourly[id].counters[f])
  {
    var h := HourlyId(today, hour);
    var e := Ensure(db, today, h, hour);
    var keys := UpdateKeys(variant, session, eventType, page);
    if keys.Ok? && AllValid(HourlyKeys(keys.value, hour)) {
      if id in db.daily && f in db.daily[id].counters && id == today {
        ApplyMonotone(e.daily[today], keys.value, f);
      }
      if id in db.hourly && f in db.hourly[id].counters && id == h {
        ApplyMonotone(e.hourly[h], HourlyKeys(keys.value, hour), f);
      }
    }
  }

  /** A page view with no session increments the page-view total and the
      page's counter in both documents, and the hour's slot in the hourly
      one. */
  lemma PageViewWithoutSession(db: StatsDb, variant: Variant, page: string, today: string, hour: nat)
    requires page != ""
    ensures var r := UpdateRealTimeStats(db, variant, None, "page_view", page, today, hour);
      var h := HourlyId(today, hour);
      var e := Ensure(db, today, h, hour);
      && r.daily[today] == Apply(e.daily[today], {Total(TotalPageViews), Labelled(TopPages, StatsKey(page))})
      && r.hourly[h] == Apply(e.hourly[h], {Total(TotalPageViews), Labelled(TopPages, StatsKey(page)), HourKey(hour)})
  {
    var keys := {Total(TotalPageViews), Labelled(TopPages, StatsKey(page))};
    assert UpdateKeys(variant, None, "page_view", page) == Ok(keys);
    PageViewKeysValid(page, hour);
    assert HourlyKeys(keys, hour) == {Total(TotalPageViews), Labelled(TopPages, StatsKey(page)), HourKey(hour)};
  }

  lemma HourKeyValid(hour: nat)
    ensures ValidFieldPath(PathText(HourKey(hour)))
  {
    var n := NatToString(hour);
    assert '.' !in n;
    assert NoReserved(n);
    LabelledValid(HourlyActivity, n);
  }

  lemma PageViewKeysValid(page: string, hour: nat)
    requires page != ""
    ensures AllValid({Total(TotalPageViews), Labelled(TopPages, StatsKey(page)), HourKey(hour)})
  {
    var k := StatsKey(page);
    assert '.' !in k && NoReserved(k);
    DotFreeValid(k);
    var n := NatToString(hour);
    assert '.' !in n && NoReserved(n);
    DotFreeValid(n);
  }

  /** An empty referrer host (as `about:blank` gives) makes an empty path
      segment, and every increment of the event is lost. */
  lemma EmptyHostLosesUpdate(db: StatsDb, variant: Variant, s: SessionView, page: string, today: string, hour: nat)
    requires s.referrer != "" && s.referrer != "direct" && s.referrerHost == Some("")
    ensures UpdateRealTimeStats(db, variant, Some(s), "page_view", page, today, hour) ==
      Ensure(db, today, HourlyId(today, hour), hour)
  {
    var f := Labelled(TopReferrers, StatsKey(""));
    assert StatsKey("") == "";
    DotFreeValid("");
    assert !FieldValid(f);
    assert ReferrerKeys(s) == Ok({f});
    var keys := UpdateKeys(variant, Some(s), "page_view", page);
    assert f in keys.value;
    assert f in HourlyKeys(keys.value, hour);
    assert !AllValid(HourlyKeys(keys.value, hour));
  }
}
