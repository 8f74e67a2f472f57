/** The values the session bookkeeping of src/lib/dataCollection.ts and
    src/lib/dataCollectionOptimized.ts works on: the ordered, duplicate-free
    conversion path, the activity counters of a session, the documents the
    modules write, and the environment a call sees (clock, random suffixes,
    network answers, Firestore availability). */
module Sessions {
  import opened Wrappers
  import opened Text
  import opened Json
  import Geo
  import Device
  import Stats

  // ---------------------------------------------------------------------
  // Duplicate-free lists

  predicate NoDup<T(==)>(xs: seq<T>) {
    forall i, j :: 0 <= i < j < |xs| ==> xs[i] != xs[j]
  }

  /** `if (!xs.includes(x)) xs.push(x)`. */
  function AddOnce(xs: seq<string>, x: string): (r: seq<string>)
    ensures x in r && xs <= r && |r| <= |xs| + 1
    ensures forall y :: y in r <==> y in xs || y == x
    ensures NoDup(xs) ==> NoDup(r)
  {
    if x in xs then xs else xs + [x]
  }

  /** Pushing an element that is already there changes nothing. */
  lemma AddOnceIdempotent(xs: seq<string>, x: string)
    ensures AddOnce(AddOnce(xs, x), x) == AddOnce(xs, x)
  {
  }

  /** The path after visiting `pages` in order. */
  function Visit(path: seq<string>, pages: seq<string>): seq<string>
    decreases |pages|
  {
    if pages == [] then path else Visit(AddOnce(path, pages[0]), pages[1..])
  }

  /** The conversion path lists every page once, in the order of first
      visit: it extends the old path, holds no duplicate and holds exactly
      the old pages and the visited ones. */
  lemma {:induction false} VisitFacts(path: seq<string>, pages: seq<string>)
    requires NoDup(path)
    ensures path <= Visit(path, pages)
    ensures NoDup(Visit(path, pages))
    ensures forall p :: p in Visit(path, pages) <==> p in path || p in pages
    decreases |pages|
  {
    if pages != [] {
      VisitFacts(AddOnce(path, pages[0]), pages[1..]);
      assert forall p :: p in pages <==> p == pages[0] || p in pages[1..];
    }
  }

  // ---------------------------------------------------------------------
  // Session activity

  /** The counters `updateSessionActivity` maintains. */
  datatype Activity = Activity(totalPageViews: nat, totalTimeSpent: int, conversionEvents: seq<string>, isConverted: bool)

  const NO_ACTIVITY := Activity(0, 0, [], false)

  const CONVERSION_EVENTS: seq<string> := ["form_start", "form_complete", "download"]

  /** One event: a conversion event is recorded once, a completed form marks
      the session converted, a page view is counted, and the time spent is
      replaced by the new one. */
  function Step(a: Activity, eventType: string, timeSpent: int): (r: Activity)
    ensures a.conversionEvents <= r.conversionEvents
    ensures forall e :: e in r.conversionEvents <==> e in a.conversionEvents || (e == eventType && e in CONVERSION_EVENTS)
    ensures NoDup(a.conversionEvents) ==> NoDup(r.conversionEvents)
    ensures r.isConverted <==> a.isConverted || eventType == "form_complete"
    ensures r.totalPageViews == a.totalPageViews + (if eventType == "page_view" then 1 else 0)
    ensures r.totalTimeSpent == timeSpent
  {
    var events := if eventType in CONVERSION_EVENTS then AddOnce(a.conversionEvents, eventType) else a.conversionEvents;
    Activity(
      a.totalPageViews + (if eventType == "page_view" then 1 else 0),
      timeSpent,
      events,
      a.isConverted || eventType == "form_complete")
  }

  /** `Math.floor((now - start) / 1000)`: Dafny's division by a positive
      divisor already rounds toward negative infinity. */
  function SecondsSince(start: int, now: int): (r: int)
    ensures r * 1000 <= now - start < r * 1000 + 1000
  {
    (now - start) / 1000
  }

  /** Activity after a run of events. */
  function Steps(a: Activity, eventTypes: seq<string>, timeSpent: int): Activity
    decreases |eventTypes|
  {
    if eventTypes == [] then a else Steps(Step(a, eventTypes[0], timeSpent), eventTypes[1..], timeSpent)
  }

  /** Over any run of events the conversion list never holds a duplicate or
      forgets an entry, so it holds at most the three conversion events, and
      `isConverted` never goes back to false. */
  lemma {:induction false} StepsMonotone(a: Activity, eventTypes: seq<string>, timeSpent: int)
    requires NoDup(a.conversionEvents)
    requires forall e :: e in a.conversionEvents ==> e in CONVERSION_EVENTS
    ensures var r := Steps(a, eventTypes, timeSpent);
      && NoDup(r.conversionEvents) && a.conversionEvents <= r.conversionEvents
      && (a.isConverted ==> r.isConverted)
      && |r.conversionEvents| <= |CONVERSION_EVENTS|
      && r.totalPageViews >= a.totalPageViews
    decreases |eventTypes|
  {
    if eventTypes != [] {
      var b := Step(a, eventTypes[0], timeSpent);
      StepsMonotone(b, eventTypes[1..], timeSpent);
    } else {
      ConversionBound(a.conversionEvents);
    }
  }

  /** A duplicate-free list of conversion events has at most three entries. */
  lemma ConversionBound(events: seq<string>)
    requires NoDup(events)
    ensures (forall e :: e in events ==> e in CONVERSION_EVENTS) ==> |events| <= |CONVERSION_EVENTS|
  {
    if forall e :: e in events ==> e in CONVERSION_EVENTS {
      var s := set e | e in events;
      SetOfNoDup(events);
      assert s <= {"form_start", "form_complete", "download"};
      assert |{"form_start", "form_complete", "download"}| == 3;
      SubsetCard(s, {"form_start", "form_complete", "download"});
    }
  }

  lemma {:induction false} SetOfNoDup(xs: seq<string>)
    requires NoDup(xs)
    ensures |set e | e in xs| == |xs|
  {
    if xs != [] {
      var t := xs[1..];
      SetOfNoDup(t);
      assert (set e | e in xs) == (set e | e in t) + {xs[0]};
      assert xs[0] !in t;
    }
  }

  lemma SubsetCard(a: set<string>, b: set<string>)
    requires a <= b
    ensures |a| <= |b|
  {
    assert b == a + (b - a);
  }

  // ---------------------------------------------------------------------
  // What a call sees

  /** The inputs an operation does not compute: the clock, the random
      suffixes of generated ids, Firestore's auto id, the page, the
      browser, the network answers, and whether Firestore accepts writes
      during the call. */
  datatype Env = Env(
    now: nat, up: bool,
    sessionRand: string, eventRand: string, deviceRand: string, userRand: string, autoId: string,
    pathname: string, referrer: string, referrerHost: Option<string>,
    userAgent: string, screenWidth: nat, screenHeight: nat,
    ipOutcome: Geo.Outcome, locationOutcomes: seq<Geo.Outcome>,
    isoNow: string, today: string, hour: nat)

  predicate Base36(s: string) {
    forall i :: 0 <= i < |s| ==> IsAsciiAlnum(s[i])
  }

  /** The environment a browser supplies: three answers for the three
      location requests, base-36 random suffixes and an hour of the day. */
  predicate EnvOk(env: Env) {
    && |env.locationOutcomes| == |Geo.LOCATION_PROVIDERS|
    && Base36(env.deviceRand)
    && env.hour < 24
  }

  function GeneratedId(prefix: string, now: nat, rand: string): string {
    prefix + "_" + NatToString(now) + "_" + rand
  }

  function SessionIdOf(env: Env): string { GeneratedId("session", env.now, env.sessionRand) }
  function EventIdOf(env: Env): string { GeneratedId("event", env.now, env.eventRand) }
  function DeviceIdOf(env: Env): string { GeneratedId("device", env.now, env.deviceRand) }
  function UserIdOf(env: Env): string { GeneratedId("user", env.now, env.userRand) }

  /** `document.referrer || 'direct'`. */
  function ReferrerOf(env: Env): (r: string)
    ensures r != ""
  {
    if env.referrer != "" then env.referrer else "direct"
  }

  /** The key of a locally stored event that could not be sent. */
  function FallbackKey(now: nat): string {
    "event_" + NatToString(now)
  }

  /** The fallback record `{ eventType, page, elementId, eventData, timestamp }`;
      absent optional arguments are `undefined` and `JSON.stringify` drops
      them. */
  function FallbackRecord(eventType: string, page: string, elementId: Option<string>,
                          eventData: Option<Value>, isoNow: string): (v: Value)
    ensures v.Obj? && Stringify(v).Some?
  {
    Obj([Member("eventType", Str(eventType)), Member("page", Str(page)),
         Member("elementId", if elementId.Some? then Str(elementId.value) else Undefined),
         Member("eventData", if eventData.Some? then eventData.value else Undefined),
         Member("timestamp", Str(isoNow))])
  }

  function FallbackText(eventType: string, page: string, elementId: Option<string>,
                        eventData: Option<Value>, isoNow: string): string {
    Stringify(FallbackRecord(eventType, page, elementId, eventData, isoNow)).value
  }

  /** A fallback record read back from storage: the absent fields are gone,
      the present ones are kept. */
  lemma FallbackReadBack(eventType: string, page: string, elementId: Option<string>, isoNow: string)
    ensures Parse(FallbackText(eventType, page, elementId, None, isoNow)) ==
      Ok(CleanObject(FallbackRecord(eventType, page, elementId, None, isoNow)))
  {
    ParseStringify(FallbackRecord(eventType, page, elementId, None, isoNow));
  }

  // ---------------------------------------------------------------------
  // src/lib/dataCollection.ts: sessions and the device document

  /** `currentSession`. The host of the referrer is kept beside the referrer
      it comes from, so that the statistics update can read it later. */
  datatype Session = Session(
    deviceId: string, sessionId: string, userEmail: Option<string>, userId: Option<string>,
    ipAddress: Option<string>, ipLocation: Option<Stats.Place>, device: Device.DeviceInfo,
    referrer: string, referrerHost: Option<string>, landingPage: string,
    activity: Activity, sessionCount: nat)

  /** The session `initializeSession` builds: the stored email only when
      there is one, the address and place of the lookup (which never fails),
      no activity, and a session count of one. */
  function NewSession(deviceId: string, storedEmail: Option<string>, loc: Geo.IpLocation, env: Env): (s: Session)
    ensures s.deviceId == deviceId && s.sessionId == SessionIdOf(env)
    ensures s.userEmail.Some? <==> Truthy(storedEmail)
    ensures s.activity == NO_ACTIVITY && s.sessionCount == 1
  {
    Session(deviceId, SessionIdOf(env), if Truthy(storedEmail) then storedEmail else None, None,
            Some(loc.ipAddress), Some(Stats.Place(loc.country, "", loc.city)),
            Device.GetDeviceInfo(env.userAgent), ReferrerOf(env), env.referrerHost, env.pathname,
            NO_ACTIVITY, 1)
  }

  /** What the statistics update reads of the session. */
  function View(s: Session): Stats.SessionView {
    Stats.SessionView(s.referrer, s.referrerHost, s.ipLocation, s.device.isMobile, s.device.browser)
  }

  /** A document of `user_devices`, reduced to the fields the model follows. */
  datatype DeviceDoc = DeviceDoc(sessionId: string, sessionCount: int, activity: Activity, userEmail: Option<string>)

  function Count(docs: map<string, DeviceDoc>, id: string): int {
    if id in docs then docs[id].sessionCount else 0
  }

  /** `setDoc(deviceRef, currentSession, { merge: true })` with the session's
      count written into the document; a session without an email leaves
      the stored email alone. */
  function MergeAsWritten(docs: map<string, DeviceDoc>, id: string, s: Session): (r: map<string, DeviceDoc>)
    ensures id in r && r.Keys == docs.Keys + {id}
    ensures r[id].sessionCount == s.sessionCount
  {
    var email := if s.userEmail.Some? then s.userEmail else if id in docs then docs[id].userEmail else None;
    docs[id := DeviceDoc(s.sessionId, s.sessionCount, s.activity, email)]
  }

  /** `updateDoc(deviceRef, { sessionCount: increment(1) })` right after the
      merge, so the document exists. */
  function IncrementCount(docs: map<string, DeviceDoc>, id: string): (r: map<string, DeviceDoc>)
    requires id in docs
    ensures r.Keys == docs.Keys && Count(r, id) == Count(docs, id) + 1
  {
    docs[id := docs[id].(sessionCount := docs[id].sessionCount + 1)]
  }

  /** The two writes of `initializeSession` as the source makes them: the
      merged session's own count, plus one. Other devices are untouched;
      the document records the session and keeps the stored email when the
      session has none. */
  function InitDocsAsWritten(docs: map<string, DeviceDoc>, id: string, s: Session): (r: map<string, DeviceDoc>)
    ensures id in r && r.Keys == docs.Keys + {id}
    ensures Count(r, id) == s.sessionCount + 1
    ensures forall k :: k in docs && k != id ==> r[k] == docs[k]
    ensures r[id].sessionId == s.sessionId && r[id].activity == s.activity
    ensures r[id].userEmail == (if s.userEmail.Some? then s.userEmail else if id in docs then docs[id].userEmail else None)
  {
    IncrementCount(MergeAsWritten(docs, id, s), id)
  }

  /** Because the merged session carries `sessionCount: 1`, the following
      increment always lands on 2: a first visit and a tenth visit both
      store 2. */
  lemma SessionCountAlwaysTwo(docs: map<string, DeviceDoc>, id: string, s: Session)
    requires s.sessionCount == 1
    ensures Count(InitDocsAsWritten(docs, id, s), id) == 2
  {
  }

  /** The same two writes with the count left out of the merge, so the
      increment counts sessions. */
  function InitDocs(docs: map<string, DeviceDoc>, id: string, s: Session): (r: map<string, DeviceDoc>)
    ensures id in r && r.Keys == docs.Keys + {id}
    ensures Count(r, id) == Count(docs, id) + 1
    ensures forall k :: k in docs && k != id ==> r[k] == docs[k]
    ensures r[id].sessionId == s.sessionId && r[id].activity == s.activity
    ensures s.userEmail.Some? ==> r[id].userEmail == s.userEmail
  {
    var email := if s.userEmail.Some? then s.userEmail else if id in docs then docs[id].userEmail else None;
    var merged := docs[id := DeviceDoc(s.sessionId, Count(docs, id), s.activity, email)];
    IncrementCount(merged, id)
  }

  /** The device document of a fresh device after `n` sessions. */
  function InitMany(docs: map<string, DeviceDoc>, id: string, sessions: seq<Session>): map<string, DeviceDoc>
    decreases |sessions|
  {
    if sessions == [] then docs else InitMany(InitDocs(docs, id, sessions[0]), id, sessions[1..])
  }

  /** With the correction the stored count is the number of sessions
      started on the device. */
  lemma {:induction false} InitManyCounts(docs: map<string, DeviceDoc>, id: string, sessions: seq<Session>)
    ensures Count(InitMany(docs, id, sessions), id) == Count(docs, id) + |sessions|
    decreases |sessions|
  {
    if sessions != [] {
      InitManyCounts(InitDocs(docs, id, sessions[0]), id, sessions[1..]);
    }
  }

  /** `updateDoc` of a device document: `NOT_FOUND` when it does not exist. */
  function UpdateActivity(docs: map<string, DeviceDoc>, id: string, a: Activity): (r: Result<map<string, DeviceDoc>, Exception>)
    ensures r.Ok? <==> id in docs
    ensures r.Ok? ==> r.value.Keys == docs.Keys && r.value[id].activity == a && r.value[id].sessionCount == docs[id].sessionCount
    ensures r.Ok? ==> r.value[id].userEmail == docs[id].userEmail && forall k :: k in docs && k != id ==> r.value[k] == docs[k]
  {
    if id in docs then Ok(docs[id := docs[id].(activity := a)]) else Err(FirestoreError("not-found"))
  }

  function UpdateEmail(docs: map<string, DeviceDoc>, id: string, email: string): (r: Result<map<string, DeviceDoc>, Exception>)
    ensures r.Ok? <==> id in docs
    ensures r.Ok? ==> r.value.Keys == docs.Keys && r.value[id].userEmail == Some(email)
    ensures r.Err? ==> r.error == FirestoreError("not-found")
  {
    if id in docs then Ok(docs[id := docs[id].(userEmail := Some(email))]) else Err(FirestoreError("not-found"))
  }

  // ---------------------------------------------------------------------
  // Stored events and registrations

  /** A document of the events collection. */
  datatype EventDoc = EventDoc(
    deviceId: string, sessionId: string, eventId: string, eventType: string, page: string,
    sequenceNumber: nat, userId: Option<string>, elementId: Option<string>, eventData: Option<Value>)

  /** The event `trackEvent` writes: optional parts only when present, and
      the payload passed through `cleanObject`. */
  function NewEvent(deviceId: string, sessionId: string, eventId: string, eventType: string, page: string,
                    seqNo: nat, userId: Option<string>, elementId: Option<string>, eventData: Option<Value>): (e: EventDoc)
    ensures e.sequenceNumber == seqNo
    ensures e.elementId.Some? <==> Truthy(elementId)
    ensures e.eventData.Some? ==> NoUndefined(e.eventData.value)
  {
    EventDoc(deviceId, sessionId, eventId, eventType, page, seqNo, userId,
             if Truthy(elementId) then elementId else None,
             if eventData.Some? then Some(CleanObject(eventData.value)) else None)
  }

  /** A document of the registrations collection. */
  datatype Registration = Registration(
    deviceId: string, sessionId: string, userId: string,
    name: string, email: string, occupation: string, useCase: string,
    sourcePage: string, conversionPath: seq<string>, timeToConversion: int,
    ipAddress: Option<string>, ipLocation: Option<Stats.Place>)
}
