/** The module-level state of src/lib/dataCollection.ts and the operations
    that change it: the device cookie, the session singleton, event
    tracking with its sequence number, the lazy initialisation and
    navigation tracking, and the registration flow. The Firestore
    collections are maps keyed by document id. */
module Collection {
  import opened Wrappers
  import opened Text
  import opened Json
  import opened Browser
  import opened Sessions
  import Guard
  import Geo
  import Stats

  // ---------------------------------------------------------------------
  // The device cookie

  /** The device id the jar holds; `getCookie(DEVICE_COOKIE_NAME)` reads
      exactly this (`DeviceCookieRead`). */
  function StoredDevice(jar: seq<Cookie>): Option<string> {
    JarGet(jar, Guard.DEVICE_COOKIE_NAME)
  }

  /** The email the jar holds, which `getStoredEmail` reads. */
  function StoredEmailOf(jar: seq<Cookie>): Option<string> {
    JarGet(jar, Guard.EMAIL_COOKIE_NAME)
  }

  lemma DeviceCookieRead(jar: seq<Cookie>)
    requires WellFormedJar(jar)
    ensures CookieValue(Render(jar), Guard.DEVICE_COOKIE_NAME) == StoredDevice(jar)
    ensures CookieValue(Render(jar), Guard.EMAIL_COOKIE_NAME) == StoredEmailOf(jar)
    ensures Guard.StoredEmail(jar) == StoredEmailOf(jar)
  {
    CookieNames();
    CookieValueOfJar(jar, Guard.DEVICE_COOKIE_NAME);
    CookieValueOfJar(jar, Guard.EMAIL_COOKIE_NAME);
  }

  lemma CookieNames()
    ensures WellFormedName(Guard.DEVICE_COOKIE_NAME) && WellFormedName(Guard.EMAIL_COOKIE_NAME)
    ensures Guard.DEVICE_COOKIE_NAME != Guard.EMAIL_COOKIE_NAME
  {
    assert Guard.DEVICE_COOKIE_NAME[4] != Guard.EMAIL_COOKIE_NAME[4];
  }

  /** The id `getOrCreateDeviceId` returns... */
  function DeviceIdFor(jar: seq<Cookie>, env: Env): string {
    if Truthy(StoredDevice(jar)) then StoredDevice(jar).value else DeviceIdOf(env)
  }

  /** ...and the jar it leaves: a new id is written only when none is stored. */
  function DeviceJar(jar: seq<Cookie>, env: Env): seq<Cookie> {
    if Truthy(StoredDevice(jar)) then jar else SetJar(jar, Guard.DEVICE_COOKIE_NAME, DeviceIdOf(env))
  }

  lemma DeviceIdClean(env: Env)
    requires EnvOk(env)
    ensures ';' !in DeviceIdOf(env) && DeviceIdOf(env) != ""
  {
    var n := NatToString(env.now);
    assert forall i :: 0 <= i < |n| ==> '0' <= n[i] <= '9';
    assert forall i :: 0 <= i < |env.deviceRand| ==> IsAsciiAlnum(env.deviceRand[i]);
    assert DeviceIdOf(env) == "device" + "_" + n + "_" + env.deviceRand;
  }

  /** Once a device id is in use it stays in use: a later call, whatever it
      sees, returns the same id and writes nothing; the email cookie is not
      disturbed. */
  lemma DeviceIdStable(jar: seq<Cookie>, env: Env, later: Env)
    requires WellFormedJar(jar) && EnvOk(env)
    ensures WellFormedJar(DeviceJar(jar, env))
    ensures StoredDevice(DeviceJar(jar, env)) == Some(DeviceIdFor(jar, env))
    ensures DeviceIdFor(DeviceJar(jar, env), later) == DeviceIdFor(jar, env)
    ensures DeviceJar(DeviceJar(jar, env), later) == DeviceJar(jar, env)
    ensures StoredEmailOf(DeviceJar(jar, env)) == StoredEmailOf(jar)
  {
    if !Truthy(StoredDevice(jar)) {
      var id := DeviceIdOf(env);
      DeviceIdClean(env);
      CookieNames();
      SetJarWellFormed(jar, Guard.DEVICE_COOKIE_NAME, id);
      SetJarGet(jar, Guard.DEVICE_COOKIE_NAME, id, Guard.EMAIL_COOKIE_NAME);
    }
  }

  /** Writing the email cookie leaves the device id alone, and the email
      reads back cut at the first `;`. */
  lemma EmailCookieWrite(jar: seq<Cookie>, email: string)
    requires WellFormedJar(jar)
    ensures WellFormedJar(SetJar(jar, Guard.EMAIL_COOKIE_NAME, email))
    ensures StoredDevice(SetJar(jar, Guard.EMAIL_COOKIE_NAME, email)) == StoredDevice(jar)
    ensures StoredEmailOf(SetJar(jar, Guard.EMAIL_COOKIE_NAME, email)) == Some(CutValue(email))
  {
    CookieNames();
    SetJarWellFormed(jar, Guard.EMAIL_COOKIE_NAME, email);
    SetJarGet(jar, Guard.EMAIL_COOKIE_NAME, email, Guard.DEVICE_COOKIE_NAME);
  }

  /** Every module-level variable of the collector, for stating what an
      operation leaves alone. */
  datatype Vars = Vars(
    session: Option<Session>, sessionStartTime: int, conversionPath: seq<string>,
    eventSequenceNumber: nat, isInitialized: bool, currentSessionId: Option<string>,
    lastTrackedPage: Option<string>, downloadCount: nat,
    devices: map<string, DeviceDoc>, events: map<string, EventDoc>,
    registrations: map<string, Registration>, stats: Stats.StatsDb)

  /** Every device document is still there and keeps its email. */
  predicate EmailsKept(d0: map<string, DeviceDoc>, d1: map<string, DeviceDoc>) {
    forall k :: k in d0 ==> k in d1 && d1[k].userEmail == d0[k].userEmail
  }

  /** The module of src/lib/dataCollection.ts: its variables, the browser
      storage it reads and writes, and the Firestore collections
      `user_devices`, `device_events`, `user_registrations` and the two
      summary collections. */
  class Collector {
    const store: Storage
    var session: Option<Session>
    var sessionStartTime: int
    var conversionPath: seq<string>
    var eventSequenceNumber: nat
    var isInitialized: bool
    var currentSessionId: Option<string>
    var lastTrackedPage: Option<string>
    var downloadCount: nat
    var devices: map<string, DeviceDoc>
    var events: map<string, EventDoc>
    var registrations: map<string, Registration>
    var stats: Stats.StatsDb

    function V(): Vars
      reads this
    {
      Vars(session, sessionStartTime, conversionPath, eventSequenceNumber, isInitialized,
           currentSessionId, lastTrackedPage, downloadCount, devices, events, registrations, stats)
    }

    /** The path holds each page once, a session's conversion events are
        distinct conversion events and its device id is the one in the
        cookie (never empty), and the lazily recorded session id is the session's. */
    predicate Valid()
      reads this, store
    {
      && store.Valid()
      && NoDup(conversionPath)
      && (session.Some? ==>
            && NoDup(session.value.activity.conversionEvents)
            && (forall e :: e in session.value.activity.conversionEvents ==> e in CONVERSION_EVENTS)
            && session.value.deviceId != ""
            && StoredDevice(store.jar) == Some(session.value.deviceId))
      && (currentSessionId.Some? ==> session.Some? && currentSessionId.value == session.value.sessionId)
      && (isInitialized ==> currentSessionId.Some?)
    }

    /** A page load: the variables at their initial values over whatever the
        browser and Firestore already hold. */
    constructor(browser: Storage, now: nat, devices0: map<string, DeviceDoc>, events0: map<string, EventDoc>,
                registrations0: map<string, Registration>, stats0: Stats.StatsDb)
      requires browser.Valid()
      ensures Valid() && store == browser
      ensures V() == Vars(None, now, [], 0, false, None, None, 0, devices0, events0, registrations0, stats0)
    {
      store := browser;
      session, sessionStartTime, conversionPath, eventSequenceNumber := None, now, [], 0;
      isInitialized, currentSessionId, lastTrackedPage, downloadCount := false, None, None, 0;
      devices, events, registrations, stats := devices0, events0, registrations0, stats0;
    }

    /** `getOrCreateDeviceId`: the stored id, or a new one written to the
        cookie. The cookie holds the returned id afterwards. */
    method GetOrCreateDeviceId(env: Env) returns (id: string)
      requires Valid() && EnvOk(env)
      modifies store
      ensures Valid()
      ensures id == DeviceIdFor(old(store.jar), env) && store.jar == DeviceJar(old(store.jar), env)
      ensures StoredDevice(store.jar) == Some(id) && id != ""
      ensures store.local == old(store.local) && store.tab == old(store.tab)
    {
      DeviceIdStable(store.jar, env, env);
      DeviceIdClean(env);
      CookieNames();
      var c := store.ReadCookie(Guard.DEVICE_COOKIE_NAME);
      if Truthy(c) {
        id := c.value;
      } else {
        id := DeviceIdOf(env);
        store.SetCookie(Guard.DEVICE_COOKIE_NAME, id);
      }
    }

    /** `initializeSession`: an existing session is returned untouched;
        otherwise a session is built, the path restarts at the current page,
        and, when Firestore accepts the writes, the device document is
        merged (carrying the session's count of one) and its session count
        incremented, and the clock restarts. */
    method InitializeSession(env: Env) returns (sid: string)
      requires Valid() && EnvOk(env)
      modifies this, store
      ensures Valid() && session.Some? && sid == session.value.sessionId
      ensures old(session).Some? ==> sid == old(session).value.sessionId && V() == old(V()) && store.jar == old(store.jar)
      ensures old(session).None? && env.up ==> DeviceIdFor(old(store.jar), env) in devices
      ensures old(session).None? ==>
        var deviceId := DeviceIdFor(old(store.jar), env);
        var s := NewSession(deviceId, StoredEmailOf(old(store.jar)), Geo.Locate(env.ipOutcome, env.locationOutcomes), env);
        && V() == old(V()).(session := Some(s), conversionPath := [env.pathname],
                            devices := if env.up then InitDocsAsWritten(old(devices), deviceId, s) else old(devices),
                            sessionStartTime := if env.up then env.now else old(sessionStartTime))
        && store.jar == DeviceJar(old(store.jar), env)
      ensures store.local == old(store.local) && store.tab == old(store.tab)
    {
      if session.Some? {
        return session.value.sessionId;
      }
      sid := StartSession(env);
    }

    /** The new-session half of `initializeSession`. The device document is
        merged with the session's count of one and then incremented, so it
        holds 2 whatever it held before (see `SessionCountAlwaysTwo`). */
    method StartSession(env: Env) returns (sid: string)
      requires Valid() && EnvOk(env) && session.None?
      modifies this, store
      ensures Valid() && session.Some? && sid == session.value.sessionId
      ensures env.up ==> Count(devices, DeviceIdFor(old(store.jar), env)) == 2
      ensures var deviceId := DeviceIdFor(old(store.jar), env);
        var s := NewSession(deviceId, StoredEmailOf(old(store.jar)), Geo.Locate(env.ipOutcome, env.locationOutcomes), env);
        && V() == old(V()).(session := Some(s), conversionPath := [env.pathname],
                            devices := if env.up then InitDocsAsWritten(old(devices), deviceId, s) else old(devices),
                            sessionStartTime := if env.up then env.now else old(sessionStartTime))
        && store.jar == DeviceJar(old(store.jar), env)
      ensures store.local == old(store.local) && store.tab == old(store.tab)
    {
      DeviceIdStable(store.jar, env, env);
      var deviceId := GetOrCreateDeviceId(env);
      CookieNames();
      var storedEmail := store.ReadCookie(Guard.EMAIL_COOKIE_NAME);
      var loc := Geo.GetIPLocation(env.ipOutcome, env.locationOutcomes);
      var s := NewSession(deviceId, storedEmail, loc, env);
      session := Some(s);
      conversionPath := [env.pathname];
      if env.up {
        devices := InitDocsAsWritten(devices, deviceId, s);
        sessionStartTime := env.now;
      }
      sid := s.sessionId;
    }

    /** `updateSessionActivity`: without a session nothing happens;
        otherwise the page joins the path if new, the activity takes one
        step, and the device document is updated when it exists and
        Firestore is up (a failed update changes only the memory). */
    method UpdateSessionActivity(eventType: string, page: string, env: Env)
      requires Valid()
      modifies this
      ensures Valid()
      ensures old(session).None? ==> V() == old(V())
      ensures old(session).Some? ==>
        var s := old(session).value;
        var a := Step(s.activity, eventType, SecondsSince(old(sessionStartTime), env.now));
        var docs := UpdateActivity(old(devices), s.deviceId, a);
        V() == old(V()).(session := Some(s.(activity := a)), conversionPath := AddOnce(old(conversionPath), page),
                         devices := if env.up && docs.Ok? then docs.value else old(devices))
      ensures EmailsKept(old(devices), devices)
    {
      if session.None? {
        return;
      }
      var s := session.value;
      var timeSpent := SecondsSince(sessionStartTime, env.now);
      conversionPath := AddOnce(conversionPath, page);
      var a := Step(s.activity, eventType, timeSpent);
      session := Some(s.(activity := a));
      var docs := UpdateActivity(devices, s.deviceId, a);
      if env.up && docs.Ok? {
        devices := docs.value;
      }
    }

    /** `trackEvent`: make sure there is a session, number the event, and
        store it; when Firestore refuses the write the event goes to local
        storage under `event_<now>` and nothing else is updated. Otherwise
        the session activity and both summary documents follow. */
    method TrackEvent(eventType: string, page: string, elementId: Option<string>, eventData: Option<Value>, env: Env)
      requires Valid() && EnvOk(env)
      modifies this, store
      ensures Valid() && session.Some?
      ensures eventSequenceNumber == old(eventSequenceNumber) + 1
      ensures old(session).Some? ==> session.value.sessionId == old(session).value.sessionId
      ensures old(session).Some? && old(session).value.activity.isConverted ==> session.value.activity.isConverted
      ensures old(session).Some? ==> session.value.userEmail == old(session).value.userEmail && EmailsKept(old(devices), devices)
      ensures store.jar == DeviceJar(old(store.jar), env) && store.tab == old(store.tab)
      ensures registrations == old(registrations) && lastTrackedPage == old(lastTrackedPage)
      ensures isInitialized == old(isInitialized) && currentSessionId == old(currentSessionId)
      ensures downloadCount == old(downloadCount)
      ensures !env.up ==>
        && events == old(events)
        && store.local == old(store.local)[FallbackKey(env.now) := FallbackText(eventType, page, elementId, eventData, env.isoNow)]
      ensures env.up ==>
        && store.local == old(store.local)
        && events == old(events)[EventIdOf(env) := NewEvent(session.value.deviceId, session.value.sessionId, EventIdOf(env),
                                                            eventType, page, eventSequenceNumber, session.value.userId,
                                                            elementId, eventData)]
        && Recorded(eventType, page, env, old(stats))
    {
      var sid := InitializeSession(env);
      StoreEvent(eventType, page, elementId, eventData, env);
    }

    /** `trackEvent` once the session exists: the device id, the numbered
        event, and the write with its fallback. */
    method StoreEvent(eventType: string, page: string, elementId: Option<string>, eventData: Option<Value>, env: Env)
      requires Valid() && EnvOk(env) && session.Some?
      modifies this, store
      ensures Valid() && session.Some?
      ensures session.value.sessionId == old(session).value.sessionId
      ensures session.value.userEmail == old(session).value.userEmail && EmailsKept(old(devices), devices)
      ensures old(session).value.activity.isConverted ==> session.value.activity.isConverted
      ensures store.jar == old(store.jar) && store.tab == old(store.tab)
      ensures !env.up ==>
        && V() == old(V()).(eventSequenceNumber := old(eventSequenceNumber) + 1)
        && store.local == old(store.local)[FallbackKey(env.now) := FallbackText(eventType, page, elementId, eventData, env.isoNow)]
      ensures env.up ==>
        && V() == old(V()).(eventSequenceNumber := old(eventSequenceNumber) + 1, events := events, session := session,
                            conversionPath := conversionPath, devices := devices, stats := stats)
        && store.local == old(store.local)
        && events == old(events)[EventIdOf(env) := NewEvent(session.value.deviceId, session.value.sessionId, EventIdOf(env),
                                                            eventType, page, eventSequenceNumber, session.value.userId,
                                                            elementId, eventData)]
        && Recorded(eventType, page, env, old(stats))
    {
      var sid := session.value.sessionId;
      var eventId := EventIdOf(env);
      var deviceId := GetOrCreateDeviceId(env);
      eventSequenceNumber := eventSequenceNumber + 1;
      var s := session.value;
      var ev := NewEvent(deviceId, sid, eventId, eventType, page, eventSequenceNumber, s.userId, elementId, eventData);
      if !env.up {
        store.SetItem(FallbackKey(env.now), FallbackText(eventType, page, elementId, eventData, env.isoNow));
        return;
      }
      events := events[eventId := ev];
      RecordActivity(eventType, page, env);
    }

    /** What a stored event leaves in the session and the summaries: the
        page is on the path, a conversion event is recorded, a completed
        form converts the session, and both summary documents `stats0` are
        updated from the session as it now is. */
    ghost predicate Recorded(eventType: string, page: string, env: Env, stats0: Stats.StatsDb)
      reads this
    {
      && session.Some?
      && page in conversionPath
      && (eventType in CONVERSION_EVENTS ==> eventType in session.value.activity.conversionEvents)
      && (eventType == "form_complete" ==> session.value.activity.isConverted)
      && stats == Stats.UpdateRealTimeStats(stats0, Stats.Main, Some(View(session.value)), eventType, page, env.today, env.hour)
    }

    /** The part of `trackEvent` after the event is stored:
        `updateSessionActivity` and `updateRealTimeStats`. */
    method RecordActivity(eventType: string, page: string, env: Env)
      requires Valid() && session.Some?
      modifies this
      ensures Valid() && session.Some?
      ensures session.value.sessionId == old(session).value.sessionId && session.value.deviceId == old(session).value.deviceId
      ensures session.value.userId == old(session).value.userId && session.value.userEmail == old(session).value.userEmail
      ensures old(session).value.activity.isConverted ==> session.value.activity.isConverted
      ensures V() == old(V()).(session := session, conversionPath := conversionPath, devices := devices, stats := stats)
      ensures EmailsKept(old(devices), devices)
      ensures Recorded(eventType, page, env, old(stats))
    {
      UpdateSessionActivity(eventType, page, env);
      stats := Stats.UpdateRealTimeStats(stats, Stats.Main, Some(View(session.value)), eventType, page, env.today, env.hour);
    }

    /** `lazyInitialize`: the recorded session id once initialised,
        otherwise the session's id, recorded. */
    method LazyInitialize(env: Env) returns (sid: string)
      requires Valid() && EnvOk(env)
      modifies this, store
      ensures Valid() && isInitialized && currentSessionId == Some(sid)
      ensures session.Some? && sid == session.value.sessionId
      ensures old(session).Some? ==> sid == old(session).value.sessionId && session == old(session)
      ensures old(isInitialized) ==> V() == old(V()) && store.jar == old(store.jar)
      ensures eventSequenceNumber == old(eventSequenceNumber) && events == old(events)
      ensures registrations == old(registrations) && lastTrackedPage == old(lastTrackedPage)
      ensures downloadCount == old(downloadCount) && stats == old(stats)
      ensures store.local == old(store.local) && store.tab == old(store.tab)
    {
      if isInitialized && Truthy(currentSessionId) {
        return currentSessionId.value;
      }
      sid := InitializeSession(env);
      currentSessionId := Some(sid);
      isInitialized := true;
    }

    /** `trackPageNavigation`: a page view is tracked only on a move from a
        recorded page to a different one; the page is recorded either way. */
    method TrackPageNavigation(newPage: string, env: Env)
      requires Valid() && EnvOk(env)
      modifies this, store
      ensures Valid() && lastTrackedPage == Some(newPage)
      ensures var moved := Truthy(old(lastTrackedPage)) && old(lastTrackedPage).value != newPage;
        && eventSequenceNumber == old(eventSequenceNumber) + (if moved then 1 else 0)
        && (!moved ==> V() == old(V()).(lastTrackedPage := Some(newPage)) && store.jar == old(store.jar) && store.local == old(store.local))
        && (moved ==> isInitialized)
        && (moved && env.up ==> EventIdOf(env) in events && events[EventIdOf(env)].eventType == "page_view"
                                && events[EventIdOf(env)].page == newPage)
    {
      if Truthy(lastTrackedPage) && lastTrackedPage.value != newPage {
        var _ := LazyInitialize(env);
        TrackEvent("page_view", newPage, None, None, env);
      }
      lastTrackedPage := Some(newPage);
    }

    /** `trackFormSubmission`: a button-click event named after the form. */
    method TrackFormSubmission(formType: string, env: Env)
      requires Valid() && EnvOk(env)
      modifies this, store
      ensures Valid() && isInitialized
      ensures eventSequenceNumber == old(eventSequenceNumber) + 1
      ensures env.up ==> EventIdOf(env) in events && events[EventIdOf(env)].eventType == "button_click"
                         && events[EventIdOf(env)].elementId == Some("form_submit_" + formType)
    {
      var _ := LazyInitialize(env);
      TrackEvent("button_click", env.pathname, Some("form_submit_" + formType), None, env);
    }

    /** `trackDownloadAttempt`: count the attempt, then track a download
        event carrying the download type. */
    method TrackDownloadAttempt(fileType: string, env: Env)
      requires Valid() && EnvOk(env)
      modifies this, store
      ensures Valid() && isInitialized
      ensures downloadCount == old(downloadCount) + 1
      ensures eventSequenceNumber == old(eventSequenceNumber) + 1
      ensures env.up ==> "download" in session.value.activity.conversionEvents
    {
      downloadCount := downloadCount + 1;
      var _ := LazyInitialize(env);
      TrackEvent("download", env.pathname, Some("download_" + fileType),
                 Some(Obj([Member("downloadType", Str(fileType))])), env);
    }

    /** `markEmailSubmitted`: read the list, push the lower-cased email and
        write it back; a list that does not parse, or is not an array,
        throws and nothing is written. */
    method MarkEmailSubmitted(email: string) returns (r: Result<(), Exception>)
      requires Valid()
      modifies store
      ensures Valid() && store.jar == old(store.jar) && store.tab == old(store.tab)
      ensures var m := Guard.MarkEmailSubmitted(old(store.local), email);
        && (m.Ok? <==> r.Ok?)
        && (m.Ok? ==> store.local == m.value)
        && (m.Err? ==> r.error == m.error && store.local == old(store.local))
    {
      var p := Guard.Submitted(store.local);
      if p.Err? {
        return Err(p.error);
      }
      if !p.value.Arr? {
        return Err(TypeError);
      }
      store.SetItem(Guard.SUBMITTED_EMAILS_KEY, Ser(Arr(p.value.items + [Str(Lower(email))])));
      return Ok(());
    }

    /** `updateRateLimit`. */
    method UpdateRateLimit(now: nat)
      requires Valid()
      modifies store
      ensures Valid() && store.jar == old(store.jar) && store.tab == old(store.tab)
      ensures store.local == old(store.local)[Guard.RATE_LIMIT_KEY := NatToString(now)]
    {
      store.SetItem(Guard.RATE_LIMIT_KEY, NatToString(now));
    }

    /** A new registration: the session (started if need be), then, when
        Firestore accepts writes, the writes of `WriteRegistration`. */
    method Persist(d: Guard.Form, deviceId: string, env: Env) returns (r: Result<string, Exception>)
      requires Valid() && EnvOk(env)
      requires StoredDevice(store.jar) == Some(deviceId) && deviceId != ""
      modifies this, store
      ensures Valid()
      ensures var regId := deviceId + "_" + NatToString(env.now);
        && (r.Ok? ==> r.value == regId)
        && (!env.up ==> r.Err? && registrations == old(registrations) && store.local == old(store.local))
        && (env.up ==> regId in registrations && registrations[regId].email == d.email
                       && registrations[regId].deviceId == deviceId
                       && StoredEmailOf(store.jar) == Some(CutValue(d.email)))
        && (r.Ok? <==> env.up && (old(session).None? || deviceId in old(devices))
                       && Guard.MarkEmailSubmitted(old(store.local), d.email).Ok?)
        && (r.Ok? ==> var m := Guard.MarkEmailSubmitted(old(store.local), d.email);
                      m.Ok? && store.local == m.value[Guard.RATE_LIMIT_KEY := NatToString(env.now)])
        && (r.Ok? ==> Completed(d.email, deviceId, env))
      ensures StoredDevice(store.jar) == Some(deviceId)
    {
      DeviceIdStable(store.jar, env, env);
      ghost var hadDoc := old(session).None? || deviceId in devices;
      ghost var local0 := store.local;
      var sid := InitializeSession(env);
      assert session.value.deviceId == deviceId;
      assert env.up ==> (deviceId in devices <==> hadDoc);
      assert store.local == local0;
      if !env.up {
        return Err(FirestoreError("unavailable"));
      }
      r := WriteRegistration(d, env);
    }

    /** The writes of a new registration, in source order: the registration
        document, the email cookie, the email on the session and the device
        document (a missing document ends the call with its error), then
        `CompleteRegistration`. */
    method WriteRegistration(d: Guard.Form, env: Env) returns (r: Result<string, Exception>)
      requires Valid() && EnvOk(env) && env.up && session.Some?
      modifies this, store
      ensures Valid()
      ensures var s := old(session).value;
        var regId := s.deviceId + "_" + NatToString(env.now);
        && (r.Ok? ==> r.value == regId)
        && registrations == old(registrations)[regId := Registration(
             s.deviceId, s.sessionId, regId, d.name, d.email, d.occupation, d.useCase, env.pathname,
             old(conversionPath), SecondsSince(old(sessionStartTime), env.now), s.ipAddress, s.ipLocation)]
        && StoredEmailOf(store.jar) == Some(CutValue(d.email)) && StoredDevice(store.jar) == StoredDevice(old(store.jar))
        && (r.Ok? <==> s.deviceId in old(devices) && Guard.MarkEmailSubmitted(old(store.local), d.email).Ok?)
        && (s.deviceId !in old(devices) ==> r == Err(FirestoreError("not-found")) && store.local == old(store.local))
        && (r.Ok? ==> var m := Guard.MarkEmailSubmitted(old(store.local), d.email);
                      m.Ok? && store.local == m.value[Guard.RATE_LIMIT_KEY := NatToString(env.now)])
        && (r.Ok? ==> Completed(d.email, s.deviceId, env))
    {
      var s := session.value;
      var timeToConversion := SecondsSince(sessionStartTime, env.now);
      var regId := s.deviceId + "_" + NatToString(env.now);
      var reg := Registration(s.deviceId, s.sessionId, regId, d.name, d.email, d.occupation, d.useCase, env.pathname,
                              conversionPath, timeToConversion, s.ipAddress, s.ipLocation);
      registrations := registrations[regId := reg];
      EmailCookieWrite(store.jar, d.email);
      CookieNames();
      store.SetCookie(Guard.EMAIL_COOKIE_NAME, d.email);
      session := Some(s.(userEmail := Some(d.email)));
      var upd := UpdateEmail(devices, s.deviceId, d.email);
      if upd.Err? {
        return Err(upd.error);
      }
      devices := upd.value;
      r := CompleteRegistration(d.email, regId, env);
    }

    /** What a registration that ends well leaves besides the registration
        document: the completion event, and the email on the device
        document and on the session. */
    ghost predicate Completed(email: string, deviceId: string, env: Env)
      reads this
    {
      && EventIdOf(env) in events && events[EventIdOf(env)].eventType == "form_complete"
      && deviceId in devices && devices[deviceId].userEmail == Some(email)
      && session.Some? && session.value.userEmail == Some(email)
    }

    /** The last steps of a registration whose documents are written: the
        completion event, then the submitted list (a list that cannot be
        extended ends the call with its error) and the rate-limit stamp. */
    method CompleteRegistration(email: string, regId: string, env: Env) returns (r: Result<string, Exception>)
      requires Valid() && EnvOk(env) && env.up && session.Some?
      modifies this, store
      ensures Valid()
      ensures store.jar == old(store.jar) && registrations == old(registrations)
      ensures EventIdOf(env) in events && events[EventIdOf(env)].eventType == "form_complete"
      ensures session.Some? && session.value.userEmail == old(session).value.userEmail && EmailsKept(old(devices), devices)
      ensures var m := Guard.MarkEmailSubmitted(old(store.local), email);
        && (r.Ok? <==> m.Ok?)
        && (r.Ok? ==> r.value == regId && store.local == m.value[Guard.RATE_LIMIT_KEY := NatToString(env.now)])
        && (r.Err? ==> r.error == m.error && store.local == old(store.local))
    {
      DeviceIdStable(store.jar, env, env);
      TrackEvent("form_complete", env.pathname, Some("registration-form"), None, env);
      var m := MarkEmailSubmitted(email);
      if m.Err? {
        return Err(m.error);
      }
      UpdateRateLimit(env.now);
      return Ok(regId);
    }

    /** `submitUserRegistration`: the checks in source order (see
        `Guard.Screen`), then the writes (see `Attempted`). */
    method SubmitUserRegistration(f: Guard.Form, env: Env) returns (r: Result<string, Exception>)
      requires Valid() && EnvOk(env)
      modifies this, store
      ensures Valid()
      ensures Attempted(Guard.Screen(old(store.local), StoredEmailOf(old(store.jar)), env.now, f),
                        Guard.CleanForm(f).email, old(store.jar), old(V()), old(store.local), env, r)
    {
      Guard.MessagesDistinct();
      ghost var verdict := Guard.Screen(store.local, StoredEmailOf(store.jar), env.now, f);
      var last := store.GetItem(Guard.RATE_LIMIT_KEY);
      if !Guard.CheckRateLimit(last, env.now) {
        assert verdict == Guard.Reject(Error(Guard.RATE_LIMIT_MESSAGE));
        return Err(Error(Guard.RATE_LIMIT_MESSAGE));
      }
      var d := Guard.CleanForm(f);
      if !Guard.ValidateEmail(d.email) {
        assert verdict == Guard.Reject(Error(Guard.INVALID_EMAIL_MESSAGE));
        return Err(Error(Guard.INVALID_EMAIL_MESSAGE));
      }
      var unique := Guard.ValidateUniqueEmail(store.local, d.email);
      if unique.Err? {
        assert verdict == Guard.Reject(unique.error);
        return Err(unique.error);
      }
      assert verdict == Guard.Decide(true, d, Ok(unique.value), StoredEmailOf(store.jar));
      r := RegisterScreened(d, unique.value, env);
    }

    /** What an attempt with verdict `v` on the cleaned address `email`
        leaves behind, given the cookie jar,
        the variables and the local storage before it:
        - a rejected attempt throws its error and changes nothing, except
          that the missing-fields check comes after `validateDeviceId`,
          which writes a device cookie when there is none;
        - a returning user gets the sentinel; only the cookies change: the
          device cookie when there is none, and the email cookie when none
          was stored;
        - a new registration is stored under `<deviceId>_<now>` whenever
          Firestore is up, with the email cookie; the call ends well exactly
          when Firestore is up, the device document exists (or the session
          was just started, which creates it) and the submitted list can be
          extended; and then the list holds the email, the time is stamped,
          the completion event is stored and the email is on the device
          document and the session. */
    ghost predicate Attempted(v: Guard.Verdict, email: string, jar0: seq<Cookie>, v0: Vars, local0: map<string, string>,
                              env: Env, r: Result<string, Exception>)
      reads this, store
    {
      var deviceId := DeviceIdFor(jar0, env);
      && (v.Reject? ==>
            && r == Err(v.error) && V() == v0 && store.local == local0
            && store.jar == (if v.error == Error(Guard.MISSING_FIELDS_MESSAGE) then DeviceJar(jar0, env) else jar0))
      && (v.Returning? ==>
            && r == Ok(Guard.ALREADY_REGISTERED) && V() == v0 && store.local == local0
            && store.jar == (if v.storeEmail then SetJar(DeviceJar(jar0, env), Guard.EMAIL_COOKIE_NAME, email)
                             else DeviceJar(jar0, env)))
      && (v.Proceed? ==>
            var regId := deviceId + "_" + NatToString(env.now);
            && StoredDevice(store.jar) == Some(deviceId)
            && (r.Ok? ==> r.value == regId)
            && (!env.up ==> r.Err? && registrations == v0.registrations && store.local == local0)
            && (env.up ==> regId in registrations && registrations[regId].email == email
                           && registrations[regId].deviceId == deviceId
                           && StoredEmailOf(store.jar) == Some(CutValue(email)))
            && (r.Ok? <==> env.up && (v0.session.None? || deviceId in v0.devices)
                           && Guard.MarkEmailSubmitted(local0, email).Ok?)
            && (r.Ok? ==> store.local == Guard.MarkEmailSubmitted(local0, email).value[Guard.RATE_LIMIT_KEY := NatToString(env.now)]
                          && Completed(email, deviceId, env)))
    }

    /** The rest of `submitUserRegistration` once the email has passed the
        shape and duplicate checks: the device id, the returning-user short
        cut, the required fields and the writes. */
    method RegisterScreened(d: Guard.Form, listed: bool, env: Env) returns (r: Result<string, Exception>)
      requires Valid() && EnvOk(env) && Guard.ValidateEmail(d.email)
      modifies this, store
      ensures Valid()
      ensures Attempted(Guard.Decide(true, d, Ok(listed), StoredEmailOf(old(store.jar))),
                        d.email, old(store.jar), old(V()), old(store.local), env, r)
    {
      Guard.MessagesDistinct();
      DeviceIdStable(store.jar, env, env);
      var deviceId := GetOrCreateDeviceId(env);
      CookieNames();
      var storedEmail := store.ReadCookie(Guard.EMAIL_COOKIE_NAME);
      if listed || Truthy(storedEmail) {
        if !Truthy(storedEmail) {
          EmailCookieWrite(store.jar, d.email);
          store.SetCookie(Guard.EMAIL_COOKIE_NAME, d.email);
        }
        return Ok(Guard.ALREADY_REGISTERED);
      }
      if d.name == "" || d.email == "" || d.occupation == "" {
        return Err(Error(Guard.MISSING_FIELDS_MESSAGE));
      }
      r := Persist(d, deviceId, env);
    }
  }
}
