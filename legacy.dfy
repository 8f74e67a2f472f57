/** The older collector of src/lib/dataCollectionOptimized.ts: the same
    session bookkeeping without device ids or cookies, sessions, events and
    registrations added with generated document ids, a duplicate email that
    throws, and a location lookup that may find nothing. */
module Legacy {
  import opened Wrappers
  import opened Text
  import opened Json
  import opened Browser
  import opened Sessions
  import Guard
  import Geo
  import Device
  import Stats

  // ---------------------------------------------------------------------
  // Documents

  /** `currentSession` of the legacy module. */
  datatype LegacySession = LegacySession(
    sessionId: string, userId: Option<string>, ipLocation: Option<Geo.Location>,
    device: Device.FullDeviceInfo, referrer: string, referrerHost: Option<string>,
    landingPage: string, activity: Activity)

  /** A `page_events` document; the optional parts are stored as given. */
  datatype LegacyEvent = LegacyEvent(
    sessionId: string, eventId: string, eventType: string, page: string,
    elementId: Option<string>, eventData: Option<Value>)

  /** A `user_registrations` document. */
  datatype LegacyRegistration = LegacyRegistration(
    userId: string, sessionId: string, name: string, email: string, occupation: string, useCase: string,
    sourcePage: string, conversionPath: seq<string>, timeToConversion: int, ipLocation: Option<Geo.Location>)

  /** `ipLocation || undefined`, with coordinates that are `undefined` when
      the provider gave none. */
  predicate LocationUndefined(l: Option<Geo.Location>) {
    l.None? || l.value.latitude.None? || l.value.longitude.None?
  }

  /** The fields of each document that may hold `undefined`. */
  predicate SessionUndefined(s: LegacySession) {
    LocationUndefined(s.ipLocation) || s.device.screenResolution.None?
  }

  predicate EventUndefined(e: LegacyEvent) {
    e.elementId.None? || e.eventData.None? || !NoUndefined(e.eventData.value)
  }

  predicate RegistrationUndefined(r: LegacyRegistration) {
    LocationUndefined(r.ipLocation)
  }

  /** A Firestore document id chosen by `addDoc`: twenty letters and digits. */
  predicate IsAutoId(id: string) {
    |id| == 20 && forall i :: 0 <= i < |id| ==> IsAsciiAlnum(id[i])
  }

  predicate LegacyEnvOk(env: Env) {
    EnvOk(env) && IsAutoId(env.autoId)
  }

  /** The session built by `initializeSession`. */
  function NewLegacySession(loc: Option<Geo.Location>, env: Env): (s: LegacySession)
    ensures s.sessionId == SessionIdOf(env) && s.userId.None? && s.ipLocation == loc
    ensures s.activity == NO_ACTIVITY && s.landingPage == env.pathname && s.referrer == ReferrerOf(env)
    ensures s.device.screenResolution.Some? <==> env.screenWidth != 0 && env.screenHeight != 0
  {
    LegacySession(SessionIdOf(env), None, loc, Device.GetFullDeviceInfo(env.userAgent, env.screenWidth, env.screenHeight),
                  ReferrerOf(env), env.referrerHost, env.pathname, NO_ACTIVITY)
  }

  /** What the statistics update reads of the session: the legacy module
      keys countries by country code. */
  function ViewOf(s: LegacySession): (v: Stats.SessionView)
    ensures v.location.Some? <==> s.ipLocation.Some?
    ensures v.location.Some? ==> v.location.value.countryCode == s.ipLocation.value.countryCode
  {
    Stats.SessionView(s.referrer, s.referrerHost,
      if s.ipLocation.Some? then Some(Stats.Place(s.ipLocation.value.country, s.ipLocation.value.countryCode, s.ipLocation.value.city))
      else None,
      s.device.isMobile, s.device.browser)
  }

  // ---------------------------------------------------------------------
  // updateDoc on the sessions collection

  const NOT_FOUND := FirestoreError("not-found")

  /** `updateDoc(doc(SESSIONS, key), { ...activity })`. */
  function SetActivity(sessions: map<string, LegacySession>, key: string, a: Activity): (r: Result<map<string, LegacySession>, Exception>)
    ensures r.Ok? <==> key in sessions
    ensures r.Err? ==> r.error == NOT_FOUND
    ensures r.Ok? ==> r.value.Keys == sessions.Keys && r.value[key].activity == a
                      && r.value[key].sessionId == sessions[key].sessionId
                      && forall k :: k in sessions && k != key ==> r.value[k] == sessions[k]
  {
    if key in sessions then Ok(sessions[key := sessions[key].(activity := a)]) else Err(NOT_FOUND)
  }

  /** `updateDoc(doc(SESSIONS, key), { userId })`. */
  function SetUserId(sessions: map<string, LegacySession>, key: string, userId: string): (r: Result<map<string, LegacySession>, Exception>)
    ensures r.Ok? <==> key in sessions
    ensures r.Err? ==> r.error == NOT_FOUND
    ensures r.Ok? ==> r.value.Keys == sessions.Keys && r.value[key].userId == Some(userId)
                      && r.value[key].sessionId == sessions[key].sessionId
                      && forall k :: k in sessions && k != key ==> r.value[k] == sessions[k]
  {
    if key in sessions then Ok(sessions[key := sessions[key].(userId := Some(userId))]) else Err(NOT_FOUND)
  }

  /** A generated `session_<now>_<rand>` id has an underscore, which no
      document id chosen by `addDoc` has. */
  lemma SessionIdIsNoAutoId(env: Env)
    ensures !IsAutoId(SessionIdOf(env))
  {
    var id := SessionIdOf(env);
    assert id == "session" + "_" + NatToString(env.now) + "_" + env.sessionRand;
    assert id[7] == '_';
  }

  /** As written, both updates address the session document by the
      generated session id, while `addDoc` stored it under a document id
      of its own choosing: every such update finds no document. */
  lemma AsWrittenUpdatesNotFound(sessions: map<string, LegacySession>, env: Env, a: Activity, userId: string)
    requires forall k :: k in sessions ==> IsAutoId(k)
    ensures SessionIdOf(env) !in sessions
    ensures SetActivity(sessions, SessionIdOf(env), a) == Err(NOT_FOUND)
    ensures SetUserId(sessions, SessionIdOf(env), userId) == Err(NOT_FOUND)
  {
    SessionIdIsNoAutoId(env);
  }

  /** The end of `submitUserRegistration` as written, after the
      registration document is stored: the update by session id, whose
      error is rethrown, then the submitted list and the rate-limit stamp.
      The result and the local storage it leaves. The success branch leaves
      out the completion event logged before the list is marked: under the
      `session_` ids the update always fails (AsWrittenUpdatesNotFound), so
      that branch is never taken, and the event would not change the list
      anyway (CompletionKeepsList). */
  function RegistrationTailAsWritten(sessions: map<string, LegacySession>, sessionId: string, userId: string,
                                     local: map<string, string>, email: string, now: nat): (Result<string, Exception>, map<string, string>)
  {
    var u := SetUserId(sessions, sessionId, userId);
    if u.Err? then (Err(u.error), local)
    else
      var m := Guard.MarkEmailSubmitted(local, email);
      if m.Err? then (Err(m.error), local) else (Ok(userId), m.value[Guard.RATE_LIMIT_KEY := NatToString(now)])
  }

  /** So, as written, a registration is stored and the caller still sees an
      error, and neither the submitted list nor the rate-limit stamp is
      written: an address that passed the screen passes it again. */
  lemma AsWrittenRegistrationRepeats(sessions: map<string, LegacySession>, env: Env, local: map<string, string>,
                                     f: Guard.Form, later: int)
    requires forall k :: k in sessions ==> IsAutoId(k)
    requires Guard.ScreenStrict(local, env.now, f).Proceed?
    ensures var (r, after) := RegistrationTailAsWritten(sessions, SessionIdOf(env), UserIdOf(env), local,
                                                        Guard.CleanForm(f).email, env.now);
      && r == Err(NOT_FOUND)
      && Guard.ValidateUniqueEmail(after, Guard.CleanForm(f).email) == Ok(false)
      && Guard.ScreenStrict(after, later, f) == Guard.ScreenStrict(local, later, f)
  {
    AsWrittenUpdatesNotFound(sessions, env, NO_ACTIVITY, UserIdOf(env));
  }

  /** The local storage the completion event leaves: an event that
      Firestore refuses is written to `event_<now>`. */
  function AfterCompletionEvent(local: map<string, string>, accepted: bool, env: Env): map<string, string> {
    if accepted then local
    else local[FallbackKey(env.now) := FallbackText("form_complete", env.pathname, Some("registration-form"), None, env.isoNow)]
  }

  /** The completion event's fallback key is not the submitted list's, so
      the list it leaves is the one that was screened. */
  lemma CompletionKeepsList(local: map<string, string>, accepted: bool, env: Env, email: string)
    ensures Guard.ValidateUniqueEmail(AfterCompletionEvent(local, accepted, env), email) == Guard.ValidateUniqueEmail(local, email)
    ensures Guard.MarkEmailSubmitted(AfterCompletionEvent(local, accepted, env), email).Ok? <==>
            Guard.MarkEmailSubmitted(local, email).Ok?
  {
    var key := FallbackKey(env.now);
    assert key[0] != Guard.SUBMITTED_EMAILS_KEY[0];
    assert Guard.SubmittedText(AfterCompletionEvent(local, accepted, env)) == Guard.SubmittedText(local);
  }

  /** The module of src/lib/dataCollectionOptimized.ts: its variables, the
      browser's local storage, and the Firestore collections it adds to.
      `ignoreUndefined` says whether the Firestore instance was set up to
      drop `undefined` fields rather than refuse the write. */
  class LegacyCollector {
    const store: Storage
    const ignoreUndefined: bool
    var session: Option<LegacySession>
    var sessionStartTime: int
    var conversionPath: seq<string>
    var sessions: map<string, LegacySession>
    var events: seq<LegacyEvent>
    var registrations: seq<LegacyRegistration>
    var stats: Stats.StatsDb

    /** Whether a write of a document that has (or has not) an `undefined`
        field goes through. */
    predicate Accepts(env: Env, hasUndefined: bool) {
      env.up && (ignoreUndefined || !hasUndefined)
    }

    /** The path holds each page once, the session's conversion events are
        distinct conversion events, and every stored session document has
        an id `addDoc` chose. */
    predicate Core()
      reads this
    {
      && NoDup(conversionPath)
      && (session.Some? ==>
            && NoDup(session.value.activity.conversionEvents)
            && (forall e :: e in session.value.activity.conversionEvents ==> e in CONVERSION_EVENTS))
      && (forall k :: k in sessions ==> IsAutoId(k))
    }

    /** `Core`, and the session's own id is a generated one, which names no
        stored document. */
    predicate Valid()
      reads this
    {
      Core() && (session.Some? ==> !IsAutoId(session.value.sessionId))
    }

    constructor(browser: Storage, ignoreUndefined0: bool, now: nat, sessions0: map<string, LegacySession>,
                events0: seq<LegacyEvent>, registrations0: seq<LegacyRegistration>, stats0: Stats.StatsDb)
      requires forall k :: k in sessions0 ==> IsAutoId(k)
      ensures Valid() && store == browser && ignoreUndefined == ignoreUndefined0
      ensures session.None? && sessionStartTime == now && conversionPath == []
      ensures sessions == sessions0 && events == events0 && registrations == registrations0 && stats == stats0
    {
      store, ignoreUndefined := browser, ignoreUndefined0;
      session, sessionStartTime, conversionPath := None, now, [];
      sessions, events, registrations, stats := sessions0, events0, registrations0, stats0;
    }

    /** `initializeSession`: the existing session id when there is a
        session, else a new session (see `StartSession`). */
    method InitializeSession(env: Env) returns (sid: string)
      requires Core() && LegacyEnvOk(env)
      modifies this
      ensures Core() && session.Some? && sid == session.value.sessionId
      ensures old(session).Some? ==>
        && sid == old(session).value.sessionId && session == old(session)
        && sessions == old(sessions) && conversionPath == old(conversionPath) && sessionStartTime == old(sessionStartTime)
      ensures old(session).None? ==> Started(env, old(sessions), old(sessionStartTime)) && Valid()
      ensures events == old(events) && registrations == old(registrations) && stats == old(stats)
    {
      if session.Some? {
        return session.value.sessionId;
      }
      sid := StartSession(env);
    }

    /** The state a new session leaves: the session built from the located
        address, the path restarted at the current page, and, when
        Firestore takes the document, the document stored under the id it
        chose (not the session's own id) and the clock restarted. */
    ghost predicate Started(env: Env, sessions0: map<string, LegacySession>, start0: int)
      requires |env.locationOutcomes| == |Geo.LEGACY_PROVIDERS|
      reads this
    {
      var s := NewLegacySession(Geo.FirstLocation(Geo.LEGACY_PROVIDERS, env.locationOutcomes), env);
      && session == Some(s)
      && conversionPath == [env.pathname]
      && (Accepts(env, SessionUndefined(s)) ==> sessions == sessions0[env.autoId := s] && sessionStartTime == env.now)
      && (!Accepts(env, SessionUndefined(s)) ==> sessions == sessions0 && sessionStartTime == start0)
    }

    method StartSession(env: Env) returns (sid: string)
      requires Core() && LegacyEnvOk(env) && session.None?
      modifies this
      ensures Valid() && session.Some? && sid == session.value.sessionId
      ensures Started(env, old(sessions), old(sessionStartTime))
      ensures events == old(events) && registrations == old(registrations) && stats == old(stats)
    {
      var loc := Geo.GetIPLocationLegacy(env.locationOutcomes);
      var s := NewLegacySession(loc, env);
      SessionIdIsNoAutoId(env);
      session := Some(s);
      conversionPath := [env.pathname];
      if Accepts(env, SessionUndefined(s)) {
        sessions := sessions[env.autoId := s];
        sessionStartTime := env.now;
      }
      sid := s.sessionId;
    }

    /** `updateSessionActivity`: the same steps as the main module, then an
        update of the document named by the session's own id; a failed
        update (Firestore down, or no such document) is swallowed. On a
        `Valid` collector the document is never found (see
        `AsWrittenUpdatesNotFound`), so the stored documents never change. */
    method UpdateSessionActivity(eventType: string, page: string, env: Env)
      requires Core()
      modifies this
      ensures Core()
      ensures old(session).None? ==> session == old(session) && conversionPath == old(conversionPath) && sessions == old(sessions)
      ensures old(session).Some? ==>
        var s := old(session).value;
        var a := Step(s.activity, eventType, SecondsSince(old(sessionStartTime), env.now));
        && session == Some(s.(activity := a))
        && conversionPath == AddOnce(old(conversionPath), page)
        && (env.up && s.sessionId in old(sessions) ==> sessions == SetActivity(old(sessions), s.sessionId, a).value)
        && (!env.up || s.sessionId !in old(sessions) ==> sessions == old(sessions))
      ensures sessions.Keys == old(sessions).Keys && sessionStartTime == old(sessionStartTime)
      ensures events == old(events) && registrations == old(registrations) && stats == old(stats)
    {
      if session.None? {
        return;
      }
      var s := session.value;
      var timeSpent := SecondsSince(sessionStartTime, env.now);
      conversionPath := AddOnce(conversionPath, page);
      var a := Step(s.activity, eventType, timeSpent);
      session := Some(s.(activity := a));
      var u := SetActivity(sessions, s.sessionId, a);
      if env.up && u.Ok? {
        sessions := u.value;
      }
    }

    /** `trackEvent`: the session, then the event document; a refused write
        goes to local storage under `event_<now>`. A stored event is
        followed by the session update and the statistics. On a `Valid`
        collector the only session document ever added is a new session's,
        and none is changed. */
    method TrackEvent(eventType: string, page: string, elementId: Option<string>, eventData: Option<Value>, env: Env)
      requires Core() && LegacyEnvOk(env)
      modifies this, store
      ensures Core() && session.Some?
      ensures old(session).Some? ==> session.value.sessionId == old(session).value.sessionId
      ensures old(session).None? ==> session.value.sessionId == SessionIdOf(env)
      ensures old(Valid()) ==> Valid()
      ensures old(Valid()) && old(session).Some? ==> sessions == old(sessions)
      ensures old(session).Some? && old(session).value.activity.isConverted ==> session.value.activity.isConverted
      ensures registrations == old(registrations) && store.jar == old(store.jar) && store.tab == old(store.tab)
      ensures var ev := LegacyEvent(session.value.sessionId, EventIdOf(env), eventType, page, elementId, eventData);
        && (!Accepts(env, EventUndefined(ev)) ==>
              && events == old(events) && stats == old(stats)
              && store.local == old(store.local)[FallbackKey(env.now) := FallbackText(eventType, page, elementId, eventData, env.isoNow)])
        && (Accepts(env, EventUndefined(ev)) ==>
              && events == old(events) + [ev]
              && store.local == old(store.local)
              && page in conversionPath
              && (eventType in CONVERSION_EVENTS ==> eventType in session.value.activity.conversionEvents)
              && (eventType == "form_complete" ==> session.value.activity.isConverted)
              && stats == Stats.UpdateRealTimeStats(old(stats), Stats.Optimized, Some(ViewOf(session.value)),
                                                    eventType, page, env.today, env.hour))
    {
      var sid := InitializeSession(env);
      StoreEvent(eventType, page, elementId, eventData, env);
    }

    /** `trackEvent` once the session exists. */
    method StoreEvent(eventType: string, page: string, elementId: Option<string>, eventData: Option<Value>, env: Env)
      requires Core() && session.Some?
      modifies this, store
      ensures Core() && session.Some? && session.value.sessionId == old(session).value.sessionId
      ensures session.value.userId == old(session).value.userId && sessions.Keys == old(sessions).Keys
      ensures old(session).value.sessionId !in old(sessions) ==> sessions == old(sessions)
      ensures old(session).value.activity.isConverted ==> session.value.activity.isConverted
      ensures registrations == old(registrations) && store.jar == old(store.jar) && store.tab == old(store.tab)
      ensures var ev := LegacyEvent(session.value.sessionId, EventIdOf(env), eventType, page, elementId, eventData);
        && (!Accepts(env, EventUndefined(ev)) ==>
              && session == old(session) && sessions == old(sessions) && events == old(events) && stats == old(stats)
              && store.local == old(store.local)[FallbackKey(env.now) := FallbackText(eventType, page, elementId, eventData, env.isoNow)])
        && (Accepts(env, EventUndefined(ev)) ==>
              && events == old(events) + [ev]
              && store.local == old(store.local)
              && page in conversionPath
              && (eventType in CONVERSION_EVENTS ==> eventType in session.value.activity.conversionEvents)
              && (eventType == "form_complete" ==> session.value.activity.isConverted)
              && stats == Stats.UpdateRealTimeStats(old(stats), Stats.Optimized, Some(ViewOf(session.value)),
                                                    eventType, page, env.today, env.hour))
    {
      var ev := LegacyEvent(session.value.sessionId, EventIdOf(env), eventType, page, elementId, eventData);
      if !Accepts(env, EventUndefined(ev)) {
        store.SetItem(FallbackKey(env.now), FallbackText(eventType, page, elementId, eventData, env.isoNow));
        return;
      }
      events := events + [ev];
      UpdateSessionActivity(eventType, page, env);
      stats := Stats.UpdateRealTimeStats(stats, Stats.Optimized, Some(ViewOf(session.value)), eventType, page, env.today, env.hour);
    }

    /** `markEmailSubmitted`, which throws on a list it cannot extend. */
    method MarkEmailSubmitted(email: string) returns (r: Result<(), Exception>)
      modifies store
      ensures store.jar == old(store.jar) && store.tab == old(store.tab)
      ensures var m := Guard.MarkEmailSubmitted(old(store.local), email);
        && (m.Ok? <==> r.Ok?)
        && (m.Ok? ==> store.local == m.value)
        && (m.Err? ==> r.error == m.error && store.local == old(store.local))
    {
      var p := Guard.Submitted(store.local);
      if p.Err? {
        return Err(p.error);
      }
      if !p.value.Arr? {
        return Err(TypeError);
      }
      store.SetItem(Guard.SUBMITTED_EMAILS_KEY, Ser(Arr(p.value.items + [Str(Lower(email))])));
      return Ok(());
    }

    /** `submitUserRegistration`: the checks in source order, each failure
        thrown with its own message (see `Guard.ScreenStrict`), then the
        writes of `Persist`. No call ends well. */
    method SubmitUserRegistration(f: Guard.Form, env: Env) returns (r: Result<string, Exception>)
      requires Valid() && LegacyEnvOk(env)
      modifies this, store
      ensures Valid() && r.Err?
      ensures var v := Guard.ScreenStrict(old(store.local), env.now, f);
        && (v.Reject? ==> r == Err(v.error) && registrations == old(registrations) && store.local == old(store.local))
        && (v.Proceed? ==> Registered(v.data, env, old(store.local), old(registrations), r))
    {
      var last := store.GetItem(Guard.RATE_LIMIT_KEY);
      if !Guard.CheckRateLimit(last, env.now) {
        return Err(Error(Guard.RATE_LIMIT_MESSAGE));
      }
      var d := Guard.CleanForm(f);
      if !Guard.ValidateEmail(d.email) {
        return Err(Error(Guard.INVALID_EMAIL_MESSAGE));
      }
      var unique := Guard.ValidateUniqueEmail(store.local, d.email);
      if unique.Err? {
        return Err(unique.error);
      }
      if unique.value {
        return Err(Error(Guard.DUPLICATE_MESSAGE));
      }
      if d.name == "" || d.email == "" || d.occupation == "" {
        return Err(Error(Guard.MISSING_FIELDS_MESSAGE));
      }
      r := Persist(d, env);
    }

    /** What a screened registration leaves: the call always fails and the
        local storage is as it was, so the address is neither marked nor
        stamped. A refused registration write adds nothing; otherwise the
        registration is the last document and the error is the not-found
        of the session update. */
    ghost predicate Registered(d: Guard.Form, env: Env, local0: map<string, string>,
                               registrations0: seq<LegacyRegistration>, r: Result<string, Exception>)
      reads this, store
    {
      && r.Err? && store.local == local0
      && (registrations != registrations0 ==>
            && |registrations| == |registrations0| + 1 && registrations[..|registrations0|] == registrations0
            && registrations[|registrations0|].email == d.email
            && registrations[|registrations0|].userId == UserIdOf(env)
            && r == Err(NOT_FOUND))
    }

    /** The writes of `submitUserRegistration`: the session (started if need
        be), then `WriteRegistration`, whose session update finds no
        document. */
    method Persist(d: Guard.Form, env: Env) returns (r: Result<string, Exception>)
      requires Valid() && LegacyEnvOk(env)
      modifies this, store
      ensures Valid()
      ensures Registered(d, env, old(store.local), old(registrations), r)
    {
      var sid := InitializeSession(env);
      r := WriteRegistration(d, env);
    }

    /** The registration document, then the user id on the session and on
        the document named by the session's own id, whose failure is
        rethrown; then the completion event, the submitted list and the
        rate-limit stamp. */
    method WriteRegistration(d: Guard.Form, env: Env) returns (r: Result<string, Exception>)
      requires Core() && LegacyEnvOk(env) && session.Some?
      modifies this, store
      ensures Core() && session.Some? && session.value.sessionId == old(session).value.sessionId
      ensures sessions.Keys == old(sessions).Keys
      ensures var s := old(session).value;
        && (registrations == old(registrations) ==> r.Err? && store.local == old(store.local))
        && (registrations != old(registrations) ==>
              && registrations == old(registrations) + [LegacyRegistration(
                   UserIdOf(env), s.sessionId, d.name, d.email, d.occupation, d.useCase, env.pathname,
                   old(conversionPath), SecondsSince(old(sessionStartTime), env.now), s.ipLocation)]
              && session.value.userId == Some(UserIdOf(env)))
        && (registrations != old(registrations) && s.sessionId !in old(sessions) ==>
              r == Err(NOT_FOUND) && store.local == old(store.local))
        && (r.Ok? ==>
              && registrations != old(registrations) && s.sessionId in old(sessions)
              && r.value == UserIdOf(env)
              && var m := Guard.MarkEmailSubmitted(AfterCompletionEvent(old(store.local), Accepts(env, true), env), d.email);
                 m.Ok? && store.local == m.value[Guard.RATE_LIMIT_KEY := NatToString(env.now)])
    {
      var s := session.value;
      var userId := UserIdOf(env);
      var timeToConversion := SecondsSince(sessionStartTime, env.now);
      var reg := LegacyRegistration(userId, s.sessionId, d.name, d.email, d.occupation, d.useCase, env.pathname,
                                    conversionPath, timeToConversion, s.ipLocation);
      if !Accepts(env, RegistrationUndefined(reg)) {
        return Err(FirestoreError(if env.up then "invalid-argument" else "unavailable"));
      }
      registrations := registrations + [reg];
      session := Some(s.(userId := Some(userId)));
      var u := SetUserId(sessions, s.sessionId, userId);
      if u.Err? {
        return Err(u.error);
      }
      sessions := u.value;
      r := CompleteRegistration(d.email, userId, env);
    }

    /** `trackFormComplete` (whose `trackEvent` finds the session in
        place), `markEmailSubmitted` and `updateRateLimit`. */
    method CompleteRegistration(email: string, userId: string, env: Env) returns (r: Result<string, Exception>)
      requires Core() && LegacyEnvOk(env) && env.up && session.Some?
      modifies this, store
      ensures Core() && registrations == old(registrations)
      ensures session.Some? && session.value.sessionId == old(session).value.sessionId
      ensures session.value.userId == old(session).value.userId && sessions.Keys == old(sessions).Keys
      ensures var m := Guard.MarkEmailSubmitted(AfterCompletionEvent(old(store.local), Accepts(env, true), env), email);
        && (r.Ok? <==> m.Ok?)
        && (r.Ok? ==> r.value == userId && store.local == m.value[Guard.RATE_LIMIT_KEY := NatToString(env.now)])
        && (r.Err? ==> r.error == m.error)
    {
      StoreEvent("form_complete", env.pathname, Some("registration-form"), None, env);
      assert store.local == AfterCompletionEvent(old(store.local), Accepts(env, true), env);
      var m := MarkEmailSubmitted(email);
      if m.Err? {
        return Err(m.error);
      }
      store.SetItem(Guard.RATE_LIMIT_KEY, NatToString(env.now));
      return Ok(userId);
    }
  }

  /** With the correction, a registration that ends well shuts out its
      address: the same form is now refused as a duplicate or by the rate
      limit, whenever it comes back. */
  lemma CorrectedRegistrationShutsOut(local0: map<string, string>, accepted: bool, env: Env, f: Guard.Form, later: int)
    requires Guard.MarkEmailSubmitted(AfterCompletionEvent(local0, accepted, env), Guard.CleanForm(f).email).Ok?
    ensures var after := Guard.MarkEmailSubmitted(AfterCompletionEvent(local0, accepted, env), Guard.CleanForm(f).email)
                           .value[Guard.RATE_LIMIT_KEY := NatToString(env.now)];
      && Guard.ValidateUniqueEmail(after, Guard.CleanForm(f).email) == Ok(true)
      && !Guard.ScreenStrict(after, later, f).Proceed?
  {
    Guard.RegisteredThenDuplicate(AfterCompletionEvent(local0, accepted, env), Guard.CleanForm(f).email, env.now, later);
  }
}
