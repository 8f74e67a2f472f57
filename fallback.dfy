/** The local stand-in of src/lib/dataCollectionFallback.ts: an analytics
    log kept in local storage and cut to its last hundred entries, a tab
    session id, early-access signups appended to a stored list, and the
    scroll and time trackers a page installs. */
module Fallback {
  import opened Wrappers
  import opened Text
  import opened Json
  import opened Browser
  import opened Sessions
  import Guard

  const EARLY_ACCESS_KEY := "early_access_signups"
  const PAGE_ANALYTICS_KEY := "page_analytics"
  const SESSION_ID_KEY := "analytics_session_id"
  /** The log keeps this many of its latest entries. */
  const MAX_LOG := 100

  // ---------------------------------------------------------------------
  // The bounded log

  /** The last `n` elements of `s`, in order (`splice(0, length - n)`). */
  function KeepLast<T>(s: seq<T>, n: nat): (r: seq<T>)
    ensures |r| == if |s| <= n then |s| else n
    ensures r == s[|s| - |r|..]
  {
    if |s| > n then s[|s| - n..] else s
  }

  /** Cutting before each append keeps the same entries as cutting once at
      the end: the log is always the latest entries of everything ever
      appended. */
  lemma KeepLastAppend<T>(s: seq<T>, x: T, n: nat)
    requires n > 0
    ensures KeepLast(KeepLast(s, n) + [x], n) == KeepLast(s + [x], n)
  {
    var k := KeepLast(s, n);
    if |s| > n {
      assert k + [x] == (s + [x])[|s| - n..];
      assert (k + [x])[1..] == (s + [x])[|s| + 1 - n..];
    }
  }

  /** A log fed one entry at a time. */
  function Feed(log: seq<Value>, xs: seq<Value>): seq<Value>
    decreases |xs|
  {
    if xs == [] then log else Feed(KeepLast(log + [xs[0]], MAX_LOG), xs[1..])
  }

  /** Whatever the order of arrivals, the log holds the latest hundred
      entries of all it was given, oldest first. */
  lemma {:induction false} FeedKeepsLatest(log: seq<Value>, xs: seq<Value>)
    requires |log| <= MAX_LOG
    ensures Feed(log, xs) == KeepLast(log + xs, MAX_LOG)
    decreases |xs|
  {
    if xs != [] {
      var next := KeepLast(log + [xs[0]], MAX_LOG);
      FeedKeepsLatest(next, xs[1..]);
      // Feed(log, xs) == KeepLast(next + xs[1..])
      KeepLastApp(log + [xs[0]], xs[1..]);
      assert log + [xs[0]] + xs[1..] == log + xs;
    }
  }

  /** Cutting a prefix away first keeps the same suffix. */
  lemma KeepLastApp(s: seq<Value>, t: seq<Value>)
    ensures KeepLast(KeepLast(s, MAX_LOG) + t, MAX_LOG) == KeepLast(s + t, MAX_LOG)
  {
    var k := KeepLast(s, MAX_LOG);
    if |s| > MAX_LOG {
      var d := |s| - MAX_LOG;
      assert k + t == (s + t)[d..];
      var a := KeepLast(k + t, MAX_LOG);
      var b := KeepLast(s + t, MAX_LOG);
      assert |a| == |b|;
      assert forall i :: 0 <= i < |a| ==> a[i] == b[i];
    }
  }

  /** No entry holds `undefined`: what `JSON.parse` can produce. */
  predicate Defined(items: seq<Value>) {
    forall i :: 0 <= i < |items| ==> NoUndefined(items[i])
  }

  /** The stored log as `trackAnalytics` reads it: no text (or an empty
      one) is an empty list, and parsing failures and non-array values are
      the errors `JSON.parse` and `push` throw. */
  function ReadList(local: map<string, string>, key: string): (r: Result<seq<Value>, Exception>)
    ensures r.Err? ==> r.error == SyntaxError || r.error == TypeError
    ensures !Truthy(Get(local, key)) ==> r == Ok([])
    ensures r.Ok? ==> Defined(r.value)
  {
    var existing := Get(local, key);
    var p := if Truthy(existing) then Parse(existing.value) else Ok(Arr([]));
    if p.Err? then Err(p.error)
    else if !p.value.Arr? then Err(TypeError)
    else Ok(p.value.items)
  }

  /** A list stored by `JSON.stringify` is read back as it was. */
  lemma ReadWritten(local: map<string, string>, key: string, items: seq<Value>)
    requires Defined(items)
    ensures ReadList(local[key := Ser(Arr(items))], key) == Ok(items)
  {
    ParseStringifyDefined(Arr(items));
    assert Ser(Arr(items))[0] == '[';
  }

  /** Writing one key leaves a list under another key as it reads. */
  lemma ReadOther(local: map<string, string>, k: string, v: string, key: string)
    requires k != key
    ensures ReadList(local[k := v], key) == ReadList(local, key)
  {
    assert Get(local[k := v], key) == Get(local, key);
  }

  /** The last entries of a defined log with a defined record appended
      are defined. */
  lemma KeepDefined(before: seq<Value>, record: Value)
    requires Defined(before) && NoUndefined(record)
    ensures Defined(KeepLast(before + [record], MAX_LOG))
  {
    var items := KeepLast(before + [record], MAX_LOG);
    forall i | 0 <= i < |items| ensures NoUndefined(items[i]) {
      assert items[i] == (before + [record])[|before| + 1 - |items| + i];
    }
  }

  // ---------------------------------------------------------------------
  // trackAnalytics

  /** The fields a caller passes to `trackAnalytics`; absent ones are not
      in the object at all. */
  datatype Analytics = Analytics(
    eventType: string, page: string, elementId: Option<string>,
    scrollDepth: Option<int>, timeOnPage: Option<int>, additionalData: Option<Value>)

  function Field(key: string, v: Option<Value>): seq<Member> {
    if v.Some? then [Member(key, v.value)] else []
  }

  function NumOpt(n: Option<int>): Option<Value> {
    if n.Some? then Some(Num(n.value)) else None
  }

  function StrOpt(s: Option<string>): Option<Value> {
    if s.Some? then Some(Str(s.value)) else None
  }

  /** `{...data, timestamp, sessionId, userAgent, referrer}`. */
  function AnalyticsRecord(a: Analytics, sessionId: string, env: Env): (v: Value)
    ensures v.Obj? && |v.fields| >= 6
    ensures (a.additionalData.None? || NoUndefined(a.additionalData.value)) ==> NoUndefined(v)
  {
    var fields := [Member("eventType", Str(a.eventType)), Member("page", Str(a.page))]
      + Field("elementId", StrOpt(a.elementId)) + Field("scrollDepth", NumOpt(a.scrollDepth))
      + Field("timeOnPage", NumOpt(a.timeOnPage)) + Field("additionalData", a.additionalData)
      + [Member("timestamp", Str(env.isoNow)), Member("sessionId", Str(sessionId)),
         Member("userAgent", Str(env.userAgent)), Member("referrer", Str(ReferrerOf(env)))];
    Obj(fields)
  }

  /** The local storage `trackAnalytics` leaves, or what it throws. */
  function LogUpdate(local: map<string, string>, record: Value): (r: Result<map<string, string>, Exception>)
    ensures r.Ok? <==> ReadList(local, PAGE_ANALYTICS_KEY).Ok?
    ensures r.Ok? ==> r.value.Keys == local.Keys + {PAGE_ANALYTICS_KEY}
                      && forall k :: k in local && k != PAGE_ANALYTICS_KEY ==> r.value[k] == local[k]
  {
    var l := ReadList(local, PAGE_ANALYTICS_KEY);
    if l.Err? then Err(l.error)
    else Ok(local[PAGE_ANALYTICS_KEY := Ser(Arr(KeepLast(l.value + [record], MAX_LOG)))])
  }

  /** After an append the log holds at most a hundred entries: the latest
      ones, in order, ending with the new record. */
  lemma LogBounded(local: map<string, string>, record: Value)
    requires NoUndefined(record) && LogUpdate(local, record).Ok?
    ensures var before := ReadList(local, PAGE_ANALYTICS_KEY).value;
      var after := ReadList(LogUpdate(local, record).value, PAGE_ANALYTICS_KEY);
      && after == Ok(KeepLast(before + [record], MAX_LOG))
      && |after.value| == (if |before| < MAX_LOG then |before| + 1 else MAX_LOG)
      && after.value[|after.value| - 1] == record
  {
    var before := ReadList(local, PAGE_ANALYTICS_KEY).value;
    var items := KeepLast(before + [record], MAX_LOG);
    assert LogUpdate(local, record).value == local[PAGE_ANALYTICS_KEY := Ser(Arr(items))];
    KeepDefined(before, record);
    ReadWritten(local, PAGE_ANALYTICS_KEY, items);
  }

  /** `getSessionId` as a function of the tab storage: the stored id when
      there is a non-empty one, else the new id. */
  function TabSessionId(tab: map<string, string>, env: Env): (id: string)
    ensures id != ""
    ensures Truthy(Get(tab, SESSION_ID_KEY)) ==> id == tab[SESSION_ID_KEY]
  {
    if Truthy(Get(tab, SESSION_ID_KEY)) then tab[SESSION_ID_KEY] else SessionIdOf(env)
  }

  /** `getSessionId`: the tab's stored id, or a new one stored before it is
      returned. */
  method GetSessionId(store: Storage, env: Env) returns (id: string)
    modifies store
    ensures id == TabSessionId(old(store.tab), env)
    ensures Truthy(Get(old(store.tab), SESSION_ID_KEY)) ==> store.tab == old(store.tab)
    ensures !Truthy(Get(old(store.tab), SESSION_ID_KEY)) ==> store.tab == old(store.tab)[SESSION_ID_KEY := id]
    ensures store.local == old(store.local) && store.jar == old(store.jar)
  {
    var stored := Get(store.tab, SESSION_ID_KEY);
    if Truthy(stored) {
      return stored.value;
    }
    id := SessionIdOf(env);
    store.SetTabItem(SESSION_ID_KEY, id);
  }

  /** The id is stable: once a call has answered, every later call in the
      tab, at any time, answers the same. */
  method SessionIdStable(store: Storage, env: Env, later: Env) returns (first: string, second: string)
    modifies store
    ensures first == second && first != ""
    ensures Get(store.tab, SESSION_ID_KEY) == Some(first)
  {
    first := GetSessionId(store, env);
    second := GetSessionId(store, later);
  }

  /** `trackAnalytics`: the record carries the tab session id (created
      first, even when the log turns out unreadable); it is appended to the
      stored log and the log cut to its last hundred entries. */
  method TrackAnalytics(store: Storage, a: Analytics, env: Env) returns (r: Result<(), Exception>)
    modifies store
    ensures store.tab == (if Truthy(Get(old(store.tab), SESSION_ID_KEY)) then old(store.tab)
                          else old(store.tab)[SESSION_ID_KEY := SessionIdOf(env)])
    ensures store.jar == old(store.jar)
    ensures var u := LogUpdate(old(store.local), AnalyticsRecord(a, TabSessionId(old(store.tab), env), env));
      && (r.Ok? <==> u.Ok?)
      && (u.Ok? ==> store.local == u.value)
      && (u.Err? ==> r.error == u.error && store.local == old(store.local))
  {
    var sessionId := GetSessionId(store, env);
    var record := AnalyticsRecord(a, sessionId, env);
    var existing := store.GetItem(PAGE_ANALYTICS_KEY);
    var analytics: seq<Value> := [];
    if Truthy(existing) {
      var p := Parse(existing.value);
      if p.Err? {
        return Err(p.error);
      }
      if !p.value.Arr? {
        return Err(TypeError);
      }
      analytics := p.value.items;
    }
    analytics := analytics + [record];
    if |analytics| > MAX_LOG {
      analytics := analytics[|analytics| - MAX_LOG..];
    }
    store.SetItem(PAGE_ANALYTICS_KEY, Ser(Arr(analytics)));
    return Ok(());
  }

  // ---------------------------------------------------------------------
  // submitEarlyAccessSignup

  function SignupIdOf(env: Env): string { GeneratedId("signup", env.now, env.userRand) }

  /** `{ id, ...formData, timestamp, sourcePage, userAgent, referrer }`. */
  function SignupRecord(id: string, f: Guard.Form, env: Env): (v: Value)
    ensures NoUndefined(v) && v.Obj? && |v.fields| == 9 && v.fields[0] == Member("id", Str(id))
  {
    Obj([Member("id", Str(id)), Member("name", Str(f.name)), Member("email", Str(f.email)),
         Member("occupation", Str(f.occupation)), Member("useCase", Str(f.useCase)),
         Member("timestamp", Str(env.isoNow)), Member("sourcePage", Str(env.pathname)),
         Member("userAgent", Str(env.userAgent)), Member("referrer", Str(ReferrerOf(env)))])
  }

  /** The analytics event of a completed signup. */
  function SignupEvent(f: Guard.Form, env: Env): Analytics {
    Analytics("form_complete", env.pathname, Some("early-access-form"), None, None,
              Some(Obj([Member("occupation", Str(f.occupation)), Member("hasUseCase", Bool(f.useCase != ""))])))
  }

  /** `submitEarlyAccessSignup`: the signup is appended to the stored list
      (an unreadable list throws and nothing is written), then the
      completion is logged with the tab session id (created if need be);
      the id is returned exactly when the log can be read, and then the log
      ends with the completion record. */
  method SubmitEarlyAccessSignup(store: Storage, f: Guard.Form, env: Env) returns (r: Result<string, Exception>)
    modifies store
    ensures store.jar == old(store.jar)
    ensures var l := ReadList(old(store.local), EARLY_ACCESS_KEY);
      && (l.Err? ==> r == Err(l.error) && store.local == old(store.local) && store.tab == old(store.tab))
      && (l.Ok? ==>
            && ReadList(store.local, EARLY_ACCESS_KEY) == Ok(l.value + [SignupRecord(SignupIdOf(env), f, env)])
            && store.tab == (if Truthy(Get(old(store.tab), SESSION_ID_KEY)) then old(store.tab)
                             else old(store.tab)[SESSION_ID_KEY := SessionIdOf(env)]))
    ensures var l := ReadList(old(store.local), EARLY_ACCESS_KEY);
      var g := ReadList(old(store.local), PAGE_ANALYTICS_KEY);
      var record := AnalyticsRecord(SignupEvent(f, env), TabSessionId(old(store.tab), env), env);
      l.Ok? ==>
        && (r.Ok? <==> g.Ok?)
        && (r.Ok? ==> r.value == SignupIdOf(env)
                      && ReadList(store.local, PAGE_ANALYTICS_KEY) == Ok(KeepLast(g.value + [record], MAX_LOG)))
        && (r.Err? ==> r.error == g.error && ReadList(store.local, PAGE_ANALYTICS_KEY) == g)
  {
    r := AppendSignup(store, f, env);
    if r.Err? {
      return;
    }
    ghost var local1 := store.local;
    ghost var record := AnalyticsRecord(SignupEvent(f, env), TabSessionId(old(store.tab), env), env);
    var t := TrackAnalytics(store, SignupEvent(f, env), env);
    assert PAGE_ANALYTICS_KEY[0] != EARLY_ACCESS_KEY[0];
    if t.Ok? {
      ReadOther(local1, PAGE_ANALYTICS_KEY, store.local[PAGE_ANALYTICS_KEY], EARLY_ACCESS_KEY);
      assert store.local == local1[PAGE_ANALYTICS_KEY := store.local[PAGE_ANALYTICS_KEY]];
      assert NoUndefined(SignupEvent(f, env).additionalData.value);
      LogBounded(local1, record);
    } else {
      r := Err(t.error);
    }
  }

  /** The stored signup list with the new signup appended. */
  method AppendSignup(store: Storage, f: Guard.Form, env: Env) returns (r: Result<string, Exception>)
    modifies store
    ensures store.jar == old(store.jar) && store.tab == old(store.tab)
    ensures ReadList(store.local, PAGE_ANALYTICS_KEY) == ReadList(old(store.local), PAGE_ANALYTICS_KEY)
    ensures var l := ReadList(old(store.local), EARLY_ACCESS_KEY);
      && (l.Err? ==> r == Err(l.error) && store.local == old(store.local))
      && (l.Ok? ==>
            && r == Ok(SignupIdOf(env))
            && ReadList(store.local, EARLY_ACCESS_KEY) == Ok(l.value + [SignupRecord(SignupIdOf(env), f, env)]))
  {
    var existing := store.GetItem(EARLY_ACCESS_KEY);
    var signups: seq<Value> := [];
    if Truthy(existing) {
      var p := Parse(existing.value);
      if p.Err? {
        return Err(p.error);
      }
      if !p.value.Arr? {
        return Err(TypeError);
      }
      signups := p.value.items;
    }
    var signupId := SignupIdOf(env);
    ghost var before := signups;
    signups := signups + [SignupRecord(signupId, f, env)];
    assert Defined(signups) by {
      KeepDefined(before, SignupRecord(signupId, f, env));
    }
    store.SetItem(EARLY_ACCESS_KEY, Ser(Arr(signups)));
    ReadWritten(old(store.local), EARLY_ACCESS_KEY, signups);
    return Ok(signupId);
  }

  // ---------------------------------------------------------------------
  // initScrollTracking

  const THRESHOLDS: seq<int> := [25, 50, 75, 90, 100]

  /** The thresholds a scroll to `percent` fires when the deepest scroll so
      far was `max`, in the order the handler visits them. */
  function Crossed(ts: seq<int>, max: int, percent: int): (r: seq<int>)
    ensures forall t :: t in r <==> t in ts && max < t <= percent
  {
    if ts == [] then []
    else (if max < ts[0] <= percent then [ts[0]] else []) + Crossed(ts[1..], max, percent)
  }

  /** The scroll depth events of the fired thresholds, in order. */
  function ScrollEvents(ts: seq<int>, page: string): (r: seq<Analytics>)
    ensures |r| == |ts|
    ensures forall i :: 0 <= i < |ts| ==> r[i] == Analytics("scroll_depth", page, None, Some(ts[i]), None, None)
  {
    if ts == [] then [] else [Analytics("scroll_depth", page, None, Some(ts[0]), None, None)] + ScrollEvents(ts[1..], page)
  }

  /** The scroll handler of `initScrollTracking` and the two variables it
      closes over. The `trackScrollDepth` calls are handed back in order:
      each runs the whole of `trackAnalytics` (see `TrackAnalytics`)
      before the next. */
  class ScrollTracker {
    const page: string
    var maxScrollDepth: int
    var tracked: set<int>

    /** A threshold has fired exactly when the deepest scroll reached it. */
    predicate Valid()
      reads this
    {
      tracked == set t | t in THRESHOLDS && t <= maxScrollDepth
    }

    constructor(page0: string)
      ensures Valid() && page == page0 && maxScrollDepth == 0 && tracked == {}
    {
      page, maxScrollDepth, tracked := page0, 0, {};
    }

    /** `handleScroll` at a rounded scroll percentage. */
    method HandleScroll(percent: int) returns (fired: seq<Analytics>)
      requires Valid()
      modifies this
      ensures Valid()
      ensures percent <= old(maxScrollDepth) ==> fired == [] && maxScrollDepth == old(maxScrollDepth) && tracked == old(tracked)
      ensures percent > old(maxScrollDepth) ==>
        && maxScrollDepth == percent
        && fired == ScrollEvents(Crossed(THRESHOLDS, old(maxScrollDepth), percent), page)
        && tracked == old(tracked) + set t | t in Crossed(THRESHOLDS, old(maxScrollDepth), percent)
    {
      fired := [];
      if percent <= maxScrollDepth {
        return;
      }
      ghost var max0 := maxScrollDepth;
      maxScrollDepth := percent;
      var i := 0;
      while i < |THRESHOLDS|
        invariant 0 <= i <= |THRESHOLDS| && maxScrollDepth == percent
        invariant fired == ScrollEvents(Crossed(THRESHOLDS[..i], max0, percent), page)
        invariant forall t :: t in tracked <==> t in old(tracked) || t in Crossed(THRESHOLDS[..i], max0, percent)
      {
        var threshold := THRESHOLDS[i];
        CrossedStep(THRESHOLDS, i, max0, percent);
        StepFires(old(tracked), tracked, max0, percent, i);
        if percent >= threshold && threshold !in tracked {
          tracked := tracked + {threshold};
          fired := fired + ScrollEvents([threshold], page);
          ScrollEventsAppend(Crossed(THRESHOLDS[..i], max0, percent), [threshold], page);
        }
        i := i + 1;
      }
      assert THRESHOLDS[..i] == THRESHOLDS;
      TrackedAfter(old(tracked), tracked, max0, percent);
    }
  }

  /** The thresholds tracked after a deeper scroll: those reached before
      and those just crossed, which are all those reached now. */
  lemma TrackedAfter(tr0: set<int>, tr: set<int>, max0: int, percent: int)
    requires tr0 == set t | t in THRESHOLDS && t <= max0
    requires forall t :: t in tr <==> t in tr0 || t in Crossed(THRESHOLDS, max0, percent)
    requires max0 < percent
    ensures tr == set t | t in THRESHOLDS && t <= percent
    ensures tr == tr0 + set t | t in Crossed(THRESHOLDS, max0, percent)
  {
  }

  /** The handler's test at the i-th threshold picks exactly those the
      scroll has just crossed. */
  lemma StepFires(tr0: set<int>, tr: set<int>, max0: int, percent: int, i: nat)
    requires i < |THRESHOLDS| && max0 < percent
    requires tr0 == set t | t in THRESHOLDS && t <= max0
    requires forall t :: t in tr <==> t in tr0 || t in Crossed(THRESHOLDS[..i], max0, percent)
    ensures (percent >= THRESHOLDS[i] && THRESHOLDS[i] !in tr) <==> max0 < THRESHOLDS[i] <= percent
  {
    ThresholdFresh(i);
  }

  /** The thresholds increase, so none repeats an earlier one. */
  lemma ThresholdFresh(i: nat)
    requires i < |THRESHOLDS|
    ensures THRESHOLDS[i] !in THRESHOLDS[..i]
  {
    assert forall j :: 0 <= j < i ==> THRESHOLDS[j] < THRESHOLDS[i];
  }

  lemma CrossedStep(ts: seq<int>, i: nat, max: int, percent: int)
    requires i < |ts|
    ensures Crossed(ts[..i + 1], max, percent)
          == Crossed(ts[..i], max, percent) + (if max < ts[i] <= percent then [ts[i]] else [])
  {
    CrossedAppend(ts[..i], [ts[i]], max, percent);
    assert ts[..i] + [ts[i]] == ts[..i + 1];
  }

  lemma {:induction false} CrossedAppend(a: seq<int>, b: seq<int>, max: int, percent: int)
    ensures Crossed(a + b, max, percent) == Crossed(a, max, percent) + Crossed(b, max, percent)
    decreases |a|
  {
    if a != [] {
      CrossedAppend(a[1..], b, max, percent);
      assert (a + b)[1..] == a[1..] + b;
    } else {
      assert a + b == b;
    }
  }

  lemma {:induction false} ScrollEventsAppend(a: seq<int>, b: seq<int>, page: string)
    ensures ScrollEvents(a + b, page) == ScrollEvents(a, page) + ScrollEvents(b, page)
  {
    var l, r := ScrollEvents(a + b, page), ScrollEvents(a, page) + ScrollEvents(b, page);
    assert |l| == |r|;
    forall i | 0 <= i < |l| ensures l[i] == r[i] {
      if i < |a| { assert (a + b)[i] == a[i]; } else { assert (a + b)[i] == b[i - |a|]; }
    }
  }

  // ---------------------------------------------------------------------
  // initTimeTracking

  /** `Math.round(ms / 1000)`: halves round up. */
  function RoundSeconds(ms: int): (s: int)
    ensures 1000 * s - 500 <= ms < 1000 * s + 500
  {
    (ms + 500) / 1000
  }

  /** The time tracker of `initTimeTracking` and the two variables it
      closes over. Each recording runs `trackAnalytics`. */
  class TimeTracker {
    const store: Storage
    const page: string
    const startTime: int
    var isActive: bool

    constructor(browser: Storage, page0: string, now: int)
      ensures store == browser && page == page0 && startTime == now && isActive
    {
      store, page, startTime, isActive := browser, page0, now, true;
    }

    /** The event `trackTime` records at `now`, if any: only an active page
        with more than five seconds spent records. */
    function TimeEvent(now: int): (e: Option<Analytics>)
      reads this
      ensures e.Some? <==> isActive && RoundSeconds(now - startTime) > 5
      ensures e.Some? ==> e.value.eventType == "time_on_page" && e.value.page == page
                          && e.value.timeOnPage == Some(RoundSeconds(now - startTime))
    {
      var timeSpent := RoundSeconds(now - startTime);
      if isActive && timeSpent > 5 then Some(Analytics("time_on_page", page, None, None, Some(timeSpent), None)) else None
    }

    /** The storage after `trackTime` ran with event `e` on local storage
        `local0` and tab storage `tab0`: without an event nothing changes;
        with one, the tab gets its session id if it had none, and the
        record goes to the log, or the log's error is returned and local
        storage is left as it was. */
    ghost predicate Logged(e: Option<Analytics>, local0: map<string, string>, tab0: map<string, string>,
                           env: Env, logged: Option<Result<(), Exception>>)
      reads store
    {
      && (e.None? ==> logged.None? && store.local == local0 && store.tab == tab0)
      && (e.Some? ==>
            && logged.Some?
            && store.tab == (if Truthy(Get(tab0, SESSION_ID_KEY)) then tab0 else tab0[SESSION_ID_KEY := SessionIdOf(env)])
            && var u := LogUpdate(local0, AnalyticsRecord(e.value, TabSessionId(tab0, env), env));
               && (logged.value.Ok? <==> u.Ok?)
               && (u.Ok? ==> store.local == u.value)
               && (u.Err? ==> logged.value.error == u.error && store.local == local0))
    }

    /** `trackTime`: the event, when there is one, goes to the log. */
    method TrackTime(env: Env) returns (logged: Option<Result<(), Exception>>)
      modifies store
      ensures logged.Some? <==> TimeEvent(env.now).Some?
      ensures Logged(TimeEvent(env.now), old(store.local), old(store.tab), env, logged)
      ensures store.jar == old(store.jar)
    {
      var e := TimeEvent(env.now);
      if e.None? {
        return None;
      }
      var r := TrackAnalytics(store, e.value, env);
      return Some(r);
    }

    /** `handleVisibilityChange` as written: the page is marked inactive
        before `trackTime` runs, so hiding it records nothing. */
    method HandleVisibilityChangeAsWritten(hidden: bool, env: Env) returns (logged: Option<Result<(), Exception>>)
      modifies this, store
      ensures isActive == !hidden
      ensures logged.None? && store.local == old(store.local) && store.tab == old(store.tab)
      ensures store.jar == old(store.jar)
    {
      logged := None;
      if hidden {
        isActive := false;
        logged := TrackTime(env);
      } else {
        isActive := true;
      }
    }

    /** The cleanup function as written: the same order. */
    method CleanupAsWritten(env: Env) returns (logged: Option<Result<(), Exception>>)
      modifies this, store
      ensures !isActive && logged.None? && store.local == old(store.local) && store.tab == old(store.tab)
      ensures store.jar == old(store.jar)
    {
      isActive := false;
      logged := TrackTime(env);
    }

    /** `handleVisibilityChange` with the time taken before the page is
        marked inactive: hiding an active page after more than five seconds
        logs the time. */
    method HandleVisibilityChange(hidden: bool, env: Env) returns (logged: Option<Result<(), Exception>>)
      modifies this, store
      ensures isActive == !hidden
      ensures hidden ==> (logged.Some? <==> old(isActive) && RoundSeconds(env.now - startTime) > 5)
      ensures hidden ==> Logged(old(TimeEvent(env.now)), old(store.local), old(store.tab), env, logged)
      ensures !hidden ==> logged.None? && store.local == old(store.local) && store.tab == old(store.tab)
      ensures store.jar == old(store.jar)
    {
      logged := None;
      if hidden {
        logged := TrackTime(env);
        isActive := false;
      } else {
        isActive := true;
      }
    }

    /** `handleBeforeUnload`. */
    method HandleBeforeUnload(env: Env) returns (logged: Option<Result<(), Exception>>)
      modifies store
      ensures logged.Some? <==> isActive && RoundSeconds(env.now - startTime) > 5
      ensures Logged(TimeEvent(env.now), old(store.local), old(store.tab), env, logged)
      ensures store.jar == old(store.jar)
    {
      logged := TrackTime(env);
    }

    /** The cleanup function with the time taken first. */
    method Cleanup(env: Env) returns (logged: Option<Result<(), Exception>>)
      modifies this, store
      ensures !isActive
      ensures logged.Some? <==> old(isActive) && RoundSeconds(env.now - startTime) > 5
      ensures Logged(old(TimeEvent(env.now)), old(store.local), old(store.tab), env, logged)
      ensures store.jar == old(store.jar)
    {
      logged := TrackTime(env);
      isActive := false;
    }
  }

  /** As written, hiding the page never logs the time spent, however long
      it was: here after a minute on an active page. */
  method HiddenPageAsWritten(store: Storage, env: Env) returns (asWritten: Option<Result<(), Exception>>, corrected: Option<Result<(), Exception>>)
    requires env.now == 60000
    modifies store
    ensures asWritten.None? && corrected.Some?
  {
    var t := new TimeTracker(store, "/", 0);
    asWritten := t.HandleVisibilityChangeAsWritten(true, env);
    var u := new TimeTracker(store, "/", 0);
    corrected := u.HandleVisibilityChange(true, env);
  }
}
