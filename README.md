# Gmail Threat Analyzer site: analytics, identity and registration guard

This project models the client-side layer of the Gmail Threat Analyzer
landing site, written in TypeScript, and proves properties of that model in Dafny.

The layer tells visitors apart and follows what they do on the site:
- `src/lib/dataCollection.ts` is the main collector. It keeps a device id in a cookie and one session per page load. It sends events with a sequence number to Firestore, keeps daily and hourly counters, and screens early-access registrations against spam.
- `src/lib/dataCollectionOptimized.ts` is an older collector with the same job. It has no device cookie, stores documents under generated document ids, and throws on a duplicate email.
- `src/lib/dataCollectionFallback.ts` is a collector that uses `localStorage` only. It keeps a bounded event log, signups, scroll-depth milestones and time-on-page.
- `src/hooks/useDownloadPermission.ts` decides whether the visitor may download the extension.
- `src/utils/threatAnalyzer.ts` is the placeholder analyzer: link extraction, a suspicious-sender test and the threat score.

What the model abstracts:
- **Browser state.** `Browser.Storage` is the cookie jar behind `document.cookie`, plus `localStorage` and `sessionStorage`. Each is a field that the methods reassign.
- **Firestore.** Each collection is a map keyed by document id, or a sequence for documents added with `addDoc`.
- **The environment.** Everything a call cannot compute comes in as one `Sessions.Env` value:
  - the clock, as milliseconds and as an ISO string;
  - the random suffixes that `Math.random` would produce;
  - whether Firestore accepts writes;
  - the outcome of each `fetch`;
  - the path, referrer, user agent and screen size.
- **JavaScript values.** `Json.Value` models them, with `JSON.stringify` and `JSON.parse` proved to round-trip on every value without `undefined`. Truthiness is `Wrappers.Truthy`.

Modules, one per file:
- `wrappers.dfy`: Option, Result and the thrown errors.
- `text.dfy`: the string built-ins.
- `json.dfy`: JSON and `cleanObject`.
- `browser.dfy`: cookies and storage.
- `guard.dfy`: sanitising, validation, the rate limit, the duplicate check and the registration decision.
- `session.dfy`: sessions and documents.
- `stats.dfy`: counter updates.
- `geo.dfy`: the IP location lookups.
- `device.dfy`: user-agent parsing.
- `collection.dfy`: the main collector as a class.
- `legacy.dfy`: the older collector as a class.
- `fallback.dfy`: the local-only collector.
- `permission.dfy`: the download-permission hook as a class.
- `threat.dfy`: the analyzer.

## Model

| member | source | states |
|---|---|---|
| Text.Trim | src/lib/dataCollection.ts:874-879 | `trim` returns the input between a leading and a trailing run of white space, starting and ending with no white space; a string with no white space is untouched |
| Text.Lower | src/lib/dataCollection.ts:866-872 | `toLowerCase` keeps the length and lowers each character |
| Text.Split | src/utils/threatAnalyzer.ts:61-66 | `split` yields at least one piece, and no piece contains the separator |
| Text.SplitJoin | src/utils/threatAnalyzer.ts:61-66 | splitting the join of separator-free pieces gives the pieces back |
| Text.JoinSplit | src/utils/threatAnalyzer.ts:61-66 | joining the pieces of a split gives the text back |
| Text.IndexOf | src/lib/dataCollection.ts:140-149 | `indexOf` finds the first occurrence, or the length when there is none |
| Text.NatToString | src/lib/dataCollection.ts:894-897 | `Date.now().toString()` is a non-empty run of decimal digits |
| Text.ParseIntNatToString | src/lib/dataCollection.ts:856-864 | `parseInt` reads back exactly the number the rate-limit stamp wrote |
| Json.CleanObject | src/lib/dataCollection.ts:596-608 | the cleaned value holds no `undefined`; null and undefined become null; arrays stay arrays and objects stay objects |
| Json.CleanMembersSpec | src/lib/dataCollection.ts:601-606 | an object member survives cleaning exactly when its value is not `undefined`, and the survivor's value is the cleaned value |
| Json.CleanDefined | src/lib/dataCollection.ts:596-608 | a value without `undefined` is unchanged by cleaning |
| Json.CleanIdempotent | src/lib/dataCollection.ts:596-608 | cleaning twice is cleaning once |
| Json.Stringify | src/lib/dataCollection.ts:886-892 | `JSON.stringify` yields text for every value except `undefined` |
| Json.Parse | src/lib/dataCollection.ts:866-872 | `JSON.parse` either yields a value without `undefined` or throws a SyntaxError |
| Json.SerRoundTrip | src/lib/dataCollection.ts:886-892 | parsing a serialised value followed by any delimited text reads back the cleaned value and leaves the rest |
| Json.ParseStringify | src/lib/dataCollection.ts:886-892 | parsing what stringify wrote gives back the value with `undefined` members dropped |
| Json.ParseStringifyDefined | src/lib/dataCollectionFallback.ts:87-97 | a value without `undefined` survives stringify and parse unchanged |
| Browser.CutValue | src/lib/dataCollection.ts:133-138 | the stored cookie value contains no `;`, and a value without `;` is stored whole |
| Browser.SetJar | src/lib/dataCollection.ts:133-138 | setting a cookie replaces the one with that name or adds one |
| Browser.GetCookie | src/lib/dataCollection.ts:140-149 | the loop over the `; `-separated pieces returns what the cookie lookup function defines |
| Browser.CookieValueOfJar | src/lib/dataCollection.ts:140-149 | reading a cookie from the rendered jar returns the value stored under that name |
| Browser.SetJarGet | src/lib/dataCollection.ts:133-149 | after setting a cookie it reads back its value, and every other cookie reads as before |
| Browser.SetJarNames | src/lib/dataCollection.ts:133-138 | setting a cookie changes no cookie of another name and, for a new name, appends one |
| Browser.SetJarWellFormed | src/lib/dataCollection.ts:133-138 | setting a cookie keeps the jar well formed |
| Browser.Storage.ReadCookie | src/lib/dataCollection.ts:140-149 | reading `document.cookie` returns the jar's value for the name |
| Browser.Storage.SetCookie | src/lib/dataCollection.ts:133-138 | writing `document.cookie` updates the jar and nothing else |
| Browser.Storage.GetItem | src/lib/dataCollection.ts:856-858 | `localStorage.getItem` returns the stored string or null |
| Browser.Storage.SetItem | src/lib/dataCollection.ts:894-897 | `localStorage.setItem` updates that key only |
| Browser.Storage.RemoveItem | src/hooks/useDownloadPermission.ts:67-72 | `localStorage.removeItem` drops that key only |
| Browser.Storage.SetTabItem | src/lib/dataCollectionFallback.ts:153-160 | `sessionStorage.setItem` updates that key only |
| Guard.RemoveDangerous | src/lib/dataCollection.ts:878 | the result has none of `<>"'&`, is no longer than the input, and is the input when the input had none |
| Guard.RemoveDangerousAppend | src/lib/dataCollection.ts:878 | removing the characters distributes over concatenation |
| Guard.Take | src/lib/dataCollection.ts:877 | `slice(0, n)` is a prefix of length at most n, and the whole string when it is short enough |
| Guard.Sanitize | src/lib/dataCollection.ts:874-879 | the sanitised input is within the length limit and free of `<>"'&` |
| Guard.SanitizeKeepsContent | src/lib/dataCollection.ts:874-879 | the sanitised input is the start, within the limit, of the input between its leading and trailing white space, with `<>"'&` removed: nothing else is lost |
| Guard.SanitizeScriptTag | src/lib/dataCollection.ts:874-879 | example, implied by Guard.Sanitize and Guard.SanitizeKeepsContent: `" <b>Bob</b> "` sanitises to `bBob/b`, so brackets are dropped, not the tag |
| Guard.SanitizeTrailingBlank | src/lib/dataCollection.ts:874-879 | example, implied by Guard.SanitizeKeepsContent: `"a <"` sanitises to `"a "`, because the trim runs before the removal |
| Guard.SanitizeClean | src/lib/dataCollection.ts:874-879 | a short input with no white space and no dangerous character is unchanged |
| Guard.EmailShapeIff | src/lib/dataCollection.ts:881-884 | the character-by-character email test holds exactly when `^[^\s@]+@[^\s@]+\.[^\s@]+$` matches |
| Guard.ValidateEmail | src/lib/dataCollection.ts:881-884 | the check holds exactly when the pattern matches and the address has at most 100 characters |
| Guard.CheckRateLimit | src/lib/dataCollection.ts:856-864 | nothing stored allows; a stored value that is not a number refuses; an allowed stamp is at least 300000 ms old |
| Guard.RateLimitWindow | src/lib/dataCollection.ts:856-864 | with a stored stamp t the submission is allowed exactly when at least 300000 ms have passed |
| Guard.Includes | src/lib/dataCollection.ts:866-872 | `includes` is membership on an array and substring search on a string, and throws a TypeError otherwise |
| Guard.ValidateUniqueEmail | src/lib/dataCollection.ts:866-872 | on a stored array, an email is a duplicate exactly when its lower-cased form is in the list; the only errors are a syntax error or a type error |
| Guard.MarkEmailSubmitted | src/lib/dataCollection.ts:886-892 | marking writes only the submitted-emails key |
| Guard.MarkAppends | src/lib/dataCollection.ts:886-892 | after marking, the stored list reads back as the old list plus the lowered email |
| Guard.MarkThenDuplicate | src/lib/dataCollection.ts:866-892 | once an email is marked, it and every case variant of it are duplicates |
| Guard.RegisteredThenDuplicate | src/lib/dataCollection.ts:808-810 | after a completed registration the email is a duplicate, and the rate limit allows the next one exactly 5 minutes later |
| Guard.MarkKeepsDuplicates | src/lib/dataCollection.ts:886-892 | marking never turns a duplicate into a new email |
| Guard.FreshStorage | src/lib/dataCollection.ts:866-872 | with nothing stored, the list is empty and no email is a duplicate |
| Guard.StoredEmail | src/lib/dataCollection.ts:164-166 | `getStoredEmail` reads the email cookie's value from a well-formed jar |
| Guard.HasDownloadPermission | src/lib/dataCollection.ts:829-846 | a stored email cookie grants permission |
| Guard.PermissionIff | src/lib/dataCollection.ts:829-846 | with a readable list, permission is granted exactly when an email cookie is stored or the list is non-empty |
| Guard.PermissionAfterMark | src/lib/dataCollection.ts:829-846 | after an email is marked, permission is granted |
| Guard.PermissionAfterEmailCookie | src/lib/dataCollection.ts:170-173 | after the email cookie is set to a non-empty value, permission is granted |
| Guard.StoredEmailAfterDeviceCookie | src/lib/dataCollection.ts:152-167 | writing the device cookie does not change the stored email |
| Guard.CleanForm | src/lib/dataCollection.ts:727-732 | the form fields are cut to 99, 99, 49 and 499 characters |
| Guard.Decide | src/lib/dataCollection.ts:722-760 | the rate limit is checked first, then the email shape; a known email or email cookie is a returning user, who needs no other field; a new user needs a name and an occupation |
| Guard.Screen | src/lib/dataCollection.ts:714-760 | a rate-limited form is refused; a form that proceeds is the cleaned one, with a valid new email, no email cookie, a name and an occupation; a returning user has a valid email that is listed or has a cookie |
| Guard.ReturningBeforeRequired | src/lib/dataCollection.ts:745-760 | a returning user is let through even with empty name and occupation |
| Guard.DecideStrict | src/lib/dataCollectionOptimized.ts:503-526 | the older check has no returning path: a listed email is rejected with the duplicate message, and only a complete new form proceeds |
| Guard.ScreenStrict | src/lib/dataCollectionOptimized.ts:495-526 | the older screen has no returning user; a rate-limited form is refused; a form that proceeds is the cleaned one, with a valid new email, a name and an occupation |
| Guard.DecideVariants | src/lib/dataCollectionOptimized.ts:581-589 | the two modules decide alike except that a returning user of the main module is a duplicate for the older one |
| Sessions.AddOnce | src/lib/dataCollection.ts:450-452 | the page is in the path afterwards, the path only grows by that page, and a duplicate-free path stays duplicate-free |
| Sessions.AddOnceIdempotent | src/lib/dataCollection.ts:450-452 | visiting the same page twice adds it once |
| Sessions.VisitFacts | src/lib/dataCollection.ts:450-452 | a run of visits extends the path, keeps it duplicate-free and holds exactly the pages seen |
| Sessions.Step | src/lib/dataCollection.ts:447-467 | conversion events only grow, by the event when it is a conversion event; the session is converted once a form completes; page views count only page views; the time spent is the whole seconds since the start |
| Sessions.SecondsSince | src/lib/dataCollection.ts:447 | `Math.floor(ms / 1000)` brackets the elapsed milliseconds |
| Sessions.StepsMonotone | src/lib/dataCollection.ts:443-487 | across any run of events, conversion events stay duplicate-free and within the three names, and conversion is never undone |
| Sessions.ConversionBound | src/lib/dataCollection.ts:455-458 | a session has at most three conversion events |
| Sessions.FallbackRecord | src/lib/dataCollection.ts:663-665 | the locally stored fallback event is an object that stringify accepts |
| Sessions.FallbackReadBack | src/lib/dataCollection.ts:663-665 | parsing the fallback text reads back the record without its undefined members |
| Sessions.NewSession | src/lib/dataCollection.ts:378-413 | a new session has the device id and a fresh session id, the stored email only when truthy, no activity and a count of one |
| Sessions.MergeAsWritten | src/lib/dataCollection.ts:419-423 | the merged device document carries the new session's count |
| Sessions.IncrementCount | src/lib/dataCollection.ts:426-431 | the increment adds one to the device's session count and keeps the document set |
| Sessions.SessionCountAlwaysTwo | src/lib/dataCollection.ts:378-432 | as written, every session start leaves the device's count at 2, whatever it was |
| Sessions.InitDocs | src/lib/dataCollection.ts:419-432 | a session start adds one to the device's count, records the session, and leaves other devices alone |
| Sessions.InitManyCounts | src/lib/dataCollection.ts:419-432 | after n session starts the count has grown by n |
| Sessions.UpdateActivity | src/lib/dataCollection.ts:471-481 | `updateDoc` succeeds exactly when the device document exists, and then replaces the activity and keeps the count |
| Sessions.UpdateEmail | src/lib/dataCollection.ts:799-803 | the email update succeeds exactly when the device document exists |
| Sessions.NewEvent | src/lib/dataCollection.ts:624-646 | the event carries the sequence number, an element id only when truthy, and event data without `undefined` |
| Stats.StatsKey | src/lib/dataCollection.ts:549 | the key keeps the length, and a character survives exactly when it is a letter or a digit; everything else becomes `_` |
| Stats.StatsKeyIdempotent | src/lib/dataCollection.ts:549 | sanitising a key twice is sanitising it once |
| Stats.UpdateKeys | src/lib/dataCollection.ts:541-577 | a page view counts a page view and the sanitised page; a completed form counts a registration; no event touches the hourly counters |
| Stats.HourlyAddsOneKey | src/lib/dataCollection.ts:579-583 | the hourly update adds exactly one counter, the hour's, to the daily ones |
| Stats.PageViewCountryKey | src/lib/dataCollectionOptimized.ts:368-381 | a page view with a known location counts exactly one country: the sanitised name in the main collector, the raw `countryCode` in the older one |
| Stats.PathTextInjective | src/lib/dataCollection.ts:541-583 | distinct counters have distinct field paths when no item contains a dot |
| Stats.SanitizedValid | src/lib/dataCollection.ts:549-567 | a sanitised key gives a valid Firestore field path exactly when it is not empty |
| Stats.LabelledValid | src/lib/dataCollection.ts:549-567 | a dot-free item gives a valid field path exactly when it is non-empty and has no reserved character |
| Stats.HourKeyValid | src/lib/dataCollection.ts:582 | the hourly field path is always valid |
| Stats.Apply | src/lib/dataCollection.ts:585-590 | the update adds one to each listed counter, creates missing ones, and leaves the rest alone |
| Stats.ApplyMonotone | src/lib/dataCollection.ts:585-590 | no counter ever goes down |
| Stats.ApplyCommutes | src/lib/dataCollection.ts:585-590 | two updates give the same document in either order |
| Stats.ZeroStats | src/lib/dataCollection.ts:488-525 | a fresh summary document has every counter at zero |
| Stats.Ensure | src/lib/dataCollection.ts:488-525 | ensuring creates the day's and the hour's documents when missing and changes no existing one |
| Stats.UpdateRealTimeStats | src/lib/dataCollection.ts:526-592 | an update touches only today's daily document and the current hour's document, and both exist afterwards |
| Stats.UpdateMonotone | src/lib/dataCollection.ts:526-592 | an update never lowers a counter of any document |
| Stats.PageViewWithoutSession | src/lib/dataCollection.ts:546-550 | without a session, a page view counts the page view and the page in both documents |
| Stats.EmptyHostLosesUpdate | src/lib/dataCollection.ts:552-555 | a referrer with an empty host name gives an invalid field path, so the whole update is lost |
| Geo.Or | src/lib/dataCollection.ts:252-275 | a member's value is taken when it is truthy, and the default otherwise |
| Geo.OrUndefined | src/lib/dataCollectionOptimized.ts:150-172 | an optional member is present exactly when it is truthy |
| Geo.MapLocation | src/lib/dataCollectionOptimized.ts:150-172 | only the two location providers are mapped, with each provider's own member names and non-empty defaults |
| Geo.FirstLocationAt | src/lib/dataCollectionOptimized.ts:143-178 | the first answering provider decides, whatever comes after it |
| Geo.FirstLocationNone | src/lib/dataCollectionOptimized.ts:143-180 | nothing is found exactly when no provider answers |
| Geo.GetIPLocationLegacy | src/lib/dataCollectionOptimized.ts:136-181 | the loop with `continue` returns the first answer in list order |
| Geo.LegacyNull | src/lib/dataCollectionOptimized.ts:136-181 | the older lookup is null exactly when neither location provider returns a body |
| Geo.LegacySecond | src/lib/dataCollectionOptimized.ts:136-181 | with the first provider down, the second provider's body is used |
| Geo.MapPlace | src/lib/dataCollection.ts:247-278 | country and city are never empty, and fall back to `Unknown` |
| Geo.FirstPlaceFacts | src/lib/dataCollection.ts:226-284 | a found place has non-empty fields, and nothing is found exactly when no request returns a body |
| Geo.GetIPLocation | src/lib/dataCollection.ts:196-307 | the ipify request and then the loop over the location providers compute the lookup the model defines |
| Geo.LocateShape | src/lib/dataCollection.ts:196-307 | the lookup never fails; without an IP it is `unknown`/`Unknown`/`Unknown`, and otherwise it carries the IP |
| Geo.LocateNoBody | src/lib/dataCollection.ts:286-293 | when every provider fails, country and city are `Unknown` |
| Geo.OnlyLastAnswers | src/lib/dataCollection.ts:217-284 | with only the third provider answering, the main lookup uses its body, while the older lookup finds nothing |
| Device.BrowserName | src/lib/dataCollection.ts:316-320 | the name is one of six; Safari means no Chrome in the text, and Chrome means no Edge |
| Device.BrowserUnknownIff | src/lib/dataCollection.ts:316-320 | the browser is Unknown exactly when none of the five names occurs |
| Device.ChromeBeforeSafari | src/lib/dataCollection.ts:316-320 | example of the test order: a Chrome user agent, which also says Safari, is Chrome |
| Device.PlatformName | src/lib/dataCollection.ts:323-327 | the platform is one of six, and Unknown exactly when none of the five names occurs |
| Device.AndroidAfterLinux | src/lib/dataCollection.ts:323-327 | an Android agent that says Linux is reported as Linux, because that test comes first |
| Device.MobileIfContains | src/lib/dataCollection.ts:329 | any listed token, in any case, makes the agent mobile |
| Device.IPhoneIsMobile | src/lib/dataCollection.ts:329 | example, an instance of Device.MobileIfContains: an iPhone agent is mobile |
| Device.NoLettersNotMobile | src/lib/dataCollection.ts:329 | an agent without letters is not mobile |
| Device.GetDeviceInfo | src/lib/dataCollection.ts:310-336 | the device record combines the browser, the platform and the mobile flag |
| Device.GetFullDeviceInfo | src/lib/dataCollectionOptimized.ts:184-212 | the older record adds the agent, and a resolution `WxH` only when both sides are non-zero |
| Device.ResolutionSplit | src/lib/dataCollectionOptimized.ts:210 | the resolution string splits back into its width and its height |
| Collection.DeviceCookieRead | src/lib/dataCollection.ts:140-167 | reading the device and email cookies from the rendered jar gives the jar's values; in particular `getStoredEmail` reads `StoredEmailOf` |
| Collection.DeviceIdClean | src/lib/dataCollection.ts:156 | a generated device id is non-empty and has no `;` |
| Collection.DeviceIdStable | src/lib/dataCollection.ts:152-163 | once written, the device id is read back and never replaced, and the email cookie is untouched |
| Collection.EmailCookieWrite | src/lib/dataCollection.ts:170-173 | writing the email cookie keeps the device id and stores the email |
| Collection.Collector.GetOrCreateDeviceId | src/lib/dataCollection.ts:152-163 | returns the stored device id or writes a fresh one, and changes no storage besides the cookie |
| Collection.Collector.InitializeSession | src/lib/dataCollection.ts:349-440 | a live session is returned unchanged; otherwise a new session is built and stored, and when Firestore is up its device document exists |
| Collection.Collector.StartSession | src/lib/dataCollection.ts:352-439 | the new session has the device, location and stored email; when Firestore is up the device document is merged and incremented as written, leaving its count at 2 |
| Collection.Collector.UpdateSessionActivity | src/lib/dataCollection.ts:443-487 | without a session nothing changes; otherwise the activity advances one step and is written to the device document |
| Collection.Collector.TrackEvent | src/lib/dataCollection.ts:610-667 | every call raises the sequence number by one; an accepted event is stored under its id; conversion is never undone |
| Collection.Collector.StoreEvent | src/lib/dataCollection.ts:618-667 | the event is stored with the next sequence number and counted, or kept in the local fallback when Firestore is down |
| Collection.Collector.RecordActivity | src/lib/dataCollection.ts:443-487 | recording activity keeps the session's ids and never undoes a conversion |
| Collection.Collector.LazyInitialize | src/lib/dataCollection.ts:1075-1083 | after the call the module is initialised with the session's id, and a second call changes nothing |
| Collection.Collector.TrackPageNavigation | src/lib/dataCollection.ts:1087-1094 | the page is remembered, and an event is tracked only when a different page was remembered |
| Collection.Collector.TrackFormSubmission | src/lib/dataCollection.ts:1097-1101 | a submission is tracked as a button click on `form_submit_` plus the form type |
| Collection.Collector.TrackDownloadAttempt | src/lib/dataCollection.ts:1104-1112 | the download count and the sequence number rise by one, and the download is a conversion event |
| Collection.Collector.MarkEmailSubmitted | src/lib/dataCollection.ts:886-892 | storage is updated as the marking function says, or unchanged when the list cannot be read |
| Collection.Collector.UpdateRateLimit | src/lib/dataCollection.ts:894-897 | the rate-limit key holds the current time and nothing else changes |
| Collection.Collector.Persist | src/lib/dataCollection.ts:762-818 | the registration id is the device id, `_`, then the time; when Firestore is down nothing is stored and the error is returned |
| Collection.Collector.WriteRegistration | src/lib/dataCollection.ts:762-793 | the registration is stored under its id, with the cleaned form and the conversion path |
| Collection.Collector.CompleteRegistration | src/lib/dataCollection.ts:795-818 | sets the email cookie, marks the email and stamps the rate limit, and returns the id when the list could be marked |
| Collection.Collector.SubmitUserRegistration | src/lib/dataCollection.ts:714-826 | the outcome is the decision's. A rejection throws its message and changes no variable and no local storage; after the missing-fields check the device cookie may have been written. A returning user gets the sentinel, the device cookie, and the email cookie when none was stored. A new user's registration is stored when Firestore is up. The call ends well exactly when Firestore is up, the device document exists and the list can be extended; then the email is marked, the time stamped, and the completion event and the email are on the device and the session |
| Collection.Collector.RegisterScreened | src/lib/dataCollection.ts:740-818 | after the rate and email checks, the outcome, the cookies, the variables and the local storage are those of the decision, as for the whole call |
| Legacy.NewLegacySession | src/lib/dataCollectionOptimized.ts:233-249 | the new session has a fresh id, no user, the looked-up location, no activity, and the page and referrer of the load |
| Legacy.ViewOf | src/lib/dataCollectionOptimized.ts:347-413 | what the counters read from a session: its location when there is one |
| Legacy.SetActivity | src/lib/dataCollectionOptimized.ts:294-301 | `updateDoc` succeeds exactly when the document exists, and otherwise fails with not-found; other documents are kept |
| Legacy.SetUserId | src/lib/dataCollectionOptimized.ts:549-550 | the user-id update succeeds exactly when the document exists, and otherwise fails with not-found |
| Legacy.SessionIdIsNoAutoId | src/lib/dataCollectionOptimized.ts:215-217 | a `session_` id is never a 20-character Firestore auto id |
| Legacy.AsWrittenUpdatesNotFound | src/lib/dataCollectionOptimized.ts:255 | as written, every activity and user-id update of the session fails with not-found |
| Legacy.AsWrittenRegistrationRepeats | src/lib/dataCollectionOptimized.ts:495-568 | as written, a completed registration fails before the email is marked, so the same form passes the check again |
| Legacy.CompletionKeepsList | src/lib/dataCollectionOptimized.ts:475-477 | the fallback completion event never changes the submitted-emails list |
| Legacy.LegacyCollector.InitializeSession | src/lib/dataCollectionOptimized.ts:230-262 | a live session is kept; otherwise a session is started, whose id names no stored document |
| Legacy.LegacyCollector.StartSession | src/lib/dataCollectionOptimized.ts:230-262 | the session is built from the located address and, when accepted, stored under the id `addDoc` chose; the returned `session_` id (line 254) is a different one, and nothing keeps the chosen id |
| Legacy.LegacyCollector.UpdateSessionActivity | src/lib/dataCollectionOptimized.ts:265-306 | the activity advances one step in memory; the document named by the session id takes it only when it exists, otherwise the failure is swallowed and no document changes |
| Legacy.LegacyCollector.TrackEvent | src/lib/dataCollectionOptimized.ts:416-451 | the session id is kept and conversion is never undone; an existing session's documents never change; registrations and cookies are untouched |
| Legacy.LegacyCollector.StoreEvent | src/lib/dataCollectionOptimized.ts:423-450 | an accepted event is appended and counted; a refused one goes to the local fallback; the session documents change only when one is named by the session id |
| Legacy.LegacyCollector.MarkEmailSubmitted | src/lib/dataCollectionOptimized.ts:603-609 | storage follows the marking function, or is unchanged on an unreadable list |
| Legacy.LegacyCollector.SubmitUserRegistration | src/lib/dataCollectionOptimized.ts:495-568 | a rejected form changes nothing and returns the message; an accepted one may be stored, but no call ends well |
| Legacy.LegacyCollector.Persist | src/lib/dataCollectionOptimized.ts:528-568 | the call fails and leaves the local storage as it was; a stored registration is the last document and the error is the not-found of the session update |
| Legacy.LegacyCollector.WriteRegistration | src/lib/dataCollectionOptimized.ts:528-560 | the registration document carries the cleaned form and the session; the user id is set on the session in memory; a session id that names no document ends the call with not-found before anything is marked |
| Legacy.LegacyCollector.CompleteRegistration | src/lib/dataCollectionOptimized.ts:554-560 | the email is marked and the rate limit stamped, and the user id is returned |
| Legacy.CorrectedRegistrationShutsOut | src/lib/dataCollectionOptimized.ts:547-558 | with the update through the id `addDoc` chose, the registration completes, and then the email is a duplicate and the same form is stopped |
| Fallback.KeepLast | src/lib/dataCollectionFallback.ts:92-95 | keeps the last n entries, or all of them when there are fewer |
| Fallback.KeepLastAppend | src/lib/dataCollectionFallback.ts:87-97 | trimming before appending gives the same log as trimming after |
| Fallback.FeedKeepsLatest | src/lib/dataCollectionFallback.ts:87-97 | after any run of events, the log is the latest 100 of all of them |
| Fallback.ReadList | src/lib/dataCollectionFallback.ts:52-57 | reading a stored list fails only with a syntax or type error, and a missing key is the empty list |
| Fallback.ReadWritten | src/lib/dataCollectionFallback.ts:52-57 | a written list reads back unchanged |
| Fallback.AnalyticsRecord | src/lib/dataCollectionFallback.ts:79-85 | the record is an object, and has no `undefined` when the extra data has none |
| Fallback.LogUpdate | src/lib/dataCollectionFallback.ts:87-97 | the log is written exactly when it can be read, and no other key changes |
| Fallback.LogBounded | src/lib/dataCollectionFallback.ts:87-97 | the log reads back as the last 100 of the old log plus the record, one longer until it is full, and ending with the record |
| Fallback.TabSessionId | src/lib/dataCollectionFallback.ts:153-160 | the tab's session id is the stored one when truthy, and is never empty |
| Fallback.GetSessionId | src/lib/dataCollectionFallback.ts:153-160 | returns the stored id, or stores a fresh one in the tab |
| Fallback.SessionIdStable | src/lib/dataCollectionFallback.ts:153-160 | two calls in one tab return the same non-empty id, which the tab then holds |
| Fallback.TrackAnalytics | src/lib/dataCollectionFallback.ts:78-101 | the tab id is fixed first; on success the log is updated, and on failure the local storage is unchanged |
| Fallback.SignupRecord | src/lib/dataCollectionFallback.ts:43-56 | the signup is a nine-field object starting with its id |
| Fallback.SubmitEarlyAccessSignup | src/lib/dataCollectionFallback.ts:37-75 | an unreadable list fails with nothing changed; otherwise the list reads back with the signup appended, the tab session id is fixed, and the id is returned exactly when the log is readable, which then ends with the completion record |
| Fallback.AppendSignup | src/lib/dataCollectionFallback.ts:52-57 | appends the signup to a readable list and returns its id |
| Fallback.Crossed | src/lib/dataCollectionFallback.ts:173-182 | a threshold is crossed exactly when it lies above the old maximum and at most the new percentage |
| Fallback.ScrollEvents | src/lib/dataCollectionFallback.ts:177-182 | one scroll-depth event per crossed threshold, in order |
| Fallback.ScrollTracker.HandleScroll | src/lib/dataCollectionFallback.ts:168-184 | a new maximum fires each newly crossed threshold once, in order, and records it; otherwise nothing happens |
| Fallback.CrossedStep | src/lib/dataCollectionFallback.ts:177-182 | the threshold loop adds one threshold at a time |
| Fallback.CrossedAppend | src/lib/dataCollectionFallback.ts:177-182 | crossing distributes over concatenated threshold lists |
| Fallback.ScrollEventsAppend | src/lib/dataCollectionFallback.ts:177-182 | events distribute over concatenated threshold lists |
| Fallback.RoundSeconds | src/lib/dataCollectionFallback.ts:201 | `Math.round(ms / 1000)` is within half a second of the elapsed time |
| Fallback.TimeTracker.TimeEvent | src/lib/dataCollectionFallback.ts:199-206 | a time event exists exactly when the page is active and more than 5 rounded seconds have passed |
| Fallback.TimeTracker.TrackTime | src/lib/dataCollectionFallback.ts:199-206 | with no time event nothing changes; with one, the tab gets a session id if it had none, and the time record is appended by `LogUpdate` (whose read-back Fallback.LogBounded states) or the log's error is returned with local storage unchanged; cookies are never touched |
| Fallback.TimeTracker.HandleVisibilityChangeAsWritten | src/lib/dataCollectionFallback.ts:209-216 | as written, hiding the page never logs anything, and no visibility change touches local storage, tab storage or cookies; only the active flag follows the page |
| Fallback.TimeTracker.CleanupAsWritten | src/lib/dataCollectionFallback.ts:226-231 | as written, cleanup never logs anything and leaves all storage as it was |
| Fallback.TimeTracker.HandleVisibilityChange | src/lib/dataCollectionFallback.ts:209-216 | with time tracked first, hiding logs exactly when the page was active for more than 5 seconds, and leaves the storage the time event of the moment before (tab id, appended record or unchanged log on error) as TrackTime does; showing the page touches no storage |
| Fallback.TimeTracker.HandleBeforeUnload | src/lib/dataCollectionFallback.ts:218-220 | unloading logs exactly when the page is active for more than 5 seconds, with the same resulting storage as TrackTime |
| Fallback.TimeTracker.Cleanup | src/lib/dataCollectionFallback.ts:226-231 | with time tracked first, cleanup logs exactly when the page was active for more than 5 seconds, with the same resulting storage as TrackTime for the event of the moment before, and leaves the page inactive |
| Fallback.HiddenPageAsWritten | src/lib/dataCollectionFallback.ts:209-216 | example for the Findings row: after a minute on the page, hiding it logs nothing as written but logs the time when corrected |
| Permission.UserValue | src/hooks/useDownloadPermission.ts:60-65 | the stored user data is an object without `undefined` |
| Permission.Placeholder | src/hooks/useDownloadPermission.ts:42-47 | the placeholder carries the stored email, the fixed name and occupation, and the current time |
| Permission.GrantedReadsBack | src/hooks/useDownloadPermission.ts:60-65 | after granting, the local claim holds and the user data parses back; other keys are kept |
| Permission.RevokedClaimsNothing | src/hooks/useDownloadPermission.ts:67-72 | after revoking, neither key is stored and no claim holds; other keys are kept |
| Permission.StoredRegistrationInfo | src/lib/dataCollection.ts:849-854 | returns the stored email and the device id, writing the device cookie if needed |
| Permission.Fallback | src/hooks/useDownloadPermission.ts:38-51 | a placeholder user is found exactly when the registration check grants and an email cookie is stored |
| Permission.Granting | src/hooks/useDownloadPermission.ts:38-51 | the fallback grants exactly when it found a user |
| Permission.DownloadPermission.ConsultRecord | src/hooks/useDownloadPermission.ts:38-51 | the fallback state is set from the registration record, and its verdict is returned |
| Permission.DownloadPermission.CheckPermissions | src/hooks/useDownloadPermission.ts:18-55 | a parsable local claim grants with that data; an unparsable one is cleared and then the registration record decides, as it does when there is no claim |
| Permission.DownloadPermission.GrantPermission | src/hooks/useDownloadPermission.ts:60-65 | stores the claim and sets the state to granted with that data |
| Permission.DownloadPermission.RevokePermission | src/hooks/useDownloadPermission.ts:67-72 | removes the claim and sets the state to refused with no data |
| Permission.DownloadPermission.RefreshPermissions | src/hooks/useDownloadPermission.ts:74-101 | local storage is left as it was; a parsable claim grants, an unparsable one refuses, and otherwise a granted state is never taken back |
| Threat.Weight | src/utils/threatAnalyzer.ts:71-77 | only the four severity names have a weight, between 1 and 10 |
| Threat.CalculateThreatScore | src/utils/threatAnalyzer.ts:71-77 | an empty list scores 0 |
| Threat.WeightSumAppend | src/utils/threatAnalyzer.ts:71-77 | one more known threat adds its weight |
| Threat.ScoreIsWeightSum | src/utils/threatAnalyzer.ts:71-77 | the score is a number exactly when every severity is known, and is then the sum of the weights |
| Threat.WeightSumBounds | src/utils/threatAnalyzer.ts:71-77 | each threat adds between 1 and 10 to the score |
| Threat.DomainPart | src/utils/threatAnalyzer.ts:61-66 | the domain part exists exactly when the address has an `@`, and contains none |
| Threat.SecondPiece | src/utils/threatAnalyzer.ts:61-66 | `split('@')` has a second piece exactly when there is an `@`, and it is the domain part |
| Threat.IsSuspiciousSender | src/utils/threatAnalyzer.ts:61-66 | a sender is suspicious exactly when the part after the first `@` is a listed domain |
| Threat.SchemeAt | src/utils/threatAnalyzer.ts:53-56 | `https?://` is 7 or 8 characters long and lies inside the text |
| Threat.RunLength | src/utils/threatAnalyzer.ts:53-56 | the greedy run takes every link character up to the first one that is not |
| Threat.MatchAt | src/utils/threatAnalyzer.ts:53-56 | a match ends after its start and within the text |
| Threat.MatchIsLink | src/utils/threatAnalyzer.ts:53-56 | each match is a scheme followed by at least one link character |
| Threat.LinksAreLinks | src/utils/threatAnalyzer.ts:53-56 | every extracted link has the link shape and occurs in the content |
| Threat.NoLinksIff | src/utils/threatAnalyzer.ts:53-56 | nothing is extracted exactly when no position starts a match |
| Threat.ExtractLinks | src/utils/threatAnalyzer.ts:53-56 | every extracted link has the link shape and occurs in the content, and nothing is extracted exactly when no position starts a match |
| Threat.NoSchemeNoLinks | src/utils/threatAnalyzer.ts:53-56 | content without `://` has no links |
| Threat.AnalyzeEmail | src/utils/threatAnalyzer.ts:17-48 | the placeholder analysis carries the given id, the email id and the time, is Low with no threats, and its score is the score of its threats |

## Left out

- Firestore's server-side behaviour is not modelled: `serverTimestamp`, transactions and the atomicity of several writes. Each write is one map update. Firestore availability is one flag per call.
- Asynchrony is not modelled: interleaved `await`s and concurrent calls. Each operation runs to completion.
- `fetch` is not modelled. Each request is given as its outcome: rejected, not `ok`, or a decoded body. The five-second abort is one of the rejections.
- The `ignoreUndefinedProperties` setting of the Firestore client is a constant of the older collector, because firebase.ts is not part of this model.
- Latitude and longitude are not modelled. A latitude of 0 is not treated specially.
- These trackers are not modelled: page view, button click, form start, download, scroll and time milestone in both collectors, plus the local-only `track*` wrappers that only forward to `trackAnalytics`. Each calls the modelled event tracker with fixed arguments.
- Diagnostics are not modelled: `getSpamProtectionStatus`, the `clear*` helpers, the analytics export and the debug functions. They only read or reset storage and print.
- The older collector's scroll and time milestones are not modelled. They repeat the threshold logic modelled for the local-only collector.
- The scroll percentage is a parameter of `HandleScroll`. It is computed in floating point from the window geometry.
- Console logging is not modelled.
- `crypto.randomUUID`, `Math.random` and `Date` are parameters, carried in the environment value.
- Threat.Weight: a severity named after an `Object.prototype` member, such as `toString`, is weighed as `NaN`, not as JavaScript's string concatenation.
- Text.Lower: only ASCII letters are lowered. The regular expressions' case folding is modelled on ASCII only.
- Parse: `JSON.parse` is modelled without insignificant white space and with integer numbers only. Text with blanks between tokens, a fraction or an exponent is refused with a SyntaxError, which `JSON.parse` would accept. Every text the modelled `JSON.stringify` writes is read. A stored list edited by hand into such a form is outside the model.
- Take: `slice` counts UTF-16 code units, while a Dafny string counts scalar values. A field with characters outside the Basic Multilingual Plane can be cut later than in the browser, and never in the middle of a surrogate pair. The same holds for Guard.Sanitize and Guard.CleanForm, which use it, and for Guard.ValidateEmail, whose `length <= 100` also counts scalar values rather than UTF-16 units (out of reach from the registration, which cuts the email to 99 first).
- HasDownloadPermission: a submitted-emails entry that parses to an object answers false. JavaScript would read that object's own `length` member and grant permission when it compares greater than 0, for example `{"length": 1}`. Arrays, strings, numbers, booleans and null are modelled as JavaScript treats them.
- Event listener registration and removal, React rendering and effect scheduling are not modelled. The handlers are methods called directly.
- Where the written description of the system and the code disagree, the model follows the code:
  - errors from a failed registration are rethrown, not wrapped in a generic message;
  - a second submission by a known email in the main collector returns `ALREADY_REGISTERED`;
  - a device's session count is 2 after every start, not 1; see Findings.

## Findings

| source | as written | input that shows it | evidently intended | confidence | as-written member | corrected member |
|---|---|---|---|---|---|---|
| src/lib/dataCollection.ts:419-432 | the device document is merged with `sessionCount: 1` and then incremented | any device with an earlier count, e.g. 7; after the next start the count is 2 | the count grows by one per session | not executed | Sessions.SessionCountAlwaysTwo | Sessions.InitManyCounts |
| src/lib/dataCollectionOptimized.ts:255 | the session is added under Firestore's auto id, but `updateDoc` at 294-301 and 549-550 addresses it by the `session_` id | any session start followed by an event, or a registration: the update fails with not-found; the registration then rethrows before marking the email and stamping the rate limit | updates address the document id returned by `addDoc`, so a registered email is rejected the next time | not executed | Legacy.AsWrittenUpdatesNotFound | Legacy.CorrectedRegistrationShutsOut |
| src/lib/dataCollectionFallback.ts:209-216 | on `visibilitychange` to hidden, and in the cleanup at 226-231, `isActive` is cleared before `trackTime`, which then returns at once | a page shown for 60 seconds and then hidden: no time-on-page event | the time is recorded before tracking stops | not executed | Fallback.HiddenPageAsWritten | Fallback.TimeTracker.HandleVisibilityChange |
