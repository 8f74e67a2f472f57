/** The registration guard of src/lib/dataCollection.ts and
    src/lib/dataCollectionOptimized.ts: input sanitising, the email shape
    check, the five-minute rate limit, the device's list of submitted
    emails in `localStorage`, the download-permission query and the order in
    which a submission is screened. */
module Guard {
  import opened Wrappers
  import opened Text
  import opened Json
  import opened Browser

  const RATE_LIMIT_KEY := "last_signup_time"
  const RATE_LIMIT_MINUTES := 5
  const SUBMITTED_EMAILS_KEY := "submitted_emails"
  const DEVICE_COOKIE_NAME := "gta_device_id"
  const EMAIL_COOKIE_NAME := "gta_user_email"

  const RATE_LIMIT_MESSAGE := "Please wait 5 minutes between submissions to prevent spam"
  const INVALID_EMAIL_MESSAGE := "Please enter a valid email address"
  const MISSING_FIELDS_MESSAGE := "Please fill in all required fields"
  const DUPLICATE_MESSAGE := "This email has already been submitted"
  const ALREADY_REGISTERED := "ALREADY_REGISTERED"

  // ---------------------------------------------------------------------
  // sanitizeInput

  /** The characters `.replace(/[<>\"'&]/g, '')` deletes. */
  predicate Dangerous(c: char) {
    c == '<' || c == '>' || c == '"' || c == '\'' || c == '&'
  }

  function RemoveDangerous(s: string): (r: string)
    ensures |r| <= |s|
    ensures forall i :: 0 <= i < |r| ==> !Dangerous(r[i])
    ensures (forall i :: 0 <= i < |s| ==> !Dangerous(s[i])) ==> r == s
  {
    if s == [] then ""
    else if Dangerous(s[0]) then RemoveDangerous(s[1..]) else [s[0]] + RemoveDangerous(s[1..])
  }

  /** One step of the deletion: the first character is kept or dropped. */
  lemma RemoveHead(s: string)
    requires s != []
    ensures RemoveDangerous(s) == (if Dangerous(s[0]) then "" else [s[0]]) + RemoveDangerous(s[1..])
  {
  }

  /** Deleting characters works piece by piece, so the kept characters stay
      in their order. */
  lemma {:induction false} RemoveDangerousAppend(a: string, b: string)
    ensures RemoveDangerous(a + b) == RemoveDangerous(a) + RemoveDangerous(b)
  {
    if a == [] {
      assert a + b == b;
    } else {
      var ab := a + b;
      assert ab[0] == a[0] && ab[1..] == a[1..] + b;
      RemoveDangerousAppend(a[1..], b);
      RemoveHead(a);
      RemoveHead(ab);
      var h: string := if Dangerous(a[0]) then "" else [a[0]];
      assert RemoveDangerous(ab) == h + (RemoveDangerous(a[1..]) + RemoveDangerous(b));
      assert RemoveDangerous(a) == h + RemoveDangerous(a[1..]);
    }
  }

  /** `s.slice(0, n)`. */
  function Take(s: string, n: nat): (r: string)
    ensures |r| <= n && |r| <= |s|
    ensures r == s[..|r|]
    ensures |s| <= n ==> r == s
  {
    if |s| <= n then s else s[..n]
  }

  /** `sanitizeInput(input, maxLength)`: trim, keep at most `maxLength`
      characters, then delete `<`, `>`, `"`, `'` and `&`. */
  function Sanitize(input: string, maxLength: nat): (r: string)
    ensures |r| <= maxLength
    ensures forall i :: 0 <= i < |r| ==> !Dangerous(r[i])
  {
    RemoveDangerous(Take(Trim(input), maxLength))
  }

  /** Nothing but whitespace at the ends, the part past the limit and the
      five characters is lost: the result is a prefix, within the limit, of
      the input between its leading and trailing whitespace, stripped. */
  lemma SanitizeKeepsContent(input: string, maxLength: nat)
    ensures exists k :: (Padded(input, Trim(input), k) &&
      Sanitize(input, maxLength) == RemoveDangerous(input[k..k + |Take(Trim(input), maxLength)|]))
  {
    var k :| Padded(input, Trim(input), k);
    SanitizeAt(input, maxLength, k);
  }

  lemma SanitizeAt(input: string, maxLength: nat, k: int)
    requires 0 <= k <= k + |Trim(input)| <= |input| && Trim(input) == input[k..k + |Trim(input)|]
    ensures 0 <= k <= k + |Take(Trim(input), maxLength)| <= |input|
    ensures Sanitize(input, maxLength) == RemoveDangerous(input[k..k + |Take(Trim(input), maxLength)|])
  {
    var t := Trim(input);
    var c := Take(t, maxLength);
    calc {
      c;
      t[..|c|];
      input[k..k + |t|][..|c|];
      input[k..k + |c|];
    }
  }

  /** Once trimmed, input within the limit is only stripped. */
  lemma SanitizeTrimmed(input: string, t: string, maxLength: nat)
    requires Trim(input) == t && |t| <= maxLength
    ensures Sanitize(input, maxLength) == RemoveDangerous(t)
  {
  }

  /** The markup example: brackets go, the letters and the slash stay. */
  lemma SanitizeScriptTag()
    ensures Sanitize(" <b>Bob</b> ", 99) == "bBob/b"
  {
    var t := "<b>Bob</b>";
    assert " <b>Bob</b> " == " " + t + " ";
    TrimPadded(t);
    SanitizeTrimmed(" <b>Bob</b> ", t, 99);
    RemoveTags();
  }

  lemma RemoveTags()
    ensures RemoveDangerous("<b>Bob</b>") == "bBob/b"
  {
    RemoveOpen();
    RemoveClose();
    RemoveName();
    RemoveThree("<b>", "Bob", "</b>");
    assert "<b>Bob</b>" == "<b>" + "Bob" + "</b>";
  }

  lemma RemoveOpen()
    ensures RemoveDangerous("<b>") == "b"
  {
    assert "<b>"[1..] == "b>";
    assert "b>"[1..] == ">";
    assert ">"[1..] == "";
  }

  lemma RemoveClose()
    ensures RemoveDangerous("</b>") == "/b"
  {
    assert "</b>"[1..] == "/b>";
    assert "/b>"[1..] == "b>";
    assert "b>"[1..] == ">";
    assert ">"[1..] == "";
  }

  lemma RemoveName()
    ensures RemoveDangerous("Bob") == "Bob"
  {
  }

  lemma RemoveThree(x: string, y: string, z: string)
    requires RemoveDangerous(x) == "b" && RemoveDangerous(y) == "Bob" && RemoveDangerous(z) == "/b"
    ensures RemoveDangerous(x + y + z) == "bBob/b"
  {
    RemoveDangerousAppend(x + y, z);
    RemoveDangerousAppend(x, y);
    assert RemoveDangerous(x + y) == "b" + "Bob";
    assert ("b" + "Bob") + "/b" == "bBob/b";
  }

  /** Deletion happens after trimming, so a result can end in a blank. */
  lemma SanitizeTrailingBlank()
    ensures Sanitize("a <", 99) == "a "
  {
    assert TrimStart("a <") == "a <";
    assert TrimEnd("a <") == "a <";
    SanitizeTrimmed("a <", "a <", 99);
    assert "a <" == "a " + "<";
    RemoveDangerousAppend("a ", "<");
    assert RemoveDangerous("<") == "";
  }

  lemma TrimPadded(t: string)
    requires t != [] && !IsSpace(t[0]) && !IsSpace(t[|t| - 1])
    ensures Trim(" " + t + " ") == t
  {
    var s := " " + t + " ";
    assert s[1..] == t + " ";
    assert TrimStart(t + " ") == t + " ";
    assert (t + " ")[..|t|] == t;
    assert TrimEnd(t) == t;
  }

  /** Input that is already clean and short passes through unchanged. */
  lemma SanitizeClean(input: string, maxLength: nat)
    requires |input| <= maxLength
    requires forall i :: 0 <= i < |input| ==> !IsSpace(input[i]) && !Dangerous(input[i])
    ensures Sanitize(input, maxLength) == input
  {
  }

  // ---------------------------------------------------------------------
  // validateEmail

  /** One of the three parts of `/^[^\s@]+@[^\s@]+\.[^\s@]+$/`. */
  predicate Part(s: string) {
    forall i :: 0 <= i < |s| ==> !IsSpace(s[i]) && s[i] != '@'
  }

  /** The regular expression read literally: non-empty local part, `@`,
      non-empty part, `.`, non-empty part, with no blank or further `@`. */
  ghost predicate EmailPattern(e: string) {
    exists l, m :: PatternAt(e, l, m)
  }

  /** The match that puts the `@` at `l` and the separating `.` at `m`. */
  predicate PatternAt(e: string, l: int, m: int) {
    0 < l && l + 1 < m < |e| - 1 && e[l] == '@' && e[m] == '.' &&
    Part(e[..l]) && Part(e[l + 1..m]) && Part(e[m + 1..])
  }

  predicate NoBlank(e: string) {
    forall i :: 0 <= i < |e| ==> !IsSpace(e[i])
  }

  /** The same shape, checked directly: no blank, exactly one `@` that is not
      first, and a `.` strictly inside the part after it. */
  predicate EmailShape(e: string) {
    var l := IndexOf(e, '@');
    0 < l && l + 3 < |e| && NoBlank(e) && '@' !in e[l + 1..] && '.' in e[l + 2..|e| - 1]
  }

  /** `validateEmail`: the pattern matches and the address has at most 100
      characters. */
  function ValidateEmail(e: string): (ok: bool)
    ensures ok <==> EmailPattern(e) && |e| <= 100
  {
    EmailShapeIff(e);
    EmailShape(e) && |e| <= 100
  }

  lemma EmailShapeIff(e: string)
    ensures EmailShape(e) <==> EmailPattern(e)
  {
    if EmailShape(e) {
      var l, m := ShapeWitness(e);
    }
    if EmailPattern(e) {
      var l, m :| PatternAt(e, l, m);
      PatternShape(e, l, m);
    }
  }

  /** The positions of the `@` and of a `.` in a string of email shape. */
  lemma ShapeWitness(e: string) returns (l: int, m: int)
    requires EmailShape(e)
    ensures PatternAt(e, l, m)
  {
    l := IndexOf(e, '@');
    var tail := e[l + 2..|e| - 1];
    var k :| 0 <= k < |tail| && tail[k] == '.';
    m := l + 2 + k;
    assert e[m] == tail[k];
    var a, b, c := e[..l], e[l + 1..m], e[m + 1..];
    var after := e[l + 1..];
    forall i | 0 <= i < |a| ensures !IsSpace(a[i]) && a[i] != '@' {
      assert a[i] == e[i];
    }
    forall i | 0 <= i < |b| ensures !IsSpace(b[i]) && b[i] != '@' {
      assert b[i] == e[l + 1 + i] == after[i];
    }
    forall i | 0 <= i < |c| ensures !IsSpace(c[i]) && c[i] != '@' {
      assert c[i] == e[m + 1 + i] == after[m - l + i];
    }
  }

  lemma PatternShape(e: string, l: int, m: int)
    requires PatternAt(e, l, m)
    ensures EmailShape(e)
  {
    var a, b, c := e[..l], e[l + 1..m], e[m + 1..];
    assert forall i :: 0 <= i < l ==> e[i] == a[i];
    assert forall i :: l + 1 <= i < m ==> e[i] == b[i - l - 1];
    assert forall i :: m + 1 <= i < |e| ==> e[i] == c[i - m - 1];
    assert '@' !in e[..l] by {
      forall j | 0 <= j < l ensures e[..l][j] != '@' {
        assert e[..l][j] == a[j];
      }
    }
    IndexOfFirst(e, '@', l);
    assert NoBlank(e) by {
      forall i | 0 <= i < |e| ensures !IsSpace(e[i]) {
        if i < l {
        } else if i == l || i == m {
        } else if i < m {
        } else {
        }
      }
    }
    assert '@' !in e[l + 1..] by {
      var t := e[l + 1..];
      forall j | 0 <= j < |t| ensures t[j] != '@' {
        assert t[j] == e[l + 1 + j];
      }
    }
    assert e[l + 2..|e| - 1][m - l - 2] == '.';
  }

  // ---------------------------------------------------------------------
  // checkRateLimit

  /** `checkRateLimit`: nothing (or an empty string) stored means no limit;
      otherwise at least five minutes must have passed since the stored
      time. A stored value that is not a number gives `NaN`, and every
      comparison with `NaN` is false. */
  function CheckRateLimit(stored: Option<string>, now: int): (ok: bool)
    ensures !Truthy(stored) ==> ok
    ensures Truthy(stored) && ParseInt(stored.value).None? ==> !ok
    ensures Truthy(stored) && ok ==> now >= ParseInt(stored.value).value + 300000
  {
    if !Truthy(stored) then true
    else
      var t := ParseInt(stored.value);
      t.Some? && now - t.value >= RATE_LIMIT_MINUTES * 60000
  }

  /** After `updateRateLimit` stamped time `t`, a submission passes exactly
      when five minutes have elapsed. */
  lemma RateLimitWindow(t: nat, now: int)
    ensures CheckRateLimit(Some(NatToString(t)), now) <==> now >= t + 300000
  {
    ParseIntNatToString(t);
  }

  // ---------------------------------------------------------------------
  // The submitted-emails list

  /** `localStorage.getItem(SUBMITTED_EMAILS_KEY) || '[]'`. */
  function SubmittedText(local: map<string, string>): string {
    var v := Get(local, SUBMITTED_EMAILS_KEY);
    if Truthy(v) then v.value else "[]"
  }

  function Submitted(local: map<string, string>): Result<Value, Exception> {
    Parse(SubmittedText(local))
  }

  /** `v.includes(x)`: membership for an array, substring search for a
      string; any other value has no `includes` method. */
  function Includes(v: Value, x: string): (r: Result<bool, Exception>)
    ensures v.Arr? ==> r == Ok(Str(x) in v.items)
    ensures v.Str? ==> r == Ok(Contains(v.s, x))
    ensures !v.Arr? && !v.Str? ==> r == Err(TypeError)
  {
    if v.Arr? then Ok(Str(x) in v.items)
    else if v.Str? then Ok(Contains(v.s, x))
    else Err(TypeError)
  }

  /** `validateUniqueEmail` of src/lib/dataCollection.ts: is the lower-cased
      email already in the list? A list that does not parse throws. */
  function ValidateUniqueEmail(local: map<string, string>, email: string): (r: Result<bool, Exception>)
    ensures r.Err? ==> r.error == SyntaxError || r.error == TypeError
    ensures Submitted(local).Ok? && Submitted(local).value.Arr? ==>
              r == Ok(Str(Lower(email)) in Submitted(local).value.items)
  {
    var p := Submitted(local);
    if p.Err? then Err(p.error) else Includes(p.value, Lower(email))
  }

  /** The storage after `markEmailSubmitted(email)`: the lower-cased email is
      pushed onto the parsed list and the list is written back. Only an
      array has `push`. */
  function MarkEmailSubmitted(local: map<string, string>, email: string): (r: Result<map<string, string>, Exception>)
    ensures r.Ok? ==> r.value.Keys == local.Keys + {SUBMITTED_EMAILS_KEY}
    ensures r.Ok? ==> forall k :: k in local && k != SUBMITTED_EMAILS_KEY ==> r.value[k] == local[k]
  {
    var p := Submitted(local);
    if p.Err? then Err(p.error)
    else if !p.value.Arr? then Err(TypeError)
    else Ok(local[SUBMITTED_EMAILS_KEY := Ser(Arr(p.value.items + [Str(Lower(email))]))])
  }

  /** Marking appends exactly one entry at the end of the stored list. */
  lemma MarkAppends(local: map<string, string>, email: string)
    requires MarkEmailSubmitted(local, email).Ok?
    ensures Submitted(local).Ok? && Submitted(local).value.Arr?
    ensures Submitted(MarkEmailSubmitted(local, email).value) ==
      Ok(Arr(Submitted(local).value.items + [Str(Lower(email))]))
  {
    var items := Submitted(local).value.items;
    var list := Arr(items + [Str(Lower(email))]);
    assert NoUndefined(list) by {
      assert NoUndefined(Submitted(local).value);
    }
    ParseStringifyDefined(list);
    assert SubmittedText(MarkEmailSubmitted(local, email).value) == Ser(list);
  }

  /** After marking `email`, every address with the same lower-case form is
      reported as already submitted. */
  lemma MarkThenDuplicate(local: map<string, string>, email: string, again: string)
    requires MarkEmailSubmitted(local, email).Ok?
    requires Lower(again) == Lower(email)
    ensures ValidateUniqueEmail(MarkEmailSubmitted(local, email).value, again) == Ok(true)
  {
    MarkAppends(local, email);
    var items := Submitted(local).value.items + [Str(Lower(email))];
    assert items[|items| - 1] == Str(Lower(again));
  }

  /** The storage a completed registration leaves (the marked list, then
      the rate-limit stamp): the address is now a duplicate and the form is
      shut until five minutes have passed. */
  lemma RegisteredThenDuplicate(local: map<string, string>, email: string, now: nat, later: int)
    requires MarkEmailSubmitted(local, email).Ok?
    ensures var after := MarkEmailSubmitted(local, email).value[RATE_LIMIT_KEY := NatToString(now)];
      && ValidateUniqueEmail(after, email) == Ok(true)
      && (CheckRateLimit(Get(after, RATE_LIMIT_KEY), later) <==> later >= now + 300000)
  {
    var marked := MarkEmailSubmitted(local, email).value;
    var after := marked[RATE_LIMIT_KEY := NatToString(now)];
    MarkThenDuplicate(local, email, email);
    assert RATE_LIMIT_KEY != SUBMITTED_EMAILS_KEY by {
      assert RATE_LIMIT_KEY[0] != SUBMITTED_EMAILS_KEY[0];
    }
    assert SubmittedText(after) == SubmittedText(marked);
    RateLimitWindow(now, later);
  }

  /** An address already in the list stays there after another is marked. */
  lemma MarkKeepsDuplicates(local: map<string, string>, email: string, other: string)
    requires MarkEmailSubmitted(local, email).Ok?
    requires ValidateUniqueEmail(local, other) == Ok(true)
    ensures ValidateUniqueEmail(MarkEmailSubmitted(local, email).value, other) == Ok(true)
  {
    MarkAppends(local, email);
  }

  /** With nothing stored the list is empty and every address is new. */
  lemma FreshStorage(local: map<string, string>, email: string)
    requires SUBMITTED_EMAILS_KEY !in local
    ensures Submitted(local) == Ok(Arr([]))
    ensures ValidateUniqueEmail(local, email) == Ok(false)
  {
    assert SubmittedText(local) == "[]";
    assert ParseValue("[]") == Some((Arr([]), ""));
  }

  // ---------------------------------------------------------------------
  // hasDownloadPermission

  /** `getStoredEmail()` for a given cookie jar. */
  function StoredEmail(jar: seq<Cookie>): (e: Option<string>)
    ensures WellFormedJar(jar) ==> e == JarGet(jar, EMAIL_COOKIE_NAME)
  {
    if WellFormedJar(jar) then
      assert WellFormedName(EMAIL_COOKIE_NAME);
      CookieValueOfJar(jar, EMAIL_COOKIE_NAME);
      CookieValue(Render(jar), EMAIL_COOKIE_NAME)
    else CookieValue(Render(jar), EMAIL_COOKIE_NAME)
  }

  /** `hasDownloadPermission`: an email cookie, or a non-empty submitted
      list. `.length` of a parsed number or boolean is `undefined`, which
      is not greater than 0, and `null.length` throws. A parsed object also
      answers false here, although JavaScript would read its own `length`
      member. */
  function HasDownloadPermission(jar: seq<Cookie>, local: map<string, string>): (r: Result<bool, Exception>)
    ensures Truthy(StoredEmail(jar)) ==> r == Ok(true)
  {
    if Truthy(StoredEmail(jar)) then Ok(true)
    else
      var p := Submitted(local);
      if p.Err? then Err(p.error)
      else if p.value.Arr? then Ok(|p.value.items| > 0)
      else if p.value.Str? then Ok(|p.value.s| > 0)
      else if p.value.Null? then Err(TypeError)
      else Ok(false)
  }

  /** For a list stored as an array, permission is exactly "an email cookie
      or at least one submitted email". */
  lemma PermissionIff(jar: seq<Cookie>, local: map<string, string>)
    requires Submitted(local).Ok? && Submitted(local).value.Arr?
    ensures HasDownloadPermission(jar, local) == Ok(Truthy(StoredEmail(jar)) || |Submitted(local).value.items| > 0)
  {
  }

  /** Marking an email grants permission. */
  lemma PermissionAfterMark(jar: seq<Cookie>, local: map<string, string>, email: string)
    requires MarkEmailSubmitted(local, email).Ok?
    ensures HasDownloadPermission(jar, MarkEmailSubmitted(local, email).value) == Ok(true)
  {
    MarkAppends(local, email);
  }

  /** Storing a non-empty email cookie grants permission, whatever the
      storage holds. */
  lemma PermissionAfterEmailCookie(jar: seq<Cookie>, local: map<string, string>, email: string)
    requires WellFormedJar(jar)
    requires CutValue(email) != ""
    ensures HasDownloadPermission(SetJar(jar, EMAIL_COOKIE_NAME, email), local) == Ok(true)
  {
    SetJarWellFormed(jar, EMAIL_COOKIE_NAME, email);
    CookieValueOfJar(SetJar(jar, EMAIL_COOKIE_NAME, email), EMAIL_COOKIE_NAME);
    SetJarGet(jar, EMAIL_COOKIE_NAME, email, EMAIL_COOKIE_NAME);
  }

  /** Writing the device cookie leaves the stored email as it was. */
  lemma StoredEmailAfterDeviceCookie(jar: seq<Cookie>, id: string)
    requires WellFormedJar(jar)
    ensures StoredEmail(SetJar(jar, DEVICE_COOKIE_NAME, id)) == StoredEmail(jar)
  {
    SetJarWellFormed(jar, DEVICE_COOKIE_NAME, id);
    CookieValueOfJar(jar, EMAIL_COOKIE_NAME);
    CookieValueOfJar(SetJar(jar, DEVICE_COOKIE_NAME, id), EMAIL_COOKIE_NAME);
    SetJarGet(jar, DEVICE_COOKIE_NAME, id, EMAIL_COOKIE_NAME);
  }

  // ---------------------------------------------------------------------
  // The screening order of submitUserRegistration

  /** The four messages the checks throw are distinct, so a caller can
      tell which check failed. */
  lemma MessagesDistinct()
    ensures RATE_LIMIT_MESSAGE != INVALID_EMAIL_MESSAGE && RATE_LIMIT_MESSAGE != MISSING_FIELDS_MESSAGE
    ensures RATE_LIMIT_MESSAGE != DUPLICATE_MESSAGE && INVALID_EMAIL_MESSAGE != MISSING_FIELDS_MESSAGE
    ensures INVALID_EMAIL_MESSAGE != DUPLICATE_MESSAGE && MISSING_FIELDS_MESSAGE != DUPLICATE_MESSAGE
  {
    var rate, invalid, missing, duplicate := RATE_LIMIT_MESSAGE, INVALID_EMAIL_MESSAGE, MISSING_FIELDS_MESSAGE, DUPLICATE_MESSAGE;
    assert |rate| == 57 && |invalid| == 34 && |missing| == 34 && |duplicate| == 37;
    assert invalid[7] == 'e' && missing[7] == 'f';
  }

  datatype Form = Form(name: string, email: string, occupation: string, useCase: string)

  /** The `cleanData` object: each field sanitised to its own limit. */
  function CleanForm(f: Form): (d: Form)
    ensures |d.name| <= 99 && |d.email| <= 99 && |d.occupation| <= 49 && |d.useCase| <= 499
  {
    Form(Sanitize(f.name, 99), Sanitize(f.email, 99), Sanitize(f.occupation, 49), Sanitize(f.useCase, 499))
  }

  /** How a submission attempt ends before anything is written: rejected
      with an error, recognised as a returning user (and whether the email
      cookie must still be written), or cleared to proceed with the cleaned
      data. */
  datatype Verdict = Reject(error: Exception) | Returning(storeEmail: bool) | Proceed(data: Form)

  /** The checks of src/lib/dataCollection.ts in source order, given the
      outcome of the rate-limit check, the cleaned form, the outcome of the
      duplicate lookup and the stored email cookie: rate limit, email shape,
      duplicate or stored email, required fields. */
  function Decide(rateOk: bool, d: Form, unique: Result<bool, Exception>, storedEmail: Option<string>): (v: Verdict)
    ensures !rateOk ==> v == Reject(Error(RATE_LIMIT_MESSAGE))
    ensures rateOk && !ValidateEmail(d.email) ==> v == Reject(Error(INVALID_EMAIL_MESSAGE))
    ensures v.Returning? <==> rateOk && ValidateEmail(d.email) && unique.Ok? && (unique.value || Truthy(storedEmail))
    ensures v.Returning? ==> v.storeEmail == !Truthy(storedEmail)
    ensures v.Proceed? <==>
      && rateOk && ValidateEmail(d.email) && unique == Ok(false) && !Truthy(storedEmail)
      && d.name != "" && d.occupation != ""
    ensures v.Proceed? ==> v.data == d
  {
    if !rateOk then Reject(Error(RATE_LIMIT_MESSAGE))
    else if !ValidateEmail(d.email) then Reject(Error(INVALID_EMAIL_MESSAGE))
    else if unique.Err? then Reject(unique.error)
    else if unique.value || Truthy(storedEmail) then Returning(!Truthy(storedEmail))
    else if d.name == "" || d.email == "" || d.occupation == "" then Reject(Error(MISSING_FIELDS_MESSAGE))
    else Proceed(d)
  }

  /** `submitUserRegistration` of src/lib/dataCollection.ts up to its first
      write. */
  function Screen(local: map<string, string>, storedEmail: Option<string>, now: int, f: Form): (v: Verdict)
    ensures !CheckRateLimit(Get(local, RATE_LIMIT_KEY), now) ==> v == Reject(Error(RATE_LIMIT_MESSAGE))
    ensures v.Proceed? ==>
      && v.data == CleanForm(f) && ValidateEmail(v.data.email) && ValidateUniqueEmail(local, v.data.email) == Ok(false)
      && !Truthy(storedEmail) && v.data.name != "" && v.data.occupation != ""
    ensures v.Returning? ==> ValidateEmail(CleanForm(f).email) && (ValidateUniqueEmail(local, CleanForm(f).email) == Ok(true) || Truthy(storedEmail))
  {
    var d := CleanForm(f);
    Decide(CheckRateLimit(Get(local, RATE_LIMIT_KEY), now), d, ValidateUniqueEmail(local, d.email), storedEmail)
  }

  /** A returning user is recognised before the required fields are looked
      at: blank required fields do not stop the short cut. */
  lemma ReturningBeforeRequired(d: Form, unique: Result<bool, Exception>, storedEmail: Option<string>)
    requires ValidateEmail(d.email) && unique.Ok? && (unique.value || Truthy(storedEmail))
    ensures Decide(true, d.(name := "", occupation := ""), unique, storedEmail) == Returning(!Truthy(storedEmail))
  {
  }

  /** The checks of src/lib/dataCollectionOptimized.ts: the same order, but a
      listed email throws instead of short-cutting, and no email cookie is
      consulted. */
  function DecideStrict(rateOk: bool, d: Form, unique: Result<bool, Exception>): (v: Verdict)
    ensures !v.Returning?
    ensures !rateOk ==> v == Reject(Error(RATE_LIMIT_MESSAGE))
    ensures rateOk && ValidateEmail(d.email) && unique == Ok(true) ==> v == Reject(Error(DUPLICATE_MESSAGE))
    ensures v.Proceed? <==>
      && rateOk && ValidateEmail(d.email) && unique == Ok(false)
      && d.name != "" && d.occupation != ""
    ensures v.Proceed? ==> v.data == d
  {
    if !rateOk then Reject(Error(RATE_LIMIT_MESSAGE))
    else if !ValidateEmail(d.email) then Reject(Error(INVALID_EMAIL_MESSAGE))
    else if unique.Err? then Reject(unique.error)
    else if unique.value then Reject(Error(DUPLICATE_MESSAGE))
    else if d.name == "" || d.email == "" || d.occupation == "" then Reject(Error(MISSING_FIELDS_MESSAGE))
    else Proceed(d)
  }

  /** `submitUserRegistration` of src/lib/dataCollectionOptimized.ts up to
      its first write. */
  function ScreenStrict(local: map<string, string>, now: int, f: Form): (v: Verdict)
    ensures !v.Returning?
    ensures !CheckRateLimit(Get(local, RATE_LIMIT_KEY), now) ==> v == Reject(Error(RATE_LIMIT_MESSAGE))
    ensures v.Proceed? ==>
      && v.data == CleanForm(f) && ValidateEmail(v.data.email) && ValidateUniqueEmail(local, v.data.email) == Ok(false)
      && v.data.name != "" && v.data.occupation != ""
  {
    var d := CleanForm(f);
    DecideStrict(CheckRateLimit(Get(local, RATE_LIMIT_KEY), now), d, ValidateUniqueEmail(local, d.email))
  }

  /** Where the main module lets a listed email through as a returning user,
      the older module throws the duplicate error; on every other input the
      two agree once no email cookie is stored. */
  lemma DecideVariants(rateOk: bool, d: Form, unique: Result<bool, Exception>)
    ensures Decide(rateOk, d, unique, None).Returning? ==> DecideStrict(rateOk, d, unique) == Reject(Error(DUPLICATE_MESSAGE))
    ensures !Decide(rateOk, d, unique, None).Returning? ==> Decide(rateOk, d, unique, None) == DecideStrict(rateOk, d, unique)
  {
  }
}
