/** The `useDownloadPermission` hook of src/hooks/useDownloadPermission.ts:
    two pieces of React state, `hasPermission` and `userData`, kept in step
    with two local-storage keys and, failing those, with the registration
    record of src/lib/dataCollection.ts. */
module Permission {
  import opened Wrappers
  import opened Json
  import opened Browser
  import opened Sessions
  import Guard
  import Collection

  const USER_DATA_KEY := "gta-user-data"
  const PERMISSION_KEY := "gta-download-permission"
  const PLACEHOLDER_NAME := "Registered User"
  const PLACEHOLDER_OCCUPATION := "Previous Registrant"

  /** A `UserData` object; a missing `useCase` is no property at all. */
  datatype UserData = UserData(name: string, email: string, occupation: string, useCase: Option<string>, submittedAt: string)

  function UserValue(u: UserData): (v: Value)
    ensures v.Obj? && NoUndefined(v)
  {
    Obj([Member("name", Str(u.name)), Member("email", Str(u.email)), Member("occupation", Str(u.occupation))]
        + (if u.useCase.Some? then [Member("useCase", Str(u.useCase.value))] else [])
        + [Member("submittedAt", Str(u.submittedAt))])
  }

  /** The stand-in user built from a registered email. */
  function Placeholder(email: string, env: Env): (u: UserData)
    ensures u.email == email && u.name == PLACEHOLDER_NAME && u.occupation == PLACEHOLDER_OCCUPATION
    ensures u.useCase.None? && u.submittedAt == env.isoNow
  {
    UserData(PLACEHOLDER_NAME, email, PLACEHOLDER_OCCUPATION, None, env.isoNow)
  }

  /** The storage claims permission: user data that is not empty and the
      permission flag exactly `'true'`. */
  predicate LocalClaim(local: map<string, string>) {
    Truthy(Get(local, USER_DATA_KEY)) && Get(local, PERMISSION_KEY) == Some("true")
  }

  /** Local storage after `grantPermission`. */
  function Granted(local: map<string, string>, u: UserData): map<string, string> {
    local[USER_DATA_KEY := Ser(UserValue(u))][PERMISSION_KEY := "true"]
  }

  /** Local storage after `revokePermission`, and after the initial check
      throws away data it cannot parse. */
  function Revoked(local: map<string, string>): map<string, string> {
    local - {USER_DATA_KEY} - {PERMISSION_KEY}
  }

  /** After a grant the storage claims permission and holds the user as
      given: any later check reads back exactly that user. */
  lemma GrantedReadsBack(local: map<string, string>, u: UserData)
    ensures LocalClaim(Granted(local, u))
    ensures Parse(Granted(local, u)[USER_DATA_KEY]) == Ok(UserValue(u))
    ensures forall k :: k in local && k != USER_DATA_KEY && k != PERMISSION_KEY ==> Granted(local, u)[k] == local[k]
  {
    ParseStringifyDefined(UserValue(u));
    assert Ser(UserValue(u))[0] == '{';
    assert USER_DATA_KEY[4] != PERMISSION_KEY[4];
  }

  /** After a revoke the storage claims nothing, and only the two keys are
      gone. */
  lemma RevokedClaimsNothing(local: map<string, string>)
    ensures !LocalClaim(Revoked(local))
    ensures USER_DATA_KEY !in Revoked(local) && PERMISSION_KEY !in Revoked(local)
    ensures forall k :: k in local && k != USER_DATA_KEY && k != PERMISSION_KEY ==> k in Revoked(local) && Revoked(local)[k] == local[k]
  {
  }

  /** `getStoredRegistrationInfo()`: the stored email and the device id,
      which is created (and its cookie written) when none is stored. */
  method StoredRegistrationInfo(store: Storage, env: Env) returns (email: Option<string>, deviceId: string)
    requires store.Valid()
    modifies store
    ensures store.Valid()
    ensures email == Collection.StoredEmailOf(old(store.jar))
    ensures deviceId == Collection.DeviceIdFor(old(store.jar), env)
    ensures store.jar == Collection.DeviceJar(old(store.jar), env)
    ensures store.local == old(store.local) && store.tab == old(store.tab)
  {
    Collection.CookieNames();
    email := store.ReadCookie(Guard.EMAIL_COOKIE_NAME);
    var c := store.ReadCookie(Guard.DEVICE_COOKIE_NAME);
    if Truthy(c) {
      deviceId := c.value;
    } else {
      deviceId := DeviceIdOf(env);
      store.SetCookie(Guard.DEVICE_COOKIE_NAME, deviceId);
    }
  }

  /** What the registration record grants, given the storage the hook has
      reached: an error when `hasDownloadPermission` throws, nothing when
      it says no or there is no stored email, else the placeholder user. */
  function Fallback(jar: seq<Cookie>, local: map<string, string>, env: Env): (r: Result<Option<UserData>, Exception>)
    requires WellFormedJar(jar)
    ensures r.Ok? && r.value.Some? <==>
      Guard.HasDownloadPermission(jar, local) == Ok(true) && Truthy(Collection.StoredEmailOf(jar))
    ensures r.Ok? && r.value.Some? ==> r.value.value == Placeholder(Collection.StoredEmailOf(jar).value, env)
    ensures Truthy(Collection.StoredEmailOf(jar)) ==> r.Ok?
  {
    Collection.DeviceCookieRead(jar);
    var h := Guard.HasDownloadPermission(jar, local);
    if h.Err? then Err(h.error)
    else if h.value && Truthy(Collection.StoredEmailOf(jar)) then Ok(Some(Placeholder(Collection.StoredEmailOf(jar).value, env)))
    else Ok(None)
  }

  /** What `checkPermissions` answers after asking the record. */
  function Granting(f: Result<Option<UserData>, Exception>): (r: Result<bool, Exception>)
    ensures r.Ok? <==> f.Ok?
    ensures r == Ok(true) <==> f.Ok? && f.value.Some?
  {
    if f.Err? then Err(f.error) else Ok(f.value.Some?)
  }

  /** The state of one component using the hook. */
  class DownloadPermission {
    const store: Storage
    var hasPermission: bool
    /** `null` until a user is known. */
    var userData: Value

    constructor(browser: Storage)
      ensures store == browser && !hasPermission && userData == Null
    {
      store, hasPermission, userData := browser, false, Null;
    }

    /** The effect of asking the registration record: a placeholder user
        granted, or the state left as it was; the device cookie is written
        once `hasDownloadPermission` says yes. */
    ghost predicate FellBack(jar0: seq<Cookie>, local1: map<string, string>, tab0: map<string, string>, env: Env,
                             hasPermission0: bool, userData0: Value)
      requires WellFormedJar(jar0)
      reads this, store
    {
      var f := Fallback(jar0, local1, env);
      && store.local == local1 && store.tab == tab0
      && (f.Ok? && f.value.Some? ==> hasPermission && userData == UserValue(f.value.value))
      && (!(f.Ok? && f.value.Some?) ==> hasPermission == hasPermission0 && userData == userData0)
      && (Guard.HasDownloadPermission(jar0, local1) != Ok(true) ==> store.jar == jar0)
      && (Guard.HasDownloadPermission(jar0, local1) == Ok(true) ==> store.jar == Collection.DeviceJar(jar0, env))
    }

    /** The second half of both checks: ask the registration record. */
    method ConsultRecord(env: Env) returns (granted: Result<bool, Exception>)
      requires store.Valid()
      modifies this, store
      ensures store.Valid()
      ensures FellBack(old(store.jar), old(store.local), old(store.tab), env, old(hasPermission), old(userData))
      ensures granted == Granting(Fallback(old(store.jar), old(store.local), env))
    {
      Collection.DeviceCookieRead(store.jar);
      var h := Guard.HasDownloadPermission(store.jar, store.local);
      if h.Err? {
        return Err(h.error);
      }
      if !h.value {
        return Ok(false);
      }
      var email, deviceId := StoredRegistrationInfo(store, env);
      if Truthy(email) {
        userData := UserValue(Placeholder(email.value, env));
        hasPermission := true;
        return Ok(true);
      }
      return Ok(false);
    }

    /** `checkPermissions`, run once when the component mounts: stored user
        data with the flag set grants permission; data that does not parse
        is removed with the flag; then the registration record is asked. */
    method CheckPermissions(env: Env) returns (granted: Result<bool, Exception>)
      requires store.Valid()
      modifies this, store
      ensures store.Valid()
      ensures var local0 := old(store.local);
        && (LocalClaim(local0) && Parse(local0[USER_DATA_KEY]).Ok? ==>
              && granted == Ok(true) && hasPermission && userData == Parse(local0[USER_DATA_KEY]).value
              && store.local == local0 && store.jar == old(store.jar) && store.tab == old(store.tab))
        && (LocalClaim(local0) && Parse(local0[USER_DATA_KEY]).Err? ==>
              && FellBack(old(store.jar), Revoked(local0), old(store.tab), env, old(hasPermission), old(userData))
              && granted == Granting(Fallback(old(store.jar), Revoked(local0), env)))
        && (!LocalClaim(local0) ==>
              && FellBack(old(store.jar), local0, old(store.tab), env, old(hasPermission), old(userData))
              && granted == Granting(Fallback(old(store.jar), local0, env)))
    {
      var storedUserData := store.GetItem(USER_DATA_KEY);
      var storedPermission := store.GetItem(PERMISSION_KEY);
      if Truthy(storedUserData) && storedPermission == Some("true") {
        var parsed := Parse(storedUserData.value);
        if parsed.Ok? {
          userData := parsed.value;
          hasPermission := true;
          return Ok(true);
        }
        store.RemoveItem(USER_DATA_KEY);
        store.RemoveItem(PERMISSION_KEY);
      }
      granted := ConsultRecord(env);
    }

    /** `grantPermission`. */
    method GrantPermission(u: UserData)
      modifies this, store
      ensures store.local == Granted(old(store.local), u)
      ensures hasPermission && userData == UserValue(u)
      ensures store.jar == old(store.jar) && store.tab == old(store.tab)
    {
      store.SetItem(USER_DATA_KEY, Ser(UserValue(u)));
      store.SetItem(PERMISSION_KEY, "true");
      userData := UserValue(u);
      hasPermission := true;
    }

    /** `revokePermission`. */
    method RevokePermission()
      modifies this, store
      ensures store.local == Revoked(old(store.local))
      ensures !hasPermission && userData == Null
      ensures store.jar == old(store.jar) && store.tab == old(store.tab)
    {
      store.RemoveItem(USER_DATA_KEY);
      store.RemoveItem(PERMISSION_KEY);
      userData := Null;
      hasPermission := false;
    }

    /** `refreshPermissions`: as the check, except that data that does not
        parse only withdraws permission (the keys stay), and the record is
        asked only when the storage claims nothing. */
    method RefreshPermissions(env: Env) returns (r: Result<(), Exception>)
      requires store.Valid()
      modifies this, store
      ensures store.Valid()
      ensures store.local == old(store.local)
      ensures var local0 := old(store.local);
        && (LocalClaim(local0) && Parse(local0[USER_DATA_KEY]).Ok? ==>
              && r.Ok? && hasPermission && userData == Parse(local0[USER_DATA_KEY]).value && store.jar == old(store.jar))
        && (LocalClaim(local0) && Parse(local0[USER_DATA_KEY]).Err? ==>
              && r.Ok? && !hasPermission && userData == old(userData) && store.jar == old(store.jar))
        && (!LocalClaim(local0) ==>
              && FellBack(old(store.jar), local0, old(store.tab), env, old(hasPermission), old(userData))
              && r == (var f := Fallback(old(store.jar), local0, env); if f.Ok? then Ok(()) else Err(f.error)))
      ensures !(LocalClaim(old(store.local)) && Parse(old(store.local)[USER_DATA_KEY]).Err?) ==>
        (old(hasPermission) ==> hasPermission)
    {
      var storedUserData := store.GetItem(USER_DATA_KEY);
      var storedPermission := store.GetItem(PERMISSION_KEY);
      if Truthy(storedUserData) && storedPermission == Some("true") {
        var parsed := Parse(storedUserData.value);
        if parsed.Ok? {
          userData := parsed.value;
          hasPermission := true;
        } else {
          hasPermission := false;
        }
        return Ok(());
      }
      var g := ConsultRecord(env);
      r := if g.Ok? then Ok(()) else Err(g.error);
    }
  }
}
