/**
 * The authentication state (src/composables/auth.js): a fixed-credential
 * login, sign-in through Firebase, logout, and a session persisted in
 * browser storage for seven days. The clock reading `now` (milliseconds) and
 * the storage are parameters; `JSON.stringify`/`JSON.parse` of the stored
 * payload are taken to give back the value written.
 */
module Auth {
  import opened Wrappers
  import opened JsValues
  import opened Strings

  const StorageKey := "health-charity-app:authUser"
  const StorageDurationMs: real := (7 * 24 * 60 * 60 * 1000) as real
  const AdminUsername := "admin"
  const AdminPassword := "12345"
  const FirebaseFallbackName := "Firebase user"
  const FirebaseProvider := "firebase"

  /** What `localStorage.getItem(StorageKey)` yields: nothing (or an empty string), text that is not JSON, or a JSON value. */
  datatype Entry = Missing | Unparsable | Json(value: JsValue)

  /** The browser's storage; `Unavailable` outside a browser, where every storage step does nothing. */
  datatype Storage = Unavailable | Available(entry: Entry)

  /** `state.user` (`Null` when signed out, an object otherwise) and the storage that mirrors it. */
  datatype AuthState = AuthState(user: JsValue, storage: Storage)

  /** The fields of a Firebase user the composable reads. */
  datatype FirebaseUser = FirebaseUser(displayName: Option<string>, email: Option<string>, uid: string)

  /** `state.user` is `null` or an object. */
  predicate IsUserValue(u: JsValue) {
    u == Null || IsObject(u)
  }

  /** `clearPersistedUser()` */
  function ClearPersistedUser(storage: Storage): (r: Storage)
    ensures r.Unavailable? <==> storage.Unavailable?
    ensures r.Available? ==> r.entry.Missing?
  {
    if storage.Unavailable? then Unavailable else Available(Missing)
  }

  /** `persistUser(user)` at clock reading `now`: the user with an expiry seven days ahead, or a cleared entry. */
  function PersistUser(storage: Storage, user: JsValue, now: real): (r: Storage)
    ensures storage.Unavailable? ==> r == Unavailable
    ensures storage.Available? && !Truthy(user) ==> r == Available(Missing)
    ensures storage.Available? && Truthy(user) ==>
              && r.Available? && r.entry.Json?
              && Get(r.entry.value, "user") == user
              && Get(r.entry.value, "expiresAt") == Num(now + StorageDurationMs)
  {
    if storage.Unavailable? then Unavailable
    else if !Truthy(user) then ClearPersistedUser(storage)
    else Available(Json(Obj(map["user" := user, "expiresAt" := Num(now + StorageDurationMs)])))
  }

  /** A stored value is a session still valid at `now`: an object with a numeric, unexpired `expiresAt` and an object `user`. */
  predicate IsLiveSession(v: JsValue, now: real) {
    && Truthy(v) && IsObject(v)
    && Get(v, "expiresAt").Num? && Get(v, "expiresAt").n >= now
    && Truthy(Get(v, "user")) && IsObject(Get(v, "user"))
  }

  datatype Loaded = Loaded(user: JsValue, storage: Storage)

  /** `loadPersistedUser()` at clock reading `now`: the stored user, or `null` with any invalid entry cleared. */
  function LoadPersistedUser(storage: Storage, now: real): (r: Loaded)
    ensures IsUserValue(r.user)
    ensures storage.Available? && storage.entry.Json? && IsLiveSession(storage.entry.value, now) ==>
              r == Loaded(Get(storage.entry.value, "user"), storage)
    ensures !(storage.Available? && storage.entry.Json? && IsLiveSession(storage.entry.value, now)) ==>
              r.user == Null
    ensures storage.Unavailable? || storage.entry.Missing? ==> r.storage == storage
    ensures storage.Available? && !storage.entry.Missing? && r.user == Null ==> r.storage == Available(Missing)
  {
    match storage
    case Unavailable => Loaded(Null, storage)
    case Available(Missing) => Loaded(Null, storage)
    case Available(Unparsable) => Loaded(Null, ClearPersistedUser(storage))
    case Available(Json(parsed)) =>
      if !Truthy(parsed) || !IsObject(parsed) then Loaded(Null, ClearPersistedUser(storage))
      else
        var user := Get(parsed, "user");
        var expiresAt := Get(parsed, "expiresAt");
        if !expiresAt.Num? || expiresAt.n < now then Loaded(Null, ClearPersistedUser(storage))
        else if !Truthy(user) || !IsObject(user) then Loaded(Null, ClearPersistedUser(storage))
        else Loaded(user, storage)
  }

  /** After clearing, no user is loaded at any time and storage is left as cleared. */
  lemma ClearThenLoad(storage: Storage, now: real)
    ensures LoadPersistedUser(ClearPersistedUser(storage), now) == Loaded(Null, ClearPersistedUser(storage))
  {
  }

  /** A user persisted at time `t` is read back unchanged up to `t` plus seven days, and dropped after that. */
  lemma PersistThenLoad(storage: Storage, user: JsValue, t: real, now: real)
    requires storage.Available? && IsObject(user)
    ensures now <= t + StorageDurationMs ==>
              LoadPersistedUser(PersistUser(storage, user, t), now) == Loaded(user, PersistUser(storage, user, t))
    ensures now > t + StorageDurationMs ==>
              LoadPersistedUser(PersistUser(storage, user, t), now) == Loaded(Null, Available(Missing))
  {
    var stored := PersistUser(storage, user, t);
    assert IsLiveSession(stored.entry.value, now) <==> now <= t + StorageDurationMs;
  }

  /** The state the composable starts in: whatever session storage still holds. */
  function InitialState(storage: Storage, now: real): (st: AuthState)
    ensures IsUserValue(st.user)
    ensures StorageMirrorsUser(st)
    ensures st.user == LoadPersistedUser(storage, now).user && st.storage == LoadPersistedUser(storage, now).storage
  {
    var loaded := LoadPersistedUser(storage, now);
    AuthState(loaded.user, loaded.storage)
  }

  /** A session persisted at time `t` is where the composable starts when it is set up again within seven days. */
  lemma PersistThenStart(storage: Storage, user: JsValue, t: real, now: real)
    requires storage.Available? && IsObject(user) && now <= t + StorageDurationMs
    ensures InitialState(PersistUser(storage, user, t), now).user == user
  {
    PersistThenLoad(storage, user, t, now);
  }

  /** Storage holds exactly the signed-in user: a cleared entry when signed out, the user's record otherwise. */
  predicate StorageMirrorsUser(st: AuthState) {
    || st.storage.Unavailable?
    || (st.user == Null && st.storage.entry.Missing?)
    || (st.user != Null && st.storage.entry.Json? && Get(st.storage.entry.value, "user") == st.user)
  }

  datatype LoginOutcome = LoginOutcome(success: bool, state: AuthState)

  /** `login(username, password)` at clock reading `now`. */
  function Login(st: AuthState, username: string, password: string, now: real): (r: LoginOutcome)
    ensures r.success <==> username == AdminUsername && password == AdminPassword
    ensures !r.success ==> r.state == st
    ensures r.success ==> && r.state.user == Obj(map["username" := Str(username)])
                          && r.state.user != Null
                          && StorageMirrorsUser(r.state)
    ensures r.success ==> r.state.storage == PersistUser(st.storage, r.state.user, now)
  {
    if username == AdminUsername && password == AdminPassword then
      var user := Obj(map["username" := Str(username)]);
      LoginOutcome(true, AuthState(user, PersistUser(st.storage, user, now)))
    else LoginOutcome(false, st)
  }

  /** A successful login survives a reload within seven days: the reloaded composable starts signed in as the same user. */
  lemma LoginThenReload(st: AuthState, username: string, password: string, t: real, now: real)
    requires st.storage.Available? && now <= t + StorageDurationMs
    ensures var r := Login(st, username, password, t);
            r.success ==> InitialState(r.state.storage, now).user == r.state.user
  {
    var r := Login(st, username, password, t);
    if r.success {
      PersistThenStart(st.storage, r.state.user, t, now);
    }
  }

  /** `email.split('@')[0]`: the text before the first `@`, or all of it when there is none. */
  function LocalPart(email: string): (r: string)
    ensures r <= email
    ensures '@' !in r
    ensures r == email || email[|r|] == '@'
  {
    if '@' in email then email[..IndexOf(email, '@')] else email
  }

  /** `deriveUsernameFromFirebase(user)` */
  function DeriveUsernameFromFirebase(user: Option<FirebaseUser>): (r: string)
    ensures r != ""
    ensures user.None? ==> r == FirebaseFallbackName
    ensures user.Some? && user.value.displayName.Some? && Trim(user.value.displayName.value) != "" ==>
              r == Trim(user.value.displayName.value)
    ensures user.Some? && (user.value.displayName.None? || Trim(user.value.displayName.value) == "") ==>
              var email := user.value.email;
              && (email.Some? && Trim(email.value) != "" ==>
                    (r == LocalPart(Trim(email.value)) && r != "") || (r == Trim(email.value) && r[0] == '@'))
              && (email.None? || Trim(email.value) == "" ==> r == FirebaseFallbackName)
  {
    match user
    case None => FirebaseFallbackName
    case Some(u) =>
      if u.displayName.Some? && Trim(u.displayName.value) != "" then Trim(u.displayName.value)
      else if u.email.Some? && Trim(u.email.value) != "" then
        var email := Trim(u.email.value);
        var namePart := LocalPart(email);
        if namePart != "" then namePart else email
      else FirebaseFallbackName
  }

  /** The `state.user` record of a Firebase sign-in. */
  function FirebaseUserRecord(user: FirebaseUser): JsValue {
    Obj(map[
      "username" := Str(DeriveUsernameFromFirebase(Some(user))),
      "email" := if user.email.Some? && user.email.value != "" then Str(user.email.value) else Null,
      "uid" := Str(user.uid),
      "provider" := Str(FirebaseProvider)])
  }

  /** `loginWithFirebase(user)` at clock reading `now`. */
  function LoginWithFirebase(st: AuthState, user: Option<FirebaseUser>, now: real): (r: AuthState)
    ensures user.None? ==> r.user == Null && r.storage == ClearPersistedUser(st.storage)
    ensures user.Some? ==>
              && Get(r.user, "provider") == Str(FirebaseProvider)
              && Get(r.user, "username") == Str(DeriveUsernameFromFirebase(user))
              && Get(r.user, "uid") == Str(user.value.uid)
              && (user.value.email.Some? && user.value.email.value != "" ==> Get(r.user, "email") == Str(user.value.email.value))
              && (user.value.email.None? || user.value.email.value == "" ==> Get(r.user, "email") == Null)
    ensures IsUserValue(r.user) && StorageMirrorsUser(r)
    ensures user.Some? ==> r.storage == PersistUser(st.storage, r.user, now)
  {
    match user
    case None => AuthState(Null, PersistUser(st.storage, Null, now))
    case Some(u) =>
      var record := FirebaseUserRecord(u);
      AuthState(record, PersistUser(st.storage, record, now))
  }

  /** A Firebase sign-in survives a reload within seven days: the reloaded composable starts with the same user record. */
  lemma FirebaseLoginThenReload(st: AuthState, user: FirebaseUser, t: real, now: real)
    requires st.storage.Available? && now <= t + StorageDurationMs
    ensures InitialState(LoginWithFirebase(st, Some(user), t).storage, now).user == FirebaseUserRecord(user)
  {
    PersistThenStart(st.storage, FirebaseUserRecord(user), t, now);
  }

  /** `logout()`; the Firebase `signOut` call it starts is outside the model. */
  function Logout(st: AuthState, now: real): (r: AuthState)
    ensures r.user == Null
    ensures r.storage == ClearPersistedUser(st.storage)
  {
    AuthState(Null, PersistUser(st.storage, Null, now))
  }

  /** The `onAuthStateChanged` listener: a signed-out event ends only a Firebase session. */
  function OnAuthStateChanged(st: AuthState, user: Option<FirebaseUser>, now: real): (r: AuthState)
    ensures user.Some? ==> r == LoginWithFirebase(st, user, now)
    ensures user.None? && Get(st.user, "provider") == Str(FirebaseProvider) ==>
              r.user == Null && r.storage == ClearPersistedUser(st.storage)
    ensures user.None? && Get(st.user, "provider") != Str(FirebaseProvider) ==> r == st
  {
    if user.Some? then LoginWithFirebase(st, user, now)
    else if Get(st.user, "provider") == Str(FirebaseProvider) then AuthState(Null, PersistUser(st.storage, Null, now))
    else st
  }

  /** `isAuthenticated`: someone is signed in; in every state the composable reaches, that is an object user. */
  predicate IsAuthenticated(st: AuthState)
    ensures IsUserValue(st.user) ==> (IsAuthenticated(st) <==> IsObject(st.user))
  {
    st.user != Null
  }

  /** The inputs the composable reacts to. */
  datatype AuthEvent =
    | LoginAttempt(username: string, password: string)
    | AuthChanged(firebaseUser: Option<FirebaseUser>)
    | LogoutRequested

  datatype TimedEvent = TimedEvent(event: AuthEvent, at: real)

  /** One reaction of the composable to an input. */
  function Step(st: AuthState, e: TimedEvent): (r: AuthState)
    ensures e.event.LogoutRequested? ==> !IsAuthenticated(r)
    ensures e.event.AuthChanged? && e.event.firebaseUser.Some? ==> IsAuthenticated(r)
    ensures e.event.LoginAttempt? && e.event.username == AdminUsername && e.event.password == AdminPassword ==>
              IsAuthenticated(r)
    ensures e.event.LoginAttempt? && !(e.event.username == AdminUsername && e.event.password == AdminPassword) ==>
              r == st
  {
    match e.event
    case LoginAttempt(username, password) => Login(st, username, password, e.at).state
    case AuthChanged(user) => OnAuthStateChanged(st, user, e.at)
    case LogoutRequested => Logout(st, e.at)
  }

  /** The state after reacting to `events` in order. */
  function Run(st: AuthState, events: seq<TimedEvent>): AuthState
    decreases |events|
  {
    if events == [] then st else Run(Step(st, events[0]), events[1..])
  }

  /** Every reaction keeps `state.user` null-or-object and keeps storage mirroring it. */
  lemma StepKeepsInvariant(st: AuthState, e: TimedEvent)
    requires IsUserValue(st.user) && StorageMirrorsUser(st)
    ensures IsUserValue(Step(st, e).user) && StorageMirrorsUser(Step(st, e))
  {
  }

  /** From the initial state on, whatever happens, storage holds exactly the signed-in user. */
  lemma {:induction false} RunKeepsInvariant(st: AuthState, events: seq<TimedEvent>)
    requires IsUserValue(st.user) && StorageMirrorsUser(st)
    ensures IsUserValue(Run(st, events).user) && StorageMirrorsUser(Run(st, events))
    decreases |events|
  {
    if events != [] {
      StepKeepsInvariant(st, events[0]);
      RunKeepsInvariant(Step(st, events[0]), events[1..]);
    }
  }
}
