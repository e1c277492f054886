/** The client session of frontend/src/app/lib/auth-context.tsx: the provider's
    state (token, user profile, loading flag), its `login`, `logout` and boot
    sequence, and the request headers it derives. The two server calls are
    oracles (`loginCall` yields the access token, `profileCall` the profile;
    `None` covers a non-ok answer, a thrown fetch and a body without the
    field), local storage is a string map, and each operation also returns the
    calls it made, in order. */
module Session {
  import opened Common

  datatype Profile = Profile(id: string, email: string, role: string, workspaceId: string)

  datatype State = State(token: string, user: Option<Profile>, isLoading: bool)

  type Storage = map<string, string>

  /** A server call, as the trace records it. */
  datatype Call = LoginCall(email: string, password: string) | ProfileCall(token: string)

  type LoginOracle = (string, string) -> Option<string>
  type ProfileOracle = string -> Option<Profile>

  const TokenKey: string := "access_token"
  const EmailKey: string := "owner_email"
  const PasswordKey: string := "owner_password"
  const DefaultEmail: string := "dhkwon@dgist.ac.kr"
  const DefaultPassword: string := "asdf"

  /** The state a provider mounts with. */
  const Initial: State := State("", None, true)

  /** `isAuthenticated`: a non-empty token and a profile. */
  predicate IsAuthenticated(s: State) {
    s.token != "" && s.user.Some?
  }

  /** `headers`: always both entries, the token spliced in even when empty. */
  function Headers(s: State): (r: seq<(string, string)>)
    ensures |r| == 2 && r[0] == ("Content-Type", "application/json")
    ensures r[1].0 == "Authorization" && |r[1].1| >= 7 && r[1].1[..7] == "Bearer " && r[1].1[7..] == s.token
  {
    [("Content-Type", "application/json"), ("Authorization", "Bearer " + s.token)]
  }

  /** `localStorage.getItem(key) || fallback`: a missing or empty entry gives the
      fallback. */
  function StoredOr(st: Storage, key: string, fallback: string): (r: string)
    ensures key in st && st[key] != "" ==> r == st[key]
    ensures (key !in st || st[key] == "") ==> r == fallback
  {
    if key in st && st[key] != "" then st[key] else fallback
  }

  /** A session change: the new state, the new storage, the calls made. */
  datatype Step = Step(state: State, storage: Storage, calls: seq<Call>)

  /** `login(email, password)`, together with its boolean answer. */
  function Login(s: State, st: Storage, email: string, password: string,
                 loginCall: LoginOracle, profileCall: ProfileOracle): (r: (Step, bool))
    ensures r.1 <==> loginCall(email, password).Some? && loginCall(email, password).value != ""
                     && profileCall(loginCall(email, password).value).Some?
    ensures !r.1 ==> r.0.state == s && r.0.storage == st
    ensures r.1 ==> var t := loginCall(email, password).value;
      && r.0.state == s.(token := t, user := profileCall(t))
      && IsAuthenticated(r.0.state)
      && r.0.storage == st[TokenKey := t][EmailKey := email][PasswordKey := password]
    ensures |r.0.calls| >= 1 && r.0.calls[0] == LoginCall(email, password)
  {
    match loginCall(email, password)
    case None => (Step(s, st, [LoginCall(email, password)]), false)
    case Some(t) =>
      if t == "" then (Step(s, st, [LoginCall(email, password)]), false)
      else match profileCall(t)
        case None => (Step(s, st, [LoginCall(email, password), ProfileCall(t)]), false)
        case Some(p) =>
          (Step(s.(token := t, user := Some(p)),
                st[TokenKey := t][EmailKey := email][PasswordKey := password],
                [LoginCall(email, password), ProfileCall(t)]), true)
  }

  /** `logout()`: only the token entry leaves storage. */
  function Logout(s: State, st: Storage): (r: Step)
    ensures !IsAuthenticated(r.state) && r.state.token == "" && r.state.user.None?
    ensures r.state.isLoading == s.isLoading
    ensures TokenKey !in r.storage
    ensures forall k :: k in st && k != TokenKey ==> k in r.storage && r.storage[k] == st[k]
    ensures r.storage.Keys <= st.Keys
    ensures r.calls == []
  {
    Step(s.(token := "", user := None), st - {TokenKey}, [])
  }

  /** Step 2 of `boot`: one login with the saved or the default credentials. */
  function AutoLogin(s: State, st: Storage, loginCall: LoginOracle, profileCall: ProfileOracle): (r: Step)
    ensures var email := StoredOr(st, EmailKey, DefaultEmail);
      var password := StoredOr(st, PasswordKey, DefaultPassword);
      && |r.calls| >= 1 && r.calls[0] == LoginCall(email, password)
      && (forall i :: 1 <= i < |r.calls| ==> r.calls[i].ProfileCall?)
    ensures var t := loginCall(StoredOr(st, EmailKey, DefaultEmail), StoredOr(st, PasswordKey, DefaultPassword));
      var ok := t.Some? && t.value != "" && profileCall(t.value).Some?;
      && (ok ==> r.storage == st[TokenKey := t.value]
                 && r.state == s.(token := t.value, user := profileCall(t.value), isLoading := false))
      && (!ok ==> r.storage == st && r.state == s.(isLoading := false))
  {
    var email := StoredOr(st, EmailKey, DefaultEmail);
    var password := StoredOr(st, PasswordKey, DefaultPassword);
    match loginCall(email, password)
    case None => Step(s.(isLoading := false), st, [LoginCall(email, password)])
    case Some(t) =>
      if t == "" then Step(s.(isLoading := false), st, [LoginCall(email, password)])
      else match profileCall(t)
        case None => Step(s.(isLoading := false), st, [LoginCall(email, password), ProfileCall(t)])
        case Some(p) =>
          Step(s.(token := t, user := Some(p), isLoading := false), st[TokenKey := t],
               [LoginCall(email, password), ProfileCall(t)])
  }

  /** `boot()` from the initial state; `hasWindow` is false during server
      rendering, where nothing is read. */
  function Boot(hasWindow: bool, st: Storage, loginCall: LoginOracle, profileCall: ProfileOracle): (r: Step)
    ensures !r.state.isLoading
    ensures !hasWindow ==> r == Step(Initial.(isLoading := false), st, [])
    ensures IsAuthenticated(r.state) || r.state == Initial.(isLoading := false)
  {
    if !hasWindow then Step(Initial.(isLoading := false), st, [])
    else if TokenKey in st && st[TokenKey] != "" then
      var saved := st[TokenKey];
      match profileCall(saved)
      case Some(p) => Step(Initial.(token := saved, user := Some(p), isLoading := false), st, [ProfileCall(saved)])
      case None =>
        var rest := AutoLogin(Initial, st, loginCall, profileCall);
        rest.(calls := [ProfileCall(saved)] + rest.calls)
    else AutoLogin(Initial, st, loginCall, profileCall)
  }

  /** A saved token whose profile loads is adopted as it is: one profile call,
      no login call, storage untouched. */
  lemma BootWithSavedToken(st: Storage, loginCall: LoginOracle, profileCall: ProfileOracle)
    requires TokenKey in st && st[TokenKey] != "" && profileCall(st[TokenKey]).Some?
    ensures var r := Boot(true, st, loginCall, profileCall);
      && r.state == State(st[TokenKey], profileCall(st[TokenKey]), false)
      && r.storage == st
      && r.calls == [ProfileCall(st[TokenKey])]
  {}

  /** Without a usable saved token, boot makes exactly one login call, with the
      saved credentials or the defaults; it stores the token only when the login
      and the profile both succeed, and otherwise leaves storage as it was and
      the session signed out. */
  lemma BootAutoLogin(st: Storage, loginCall: LoginOracle, profileCall: ProfileOracle)
    requires !(TokenKey in st && st[TokenKey] != "" && profileCall(st[TokenKey]).Some?)
    ensures var r := Boot(true, st, loginCall, profileCall);
      var email := StoredOr(st, EmailKey, DefaultEmail);
      var password := StoredOr(st, PasswordKey, DefaultPassword);
      var t := loginCall(email, password);
      var ok := t.Some? && t.value != "" && profileCall(t.value).Some?;
      && (forall i :: 0 <= i < |r.calls| && r.calls[i].LoginCall? ==> r.calls[i] == LoginCall(email, password))
      && |set i | 0 <= i < |r.calls| && r.calls[i].LoginCall?| == 1
      && (ok ==> r.storage == st[TokenKey := t.value] && r.state == State(t.value, profileCall(t.value), false))
      && (!ok ==> r.storage == st && !IsAuthenticated(r.state) && !r.state.isLoading)
  {
    var r := Boot(true, st, loginCall, profileCall);
    var a := AutoLogin(Initial, st, loginCall, profileCall);
    AutoLoginCalls(st, loginCall, profileCall);
    AutoLoginOutcome(st, loginCall, profileCall);
    if TokenKey in st && st[TokenKey] != "" {
      assert r.calls == [ProfileCall(st[TokenKey])] + a.calls;
      assert r.calls[1..] == a.calls;
      SingleLogin(r.calls, 1);
    } else {
      assert r == a;
      SingleLogin(r.calls, 0);
    }
  }

  /** The calls of the automatic login: the login first, then at most profile calls. */
  lemma AutoLoginCalls(st: Storage, loginCall: LoginOracle, profileCall: ProfileOracle)
    ensures var a := AutoLogin(Initial, st, loginCall, profileCall);
      && |a.calls| >= 1
      && a.calls[0] == LoginCall(StoredOr(st, EmailKey, DefaultEmail), StoredOr(st, PasswordKey, DefaultPassword))
      && forall i :: 1 <= i < |a.calls| ==> a.calls[i].ProfileCall?
  {}

  /** What the automatic login leaves behind, by whether the login and the profile succeed. */
  lemma AutoLoginOutcome(st: Storage, loginCall: LoginOracle, profileCall: ProfileOracle)
    ensures var a := AutoLogin(Initial, st, loginCall, profileCall);
      var t := loginCall(StoredOr(st, EmailKey, DefaultEmail), StoredOr(st, PasswordKey, DefaultPassword));
      var ok := t.Some? && t.value != "" && profileCall(t.value).Some?;
      && (ok ==> a.storage == st[TokenKey := t.value] && a.state == State(t.value, profileCall(t.value), false))
      && (!ok ==> a.storage == st && a.state == Initial.(isLoading := false))
  {}

  /** A call list whose only login call sits at `k`. */
  lemma SingleLogin(calls: seq<Call>, k: nat)
    requires k < |calls| && calls[k].LoginCall?
    requires forall i :: k < i < |calls| ==> calls[i].ProfileCall?
    requires forall i :: 0 <= i < k ==> calls[i].ProfileCall?
    ensures (set i | 0 <= i < |calls| && calls[i].LoginCall?) == {k}
    ensures |set i | 0 <= i < |calls| && calls[i].LoginCall?| == 1
  {
    assert (set i | 0 <= i < |calls| && calls[i].LoginCall?) == {k};
  }

  /** Signing out keeps the saved credentials, so the next boot signs in again
      with the credentials of the last successful login. */
  lemma LogoutThenBoot(s: State, st: Storage, email: string, password: string,
                       loginCall: LoginOracle, profileCall: ProfileOracle)
    requires Login(s, st, email, password, loginCall, profileCall).1
    requires email != "" && password != ""
    ensures var signedIn := Login(s, st, email, password, loginCall, profileCall).0;
      var out := Logout(signedIn.state, signedIn.storage);
      var r := Boot(true, out.storage, loginCall, profileCall);
      r.calls == [LoginCall(email, password), ProfileCall(loginCall(email, password).value)]
      && IsAuthenticated(r.state)
  {
    var signedIn := Login(s, st, email, password, loginCall, profileCall).0;
    var out := Logout(signedIn.state, signedIn.storage);
    assert out.storage[EmailKey] == email;
    assert out.storage[PasswordKey] == password;
  }

  /** The value a component sees through `useAuth()`. */
  datatype AuthValue = AuthValue(state: State, headers: seq<(string, string)>, isAuthenticated: bool)

  function ProviderValue(s: State): (r: AuthValue)
    ensures r.isAuthenticated <==> s.token != "" && s.user.Some?
    ensures r.headers == Headers(s)
  {
    AuthValue(s, Headers(s), IsAuthenticated(s))
  }

  /** `useAuth()`: outside a provider there is no context value and it throws. */
  function UseAuth(context: Option<AuthValue>): (r: Result<AuthValue, string>)
    ensures context.None? <==> r.Failure?
    ensures context.Some? ==> r == Success(context.value)
    ensures r.Failure? ==> r.error == "useAuth must be used within an AuthProvider"
  {
    match context
    case None => Failure("useAuth must be used within an AuthProvider")
    case Some(v) => Success(v)
  }
}
