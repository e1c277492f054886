/** The request handlers of backend/app/main.py, over the in-memory store of
    Records. A handler that writes returns the new store (the state after its
    commit); one that raises an HTTP error returns `Failure` and, since nothing is
    committed, leaves the store as it was. The clock (`now`), the JWT codec, the
    PBKDF2 function and the ids the database would generate are parameters. */
module Api {
  import opened Common
  import opened Text
  import opened Enums
  import opened Schemas
  import opened Records
  import Security
  import Summarize

  /** The HTTPException a handler raises; `ServerError` stands for an exception
      the handler does not catch (FastAPI answers 500). */
  datatype ApiError =
    | Unauthorized(detail: string)
    | Forbidden(detail: string)
    | NotFound(detail: string)
    | ServerError(detail: string)

  function StatusCode(e: ApiError): int {
    match e
    case Unauthorized(_) => 401
    case Forbidden(_) => 403
    case NotFound(_) => 404
    case ServerError(_) => 500
  }

  /** What `get_current_user` hands to every protected handler. */
  datatype Context = Context(user: User, workspaceId: string)

  /** The store after a write, and the row the handler answers with. */
  datatype Changed<T> = Changed(store: Store, item: T)

  // ---------------------------------------------------------------------------
  // Row predicates (the WHERE clauses)

  function UserWithId(id: string): User -> bool { (u: User) => u.id == id }
  function UserWithEmail(email: string): User -> bool { (u: User) => u.email == email }
  function MemberOfUser(userId: string): Member -> bool { (m: Member) => m.userId == userId }
  function MemberIn(userId: string, ws: string): Member -> bool {
    (m: Member) => m.userId == userId && m.workspaceId == ws
  }
  function IdeaInScope(id: string, ws: string): Idea -> bool { (i: Idea) => i.id == id && i.workspaceId == ws }
  function TaskInScope(id: string, ws: string): Task -> bool { (t: Task) => t.id == id && t.workspaceId == ws }
  function DeliverableInScope(id: string, ws: string): Deliverable -> bool {
    (d: Deliverable) => d.id == id && d.workspaceId == ws
  }
  function LogInScope(id: string, ws: string): UpdateLog -> bool { (l: UpdateLog) => l.id == id && l.workspaceId == ws }

  // ---------------------------------------------------------------------------
  // Authentication

  /** `get_current_user`: the bearer-token decision chain. */
  function GetCurrentUser(s: Store, credentials: Option<string>, now: int,
                          decode: string -> Option<Security.Claims>): (r: Result<Context, ApiError>)
    ensures credentials.None? ==> r == Failure(Unauthorized("Missing authorization token"))
    ensures credentials.Some? && Security.DecodeAccessToken(credentials.value, now, decode).None?
      ==> r == Failure(Unauthorized("Invalid token"))
    ensures credentials.Some? && Security.DecodeAccessToken(credentials.value, now, decode).Some? ==>
      var uid := Security.DecodeAccessToken(credentials.value, now, decode).value;
      && ((forall i :: 0 <= i < |s.users| ==> s.users[i].id != uid) ==> r == Failure(Unauthorized("User not found")))
      && ((exists i :: 0 <= i < |s.users| && s.users[i].id == uid)
          && (forall j :: 0 <= j < |s.members| ==> s.members[j].userId != uid)
          ==> r == Failure(Forbidden("No workspace membership")))
      && ((exists i :: 0 <= i < |s.users| && s.users[i].id == uid)
          && (exists j :: 0 <= j < |s.members| && s.members[j].userId == uid)
          ==> r.Success?)
    ensures r.Success? ==>
      && credentials.Some?
      && Security.DecodeAccessToken(credentials.value, now, decode) == Some(r.value.user.id)
      && r.value.user in s.users
      && (exists m :: m in s.members && m.userId == r.value.user.id && m.workspaceId == r.value.workspaceId)
  {
    match credentials
    case None => Failure(Unauthorized("Missing authorization token"))
    case Some(token) =>
      match Security.DecodeAccessToken(token, now, decode)
      case None => Failure(Unauthorized("Invalid token"))
      case Some(uid) =>
        match FirstIndex(s.users, UserWithId(uid))
        case None => Failure(Unauthorized("User not found"))
        case Some(i) =>
          match FirstIndex(s.members, MemberOfUser(s.users[i].id))
          case None => Failure(Forbidden("No workspace membership"))
          case Some(j) => Success(Context(s.users[i], s.members[j].workspaceId))
  }

  /** Every refusal of the chain is a 401 except the missing membership. */
  lemma AuthRefusalCodes(s: Store, credentials: Option<string>, now: int,
                         decode: string -> Option<Security.Claims>)
    ensures var r := GetCurrentUser(s, credentials, now, decode);
      r.Failure? ==> ((StatusCode(r.error) == 403 <==> r.error == Forbidden("No workspace membership"))
                      && (StatusCode(r.error) == 401 || StatusCode(r.error) == 403))
  {}

  /** `login`: the first user with the e-mail address, then the password check. */
  function Login(s: Store, email: string, password: string, kdf: Security.Kdf, now: int,
                 encode: Security.Claims -> string): (r: Result<LoginResponse, ApiError>)
    ensures (forall i :: 0 <= i < |s.users| ==> s.users[i].email != email)
      ==> r == Failure(Unauthorized("Invalid credentials"))
    ensures r.Success? ==> exists i :: (0 <= i < |s.users| && s.users[i].email == email
      && FirstIndex(s.users, UserWithEmail(email)) == Some(i)
      && Security.VerifyPassword(password, s.users[i].passwordHash, kdf) == Security.Answer(true)
      && r.value == LoginResponse(Security.CreateAccessToken(s.users[i].id, now, encode), "bearer"))
    ensures r.Failure? ==> r.error == Unauthorized("Invalid credentials") || r.error.ServerError?
  {
    match FirstIndex(s.users, UserWithEmail(email))
    case None => Failure(Unauthorized("Invalid credentials"))
    case Some(i) =>
      match Security.VerifyPassword(password, s.users[i].passwordHash, kdf)
      case Raises(reason) => Failure(ServerError(reason))
      case Answer(ok) =>
        if ok then Success(MakeLoginResponse(Security.CreateAccessToken(s.users[i].id, now, encode)))
        else Failure(Unauthorized("Invalid credentials"))
  }

  /** The owner settings `ensure_owner_context` reads. */
  datatype Owner = Owner(email: string, password: string)

  /** The first user with the owner's address exists and the owner password
      verifies against its record. */
  predicate OwnerReady(users: seq<User>, owner: Owner, kdf: Security.Kdf) {
    && FirstIndex(users, UserWithEmail(owner.email)).Some?
    && Security.VerifyPassword(owner.password, users[FirstIndex(users, UserWithEmail(owner.email)).value].passwordHash, kdf)
       == Security.Answer(true)
  }

  /** The owner row `ensure_owner_context` creates, hashed with `salt`. */
  function NewOwner(owner: Owner, salt: seq<byte>, kdf: Security.Kdf, userId: string): User
    requires |salt| == Security.SaltBytes
  {
    User(userId, owner.email, Security.HashPassword(owner.password, salt, kdf))
  }

  lemma AppendOwnerReady(users: seq<User>, owner: Owner, salt: seq<byte>, kdf: Security.Kdf, userId: string)
    requires |salt| == Security.SaltBytes
    requires FirstIndex(users, UserWithEmail(owner.email)).None?
    ensures OwnerReady(users + [NewOwner(owner, salt, kdf, userId)], owner, kdf)
  {
    FirstIndexSnoc(users, NewOwner(owner, salt, kdf, userId), UserWithEmail(owner.email));
    Security.VerifyRoundTrip(owner.password, salt, kdf);
  }

  lemma RehashOwnerReady(users: seq<User>, i: nat, owner: Owner, salt: seq<byte>, kdf: Security.Kdf)
    requires |salt| == Security.SaltBytes
    requires FirstIndex(users, UserWithEmail(owner.email)) == Some(i)
    ensures OwnerReady(users[i := users[i].(passwordHash := Security.HashPassword(owner.password, salt, kdf))], owner, kdf)
  {
    var u := users[i].(passwordHash := Security.HashPassword(owner.password, salt, kdf));
    FirstIndexUnique(users[i := u], UserWithEmail(owner.email), i);
    Security.VerifyRoundTrip(owner.password, salt, kdf);
  }

  /** The user half of `ensure_owner_context`: the owner user is created with a
      fresh hash when missing, and its hash is rewritten when the owner password
      no longer verifies. `salt` is the random salt a new hash draws and
      `userId` the id a new row gets. A record that makes `verify_password`
      raise ends the request with a 500. */
  function OwnerUser(users: seq<User>, owner: Owner, salt: seq<byte>, kdf: Security.Kdf,
                     userId: string): (r: Result<seq<User>, ApiError>)
    requires |salt| == Security.SaltBytes
    ensures r.Success? ==> OwnerReady(r.value, owner, kdf)
    ensures r.Success? ==> |users| <= |r.value| <= |users| + 1
    ensures r.Success? ==> forall j :: 0 <= j < |users| && users[j].email != owner.email ==> r.value[j] == users[j]
    ensures OwnerReady(users, owner, kdf) ==> r == Success(users)
    ensures r.Failure? ==> r.error.ServerError?
  {
    match FirstIndex(users, UserWithEmail(owner.email))
    case None =>
      AppendOwnerReady(users, owner, salt, kdf, userId);
      Success(users + [NewOwner(owner, salt, kdf, userId)])
    case Some(i) =>
      match Security.VerifyPassword(owner.password, users[i].passwordHash, kdf)
      case Raises(reason) => Failure(ServerError(reason))
      case Answer(ok) =>
        if ok then Success(users)
        else
          RehashOwnerReady(users, i, owner, salt, kdf);
          Success(users[i := users[i].(passwordHash := Security.HashPassword(owner.password, salt, kdf))])
  }

  /** `ensure_owner_context`, as far as the store holds it: the owner user as
      `OwnerUser` leaves it, then an "owner" membership of the owner workspace
      `wsId` for that user when it has none; `memberId` is the id a new
      membership gets. */
  function EnsureOwner(s: Store, owner: Owner, wsId: string, salt: seq<byte>, kdf: Security.Kdf,
                       userId: string, memberId: string): (r: Result<Store, ApiError>)
    requires |salt| == Security.SaltBytes
    ensures r.Success? ==> OwnerReady(r.value.users, owner, kdf)
    ensures r.Success? ==>
      FirstIndex(r.value.members, MemberIn(r.value.users[FirstIndex(r.value.users, UserWithEmail(owner.email)).value].id, wsId)).Some?
    ensures r.Success? ==> |s.users| <= |r.value.users| <= |s.users| + 1
    ensures r.Success? ==> forall j :: 0 <= j < |s.users| && s.users[j].email != owner.email ==> r.value.users[j] == s.users[j]
    ensures r.Success? ==> (r.value.ideas == s.ideas && r.value.tasks == s.tasks
      && r.value.deliverables == s.deliverables && r.value.logs == s.logs)
    ensures r.Failure? ==> r.error.ServerError?
  {
    match OwnerUser(s.users, owner, salt, kdf, userId)
    case Failure(e) => Failure(e)
    case Success(users) =>
      var i := FirstIndex(users, UserWithEmail(owner.email)).value;
      Success(EnsureMembership(s.(users := users), users[i], wsId, memberId))
  }

  /** The membership half of `ensure_owner_context`. */
  function EnsureMembership(s: Store, u: User, wsId: string, memberId: string): (r: Store)
    ensures FirstIndex(r.members, MemberIn(u.id, wsId)).Some?
    ensures r.users == s.users && r.ideas == s.ideas && r.tasks == s.tasks
    ensures r.deliverables == s.deliverables && r.logs == s.logs
    ensures FirstIndex(s.members, MemberIn(u.id, wsId)).Some? ==> r == s
    ensures FirstIndex(s.members, MemberIn(u.id, wsId)).None? ==>
      r.members == s.members + [Member(memberId, wsId, u.id, "owner")]
  {
    match FirstIndex(s.members, MemberIn(u.id, wsId))
    case Some(_) => s
    case None =>
      var m := Member(memberId, wsId, u.id, "owner");
      FirstIndexSnoc(s.members, m, MemberIn(u.id, wsId));
      s.(members := s.members + [m])
  }

  /** `login`: `ensure_owner_context` runs first, and its writes are committed
      whatever the login answers. Returns the store after the request and the
      answer. */
  function LoginRequest(s: Store, owner: Owner, wsId: string, salt: seq<byte>, userId: string, memberId: string,
                        email: string, password: string, kdf: Security.Kdf, now: int,
                        encode: Security.Claims -> string): (r: (Store, Result<LoginResponse, ApiError>))
    requires |salt| == Security.SaltBytes
    ensures EnsureOwner(s, owner, wsId, salt, kdf, userId, memberId).Failure? ==>
      r.0 == s && r.1 == Failure(EnsureOwner(s, owner, wsId, salt, kdf, userId, memberId).error)
    ensures EnsureOwner(s, owner, wsId, salt, kdf, userId, memberId).Success? ==>
      r.0 == EnsureOwner(s, owner, wsId, salt, kdf, userId, memberId).value
      && r.1 == Login(r.0, email, password, kdf, now, encode)
  {
    match EnsureOwner(s, owner, wsId, salt, kdf, userId, memberId)
    case Failure(e) => (s, Failure(e))
    case Success(s') => (s', Login(s', email, password, kdf, now, encode))
  }

  /** The owner can always log in with the configured password, whatever the
      stored hash was, unless that hash makes verification raise. */
  lemma OwnerCanLogIn(s: Store, owner: Owner, wsId: string, salt: seq<byte>, userId: string, memberId: string,
                      kdf: Security.Kdf, now: int, encode: Security.Claims -> string)
    requires |salt| == Security.SaltBytes
    requires EnsureOwner(s, owner, wsId, salt, kdf, userId, memberId).Success?
    ensures LoginRequest(s, owner, wsId, salt, userId, memberId, owner.email, owner.password, kdf, now, encode).1.Success?
  {}

  /** Running the owner setup again changes nothing: its second run finds the
      owner, the password verifies and the membership exists. */
  lemma EnsureOwnerIdempotent(s: Store, owner: Owner, wsId: string, salt: seq<byte>, salt2: seq<byte>,
                              kdf: Security.Kdf, userId: string, memberId: string, userId2: string, memberId2: string)
    requires |salt| == Security.SaltBytes && |salt2| == Security.SaltBytes
    requires EnsureOwner(s, owner, wsId, salt, kdf, userId, memberId).Success?
    ensures var s' := EnsureOwner(s, owner, wsId, salt, kdf, userId, memberId).value;
      EnsureOwner(s', owner, wsId, salt2, kdf, userId2, memberId2) == Success(s')
  {
    var s' := EnsureOwner(s, owner, wsId, salt, kdf, userId, memberId).value;
    assert s'.(users := s'.users) == s';
  }

  /** A user whose stored record was made by `hash_password` logs in with that
      password, and is refused (401) with any password of a different digest. */
  lemma LoginWithHashedRecord(s: Store, i: nat, password: string, candidate: string,
                              salt: seq<byte>, kdf: Security.Kdf, now: int,
                              encode: Security.Claims -> string)
    requires i < |s.users| && FirstIndex(s.users, UserWithEmail(s.users[i].email)) == Some(i)
    requires |salt| == Security.SaltBytes
    requires s.users[i].passwordHash == Security.HashPassword(password, salt, kdf)
    ensures Login(s, s.users[i].email, candidate, kdf, now, encode)
      == if kdf(candidate, salt, Security.Iterations) == kdf(password, salt, Security.Iterations)
         then Success(LoginResponse(Security.CreateAccessToken(s.users[i].id, now, encode), "bearer"))
         else Failure(Unauthorized("Invalid credentials"))
  {
    Security.VerifyHashed(password, candidate, salt, kdf);
  }

  /** With a codec that inverts itself, the token `login` issues authenticates its
      user for the token's lifetime, provided the user has a non-empty id and a
      membership. */
  lemma {:induction false} LoginThenAuthenticate(s: Store, email: string, password: string, kdf: Security.Kdf,
                                                 issued: int, later: int, encode: Security.Claims -> string,
                                                 decode: string -> Option<Security.Claims>)
    requires forall c :: decode(encode(c)) == Some(c)
    requires Login(s, email, password, kdf, issued, encode).Success?
    requires issued <= later <= issued + Security.TokenLifetime
    requires forall u :: u in s.users ==> u.id != ""
    requires forall u :: u in s.users ==> exists m :: m in s.members && m.userId == u.id
    ensures var token := Login(s, email, password, kdf, issued, encode).value.accessToken;
      var r := GetCurrentUser(s, Some(token), later, decode);
      r.Success? && exists u :: u in s.users && u.email == email && u.id == r.value.user.id
  {
    var i := LoginIssues(s, email, password, kdf, issued, encode);
    var u := s.users[i];
    var token := Login(s, email, password, kdf, issued, encode).value.accessToken;
    Security.TokenRoundTrip(u.id, issued, later, encode, decode);
    AuthenticatedAs(s, token, later, decode, u);
  }

  /** The token a successful login issues is that of a user with the e-mail. */
  lemma LoginIssues(s: Store, email: string, password: string, kdf: Security.Kdf,
                    issued: int, encode: Security.Claims -> string) returns (i: nat)
    requires Login(s, email, password, kdf, issued, encode).Success?
    ensures i < |s.users| && s.users[i].email == email
    ensures Login(s, email, password, kdf, issued, encode).value.accessToken
      == Security.CreateAccessToken(s.users[i].id, issued, encode)
  {
    i := FirstIndex(s.users, UserWithEmail(email)).value;
  }

  /** A token naming a stored user who has a membership authenticates that user. */
  lemma AuthenticatedAs(s: Store, token: string, now: int,
                        decode: string -> Option<Security.Claims>, u: User)
    requires Security.DecodeAccessToken(token, now, decode) == Some(u.id)
    requires u in s.users
    requires exists m :: m in s.members && m.userId == u.id
    ensures GetCurrentUser(s, Some(token), now, decode).Success?
    ensures GetCurrentUser(s, Some(token), now, decode).value.user.id == u.id
  {
    var m :| m in s.members && m.userId == u.id;
    var j :| 0 <= j < |s.members| && s.members[j] == m;
    var i :| 0 <= i < |s.users| && s.users[i] == u;
  }

  /** `me`: the caller's profile; the role of the membership in the caller's
      workspace, or "viewer" when there is none. */
  function Me(s: Store, ctx: Context): (r: UserProfile)
    ensures r.id == ctx.user.id && r.email == ctx.user.email && r.workspaceId == ctx.workspaceId
    ensures (forall j :: 0 <= j < |s.members| ==> !MemberIn(ctx.user.id, ctx.workspaceId)(s.members[j]))
      ==> r.role == "viewer"
    ensures (exists j :: 0 <= j < |s.members| && MemberIn(ctx.user.id, ctx.workspaceId)(s.members[j]))
      ==> exists j :: 0 <= j < |s.members| && MemberIn(ctx.user.id, ctx.workspaceId)(s.members[j])
                      && r.role == s.members[j].role
  {
    var role := match FirstIndex(s.members, MemberIn(ctx.user.id, ctx.workspaceId))
      case Some(j) => s.members[j].role
      case None => "viewer";
    UserProfile(ctx.user.id, ctx.user.email, role, ctx.workspaceId)
  }

  /** After authentication the profile's role is that of the user's first
      membership: the "viewer" default is never reached. */
  lemma MeAfterAuthentication(s: Store, credentials: Option<string>, now: int,
                              decode: string -> Option<Security.Claims>, ctx: Context)
    requires GetCurrentUser(s, credentials, now, decode) == Success(ctx)
    ensures FirstIndex(s.members, MemberOfUser(ctx.user.id)).Some?
    ensures Me(s, ctx).role == s.members[FirstIndex(s.members, MemberOfUser(ctx.user.id)).value].role
  {
    var j := ContextMembership(s, credentials, now, decode, ctx);
    FirstMemberIn(s.members, ctx.user.id, j);
  }

  /** The context's workspace is that of the user's first membership. */
  lemma ContextMembership(s: Store, credentials: Option<string>, now: int,
                          decode: string -> Option<Security.Claims>, ctx: Context) returns (j: nat)
    requires GetCurrentUser(s, credentials, now, decode) == Success(ctx)
    ensures FirstIndex(s.members, MemberOfUser(ctx.user.id)) == Some(j)
    ensures j < |s.members| && ctx.workspaceId == s.members[j].workspaceId
  {
    var uid := Security.DecodeAccessToken(credentials.value, now, decode).value;
    var i := FirstIndex(s.users, UserWithId(uid)).value;
    j := FirstIndex(s.members, MemberOfUser(s.users[i].id)).value;
  }

  /** The first membership of a user is also its first membership in that
      membership's workspace. */
  lemma FirstMemberIn(members: seq<Member>, uid: string, j: nat)
    requires FirstIndex(members, MemberOfUser(uid)) == Some(j)
    ensures FirstIndex(members, MemberIn(uid, members[j].workspaceId)) == Some(j)
  {
    var k := FirstIndex(members, MemberIn(uid, members[j].workspaceId));
    assert MemberIn(uid, members[j].workspaceId)(members[j]);
    assert k.Some? && k.value <= j;
    assert MemberOfUser(uid)(members[k.value]);
  }

  // ---------------------------------------------------------------------------
  // Partial updates (PATCH)

  /** The fields `update_idea` sets from the present (non-None) fields of the
      payload, plus the new `updated_at`. */
  function PatchIdea(idea: Idea, p: IdeaUpdate, now: int): (r: Idea)
    ensures r.id == idea.id && r.workspaceId == idea.workspaceId && r.createdAt == idea.createdAt
    ensures r.updatedAt == now
    ensures p.title.None? ==> r.title == idea.title
    ensures p.title.Some? ==> r.title == p.title.value
    ensures p.description.None? ==> r.description == idea.description
    ensures p.description.Some? ==> r.description == p.description.value
    ensures p.status.None? ==> r.status == idea.status
    ensures p.status.Some? ==> r.status == ItemStatusValue(p.status.value)
    ensures p.mainTopicFlag.None? ==> r.mainTopicFlag == idea.mainTopicFlag
    ensures p.mainTopicFlag.Some? ==> r.mainTopicFlag == p.mainTopicFlag.value
    ensures p.startMonth.None? ==> r.startMonth == idea.startMonth
    ensures p.startMonth.Some? ==> r.startMonth == p.startMonth.value
    ensures p.targetMonth.None? ==> r.targetMonth == idea.targetMonth
    ensures p.targetMonth.Some? ==> r.targetMonth == p.targetMonth.value
    ensures p.priority.None? ==> r.priority == idea.priority
    ensures p.priority.Some? ==> r.priority == p.priority.value
  {
    idea.(title := p.title.GetOr(idea.title),
          description := p.description.GetOr(idea.description),
          status := if p.status.Some? then ItemStatusValue(p.status.value) else idea.status,
          mainTopicFlag := p.mainTopicFlag.GetOr(idea.mainTopicFlag),
          startMonth := p.startMonth.GetOr(idea.startMonth),
          targetMonth := p.targetMonth.GetOr(idea.targetMonth),
          priority := p.priority.GetOr(idea.priority),
          updatedAt := now)
  }

  /** An empty payload only refreshes `updated_at`; repeating a patch changes
      nothing more. */
  lemma PatchIdeaLaws(idea: Idea, p: IdeaUpdate, now: int)
    ensures PatchIdea(idea, IdeaUpdate(None, None, None, None, None, None, None), now) == idea.(updatedAt := now)
    ensures PatchIdea(PatchIdea(idea, p, now), p, now) == PatchIdea(idea, p, now)
  {}

  /** `update_idea`: 404 unless an idea with that id lives in the caller's
      workspace; otherwise the first such row is patched and nothing else in the
      store changes. */
  function UpdateIdea(s: Store, ws: string, id: string, p: IdeaUpdate, now: int): (r: Result<Changed<Idea>, ApiError>)
    ensures r.Failure? <==> forall k :: 0 <= k < |s.ideas| ==> !IdeaInScope(id, ws)(s.ideas[k])
    ensures r.Failure? ==> r.error == NotFound("Idea not found")
    ensures r.Success? ==>
      && r.value.store == s.(ideas := r.value.store.ideas)
      && exists k :: 0 <= k < |s.ideas| && s.ideas[k].id == id && s.ideas[k].workspaceId == ws
           && r.value.item == PatchIdea(s.ideas[k], p, now)
           && r.value.store.ideas == s.ideas[k := r.value.item]
  {
    match FirstIndex(s.ideas, IdeaInScope(id, ws))
    case None => Failure(NotFound("Idea not found"))
    case Some(k) =>
      var updated := PatchIdea(s.ideas[k], p, now);
      Success(Changed(s.(ideas := s.ideas[k := updated]), updated))
  }

  /** No idea of another workspace is touched by an update. */
  lemma UpdateIdeaScoped(s: Store, ws: string, id: string, p: IdeaUpdate, now: int)
    requires UpdateIdea(s, ws, id, p, now).Success?
    ensures var ideas := UpdateIdea(s, ws, id, p, now).value.store.ideas;
      |ideas| == |s.ideas|
      && forall j :: 0 <= j < |s.ideas| && s.ideas[j].workspaceId != ws ==> ideas[j] == s.ideas[j]
  {}

  /** The fields `update_task` sets; the dependencies and the sort order are not
      part of the payload. */
  function PatchTask(task: Task, p: TaskUpdate, now: int): (r: Task)
    ensures r.id == task.id && r.workspaceId == task.workspaceId && r.ideaId == task.ideaId
    ensures r.dependencies == task.dependencies && r.sortOrder == task.sortOrder
    ensures r.updatedAt == now
    ensures p.title.None? ==> r.title == task.title
    ensures p.title.Some? ==> r.title == p.title.value
    ensures p.status.None? ==> r.status == task.status
    ensures p.status.Some? ==> r.status == ItemStatusValue(p.status.value)
    ensures p.importance.None? ==> r.importance == task.importance
    ensures p.importance.Some? ==> r.importance == p.importance.value
    ensures p.startMonth.None? ==> r.startMonth == task.startMonth
    ensures p.startMonth.Some? ==> r.startMonth == p.startMonth.value
    ensures p.endMonth.None? ==> r.endMonth == task.endMonth
    ensures p.endMonth.Some? ==> r.endMonth == p.endMonth.value
    ensures p.dueMonth.None? ==> r.dueMonth == task.dueMonth
    ensures p.dueMonth.Some? ==> r.dueMonth == p.dueMonth.value
  {
    task.(title := p.title.GetOr(task.title),
          status := if p.status.Some? then ItemStatusValue(p.status.value) else task.status,
          importance := p.importance.GetOr(task.importance),
          startMonth := p.startMonth.GetOr(task.startMonth),
          endMonth := p.endMonth.GetOr(task.endMonth),
          dueMonth := p.dueMonth.GetOr(task.dueMonth),
          updatedAt := now)
  }

  lemma PatchTaskLaws(task: Task, p: TaskUpdate, now: int)
    ensures PatchTask(task, TaskUpdate(None, None, None, None, None, None), now) == task.(updatedAt := now)
    ensures PatchTask(PatchTask(task, p, now), p, now) == PatchTask(task, p, now)
  {}

  function UpdateTask(s: Store, ws: string, id: string, p: TaskUpdate, now: int): (r: Result<Changed<Task>, ApiError>)
    ensures r.Failure? <==> forall k :: 0 <= k < |s.tasks| ==> !TaskInScope(id, ws)(s.tasks[k])
    ensures r.Failure? ==> r.error == NotFound("Task not found")
    ensures r.Success? ==>
      && r.value.store == s.(tasks := r.value.store.tasks)
      && exists k :: 0 <= k < |s.tasks| && s.tasks[k].id == id && s.tasks[k].workspaceId == ws
           && r.value.item == PatchTask(s.tasks[k], p, now)
           && r.value.store.tasks == s.tasks[k := r.value.item]
  {
    match FirstIndex(s.tasks, TaskInScope(id, ws))
    case None => Failure(NotFound("Task not found"))
    case Some(k) =>
      var updated := PatchTask(s.tasks[k], p, now);
      Success(Changed(s.(tasks := s.tasks[k := updated]), updated))
  }

  lemma UpdateTaskScoped(s: Store, ws: string, id: string, p: TaskUpdate, now: int)
    requires UpdateTask(s, ws, id, p, now).Success?
    ensures var tasks := UpdateTask(s, ws, id, p, now).value.store.tasks;
      |tasks| == |s.tasks|
      && forall j :: 0 <= j < |s.tasks| && s.tasks[j].workspaceId != ws ==> tasks[j] == s.tasks[j]
  {}

  /** The fields `update_deliverable` sets; unlike ideas and tasks there is no
      timestamp to refresh. */
  function PatchDeliverable(d: Deliverable, p: DeliverableUpdate): (r: Deliverable)
    ensures r.id == d.id && r.workspaceId == d.workspaceId && r.ideaId == d.ideaId
    ensures p.title.None? ==> r.title == d.title
    ensures p.title.Some? ==> r.title == p.title.value
    ensures p.kind.None? ==> r.kind == d.kind
    ensures p.kind.Some? ==> r.kind == p.kind.value
    ensures p.dueMonth.None? ==> r.dueMonth == d.dueMonth
    ensures p.dueMonth.Some? ==> r.dueMonth == p.dueMonth.value
    ensures p.status.None? ==> r.status == d.status
    ensures p.status.Some? ==> r.status == DeliverableStatusValue(p.status.value)
  {
    d.(title := p.title.GetOr(d.title),
       kind := p.kind.GetOr(d.kind),
       dueMonth := p.dueMonth.GetOr(d.dueMonth),
       status := if p.status.Some? then DeliverableStatusValue(p.status.value) else d.status)
  }

  /** An empty payload leaves a deliverable exactly as it was. */
  lemma PatchDeliverableLaws(d: Deliverable, p: DeliverableUpdate)
    ensures PatchDeliverable(d, DeliverableUpdate(None, None, None, None)) == d
    ensures PatchDeliverable(PatchDeliverable(d, p), p) == PatchDeliverable(d, p)
  {}

  function UpdateDeliverable(s: Store, ws: string, id: string, p: DeliverableUpdate): (r: Result<Changed<Deliverable>, ApiError>)
    ensures r.Failure? <==> forall k :: 0 <= k < |s.deliverables| ==> !DeliverableInScope(id, ws)(s.deliverables[k])
    ensures r.Failure? ==> r.error == NotFound("Deliverable not found")
    ensures r.Success? ==>
      && r.value.store == s.(deliverables := r.value.store.deliverables)
      && exists k :: 0 <= k < |s.deliverables| && s.deliverables[k].id == id && s.deliverables[k].workspaceId == ws
           && r.value.item == PatchDeliverable(s.deliverables[k], p)
           && r.value.store.deliverables == s.deliverables[k := r.value.item]
  {
    match FirstIndex(s.deliverables, DeliverableInScope(id, ws))
    case None => Failure(NotFound("Deliverable not found"))
    case Some(k) =>
      var updated := PatchDeliverable(s.deliverables[k], p);
      Success(Changed(s.(deliverables := s.deliverables[k := updated]), updated))
  }

  lemma UpdateDeliverableScoped(s: Store, ws: string, id: string, p: DeliverableUpdate)
    requires UpdateDeliverable(s, ws, id, p).Success?
    ensures var ds := UpdateDeliverable(s, ws, id, p).value.store.deliverables;
      |ds| == |s.deliverables|
      && forall j :: 0 <= j < |s.deliverables| && s.deliverables[j].workspaceId != ws ==> ds[j] == s.deliverables[j]
  {}

  // ---------------------------------------------------------------------------
  // Deletes

  function RemoveAt<T>(s: seq<T>, k: nat): (r: seq<T>)
    requires k < |s|
    ensures |r| == |s| - 1
    ensures multiset(r) + multiset{s[k]} == multiset(s)
  {
    assert s == s[..k] + [s[k]] + s[k + 1..];
    s[..k] + s[k + 1..]
  }

  function NotOfIdea(ideaId: string): Task -> bool { (t: Task) => t.ideaId != ideaId }

  /** `delete_idea`: the first idea in scope goes, and with it (the ORM's
      cascade on `Idea.tasks`) every task that refers to it. */
  function DeleteIdea(s: Store, ws: string, id: string): (r: Result<Store, ApiError>)
    ensures r.Failure? <==> forall k :: 0 <= k < |s.ideas| ==> !IdeaInScope(id, ws)(s.ideas[k])
    ensures r.Failure? ==> r.error == NotFound("Idea not found")
    ensures r.Success? ==>
      && r.value == s.(ideas := r.value.ideas, tasks := r.value.tasks)
      && |r.value.ideas| == |s.ideas| - 1
      && (exists k :: 0 <= k < |s.ideas| && s.ideas[k].id == id && s.ideas[k].workspaceId == ws
            && multiset(r.value.ideas) + multiset{s.ideas[k]} == multiset(s.ideas))
      && (forall t :: t in r.value.tasks <==> t in s.tasks && t.ideaId != id)
  {
    match FirstIndex(s.ideas, IdeaInScope(id, ws))
    case None => Failure(NotFound("Idea not found"))
    case Some(k) =>
      FilterMembers(s.tasks, NotOfIdea(id));
      Success(s.(ideas := RemoveAt(s.ideas, k), tasks := Filter(s.tasks, NotOfIdea(id))))
  }

  function DeleteTask(s: Store, ws: string, id: string): (r: Result<Store, ApiError>)
    ensures r.Failure? <==> forall k :: 0 <= k < |s.tasks| ==> !TaskInScope(id, ws)(s.tasks[k])
    ensures r.Failure? ==> r.error == NotFound("Task not found")
    ensures r.Success? ==>
      && r.value == s.(tasks := r.value.tasks)
      && exists k :: 0 <= k < |s.tasks| && s.tasks[k].id == id && s.tasks[k].workspaceId == ws
           && r.value.tasks == s.tasks[..k] + s.tasks[k + 1..]
  {
    match FirstIndex(s.tasks, TaskInScope(id, ws))
    case None => Failure(NotFound("Task not found"))
    case Some(k) => Success(s.(tasks := RemoveAt(s.tasks, k)))
  }

  /** With unique task ids a deleted task is gone: deleting it again is a 404,
      and every task of another workspace survives. */
  lemma DeleteTaskOnce(s: Store, ws: string, id: string)
    requires forall i, j :: 0 <= i < j < |s.tasks| ==> s.tasks[i].id != s.tasks[j].id
    requires DeleteTask(s, ws, id).Success?
    ensures DeleteTask(DeleteTask(s, ws, id).value, ws, id).Failure?
    ensures forall t :: t in s.tasks && t.workspaceId != ws ==> t in DeleteTask(s, ws, id).value.tasks
  {
    var s1 := DeleteTask(s, ws, id).value;
    var k := FirstIndex(s.tasks, TaskInScope(id, ws)).value;
    assert s1.tasks == s.tasks[..k] + s.tasks[k + 1..];
    forall j | 0 <= j < |s1.tasks|
      ensures !TaskInScope(id, ws)(s1.tasks[j])
    {
      if j < k {
        assert s1.tasks[j] == s.tasks[j];
      } else {
        assert s1.tasks[j] == s.tasks[j + 1];
      }
    }
    forall t | t in s.tasks && t.workspaceId != ws
      ensures t in s1.tasks
    {
      var j :| 0 <= j < |s.tasks| && s.tasks[j] == t;
      if j < k {
        assert s1.tasks[j] == t;
      } else {
        assert j != k;
        assert s1.tasks[j - 1] == t;
      }
    }
  }

  function DeleteDeliverable(s: Store, ws: string, id: string): (r: Result<Store, ApiError>)
    ensures r.Failure? <==> forall k :: 0 <= k < |s.deliverables| ==> !DeliverableInScope(id, ws)(s.deliverables[k])
    ensures r.Failure? ==> r.error == NotFound("Deliverable not found")
    ensures r.Success? ==>
      && r.value == s.(deliverables := r.value.deliverables)
      && exists k :: 0 <= k < |s.deliverables| && s.deliverables[k].id == id && s.deliverables[k].workspaceId == ws
           && r.value.deliverables == s.deliverables[..k] + s.deliverables[k + 1..]
  {
    match FirstIndex(s.deliverables, DeliverableInScope(id, ws))
    case None => Failure(NotFound("Deliverable not found"))
    case Some(k) => Success(s.(deliverables := RemoveAt(s.deliverables, k)))
  }

  function DeleteUpdateLog(s: Store, ws: string, id: string): (r: Result<Store, ApiError>)
    ensures r.Failure? <==> forall k :: 0 <= k < |s.logs| ==> !LogInScope(id, ws)(s.logs[k])
    ensures r.Failure? ==> r.error == NotFound("Update log not found")
    ensures r.Success? ==>
      && r.value == s.(logs := r.value.logs)
      && exists k :: 0 <= k < |s.logs| && s.logs[k].id == id && s.logs[k].workspaceId == ws
           && r.value.logs == s.logs[..k] + s.logs[k + 1..]
  {
    match FirstIndex(s.logs, LogInScope(id, ws))
    case None => Failure(NotFound("Update log not found"))
    case Some(k) => Success(s.(logs := RemoveAt(s.logs, k)))
  }

  // ---------------------------------------------------------------------------
  // Task reordering

  /** The position of the last occurrence of `x` in `ids`: the index a task ends
      up with when its id is listed more than once. */
  function LastIndexOf(ids: seq<string>, x: string): (r: Option<nat>)
    ensures r.None? <==> x !in ids
    ensures r.Some? ==> (r.value < |ids| && ids[r.value] == x
      && forall k :: r.value < k < |ids| ==> ids[k] != x)
  {
    if |ids| == 0 then None
    else if ids[|ids| - 1] == x then Some(|ids| - 1)
    else
      assert ids == ids[..|ids| - 1] + [ids[|ids| - 1]];
      LastIndexOf(ids[..|ids| - 1], x)
  }

  /** One iteration of the loop: the first task with that id in the workspace
      gets `sort_order = idx`; an unknown id is skipped. */
  function SetSortOrder(tasks: seq<Task>, ws: string, id: string, idx: int): seq<Task> {
    match FirstIndex(tasks, TaskInScope(id, ws))
    case None => tasks
    case Some(k) => tasks[k := tasks[k].(sortOrder := idx)]
  }

  /** The task at `j` after reordering by `ids`: the first task in scope for its
      id takes the last position of that id in the list; every other task keeps
      its sort order. */
  function Reordered(tasks: seq<Task>, ws: string, ids: seq<string>, j: nat): Task
    requires j < |tasks|
  {
    var t := tasks[j];
    if FirstIndex(tasks, TaskInScope(t.id, ws)) == Some(j) && LastIndexOf(ids, t.id).Some?
    then t.(sortOrder := LastIndexOf(ids, t.id).value)
    else t
  }

  /** Tasks that agree on id and workspace index by index have the same first
      row in scope. */
  lemma {:induction false} FirstInScopeAgrees(a: seq<Task>, b: seq<Task>, id: string, ws: string)
    requires |a| == |b|
    requires forall j :: 0 <= j < |a| ==> a[j].id == b[j].id && a[j].workspaceId == b[j].workspaceId
    ensures FirstIndex(a, TaskInScope(id, ws)) == FirstIndex(b, TaskInScope(id, ws))
  {
    var fa := FirstIndex(a, TaskInScope(id, ws));
    var fb := FirstIndex(b, TaskInScope(id, ws));
    if fa.Some? {
      assert TaskInScope(id, ws)(b[fa.value]);
    }
  }

  /** The loop of `reorder_tasks` over `task_ids`, in list order. */
  function ReorderAll(tasks: seq<Task>, ws: string, ids: seq<string>): (r: seq<Task>)
    ensures |r| == |tasks|
    ensures forall j :: 0 <= j < |tasks| ==> r[j] == tasks[j].(sortOrder := r[j].sortOrder)
    ensures forall j :: 0 <= j < |tasks| ==> r[j] == Reordered(tasks, ws, ids, j)
    decreases |ids|
  {
    if |ids| == 0 then tasks
    else
      var n := |ids| - 1;
      var prev := ReorderAll(tasks, ws, ids[..n]);
      var r := SetSortOrder(prev, ws, ids[n], n);
      forall j | 0 <= j < |tasks|
        ensures r[j] == Reordered(tasks, ws, ids, j)
      {
        ReorderStep(tasks, ws, ids, prev, j);
      }
      r
  }

  /** One iteration of the loop moves every task to its state after one more id. */
  lemma ReorderStep(tasks: seq<Task>, ws: string, ids: seq<string>, prev: seq<Task>, j: nat)
    requires |ids| > 0 && |prev| == |tasks| && j < |tasks|
    requires forall i :: 0 <= i < |tasks| ==> prev[i] == tasks[i].(sortOrder := prev[i].sortOrder)
    requires forall i :: 0 <= i < |tasks| ==> prev[i] == Reordered(tasks, ws, ids[..|ids| - 1], i)
    ensures |SetSortOrder(prev, ws, ids[|ids| - 1], |ids| - 1)| == |tasks|
    ensures SetSortOrder(prev, ws, ids[|ids| - 1], |ids| - 1)[j] == Reordered(tasks, ws, ids, j)
  {
    var n := |ids| - 1;
    FirstInScopeAgrees(prev, tasks, ids[n], ws);
    if tasks[j].id != ids[n] {
      assert LastIndexOf(ids, tasks[j].id) == LastIndexOf(ids[..n], tasks[j].id);
    }
  }

  datatype Reorder = Reorder(store: Store, reordered: nat)

  /** `reorder_tasks`: reports the length of the list whether or not its ids
      were found. (As registered, `PATCH /tasks/reorder` is reached only through
      `PATCH /tasks/{task_id}`; the model keeps the function itself.) */
  function ReorderTasks(s: Store, ws: string, ids: seq<string>): (r: Reorder)
    ensures r.reordered == |ids|
    ensures r.store == s.(tasks := r.store.tasks)
    ensures |r.store.tasks| == |s.tasks|
    ensures forall j :: 0 <= j < |s.tasks| ==> r.store.tasks[j] == Reordered(s.tasks, ws, ids, j)
  {
    Reorder(s.(tasks := ReorderAll(s.tasks, ws, ids)), |ids|)
  }

  /** With distinct ids, each naming a task of the workspace, the task named at
      position k gets sort order k, and tasks outside the workspace or outside
      the list keep theirs. */
  lemma ReorderDistinct(s: Store, ws: string, ids: seq<string>)
    requires forall a, b :: 0 <= a < b < |ids| ==> ids[a] != ids[b]
    ensures var tasks := ReorderTasks(s, ws, ids).store.tasks;
      && (forall k :: 0 <= k < |ids| && FirstIndex(s.tasks, TaskInScope(ids[k], ws)).Some?
            ==> tasks[FirstIndex(s.tasks, TaskInScope(ids[k], ws)).value].sortOrder == k)
      && (forall j :: 0 <= j < |s.tasks| && (s.tasks[j].workspaceId != ws || s.tasks[j].id !in ids)
            ==> tasks[j] == s.tasks[j])
  {
    var tasks := ReorderTasks(s, ws, ids).store.tasks;
    forall k | 0 <= k < |ids| && FirstIndex(s.tasks, TaskInScope(ids[k], ws)).Some?
      ensures tasks[FirstIndex(s.tasks, TaskInScope(ids[k], ws)).value].sortOrder == k
    {
      var j := FirstIndex(s.tasks, TaskInScope(ids[k], ws)).value;
      assert s.tasks[j].id == ids[k];
      var l := LastIndexOf(ids, ids[k]);
      assert l.Some?;
      assert l.value == k;
    }
  }

  // ---------------------------------------------------------------------------
  // Listings

  datatype TaskWithIdea = TaskWithIdea(task: Task, ideaTitle: string)

  function TaskInWorkspace(ws: string): Task -> bool { (t: Task) => t.workspaceId == ws }

  /** ORDER BY sort_order ASC, updated_at ASC. */
  function TaskOrderKey(t: Task): (int, int) { (t.sortOrder, t.updatedAt) }

  /** `idea_map.get(idea_id, "")`: the map is built from the ideas with a listed
      id, and a later row with the same id overwrites an earlier one. The query
      is by id alone, not by workspace. */
  function IdeaTitleFor(ideas: seq<Idea>, id: string): (r: string)
    ensures (forall i :: 0 <= i < |ideas| ==> ideas[i].id != id) ==> r == ""
    ensures (exists i :: 0 <= i < |ideas| && ideas[i].id == id) ==>
      exists i :: 0 <= i < |ideas| && ideas[i].id == id && r == ideas[i].title
        && forall j :: i < j < |ideas| ==> ideas[j].id != id
  {
    match LastIdeaWithId(ideas, id)
    case None => ""
    case Some(i) => ideas[i].title
  }

  /** The position of the last idea with that id, the one the dict keeps. */
  function LastIdeaWithId(ideas: seq<Idea>, id: string): (r: Option<nat>)
    ensures r.None? <==> forall i :: 0 <= i < |ideas| ==> ideas[i].id != id
    ensures r.Some? ==> (r.value < |ideas| && ideas[r.value].id == id
      && forall j :: r.value < j < |ideas| ==> ideas[j].id != id)
  {
    if |ideas| == 0 then None
    else if ideas[|ideas| - 1].id == id then Some(|ideas| - 1)
    else
      var r := LastIdeaWithId(ideas[..|ideas| - 1], id);
      assert forall j :: 0 <= j < |ideas| - 1 ==> ideas[..|ideas| - 1][j] == ideas[j];
      r
  }

  /** The workspace's tasks, ORDER BY sort_order, updated_at. */
  function WorkspaceTasks(s: Store, ws: string): (r: seq<Task>)
    ensures |r| == Count(s.tasks, TaskInWorkspace(ws))
    ensures forall t :: t in r <==> t in s.tasks && t.workspaceId == ws
    ensures forall i, j :: 0 <= i < j < |r| ==> PairLe(TaskOrderKey(r[i]), TaskOrderKey(r[j]))
  {
    var mine := Filter(s.tasks, TaskInWorkspace(ws));
    FilterMembers(s.tasks, TaskInWorkspace(ws));
    SortByMembers(mine, TaskOrderKey);
    SortBy(mine, TaskOrderKey)
  }

  /** `list_all_tasks`: the workspace's tasks by sort order, then last update,
      each with its idea's title. */
  function ListAllTasks(s: Store, ws: string): (r: seq<TaskWithIdea>)
    ensures |r| == Count(s.tasks, TaskInWorkspace(ws))
    ensures forall i :: 0 <= i < |r| ==> r[i].task in s.tasks && r[i].task.workspaceId == ws
    ensures forall i :: 0 <= i < |r| ==> r[i].ideaTitle == IdeaTitleFor(s.ideas, r[i].task.ideaId)
    ensures forall i, j :: 0 <= i < j < |r| ==> PairLe(TaskOrderKey(r[i].task), TaskOrderKey(r[j].task))
  {
    var tasks := WorkspaceTasks(s, ws);
    seq(|tasks|, i requires 0 <= i < |tasks| => TaskWithIdea(tasks[i], IdeaTitleFor(s.ideas, tasks[i].ideaId)))
  }

  /** Every task of the workspace is listed. */
  lemma ListAllTasksComplete(s: Store, ws: string, t: Task)
    requires t in s.tasks && t.workspaceId == ws
    ensures exists i :: 0 <= i < |ListAllTasks(s, ws)| && ListAllTasks(s, ws)[i].task == t
  {
    var tasks := WorkspaceTasks(s, ws);
    var i :| 0 <= i < |tasks| && tasks[i] == t;
    assert ListAllTasks(s, ws)[i].task == t;
  }

  const DefaultLogLimit: int := 20
  const MaxLogLimit: int := 100

  /** `max(1, min(limit, 100))`. */
  function ClampLimit(limit: int): (r: int)
    ensures 1 <= r <= MaxLogLimit
    ensures r == limit <==> 1 <= limit <= MaxLogLimit
    ensures limit < 1 ==> r == 1
    ensures limit > MaxLogLimit ==> r == MaxLogLimit
  {
    Max(1, Min(limit, MaxLogLimit))
  }

  function LogOfIdea(ws: string, ideaId: string): UpdateLog -> bool {
    (l: UpdateLog) => l.workspaceId == ws && l.ideaId == ideaId
  }

  /** ORDER BY created_at DESC, as an ascending key. */
  function NewestFirstKey(l: UpdateLog): (int, int) { (-l.createdAt, 0) }

  function LogsNewestFirst(s: Store, ws: string, ideaId: string): (r: seq<UpdateLog>)
    ensures multiset(r) == multiset(Filter(s.logs, LogOfIdea(ws, ideaId)))
    ensures forall i, j :: 0 <= i < j < |r| ==> r[i].createdAt >= r[j].createdAt
  {
    var r := SortBy(Filter(s.logs, LogOfIdea(ws, ideaId)), NewestFirstKey);
    assert forall i, j :: 0 <= i < j < |r| ==> PairLe(NewestFirstKey(r[i]), NewestFirstKey(r[j]));
    r
  }

  /** `list_update_logs`: the idea's logs in the caller's workspace, newest
      first, at most the clamped limit. */
  function ListUpdateLogs(s: Store, ws: string, ideaId: string, limit: int): (r: seq<UpdateLog>)
    ensures |r| == Min(Count(s.logs, LogOfIdea(ws, ideaId)), ClampLimit(limit))
    ensures forall i :: 0 <= i < |r| ==> r[i] in s.logs && r[i].workspaceId == ws && r[i].ideaId == ideaId
    ensures forall i, j :: 0 <= i < j < |r| ==> r[i].createdAt >= r[j].createdAt
  {
    var all := LogsNewestFirst(s, ws, ideaId);
    var r := Take(all, ClampLimit(limit));
    NewestFirstMembers(s, ws, ideaId);
    assert forall i :: 0 <= i < |r| ==> r[i] == all[i];
    r
  }

  /** The sorted logs are the idea's logs of the workspace, one per matching row. */
  lemma NewestFirstMembers(s: Store, ws: string, ideaId: string)
    ensures |LogsNewestFirst(s, ws, ideaId)| == Count(s.logs, LogOfIdea(ws, ideaId))
    ensures forall i :: 0 <= i < |LogsNewestFirst(s, ws, ideaId)| ==>
      LogsNewestFirst(s, ws, ideaId)[i] in s.logs
      && LogsNewestFirst(s, ws, ideaId)[i].workspaceId == ws
      && LogsNewestFirst(s, ws, ideaId)[i].ideaId == ideaId
  {
    var all := LogsNewestFirst(s, ws, ideaId);
    var matching := Filter(s.logs, LogOfIdea(ws, ideaId));
    FilterMembers(s.logs, LogOfIdea(ws, ideaId));
    assert |all| == |multiset(all)| == |multiset(matching)| == |matching|;
    forall i | 0 <= i < |all|
      ensures all[i] in s.logs && all[i].workspaceId == ws && all[i].ideaId == ideaId
    {
      assert all[i] in multiset(matching);
      assert LogOfIdea(ws, ideaId)(all[i]);
    }
  }

  /** In a newest-first sequence every element after position `n` is no newer
      than any element before it. */
  lemma PrefixIsNewest(all: seq<UpdateLog>, n: nat)
    requires n <= |all|
    requires forall i, j :: 0 <= i < j < |all| ==> all[i].createdAt >= all[j].createdAt
    ensures forall x, i :: x in multiset(all) - multiset(all[..n]) && 0 <= i < n ==> all[i].createdAt >= x.createdAt
  {
    var rest := all[n..];
    assert all == all[..n] + rest;
    assert multiset(all) == multiset(all[..n]) + multiset(rest);
    forall x, i | x in multiset(all) - multiset(all[..n]) && 0 <= i < n
      ensures all[i].createdAt >= x.createdAt
    {
      assert x in multiset(rest);
      var k :| 0 <= k < |rest| && rest[k] == x;
      assert all[n + k] == x;
    }
  }

  /** The listing is the newest part of the idea's logs: every log it leaves out
      is no newer than any it returns. */
  lemma ListUpdateLogsNewest(s: Store, ws: string, ideaId: string, limit: int)
    ensures var r := ListUpdateLogs(s, ws, ideaId, limit);
      var matching := Filter(s.logs, LogOfIdea(ws, ideaId));
      && multiset(r) <= multiset(matching)
      && forall x, i :: x in multiset(matching) - multiset(r) && 0 <= i < |r| ==> r[i].createdAt >= x.createdAt
  {
    var r := ListUpdateLogs(s, ws, ideaId, limit);
    var all := LogsNewestFirst(s, ws, ideaId);
    assert r == all[..|r|];
    PrefixSubMultiset(all, |r|);
    PrefixIsNewest(all, |r|);
  }

  // ---------------------------------------------------------------------------
  // Direct report ingestion

  function LogTitled(ws: string, ideaId: string, title: string): UpdateLog -> bool {
    (l: UpdateLog) => l.workspaceId == ws && l.ideaId == ideaId && l.title == title
  }

  /** `payload.source or "direct_ingest"`. */
  function IngestSource(source: string): (r: string)
    ensures r != ""
    ensures source != "" ==> r == source
  {
    if source == "" then "direct_ingest" else source
  }

  /** `ingest_direct_report` with no model key configured, so the local
      summariser writes `ai_summary` and `ai_tags`. `newId` is the id the new
      row would get. */
  function IngestDirectReport(s: Store, ws: string, payload: UpdateLogCreate, newId: string, now: int)
    : (r: Result<Changed<UpdateLog>, ApiError>)
    ensures r.Failure? <==> forall k :: 0 <= k < |s.ideas| ==> !IdeaInScope(payload.ideaId, ws)(s.ideas[k])
    ensures r.Failure? ==> r.error == NotFound("Idea not found")
    ensures r.Success? ==>
      && r.value.store == s.(logs := r.value.store.logs)
      && r.value.item.workspaceId == ws && r.value.item.ideaId == payload.ideaId
      && r.value.item.title == payload.title
      && r.value.item in r.value.store.logs
    ensures r.Success? && (exists k :: 0 <= k < |s.logs| && LogTitled(ws, payload.ideaId, payload.title)(s.logs[k]))
      ==> r.value.store == s && r.value.item in s.logs
    ensures r.Success? && (forall k :: 0 <= k < |s.logs| ==> !LogTitled(ws, payload.ideaId, payload.title)(s.logs[k]))
      ==> var summary := Summarize.SummarizeMarkdown(payload.bodyMd);
        r.value.store.logs == s.logs + [r.value.item]
        && r.value.item == UpdateLog(newId, ws, payload.ideaId, IngestSource(payload.source), payload.title,
                                     payload.bodyMd, summary.text, summary.tags, [], now)
  {
    match FirstIndex(s.ideas, IdeaInScope(payload.ideaId, ws))
    case None => Failure(NotFound("Idea not found"))
    case Some(_) =>
      match FirstIndex(s.logs, LogTitled(ws, payload.ideaId, payload.title))
      case Some(k) => Success(Changed(s, s.logs[k]))
      case None =>
        var summary := Summarize.SummarizeMarkdown(payload.bodyMd);
        var log := UpdateLog(newId, ws, payload.ideaId, IngestSource(payload.source), payload.title,
                             payload.bodyMd, summary.text, summary.tags, [], now);
        Success(Changed(s.(logs := s.logs + [log]), log))
  }

  /** Ingesting the same report twice adds one log at most: the second call,
      whatever id and time it would use, answers with the first call's log and
      changes nothing. */
  lemma {:induction false} IngestIdempotent(s: Store, ws: string, payload: UpdateLogCreate,
                                            id1: string, now1: int, id2: string, now2: int)
    requires IngestDirectReport(s, ws, payload, id1, now1).Success?
    ensures var first := IngestDirectReport(s, ws, payload, id1, now1).value;
      IngestDirectReport(first.store, ws, payload, id2, now2) == Success(first)
  {
    var first := IngestDirectReport(s, ws, payload, id1, now1).value;
    var s1 := first.store;
    assert s1.ideas == s.ideas;
    var p := LogTitled(ws, payload.ideaId, payload.title);
    match FirstIndex(s.logs, p)
    case Some(k) =>
      assert s1 == s;
    case None =>
      FirstIndexSnoc(s.logs, first.item, p);
      assert s1.logs == s.logs + [first.item];
      assert FirstIndex(s1.logs, p) == Some(|s.logs|);
  }
}
