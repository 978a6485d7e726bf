/** Accounts, tokens, projects and environments: who is let in, what is made, and which token a revocation stops. */
module VaultAccounts {
  import opened Wrappers
  import opened Bytes
  import opened StoreState
  import opened VaultSpec
  import opened VaultErrors
  import opened VaultSafety
  import opened VaultLimits
  import opened VaultAudit
  import opened VaultAccess
  import Aead
  import Events
  import LogFile
  import Text
  import Timestamps
  import Validate

  // ----- one commit -----

  // The event is within the limit of one sealed record.
  predicate Within(e: Event) {
    |Events.ToBytes(e)| <= Aead.MAX_PLAINTEXT_LEN
  }

  // This event and no other was committed: memory has it, the log has not failed, nothing else changed.
  predicate Committed(v: VaultModel, e: Event, after: VaultModel) {
    after == v.(log := after.log, state := Applied(v.state, e)) && !after.log.broken
  }

  lemma CommitIs(v: VaultModel, w: World, e: Event)
    requires v.rootKey.Some?
    ensures Commit(v, e, w).1.Ok? ==> Committed(v, e, Commit(v, e, w).0)
    ensures NextWriteCompletes(v.log, w) ==> (Commit(v, e, w).1.Ok? <==> Within(e))
  {
    hide Commit, Committed, NextWriteCompletes, Events.ToBytes;
    CommitAdds(v, w, e);
    if NextWriteCompletes(v.log, w) {
      CommitsExactly(v, w, e);
    }
  }

  lemma CommitAdds(v: VaultModel, w: World, e: Event)
    ensures Commit(v, e, w).1.Ok? ==> Committed(v, e, Commit(v, e, w).0)
  {
    hide LogFile.SealRecord, LogFile.FrameBytes, Events.ToBytes, Applied;
  }

  // And it is the one event the file gains.
  lemma CommitIsFiled(v: VaultModel, t: Truth, w: World, e: Event)
    requires Inv(v, t) && v.rootKey.Some? && Commit(v, e, w).1.Ok?
    ensures FileGains(v, Commit(v, e, w).0, [e])
  {
    hide Inv, History, Commit, CommitLands;
    CommitLeaves(v, t, e, w);
    HistoryIs(v, t);
    CommitOkLands(v, e, w);
    CommitErrors(v, w, e);
  }

  lemma CommitOkLands(v: VaultModel, e: Event, w: World)
    ensures Commit(v, e, w).1.Ok? ==> CommitLands(v, e, w)
  {
    hide LogFile.SealRecord, LogFile.FrameBytes, Events.ToBytes, Applied;
  }

  // ----- signing in -----

  // The form an address is looked up in; nothing if it is not an address.
  function LoginName(email: string): string {
    match Validate.Email(email)
    case Ok(address) => address
    case Err(_) => ""
  }

  // The account under this address, with this password.
  predicate LetsIn(s: State, email: string, password: string, verify: (string, string) -> bool, user: User) {
    user in s.users && user.email == LoginName(email) && verify(password, user.passwordHash)
  }

  // The session a login issues.
  function SessionEvent(userId: string, ttl: int, secret: string, id: string, now: Timestamps.Timestamp, digest: Digest)
    : Event
  {
    Events.TokenIssued(id, digest(secret), Events.Session, Some(userId), None, None, None,
                       Some(Timestamps.PlusSeconds(now, ttl)), now)
  }

  lemma NameIsNormal(email: string)
    ensures Text.AsciiLowercase(Text.Trim(LoginName(email))) == LoginName(email)
  {
    hide Validate.Email, Text.Trim;
    if Validate.Email(email).Ok? {
      Validate.EmailIsNormal(email);
    } else {
      Text.TrimKeeps("");
    }
  }

  lemma LookedUp(s: State, email: string)
    requires UniqueUsers(s.users)
    ensures UserByEmail(s, LoginName(email)) == None ==>
              forall user :: user in s.users ==> user.email != LoginName(email)
    ensures UserByEmail(s, LoginName(email)).Some? ==>
              var found := UserByEmail(s, LoginName(email)).value;
              && found in s.users && found.email == LoginName(email)
              && forall user :: user in s.users && user.email == LoginName(email) ==> user == found
  {
    hide LoginName, FirstIndex;
    NameIsNormal(email);
    NoneMatch(s.users, EmailIs(LoginName(email)));
    FoundMatches(s.users, EmailIs(LoginName(email)));
    assert forall j :: 0 <= j < |s.users| ==>
             (EmailIs(LoginName(email))(s.users[j]) <==> s.users[j].email == LoginName(email));
  }

  lemma IssueIs(v: VaultModel, w: World, kind: TokenKind, userId: Option<string>, projectId: Option<string>,
                environmentId: Option<string>, title: Option<string>, ttl: Option<int>, secret: string, id: string,
                digest: Digest)
    ensures var now := w.clock(v.log.count);
            var expiresAt := if ttl.Some? then Some(Timestamps.PlusSeconds(now, ttl.value)) else None;
            var e := Events.TokenIssued(id, digest(secret), kind, userId, projectId, environmentId, title, expiresAt,
                                        now);
            var issued := IssueToken(v, w, kind, userId, projectId, environmentId, title, ttl,
                                     TokenDraw(Some(secret), Some(id)), digest);
            && issued.0 == Commit(v, e, w).0 && (issued.1.Ok? <==> Commit(v, e, w).1.Ok?)
            && (issued.1.Ok? ==> issued.1.value == secret)
  {
    hide Commit, Timestamps.PlusSeconds;
  }

  // What a login that is let in comes to.
  lemma LoginIs(v: VaultModel, w: World, email: string, password: string, ttl: int, verify: (string, string) -> bool,
                draw: TokenDraw, digest: Digest, user: User)
    requires v.rootKey.Some? && UniqueUsers(v.state.users) && LetsIn(v.state, email, password, verify, user)
    requires -MAX_LIFETIME_SECONDS <= ttl <= MAX_LIFETIME_SECONDS
    ensures Login(v, w, email, password, ttl, verify, draw, digest)
         == IssueToken(v, w, Events.Session, Some(user.id), None, None, None, Some(ttl), draw, digest)
  {
    hide IssueToken, UserByEmail, Validate.Email, UniqueUsers;
    LookedUp(v.state, email);
  }

  // One that is not changes nothing.
  lemma LoginRefused(v: VaultModel, w: World, email: string, password: string, ttl: int,
                     verify: (string, string) -> bool, draw: TokenDraw, digest: Digest)
    requires v.rootKey.Some? && UniqueUsers(v.state.users)
    requires forall user :: !LetsIn(v.state, email, password, verify, user)
    ensures Login(v, w, email, password, ttl, verify, draw, digest)
         == (v, Err(if -MAX_LIFETIME_SECONDS <= ttl <= MAX_LIFETIME_SECONDS then BadCredentials
                    else Invalid("token lifetime")))
  {
    hide IssueToken, UserByEmail, Validate.Email, UniqueUsers;
    LookedUp(v.state, email);
    if UserByEmail(v.state, LoginName(email)).Some? {
      assert !LetsIn(v.state, email, password, verify, UserByEmail(v.state, LoginName(email)).value);
    }
  }

  /**
   Who is let in, exactly. Given entropy and a write that completes, a login
   succeeds if and only if the lifetime is in range and there is an account
   under the address whose password this is, and the event that issues the
   session fits. Nobody else changes anything.
   */
  lemma LoginExactly(v: VaultModel, w: World, email: string, password: string, ttl: int,
                     verify: (string, string) -> bool, secret: string, id: string, digest: Digest)
    requires v.rootKey.Some? && UniqueUsers(v.state.users) && NextWriteCompletes(v.log, w)
    ensures var r := Login(v, w, email, password, ttl, verify, TokenDraw(Some(secret), Some(id)), digest);
            && (r.1.Ok? <==> && -MAX_LIFETIME_SECONDS <= ttl <= MAX_LIFETIME_SECONDS
                             && exists user :: LetsIn(v.state, email, password, verify, user)
                                               && Within(SessionEvent(user.id, ttl, secret, id, w.clock(v.log.count),
                                                                      digest)))
            && ((forall user :: !LetsIn(v.state, email, password, verify, user)) ==> r.0 == v && r.1.Err?)
  {
    hide Login, Commit, IssueToken, LetsIn, Within, NextWriteCompletes, UniqueUsers, Timestamps.PlusSeconds;
    var draw := TokenDraw(Some(secret), Some(id));
    if -MAX_LIFETIME_SECONDS <= ttl <= MAX_LIFETIME_SECONDS {
      forall user | LetsIn(v.state, email, password, verify, user)
        ensures Login(v, w, email, password, ttl, verify, draw, digest).1.Ok?
           <==> Within(SessionEvent(user.id, ttl, secret, id, w.clock(v.log.count), digest))
      {
        LoginIs(v, w, email, password, ttl, verify, draw, digest, user);
        IssueIs(v, w, Events.Session, Some(user.id), None, None, None, Some(ttl), secret, id, digest);
        CommitIs(v, w, SessionEvent(user.id, ttl, secret, id, w.clock(v.log.count), digest));
      }
    } else {
      LifetimeRefused(v, w, email, password, ttl, verify, draw, digest);
    }
    if forall user :: !LetsIn(v.state, email, password, verify, user) {
      LoginRefused(v, w, email, password, ttl, verify, draw, digest);
    }
  }

  lemma LifetimeRefused(v: VaultModel, w: World, email: string, password: string, ttl: int,
                        verify: (string, string) -> bool, draw: TokenDraw, digest: Digest)
    requires v.rootKey.Some? && !(-MAX_LIFETIME_SECONDS <= ttl <= MAX_LIFETIME_SECONDS)
    ensures Login(v, w, email, password, ttl, verify, draw, digest) == (v, Err(Invalid("token lifetime")))
  {
    hide IssueToken, UserByEmail, Validate.Email;
  }

  /**
   What a login issues: the secret drawn, and one event, a session for the
   account that was let in, known by the digest of that secret and expiring as
   many seconds from now as was asked.
   */
  lemma LoginIssues(v: VaultModel, t: Truth, w: World, email: string, password: string, ttl: int,
                    verify: (string, string) -> bool, draw: TokenDraw, digest: Digest) returns (user: User, e: Event)
    requires Inv(v, t) && Login(v, w, email, password, ttl, verify, draw, digest).1.Ok?
    ensures draw.secret.Some? && draw.id.Some? && LetsIn(v.state, email, password, verify, user)
    ensures e == SessionEvent(user.id, ttl, draw.secret.value, draw.id.value, w.clock(v.log.count), digest)
    ensures var (after, r) := Login(v, w, email, password, ttl, verify, draw, digest);
            r == Ok(draw.secret.value) && Committed(v, e, after) && FileGains(v, after, [e])
  {
    hide Inv, Login, Commit, Committed, IssueToken, LetsIn, Unique, FileGains, Timestamps.PlusSeconds;
    LoginIsUnsealed(v, w, email, password, ttl, verify, draw, digest);
    InvUniqueUsers(v, t);
    if forall user :: !LetsIn(v.state, email, password, verify, user) {
      LoginRefused(v, w, email, password, ttl, verify, draw, digest);
    }
    user :| LetsIn(v.state, email, password, verify, user);
    if !(-MAX_LIFETIME_SECONDS <= ttl <= MAX_LIFETIME_SECONDS) {
      LifetimeRefused(v, w, email, password, ttl, verify, draw, digest);
    }
    LoginIs(v, w, email, password, ttl, verify, draw, digest, user);
    IssueNeedsDraw(v, w, Events.Session, Some(user.id), None, None, None, Some(ttl), draw, digest);
    IssueIs(v, w, Events.Session, Some(user.id), None, None, None, Some(ttl), draw.secret.value, draw.id.value, digest);
    e := SessionEvent(user.id, ttl, draw.secret.value, draw.id.value, w.clock(v.log.count), digest);
    CommitIs(v, w, e);
    CommitIsFiled(v, t, w, e);
  }

  lemma LoginIsUnsealed(v: VaultModel, w: World, email: string, password: string, ttl: int,
                        verify: (string, string) -> bool, draw: TokenDraw, digest: Digest)
    ensures Login(v, w, email, password, ttl, verify, draw, digest).1.Ok? ==> v.rootKey.Some?
  {
    hide IssueToken, UserByEmail, Validate.Email;
  }

  lemma InvUniqueUsers(v: VaultModel, t: Truth)
    requires Inv(v, t)
    ensures Unique(v.state) && UniqueUsers(v.state.users) && UniqueTokens(v.state.tokens)
  {
    hide Durable, LogSafety.Sound, Remembers, UniqueUsers, UniqueTokens, UniqueProjects, UniqueEnvironments,
         OneEntryPerSlot;
  }

  lemma IssueNeedsDraw(v: VaultModel, w: World, kind: TokenKind, userId: Option<string>, projectId: Option<string>,
                       environmentId: Option<string>, title: Option<string>, ttl: Option<int>, draw: TokenDraw,
                       digest: Digest)
    ensures IssueToken(v, w, kind, userId, projectId, environmentId, title, ttl, draw, digest).1.Ok? ==>
              draw.secret.Some? && draw.id.Some? && draw == TokenDraw(Some(draw.secret.value), Some(draw.id.value))
  {
    hide Commit, Timestamps.PlusSeconds;
  }

  // ----- creating an account -----

  /**
   Creating an account, exactly. Given a hash, an identifier and a write that
   completes, it succeeds if and only if the caller is no machine, the address is one and
   is not taken, and the event fits; what it adds is that address with that hash.
   */
  lemma CreateUserExactly(v: VaultModel, w: World, caller: Caller, email: string, hash: string, id: string)
    requires v.rootKey.Some? && NextWriteCompletes(v.log, w)
    ensures var (after, r) := CreateUser(v, w, caller, email, Hashed(hash), Some(id));
            && (r.Ok? <==> && caller.kind != Events.Machine && Validate.Email(email).Ok?
                           && (forall user :: user in v.state.users ==> user.email != LoginName(email))
                           && Within(Events.UserCreated(id, LoginName(email), hash, w.clock(v.log.count))))
            && (r.Err? ==> after == v)
            && (r.Ok? ==> r.value == id
                          && Committed(v, Events.UserCreated(id, LoginName(email), hash, w.clock(v.log.count)), after))
  {
    hide Commit, Committed, Within, NextWriteCompletes, Validate.Email, UserByEmail;
    CommitIs(v, w, Events.UserCreated(id, LoginName(email), hash, w.clock(v.log.count)));
    CommitUnchanged(v, w, Events.UserCreated(id, LoginName(email), hash, w.clock(v.log.count)));
    LookedUpAny(v.state, email);
  }

  // With a write that completes, a commit refused for its size changes nothing.
  lemma CommitUnchanged(v: VaultModel, w: World, e: Event)
    requires v.rootKey.Some? && NextWriteCompletes(v.log, w)
    ensures Commit(v, e, w).1.Err? ==> Commit(v, e, w).0 == v
  {
    hide LogFile.SealRecord, LogFile.FrameBytes, Events.ToBytes, Applied, Aead.Countable;
  }

  lemma LookedUpAny(s: State, email: string)
    ensures UserByEmail(s, LoginName(email)) == None
       <==> forall user :: user in s.users ==> user.email != LoginName(email)
  {
    hide LoginName, FirstIndex;
    NameIsNormal(email);
    NoneMatch(s.users, EmailIs(LoginName(email)));
    if UserByEmail(s, LoginName(email)).None? {
      forall user | user in s.users
        ensures user.email != LoginName(email)
      {
        var j :| 0 <= j < |s.users| && s.users[j] == user;
        assert !EmailIs(LoginName(email))(s.users[j]);
      }
    } else {
      FoundMatches(s.users, EmailIs(LoginName(email)));
    }
  }

  // A created account, whatever the disk did, is the address with the hash given.
  lemma CreateUserAdds(v: VaultModel, w: World, caller: Caller, email: string, hashed: PasswordHash, id: Option<string>)
    requires CreateUser(v, w, caller, email, hashed, id).1.Ok?
    ensures v.rootKey.Some? && hashed.Hashed? && id.Some? && Validate.Email(email).Ok?
    ensures var e := Events.UserCreated(id.value, LoginName(email), hashed.text, w.clock(v.log.count));
            Committed(v, e, CreateUser(v, w, caller, email, hashed, id).0)
  {
    hide Commit, Committed, Validate.Email, UserByEmail;
    CreateUserNeeds(v, w, caller, email, hashed, id);
    CommitIs(v, w, Events.UserCreated(id.value, LoginName(email), hashed.text, w.clock(v.log.count)));
  }

  lemma CreateUserNeeds(v: VaultModel, w: World, caller: Caller, email: string, hashed: PasswordHash,
                        id: Option<string>)
    requires CreateUser(v, w, caller, email, hashed, id).1.Ok?
    ensures v.rootKey.Some? && hashed.Hashed? && id.Some? && Validate.Email(email).Ok?
  {
    hide Commit, Validate.Email, UserByEmail;
  }

  // ----- machine tokens -----

  // The token a machine is issued, for one environment.
  function MachineEvent(slot: (string, string), title: string, ttl: Option<int>, secret: string, id: string,
                        now: Timestamps.Timestamp, digest: Digest): Event {
    Events.TokenIssued(id, digest(secret), Events.Machine, None, Some(slot.0), Some(slot.1), Some(title),
                       if ttl.Some? then Some(Timestamps.PlusSeconds(now, ttl.value)) else None, now)
  }

  predicate LifetimeInRange(ttl: Option<int>) {
    ttl.Some? ==> -MAX_LIFETIME_SECONDS <= ttl.value <= MAX_LIFETIME_SECONDS
  }

  /**
   Issuing a machine token, exactly. Given entropy and a write that completes,
   it succeeds if and only if the caller is a session, the lifetime is in
   range, the names resolve and the event fits; what it adds is a machine token
   for the project and environment those names stand for.
   */
  lemma IssueMachineTokenExactly(v: VaultModel, w: World, caller: Caller, projectSlug: string, environmentSlug: string,
                                 title: string, ttl: Option<int>, secret: string, id: string, digest: Digest)
    requires v.rootKey.Some? && NextWriteCompletes(v.log, w)
    ensures var (after, r) := IssueMachineToken(v, w, caller, projectSlug, environmentSlug, title, ttl,
                                                TokenDraw(Some(secret), Some(id)), digest);
            var names := Resolve(v.state, projectSlug, environmentSlug);
            && (r.Ok? <==> && caller.kind == Events.Session && LifetimeInRange(ttl) && names.Ok?
                           && Within(MachineEvent(names.value, title, ttl, secret, id, w.clock(v.log.count), digest)))
            && (r.Ok? ==> r.value == secret
                          && Committed(v, MachineEvent(names.value, title, ttl, secret, id, w.clock(v.log.count),
                                                       digest), after))
  {
    hide Commit, Committed, IssueToken, Resolve, Within, NextWriteCompletes, Timestamps.PlusSeconds;
    var names := Resolve(v.state, projectSlug, environmentSlug);
    if names.Ok? {
      IssueIs(v, w, Events.Machine, None, Some(names.value.0), Some(names.value.1), Some(title), ttl, secret, id,
              digest);
      CommitIs(v, w, MachineEvent(names.value, title, ttl, secret, id, w.clock(v.log.count), digest));
    }
  }

  // An issued machine token, whatever the disk did, is what was asked for.
  lemma MachineTokenAdds(v: VaultModel, w: World, caller: Caller, projectSlug: string, environmentSlug: string,
                         title: string, ttl: Option<int>, draw: TokenDraw, digest: Digest)
    requires IssueMachineToken(v, w, caller, projectSlug, environmentSlug, title, ttl, draw, digest).1.Ok?
    ensures v.rootKey.Some? && draw.secret.Some? && draw.id.Some? && Resolve(v.state, projectSlug, environmentSlug).Ok?
    ensures var (after, r) := IssueMachineToken(v, w, caller, projectSlug, environmentSlug, title, ttl, draw, digest);
            var names := Resolve(v.state, projectSlug, environmentSlug).value;
            && r.value == draw.secret.value
            && Committed(v, MachineEvent(names, title, ttl, draw.secret.value, draw.id.value, w.clock(v.log.count),
                                         digest), after)
  {
    hide Commit, Committed, IssueToken, Resolve, Timestamps.PlusSeconds;
    var names := Resolve(v.state, projectSlug, environmentSlug).value;
    IssueNeedsDraw(v, w, Events.Machine, None, Some(names.0), Some(names.1), Some(title), ttl, draw, digest);
    IssueIs(v, w, Events.Machine, None, Some(names.0), Some(names.1), Some(title), ttl, draw.secret.value,
            draw.id.value, digest);
    CommitIs(v, w, MachineEvent(names, title, ttl, draw.secret.value, draw.id.value, w.clock(v.log.count), digest));
  }

  // ----- revoking -----

  // The token with this identifier stands revoked from then on; every other is as it was, and so is all else.
  predicate RevokedOnly(s: State, u: State, id: string, at: Timestamps.Timestamp) {
    && u == s.(tokens := u.tokens) && |u.tokens| == |s.tokens|
    && forall k :: 0 <= k < |s.tokens| ==>
         u.tokens[k] == if s.tokens[k].id == id then s.tokens[k].(revokedAt := Some(at)) else s.tokens[k]
  }

  lemma RevocationIs(s: State, id: string, at: Timestamps.Timestamp)
    requires UniqueTokens(s.tokens)
    ensures RevokedOnly(s, Applied(s, Events.TokenRevoked(id, at)), id, at)
  {
    var k := FirstIndex(s.tokens, TokenIs(id));
    assert k < |s.tokens| ==> s.tokens[k].id == id;
    assert forall j :: 0 <= j < k ==> s.tokens[j].id != id by {
      assert forall j :: 0 <= j < k ==> !TokenIs(id)(s.tokens[j]);
    }
  }

  /**
   Revoking, exactly. Given a write that completes, it succeeds if and only if
   there is such a token, the caller is its holder or a session, and the event
   fits; and then that token is revoked, and nothing else is changed.
   */
  lemma RevokeTokenExactly(v: VaultModel, w: World, caller: Caller, id: string)
    requires v.rootKey.Some? && NextWriteCompletes(v.log, w)
    ensures RevokeToken(v, w, caller, id).1.Ok?
       <==> && (exists token :: token in v.state.tokens && token.id == id)
            && (id == caller.tokenId || caller.kind == Events.Session)
            && Within(Events.TokenRevoked(id, w.clock(v.log.count)))
  {
    hide Commit, Committed, Within, NextWriteCompletes, FirstIndex;
    CommitIs(v, w, Events.TokenRevoked(id, w.clock(v.log.count)));
    NoneMatch(v.state.tokens, TokenIs(id));
    FoundMatches(v.state.tokens, TokenIs(id));
    if token :| token in v.state.tokens && token.id == id {
      var j :| 0 <= j < |v.state.tokens| && v.state.tokens[j] == token;
      assert TokenIs(id)(v.state.tokens[j]);
    }
  }

  /** A revocation answered done, whatever the disk did, has stopped the token it named and no other. */
  lemma RevokeTokenRevokes(v: VaultModel, t: Truth, w: World, caller: Caller, id: string)
    requires Inv(v, t) && RevokeToken(v, w, caller, id).1.Ok?
    ensures v.rootKey.Some? && (exists token :: token in v.state.tokens && token.id == id)
    ensures var after := RevokeToken(v, w, caller, id).0;
            && RevokedOnly(v.state, after.state, id, w.clock(v.log.count))
            && !after.log.broken && after.rootKey == v.rootKey
            && FileGains(v, after, [Events.TokenRevoked(id, w.clock(v.log.count))])
  {
    hide Inv, Commit, FileGains, GrantedTo, UniqueTokens, Applied, RevokedOnly;
    InvUniqueUsers(v, t);
    RevokeIs(v, w, caller, id);
    FoundMatches(v.state.tokens, TokenIs(id));
    CommitIs(v, w, Events.TokenRevoked(id, w.clock(v.log.count)));
    CommitIsFiled(v, t, w, Events.TokenRevoked(id, w.clock(v.log.count)));
    RevocationIs(v.state, id, w.clock(v.log.count));
  }

  lemma RevokeIs(v: VaultModel, w: World, caller: Caller, id: string)
    requires RevokeToken(v, w, caller, id).1.Ok?
    ensures v.rootKey.Some? && TokenById(v.state, id).Some?
    ensures RevokeToken(v, w, caller, id) == Commit(v, Events.TokenRevoked(id, w.clock(v.log.count)), w)
  {
    hide Commit, TokenById;
  }

  // ----- who a token is -----

  // Who this token makes its bearer, if anyone: not once revoked or expired, and not as root once there is an account.
  predicate Usable(token: Token, s: State, presented: string, now: Timestamps.Timestamp) {
    && presented != "" && token.revokedAt == None && (token.expiresAt.Some? ==> now < token.expiresAt.value)
    && (token.kind == Events.Root ==> s.users == [])
  }

  function Bearer(token: Token): Caller {
    Caller(token.id, token.kind, token.userId, token.projectId, token.environmentId)
  }

  lemma TokenFound(s: State, token: Token)
    requires UniqueTokens(s.tokens) && token in s.tokens
    ensures TokenByHash(s, token.tokenHash) == Some(token) && TokenById(s, token.id) == Some(token)
  {
    hide Find;
    var k :| 0 <= k < |s.tokens| && s.tokens[k] == token;
    FoundAt(s.tokens, HashIs(token.tokenHash), k);
    FoundAt(s.tokens, TokenIs(token.id), k);
  }

  /**
   Who is recognised, exactly. Text presented is someone if and only if its
   digest is that of a token still usable, and then it is that token's bearer,
   with its identifier, its kind and its scope.
   */
  lemma AuthenticatesExactly(v: VaultModel, presented: string, now: Timestamps.Timestamp, digest: Digest,
                             caller: Caller)
    requires v.rootKey.Some? && UniqueTokens(v.state.tokens)
    ensures Authenticate(v, presented, now, digest) == Some(caller)
       <==> exists token :: token in v.state.tokens && token.tokenHash == digest(presented)
                            && Usable(token, v.state, presented, now) && caller == Bearer(token)
  {
    hide FirstIndex, UniqueTokens;
    FoundMatches(v.state.tokens, HashIs(digest(presented)));
    forall token | token in v.state.tokens && token.tokenHash == digest(presented)
      ensures TokenByHash(v.state, digest(presented)) == Some(token)
    {
      TokenFound(v.state, token);
    }
  }

  // ----- what the callers of each kind can do -----

  // A session, or the bearer of a machine token for this very environment.
  predicate MayRead(caller: Caller, names: (string, string)) {
    || caller.kind == Events.Session
    || (caller.kind == Events.Machine && caller.projectId == Some(names.0) && caller.environmentId == Some(names.1))
  }

  /** Only sessions administer: everything that changes the vault at large is refused to a machine and to root. */
  lemma OnlySessionsAdminister(v: VaultModel, w: World, caller: Caller, a: string, b: string, c: string,
                               ttl: Option<int>, draw: TokenDraw, drawn: ProjectDraw, id: Option<string>,
                               digest: Digest)
    requires caller.kind != Events.Session
    ensures CreateProject(v, w, caller, a, b, drawn).1.Err? && CreateProject(v, w, caller, a, b, drawn).0 == v
    ensures CreateEnvironment(v, w, caller, a, b, c, id).1.Err? && CreateEnvironment(v, w, caller, a, b, c, id).0 == v
    ensures var issued := IssueMachineToken(v, w, caller, a, b, c, ttl, draw, digest); issued.1.Err? && issued.0 == v
    ensures a != caller.tokenId ==> RevokeToken(v, w, caller, a).1.Err? && RevokeToken(v, w, caller, a).0 == v
    ensures SealAs(v, caller) == (v, Err(Forbidden)) && AuditTrail(v, caller) == Err(Forbidden)
  {
    hide Commit, IssueToken, Resolve, Validate.Slug, ProjectBySlug, TokenById;
  }

  /** And secrets are written by sessions alone, and read by them and by the environment's own machines. */
  lemma OnlyTheirOwnAreServed(v: VaultModel, w: World, caller: Caller, projectSlug: string, environmentSlug: string,
                              key: string, value: seq<byte>, nonce: Option<Aead.Nonce>)
    ensures SetSecret(v, w, caller, projectSlug, environmentSlug, key, value, nonce).1.Ok? ==>
              caller.kind == Events.Session
    ensures DeleteSecret(v, w, caller, projectSlug, environmentSlug, key).1.Ok? ==> caller.kind == Events.Session
    ensures GetSecret(v, w, caller, projectSlug, environmentSlug, key).1.Ok? ==>
              var names := Resolve(v.state, projectSlug, environmentSlug); names.Ok? && MayRead(caller, names.value)
    ensures ListSecrets(v, w, caller, projectSlug, environmentSlug).1.Ok? ==>
              var names := Resolve(v.state, projectSlug, environmentSlug); names.Ok? && MayRead(caller, names.value)
  {
    hide RecordAudit, Commit, Resolve, ProjectDataKey, Aead.Seal, Aead.Open, SecretContext, SecretAt, SecretsIn,
         RevealAll, Target, ListTarget, Validate.IsSecretKey;
    RefusalNeverOk(v, w, caller);
  }

  lemma RefusalNeverOk(v: VaultModel, w: World, caller: Caller)
    ensures forall action, target, outcome, error :: Refused<()>(v, w, caller, action, target, outcome, error).1.Err?
  {
    hide RecordAudit;
  }

  // ----- sealing -----

  // The vault is sealed, and nothing of what it held is in memory.
  predicate Forgotten(v: VaultModel) {
    v.rootKey == None && v.state == EMPTY && v.pending == []
  }

  /** Sealing forgets the key, the state and the pending shares, and is open to sessions alone. */
  lemma SealForgets(v: VaultModel, caller: Caller)
    ensures Forgotten(SealVault(v)) && SealVault(v).log == v.log && SealVault(v).barrier == v.barrier
    ensures SealAs(v, caller).1.Ok? <==> caller.kind == Events.Session
    ensures SealAs(v, caller).0 == if caller.kind == Events.Session then SealVault(v) else v
  {
  }

  /** A sealed vault serves nobody: it recognises no token, and every operation leaves it as it was. */
  lemma SealedServesNobody(v: VaultModel, w: World, caller: Caller, a: string, b: string, c: string, value: seq<byte>,
                           nonce: Option<Aead.Nonce>, now: Timestamps.Timestamp, digest: Digest)
    requires v.rootKey == None
    ensures Authenticate(v, a, now, digest) == None
    ensures GetSecret(v, w, caller, a, b, c) == (v, Err(VaultSealed))
    ensures ListSecrets(v, w, caller, a, b) == (v, Err(VaultSealed))
    ensures SetSecret(v, w, caller, a, b, c, value, nonce) == (v, Err(VaultSealed))
    ensures DeleteSecret(v, w, caller, a, b, c) == (v, Err(VaultSealed))
    ensures RevokeToken(v, w, caller, a) == (v, Err(VaultSealed))
    ensures AuditTrail(v, caller).Err? && CheckSecret(v, caller, a, b, c, value) == Err(VaultSealed)
  {
  }

  /** Nor does it sign anyone in, or make or issue anything. */
  lemma SealedMakesNothing(v: VaultModel, w: World, caller: Caller, a: string, b: string, c: string,
                           hashed: PasswordHash, ttl: Option<int>, seconds: int, verify: (string, string) -> bool,
                           draw: TokenDraw, drawn: ProjectDraw, id: Option<string>, digest: Digest)
    requires v.rootKey == None
    ensures CreateUser(v, w, caller, a, hashed, id) == (v, Err(VaultSealed))
    ensures Login(v, w, a, b, seconds, verify, draw, digest) == (v, Err(VaultSealed))
    ensures IssueMachineToken(v, w, caller, a, b, c, ttl, draw, digest) == (v, Err(VaultSealed))
    ensures CreateProject(v, w, caller, a, b, drawn) == (v, Err(VaultSealed))
    ensures CreateEnvironment(v, w, caller, a, b, c, id) == (v, Err(VaultSealed))
  {
  }

  // ----- projects and environments -----

  /**
   A project, exactly. Given an identifier, a key, a nonce and a write that
   completes, creating one succeeds if and only if the caller is a session, the
   slug is one and is not taken, and the event fits.
   */
  lemma CreateProjectExactly(v: VaultModel, w: World, caller: Caller, slug: string, name: string, id: string,
                             dataKey: Key, nonce: Aead.Nonce)
    requires v.rootKey.Some? && NextWriteCompletes(v.log, w)
    ensures Aead.Wrap(v.rootKey.value, Some(nonce), dataKey, ProjectKeyContext(id)).Ok?
    ensures CreateProject(v, w, caller, slug, name, ProjectDraw(Some(id), Some(dataKey), Some(nonce))).1.Ok?
       <==> && caller.kind == Events.Session && Validate.Slug(slug, "project slug") == Ok(slug)
            && (forall p :: p in v.state.projects ==> p.slug != slug)
            && Within(ProjectEvent(v.rootKey.value, id, slug, name, dataKey, nonce, w.clock(v.log.count)))
  {
    hide Commit, Within, NextWriteCompletes, Aead.Seal, ProjectKeyContext, FirstIndex;
    WrappedOpens(v.rootKey.value, Some(nonce), dataKey, ProjectKeyContext(id));
    CommitIs(v, w, ProjectEvent(v.rootKey.value, id, slug, name, dataKey, nonce, w.clock(v.log.count)));
    SlugIsItself(slug, "project slug");
    SlugTaken(v.state, slug);
    hide Validate.Slug, Committed, ProjectBySlug;
  }

  function ProjectEvent(rootKey: Key, id: string, slug: string, name: string, dataKey: Key, nonce: Aead.Nonce,
                        now: Timestamps.Timestamp): Event {
    var wrapped := Aead.Wrap(rootKey, Some(nonce), dataKey, ProjectKeyContext(id));
    Events.ProjectCreated(id, slug, name,
                          if wrapped.Ok? then Events.SealedOf(wrapped.value) else Events.Sealed([], []), now)
  }

  lemma SlugIsItself(slug: string, what: string)
    ensures Validate.Slug(slug, what).Ok? ==> Validate.Slug(slug, what) == Ok(slug)
  {
  }

  lemma SlugTaken(s: State, slug: string)
    ensures ProjectBySlug(s, slug) == None <==> forall p :: p in s.projects ==> p.slug != slug
  {
    hide FirstIndex;
    NoneMatch(s.projects, SlugIs(slug));
    FoundMatches(s.projects, SlugIs(slug));
    if ProjectBySlug(s, slug).None? {
      forall p | p in s.projects
        ensures p.slug != slug
      {
        var j :| 0 <= j < |s.projects| && s.projects[j] == p;
        assert !SlugIs(slug)(s.projects[j]);
      }
    }
  }

  /**
   A project that was created is reached by its slug, with its name, and its data
   key is the one that was drawn for it.
   */
  lemma ProjectIsReached(v: VaultModel, w: World, caller: Caller, slug: string, name: string, draw: ProjectDraw)
    requires CreateProject(v, w, caller, slug, name, draw).1.Ok? && draw.id.Some? && FreshId(v.state, draw.id.value)
    ensures draw.dataKey.Some?
    ensures var (after, r) := CreateProject(v, w, caller, slug, name, draw);
            && r.value == draw.id.value && !after.log.broken
            && after == v.(log := after.log, state := v.state.(projects := after.state.projects))
            && |after.state.projects| == |v.state.projects| + 1 && v.state.projects <= after.state.projects
            && var p := after.state.projects[|v.state.projects|];
               && ProjectBySlug(after.state, slug) == Some(p)
               && p.id == draw.id.value && p.slug == slug && p.name == name
               && ProjectDataKey(after, draw.id.value) == Ok(draw.dataKey.value)
  {
    hide Commit, Validate.Slug, Aead.Wrap, Aead.UnwrapKey, ProjectKeyContext, FirstIndex, FreshId;
    ProjectNeeds(v, w, caller, slug, name, draw);
    SlugIsItself(slug, "project slug");
    var context := ProjectKeyContext(draw.id.value);
    var wrapped := Aead.Wrap(v.rootKey.value, draw.wrapNonce, draw.dataKey.value, context).value;
    var e := Events.ProjectCreated(draw.id.value, slug, name, Events.SealedOf(wrapped), w.clock(v.log.count));
    CommitIs(v, w, e);
    WrappedOpens(v.rootKey.value, draw.wrapNonce, draw.dataKey.value, context);
    var p := Project(e.id, e.slug, e.name, e.dataKey, e.createdAt);
    NoneMatch(v.state.projects, SlugIs(slug));
    LastFound(v.state.projects, SlugIs(slug), p);
    FreshAmongProjects(v.state, draw.id.value);
    LastFound(v.state.projects, ProjectIs(draw.id.value), p);
  }

  lemma ProjectNeeds(v: VaultModel, w: World, caller: Caller, slug: string, name: string, draw: ProjectDraw)
    requires CreateProject(v, w, caller, slug, name, draw).1.Ok?
    ensures v.rootKey.Some? && draw.id.Some? && draw.dataKey.Some? && Validate.Slug(slug, "project slug").Ok?
    ensures Aead.Wrap(v.rootKey.value, draw.wrapNonce, draw.dataKey.value, ProjectKeyContext(draw.id.value)).Ok?
    ensures ProjectBySlug(v.state, Validate.Slug(slug, "project slug").value).None?
  {
    hide Commit, Validate.Slug, Aead.Wrap, ProjectKeyContext, ProjectBySlug;
  }

  lemma FreshAmongProjects(s: State, id: string)
    requires FreshId(s, id)
    ensures forall j :: 0 <= j < |s.projects| ==> !ProjectIs(id)(s.projects[j])
  {
  }

  // What matches nothing before is found at the end.
  lemma LastFound<T>(s: seq<T>, p: T -> bool, x: T)
    requires p(x) && forall j :: 0 <= j < |s| ==> !p(s[j])
    ensures Find(s + [x], p) == Some(x)
  {
    FoundAt(s + [x], p, |s|);
  }

  /**
   An environment, exactly. Given an identifier and a write that completes,
   creating one succeeds if and only if the caller is a session, the project is
   there, the slug is one and is not taken in it, and the event fits.
   */
  lemma CreateEnvironmentExactly(v: VaultModel, w: World, caller: Caller, projectSlug: string, slug: string,
                                 name: string, id: string)
    requires v.rootKey.Some? && NextWriteCompletes(v.log, w)
    ensures CreateEnvironment(v, w, caller, projectSlug, slug, name, Some(id)).1.Ok?
       <==> && caller.kind == Events.Session && Validate.Slug(slug, "environment slug") == Ok(slug)
            && var project := ProjectBySlug(v.state, projectSlug);
               && project.Some? && Resolve(v.state, projectSlug, slug).Err?
               && Within(Events.EnvironmentCreated(id, project.value.id, slug, name, w.clock(v.log.count)))
  {
    hide Commit, Committed, Within, NextWriteCompletes, Validate.Slug, ProjectBySlug, EnvironmentBySlug;
    SlugIsItself(slug, "environment slug");
    var project := ProjectBySlug(v.state, projectSlug);
    if project.Some? {
      CommitIs(v, w, Events.EnvironmentCreated(id, project.value.id, slug, name, w.clock(v.log.count)));
    }
  }

  /** An environment that was created is what its project's slug and its own resolve to. */
  lemma EnvironmentIsReached(v: VaultModel, w: World, caller: Caller, projectSlug: string, slug: string, name: string,
                             id: Option<string>)
    requires CreateEnvironment(v, w, caller, projectSlug, slug, name, id).1.Ok?
    ensures id.Some? && ProjectBySlug(v.state, projectSlug).Some?
    ensures var (after, r) := CreateEnvironment(v, w, caller, projectSlug, slug, name, id);
            var project := ProjectBySlug(v.state, projectSlug).value;
            && r.value == id.value && !after.log.broken
            && Resolve(after.state, projectSlug, slug) == Ok((project.id, id.value))
            && after == v.(log := after.log, state := v.state.(environments := v.state.environments
                             + [Environment(id.value, project.id, slug, name, w.clock(v.log.count))]))
  {
    hide Commit, Validate.Slug, FirstIndex;
    EnvironmentNeeds(v, w, caller, projectSlug, slug, name, id);
    SlugIsItself(slug, "environment slug");
    var project := ProjectBySlug(v.state, projectSlug).value;
    CommitIs(v, w, Events.EnvironmentCreated(id.value, project.id, slug, name, w.clock(v.log.count)));
    NoneMatch(v.state.environments, EnvironmentIs(project.id, slug));
    LastFound(v.state.environments, EnvironmentIs(project.id, slug),
              Environment(id.value, project.id, slug, name, w.clock(v.log.count)));
  }

  lemma EnvironmentNeeds(v: VaultModel, w: World, caller: Caller, projectSlug: string, slug: string, name: string,
                         id: Option<string>)
    requires CreateEnvironment(v, w, caller, projectSlug, slug, name, id).1.Ok?
    ensures v.rootKey.Some? && id.Some? && ProjectBySlug(v.state, projectSlug).Some?
    ensures Validate.Slug(slug, "environment slug").Ok?
    ensures EnvironmentBySlug(v.state, ProjectBySlug(v.state, projectSlug).value.id,
                              Validate.Slug(slug, "environment slug").value).None?
  {
    hide Commit, Validate.Slug, ProjectBySlug, EnvironmentBySlug;
  }
}
