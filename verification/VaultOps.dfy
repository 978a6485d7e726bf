/** Each operation as at most two commits of admissible events. */
module VaultOps {
  import opened Wrappers
  import opened Bytes
  import opened StoreState
  import opened VaultSpec
  import opened VaultSafety
  import opened VaultRekey
  import Aead
  import Events
  import Text
  import Validate

  // The slot whose content an event changes, if it changes one.
  function Writes(e: Event): Option<Slot> {
    match e
    case SecretSet(ownerId, inEnvironment, key, _, _) => Some(Slot(ownerId, inEnvironment, key))
    case SecretDeleted(ownerId, inEnvironment, key, _) => Some(Slot(ownerId, inEnvironment, key))
    case _ => None
  }

  // What an operation is asked to change among the things that last: a slot's content, or a token's standing.
  datatype Touch = Nothing | TheSlot(slot: Slot) | TheToken(id: string)

  function SlotTouch(named: Option<Slot>): Touch {
    match named
    case None => Nothing
    case Some(slot) => TheSlot(slot)
  }

  // What an event changes.
  function Touches(e: Event): Touch {
    if e.TokenRevoked? then TheToken(e.id) else SlotTouch(Writes(e))
  }

  // An event that may be committed here, and that changes nothing that lasts but `at`.
  predicate Permitted(v: VaultModel, at: Touch, e: Event) {
    && v.rootKey.Some? && (Touches(e).Nothing? || Touches(e) == at)
    && (!v.log.broken ==> Admissible(v.state, v.rootKey.value, e))
  }

  // Nothing happened, or one permitted event was committed.
  ghost predicate OneStep(v: VaultModel, w: World, at: Touch, next: VaultModel) {
    next == v || exists e :: Permitted(v, at, e) && next == Commit(v, e, w).0
  }

  ghost predicate TwoSteps(v: VaultModel, w: World, at: Touch, next: VaultModel) {
    exists between :: OneStep(v, w, at, between) && OneStep(between, w, at, next)
  }

  lemma NoStep(v: VaultModel, w: World, at: Touch)
    ensures TwoSteps(v, w, at, v)
  {
    hide Commit, Permitted;
    assert OneStep(v, w, at, v);
  }

  lemma CommitIsStep(v: VaultModel, w: World, at: Touch, e: Event)
    requires Permitted(v, at, e)
    ensures OneStep(v, w, at, Commit(v, e, w).0) && TwoSteps(v, w, at, Commit(v, e, w).0)
  {
    hide Commit, Permitted;
    assert OneStep(v, w, at, v) && OneStep(v, w, at, Commit(v, e, w).0);
  }

  lemma AuditIsStep(v: VaultModel, w: World, at: Touch, caller: Caller, action: string, target: string,
                    outcome: string)
    requires v.rootKey.Some?
    ensures OneStep(v, w, at, RecordAudit(v, w, caller, action, target, outcome).0)
    ensures TwoSteps(v, w, at, RecordAudit(v, w, caller, action, target, outcome).0)
  {
    var e := AuditEvent(v, w, caller, action, target, outcome);
    hide Commit, FreshId, FreshHash;
    CommitIsStep(v, w, at, e);
  }

  lemma CommitThenAudit(v: VaultModel, w: World, at: Touch, e: Event, caller: Caller, action: string,
                        target: string)
    requires Permitted(v, at, e)
    ensures var next := Commit(v, e, w).0;
            && next.rootKey == v.rootKey
            && TwoSteps(v, w, at, next) && TwoSteps(v, w, at, RecordAudit(next, w, caller, action, target, "ok").0)
  {
    CommitKeepsKey(v, w, e);
    CommitIsStep(v, w, at, e);
    PermittedUnsealed(v, at, e);
    hide Commit, Permitted, RecordAudit;
    AuditIsStep(Commit(v, e, w).0, w, at, caller, action, target, "ok");
  }

  lemma PermittedUnsealed(v: VaultModel, at: Touch, e: Event)
    requires Permitted(v, at, e)
    ensures v.rootKey.Some?
  {
    hide Admissible;
  }

  lemma CommitKeepsKey(v: VaultModel, w: World, e: Event)
    ensures Commit(v, e, w).0.rootKey == v.rootKey
  {
    hide LogFile.AppendOf, Applied, Events.ToBytes;
  }

  // The slot a pair of names and a key stand for in this state.
  function Named(s: State, projectSlug: string, environmentSlug: string, key: string): Option<Slot> {
    match Resolve(s, projectSlug, environmentSlug)
    case Err(_) => None
    case Ok((projectId, environmentId)) => Some(Slot(projectId, environmentId, key))
  }

  lemma CreateUserSteps(v: VaultModel, w: World, caller: Caller, email: string, hashed: PasswordHash,
                        id: Option<string>)
    requires id.Some? ==> FreshId(v.state, id.value)
    ensures TwoSteps(v, w, Nothing, CreateUser(v, w, caller, email, hashed, id).0)
  {
    hide Commit, FreshId, Validate.Email, Text.Trim, Text.AsciiLowercase, TwoSteps, FirstIndex;
    NoStep(v, w, Nothing);
    if v.rootKey.Some? && Validate.Email(email).Ok? && hashed.Hashed? && id.Some? {
      var address := Validate.Email(email).value;
      if UserByEmail(v.state, address).None? {
        Validate.EmailIsNormal(email);
        NoneMatch(v.state.users, EmailIs(address));
        assert forall j :: 0 <= j < |v.state.users| ==> !EmailIs(address)(v.state.users[j]);
        CommitIsStep(v, w, Nothing, Events.UserCreated(id.value, address, hashed.text, w.clock(v.log.count)));
      }
    }
  }

  predicate FreshDraw(s: State, draw: TokenDraw, digest: Digest) {
    && (draw.id.Some? ==> FreshId(s, draw.id.value))
    && (draw.secret.Some? ==> FreshHash(s, digest(draw.secret.value)))
  }

  lemma IssueTokenSteps(v: VaultModel, w: World, kind: TokenKind, userId: Option<string>, projectId: Option<string>,
                        environmentId: Option<string>, title: Option<string>, ttl: Option<int>, draw: TokenDraw,
                        digest: Digest)
    requires v.rootKey.Some? && FreshDraw(v.state, draw, digest)
    ensures TwoSteps(v, w, Nothing,
                     IssueToken(v, w, kind, userId, projectId, environmentId, title, ttl, draw, digest).0)
  {
    hide Commit, FreshId, FreshHash, TwoSteps, Timestamps.PlusSeconds;
    NoStep(v, w, Nothing);
    if draw.secret.Some? && draw.id.Some? {
      var now := w.clock(v.log.count);
      var expiresAt := if ttl.Some? then Some(Timestamps.PlusSeconds(now, ttl.value)) else None;
      CommitIsStep(v, w, Nothing, Events.TokenIssued(draw.id.value, digest(draw.secret.value), kind, userId, projectId,
                                                  environmentId, title, expiresAt, now));
    }
  }

  lemma LoginSteps(v: VaultModel, w: World, email: string, password: string, ttl: int, verify: (string, string) -> bool,
                   draw: TokenDraw, digest: Digest)
    requires FreshDraw(v.state, draw, digest)
    ensures TwoSteps(v, w, Nothing, Login(v, w, email, password, ttl, verify, draw, digest).0)
  {
    hide IssueToken, FreshDraw, TwoSteps, Validate.Email, UserByEmail;
    NoStep(v, w, Nothing);
    var normalised := if Validate.Email(email).Ok? then Validate.Email(email).value else "";
    if v.rootKey.Some? && UserByEmail(v.state, normalised).Some? {
      var user := UserByEmail(v.state, normalised).value;
      IssueTokenSteps(v, w, Events.Session, Some(user.id), None, None, None, Some(ttl), draw, digest);
    }
  }

  lemma IssueMachineTokenSteps(v: VaultModel, w: World, caller: Caller, projectSlug: string, environmentSlug: string,
                               title: string, ttl: Option<int>, draw: TokenDraw, digest: Digest)
    requires FreshDraw(v.state, draw, digest)
    ensures TwoSteps(v, w, Nothing,
                     IssueMachineToken(v, w, caller, projectSlug, environmentSlug, title, ttl, draw, digest).0)
  {
    hide IssueToken, FreshDraw, TwoSteps, Resolve;
    NoStep(v, w, Nothing);
    if v.rootKey.Some? && Resolve(v.state, projectSlug, environmentSlug).Ok? {
      var (projectId, environmentId) := Resolve(v.state, projectSlug, environmentSlug).value;
      IssueTokenSteps(v, w, Events.Machine, None, Some(projectId), Some(environmentId), Some(title), ttl, draw, digest);
    }
  }

  lemma RevokeTokenSteps(v: VaultModel, w: World, caller: Caller, id: string)
    ensures TwoSteps(v, w, TheToken(id), RevokeToken(v, w, caller, id).0)
  {
    hide Commit, TwoSteps, TokenById, FreshId, FreshHash;
    NoStep(v, w, TheToken(id));
    if v.rootKey.Some? {
      CommitIsStep(v, w, TheToken(id), Events.TokenRevoked(id, w.clock(v.log.count)));
    }
  }

  lemma CreateProjectSteps(v: VaultModel, w: World, caller: Caller, slug: string, name: string, draw: ProjectDraw)
    requires draw.id.Some? ==> FreshId(v.state, draw.id.value)
    ensures TwoSteps(v, w, Nothing, CreateProject(v, w, caller, slug, name, draw).0)
  {
    hide Commit, TwoSteps, FreshId, Validate.Slug, FirstIndex, Aead.Wrap, Aead.UnwrapKey, ProjectKeyContext;
    NoStep(v, w, Nothing);
    if v.rootKey.Some? && Validate.Slug(slug, "project slug").Ok? && draw.id.Some? && draw.dataKey.Some? {
      var accepted := Validate.Slug(slug, "project slug").value;
      var context := ProjectKeyContext(draw.id.value);
      var wrapped := Aead.Wrap(v.rootKey.value, draw.wrapNonce, draw.dataKey.value, context);
      if ProjectBySlug(v.state, accepted).None? && wrapped.Ok? {
        NoneMatch(v.state.projects, SlugIs(accepted));
        assert forall j :: 0 <= j < |v.state.projects| ==> !SlugIs(accepted)(v.state.projects[j]);
        WrappedOpens(v.rootKey.value, draw.wrapNonce, draw.dataKey.value, context);
        CommitIsStep(v, w, Nothing, Events.ProjectCreated(draw.id.value, accepted, name, Events.SealedOf(wrapped.value),
                                                       w.clock(v.log.count)));
      }
    }
  }

  lemma CreateEnvironmentSteps(v: VaultModel, w: World, caller: Caller, projectSlug: string, slug: string, name: string,
                               id: Option<string>)
    requires id.Some? ==> FreshId(v.state, id.value)
    ensures TwoSteps(v, w, Nothing, CreateEnvironment(v, w, caller, projectSlug, slug, name, id).0)
  {
    hide Commit, TwoSteps, FreshId, Validate.Slug, FirstIndex, ProjectBySlug;
    NoStep(v, w, Nothing);
    if v.rootKey.Some? && Validate.Slug(slug, "environment slug").Ok? && ProjectBySlug(v.state, projectSlug).Some?
       && id.Some? {
      var accepted, project := Validate.Slug(slug, "environment slug").value, ProjectBySlug(v.state, projectSlug).value;
      if EnvironmentBySlug(v.state, project.id, accepted).None? {
        var wanted := EnvironmentIs(project.id, accepted);
        NoneMatch(v.state.environments, wanted);
        assert forall j :: 0 <= j < |v.state.environments| ==> !wanted(v.state.environments[j]);
        CommitIsStep(v, w, Nothing,
                     Events.EnvironmentCreated(id.value, project.id, accepted, name, w.clock(v.log.count)));
      }
    }
  }

  lemma SetSecretSteps(v: VaultModel, w: World, caller: Caller, projectSlug: string, environmentSlug: string,
                       key: string, value: seq<byte>, nonce: Option<Aead.Nonce>)
    ensures TwoSteps(v, w, SlotTouch(Named(v.state, projectSlug, environmentSlug, key)),
                     SetSecret(v, w, caller, projectSlug, environmentSlug, key, value, nonce).0)
  {
    var at := SlotTouch(Named(v.state, projectSlug, environmentSlug, key));
    hide Commit, RecordAudit, TwoSteps, Resolve, Authorise, ProjectDataKey, Aead.Seal, SecretContext, Target, FreshId,
         FreshHash, Validate.IsSecretKey;
    NoStep(v, w, at);
    if v.rootKey.Some? {
      var target := Target(projectSlug, environmentSlug, key);
      AuditIsStep(v, w, at, caller, "secret.set", target, "unknown");
      AuditIsStep(v, w, at, caller, "secret.set", target, "denied");
      var pair := ResolveFor(v.state, caller, projectSlug, environmentSlug);
      if pair.Ok? && ProjectDataKey(v, pair.value.0).Ok? {
        var slot := Slot(pair.value.0, pair.value.1, key);
        var envelope := Aead.Seal(ProjectDataKey(v, pair.value.0).value, nonce, value, SecretContext(slot));
        if envelope.Ok? {
          CommitThenAudit(v, w, at, Events.SecretSet(slot.projectId, slot.environmentId, key,
                                                     Events.SealedOf(envelope.value), w.clock(v.log.count)),
                          caller, "secret.set", target);
        }
      }
    }
  }

  lemma GetSecretSteps(v: VaultModel, w: World, caller: Caller, projectSlug: string, environmentSlug: string,
                       key: string)
    ensures TwoSteps(v, w, Nothing, GetSecret(v, w, caller, projectSlug, environmentSlug, key).0)
  {
    hide RecordAudit, TwoSteps, ResolveFor, Authorise, ProjectDataKey, Aead.Open, SecretContext, SecretAt, Target,
         Granted, Refused;
    NoStep(v, w, Nothing);
    if v.rootKey.Some? {
      var target := Target(projectSlug, environmentSlug, key);
      RefusalIsStep<(string, string)>(v, w, Nothing, caller, "secret.read", target, "unknown");
      RefusalIsStep<seq<byte>>(v, w, Nothing, caller, "secret.read", target, "denied");
      RefusalIsStep<seq<byte>>(v, w, Nothing, caller, "secret.read", target, "missing");
      GrantIsStep<seq<byte>>(v, w, Nothing, caller, "secret.read", target);
    }
  }

  lemma ListSecretsSteps(v: VaultModel, w: World, caller: Caller, projectSlug: string, environmentSlug: string)
    ensures TwoSteps(v, w, Nothing, ListSecrets(v, w, caller, projectSlug, environmentSlug).0)
  {
    hide RecordAudit, TwoSteps, ResolveFor, Authorise, ProjectDataKey, RevealAll, SecretsIn, ListTarget, Granted,
         Refused;
    NoStep(v, w, Nothing);
    if v.rootKey.Some? {
      var target := ListTarget(projectSlug, environmentSlug);
      RefusalIsStep<(string, string)>(v, w, Nothing, caller, "secret.list", target, "unknown");
      RefusalIsStep<seq<(string, seq<byte>)>>(v, w, Nothing, caller, "secret.list", target, "denied");
      GrantIsStep<seq<(string, seq<byte>)>>(v, w, Nothing, caller, "secret.list", target);
    }
  }

  lemma RefusalIsStep<T(!new)>(v: VaultModel, w: World, at: Touch, caller: Caller, action: string,
                               target: string, outcome: string)
    requires v.rootKey.Some?
    ensures forall error :: TwoSteps(v, w, at, Refused<T>(v, w, caller, action, target, outcome, error).0)
  {
    hide RecordAudit, TwoSteps;
    AuditIsStep(v, w, at, caller, action, target, outcome);
  }

  lemma GrantIsStep<T(!new)>(v: VaultModel, w: World, at: Touch, caller: Caller, action: string, target: string)
    requires v.rootKey.Some?
    ensures forall value: T :: TwoSteps(v, w, at, Granted(v, w, caller, action, target, value).0)
  {
    hide RecordAudit, TwoSteps;
    AuditIsStep(v, w, at, caller, action, target, "ok");
  }

  lemma DeleteSecretSteps(v: VaultModel, w: World, caller: Caller, projectSlug: string, environmentSlug: string,
                          key: string)
    ensures TwoSteps(v, w, SlotTouch(Named(v.state, projectSlug, environmentSlug, key)),
                     DeleteSecret(v, w, caller, projectSlug, environmentSlug, key).0)
  {
    var at := SlotTouch(Named(v.state, projectSlug, environmentSlug, key));
    hide Commit, RecordAudit, TwoSteps, Resolve, Authorise, SecretAt, Target, FreshId, FreshHash;
    NoStep(v, w, at);
    if v.rootKey.Some? {
      var target := Target(projectSlug, environmentSlug, key);
      AuditIsStep(v, w, at, caller, "secret.delete", target, "unknown");
      AuditIsStep(v, w, at, caller, "secret.delete", target, "denied");
      var pair := ResolveFor(v.state, caller, projectSlug, environmentSlug);
      if pair.Ok? {
        CommitThenAudit(v, w, at, Events.SecretDeleted(pair.value.0, pair.value.1, key, w.clock(v.log.count)), caller,
                        "secret.delete", target);
      }
    }
  }

  // ----- what any number of steps keeps -----

  // Users are only added, and tokens keep their place with revocation at most added.
  predicate Later(s: State, u: State) {
    && s.users <= u.users && |s.tokens| <= |u.tokens|
    && forall k :: 0 <= k < |s.tokens| ==> SameToken(s.tokens[k], u.tokens[k])
  }

  lemma AppliedLater(s: State, e: Event)
    ensures Later(s, Applied(s, e))
  {
    hide FirstIndex, Put, Filter;
  }

  lemma LaterStill(s: State, u: State, x: State)
    requires Later(s, u) && Later(u, x)
    ensures Later(s, x)
  {
    forall k | 0 <= k < |s.tokens|
      ensures SameToken(s.tokens[k], x.tokens[k])
    {
      assert SameToken(s.tokens[k], u.tokens[k]) && SameToken(u.tokens[k], x.tokens[k]);
    }
  }

  lemma LaterSame(s: State)
    ensures Later(s, s)
  {
  }

  // What a slot decrypts to, or that nothing is stored there; or a token as it stands.
  datatype Held = HeldSlot(slot: Slot, value: Option<seq<byte>>) | HeldToken(token: Token)

  function TouchOf(held: Held): Touch {
    match held
    case HeldSlot(slot, _) => TheSlot(slot)
    case HeldToken(token) => TheToken(token.id)
  }

  // What is to last: being no earlier than a state, and one thing held.
  datatype Pledge = Pledge(since: State, held: Option<Held>)

  const NOTHING := Pledge(EMPTY, None)

  predicate Holding(s: State, rootKey: Key, held: Held) {
    match held
    case HeldSlot(slot, None) => Revealed(s, rootKey, slot) == None
    case HeldSlot(slot, Some(value)) => Revealed(s, rootKey, slot) == Some(Ok(value))
    case HeldToken(token) => TokenById(s, token.id) == Some(token)
  }

  predicate Honours(s: State, rootKey: Key, p: Pledge) {
    Later(p.since, s) && (p.held.Some? ==> Holding(s, rootKey, p.held.value))
  }

  // Changing `at` does not change what is pledged.
  predicate Spares(p: Pledge, at: Touch) {
    p.held.Some? ==> at != TouchOf(p.held.value)
  }

  lemma NothingPledged(s: State, rootKey: Key)
    ensures Honours(s, rootKey, NOTHING) && NOTHING.held == None
  {
  }

  lemma ProjectStays(s: State, e: Event, id: string)
    requires ProjectById(s, id).Some?
    ensures ProjectById(Applied(s, e), id) == ProjectById(s, id)
  {
    hide Find, Put, Filter, Revoke;
    if e.ProjectCreated? {
      StillFound(s.projects, ProjectIs(id), Project(e.id, e.slug, e.name, e.dataKey, e.createdAt));
    }
  }

  // An event about something else leaves a slot decrypting to what it did.
  lemma RevealsStill(s: State, rootKey: Key, e: Event, slot: Slot)
    requires OneEntryPerSlot(s) && Writes(e) != Some(slot)
    requires Revealed(s, rootKey, slot).Some? ==> Revealed(s, rootKey, slot).value.Ok?
    ensures Revealed(Applied(s, e), rootKey, slot) == Revealed(s, rootKey, slot)
  {
    hide Applied, Aead.UnwrapKey, Aead.Open, ProjectKeyContext, SecretContext, SecretAt, ProjectById, OneEntryPerSlot;
    ApplyStores(s, e, slot);
    if SecretAt(s, slot).Some? {
      ProjectStays(s, e, slot.projectId);
    }
  }

  lemma StillFound<T>(s: seq<T>, p: T -> bool, x: T)
    requires Find(s, p).Some?
    ensures Find(s + [x], p) == Find(s, p)
  {
    var k := FirstIndex(s, p);
    FirstIsUnique(s + [x], p, k);
  }

  // An event about something else leaves a token as it stands.
  lemma TokenStays(s: State, e: Event, id: string)
    requires TokenById(s, id).Some? && Touches(e) != TheToken(id)
    ensures TokenById(Applied(s, e), id) == TokenById(s, id)
  {
    hide Put, Filter;
    if e.TokenIssued? {
      hide Find;
      StillFound(s.tokens, TokenIs(id),
                 Token(e.id, e.tokenHash, e.kind, e.userId, e.projectId, e.environmentId, e.title,
                                              e.expiresAt, None, e.createdAt));
    } else if e.TokenRevoked? {
      var k := FirstIndex(s.tokens, TokenIs(id));
      FirstIsUnique(Revoke(s.tokens, e.id, e.at), TokenIs(id), k);
    }
  }

  lemma HeldStill(s: State, rootKey: Key, e: Event, held: Held)
    requires OneEntryPerSlot(s) && Holding(s, rootKey, held) && (Touches(e).Nothing? || Touches(e) != TouchOf(held))
    ensures Holding(Applied(s, e), rootKey, held)
  {
    hide Applied, Revealed, TokenById, OneEntryPerSlot;
    match held {
      case HeldSlot(slot, _) => RevealsStill(s, rootKey, e, slot);
      case HeldToken(token) => TokenStays(s, e, token.id);
    }
  }

  lemma AppliedHonours(s: State, rootKey: Key, e: Event, p: Pledge)
    requires OneEntryPerSlot(s) && Honours(s, rootKey, p) && (Touches(e).Nothing? || Spares(p, Touches(e)))
    ensures Honours(Applied(s, e), rootKey, p)
  {
    hide Applied, Later, Holding, OneEntryPerSlot;
    AppliedLater(s, e);
    LaterStill(p.since, s, Applied(s, e));
    if p.held.Some? {
      HeldStill(s, rootKey, e, p.held.value);
    }
  }

  lemma RewrappedHonours(s: State, oldRoot: Key, u: State, newRoot: Key, p: Pledge)
    requires Rewrapped(s, oldRoot, u, newRoot) && Honours(s, oldRoot, p)
    ensures Honours(u, newRoot, p)
  {
    hide Revealed, RewrappedProject;
    if p.held.Some? && p.held.value.HeldSlot? {
      RewrappedReveals(s, oldRoot, u, newRoot, p.held.value.slot);
    }
  }

  // File and memory both honour the pledge.
  predicate Keeps(v: VaultModel, t: Truth, p: Pledge) {
    Honours(Fold(t.events), t.rootKey, p) && (v.rootKey.Some? ==> Honours(v.state, t.rootKey, p))
  }

  lemma PermittedFacts(v: VaultModel, t: Truth, at: Touch, e: Event, p: Pledge)
    requires Inv(v, t) && Permitted(v, at, e) && Spares(p, at)
    ensures v.rootKey == Some(t.rootKey) && (!v.log.broken ==> Admissible(v.state, t.rootKey, e))
    ensures Touches(e).Nothing? || Spares(p, Touches(e))
    ensures OneEntryPerSlot(v.state) && OneEntryPerSlot(Fold(t.events))
  {
    hide Admissible, LogSafety.Sound, UniqueUsers, UniqueTokens, UniqueProjects, UniqueEnvironments, OneEntryPerSlot,
         Fold, Filed, Hierarchy, KeysOpen;
  }

  lemma StepKeeps(v: VaultModel, t: Truth, w: World, at: Touch, after: VaultModel, p: Pledge)
    returns (next: Truth)
    requires Inv(v, t) && OneStep(v, w, at, after) && Keeps(v, t, p) && Spares(p, at)
    ensures Inv(after, next) && next == t.(events := next.events) && after.rootKey == v.rootKey && Keeps(after, next, p)
    ensures v.rootKey.None? ==> after == v && next == t
  {
    hide Commit, CommitLands, Permitted, Admissible, Inv, FoldFrom, Applied, Honours, Spares, Touches;
    next := t;
    if after != v {
      var e :| Permitted(v, at, e) && after == Commit(v, e, w).0;
      PermittedFacts(v, t, at, e, p);
      next := CommitKeeps(v, t, e, w);
      FoldOneMore(EMPTY, t.events, e);
      AppliedHonours(v.state, t.rootKey, e, p);
      AppliedHonours(Fold(t.events), t.rootKey, e, p);
    }
  }

  /**
   An operation keeps the invariant, only ever adding events. What memory and
   file held to they hold to still: users and revocations persist, and so do
   what any slot decrypts to and how any token stands, but for the one named.
   */
  lemma OperationKeeps(v: VaultModel, t: Truth, w: World, at: Touch, after: VaultModel, p: Pledge)
    returns (next: Truth)
    requires Inv(v, t) && TwoSteps(v, w, at, after) && Keeps(v, t, p) && Spares(p, at)
    ensures Inv(after, next) && next == t.(events := next.events) && after.rootKey == v.rootKey && Keeps(after, next, p)
    ensures v.rootKey.None? ==> after == v && next == t
  {
    hide Inv, OneStep, Keeps, Spares;
    var between :| OneStep(v, w, at, between) && OneStep(between, w, at, after);
    var middle := StepKeeps(v, t, w, at, between, p);
    next := StepKeeps(between, middle, w, at, after, p);
  }
}
