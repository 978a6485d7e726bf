/** Accounts and tokens over runs: who a password or a token makes its bearer, at every later point. */
module VaultTokens {
  import opened Wrappers
  import opened Bytes
  import opened StoreState
  import opened VaultSpec
  import opened VaultErrors
  import opened VaultSafety
  import opened VaultOps
  import opened VaultRuns
  import opened VaultAccess
  import opened VaultAccounts
  import opened VaultLasting
  import Aead
  import Barrier
  import Events
  import LogFile
  import LogSafety
  import ShareText
  import Timestamps
  import Validate
  import VaultAudit

  // ----- a token, carried through a run -----

  // The run ends with this vault, unsealed.
  predicate EndsAs(m: Machine, steps: seq<Step>, last: VaultModel, checksum: ShareText.Checksum, digest: Digest) {
    hide Run;
    AllowedRun(m, steps, checksum, digest) && Run(m, steps, checksum, digest).system == Up(last) && last.rootKey.Some?
  }

  lemma TokenAtEnd(m: Machine, v: VaultModel, t: Truth, token: Token, steps: seq<Step>, last: VaultModel,
                   checksum: ShareText.Checksum, digest: Digest) returns (later: Token)
    requires m.system == Up(v) && v.rootKey.Some? && Holds(m, t, NOTHING, checksum) && token in v.state.tokens
    requires EndsAs(m, steps, last, checksum, digest)
    ensures later in last.state.tokens && SameToken(token, later) && UniqueTokens(last.state.tokens)
    ensures v.state.users <= last.state.users
  {
    hide Holds, Run, AllowedRun, UniqueTokens;
    RunIsLater(m, v, t, steps, checksum, digest);
    var k :| 0 <= k < |v.state.tokens| && v.state.tokens[k] == token;
    later := last.state.tokens[k];
    LastIsUnique(m, t, steps, last, checksum, digest);
  }

  lemma LastIsUnique(m: Machine, t: Truth, steps: seq<Step>, last: VaultModel, checksum: ShareText.Checksum,
                     digest: Digest)
    requires Holds(m, t, NOTHING, checksum) && EndsAs(m, steps, last, checksum, digest)
    ensures Unique(last.state) && UniqueTokens(last.state.tokens) && UniqueUsers(last.state.users)
  {
    hide *;
    EndsFacts(m, steps, last, checksum, digest);
    NothingPledged(EMPTY, t.rootKey);
    var truth := RunHolds(m, t, NOTHING, steps, checksum, digest);
    RunEnds(Run(m, steps, checksum, digest), truth, NOTHING, checksum);
    UniqueParts(last.state);
  }

  lemma EndsFacts(m: Machine, steps: seq<Step>, last: VaultModel, checksum: ShareText.Checksum, digest: Digest)
    requires EndsAs(m, steps, last, checksum, digest)
    ensures AllowedRun(m, steps, checksum, digest) && Run(m, steps, checksum, digest).system == Up(last)
    ensures last.rootKey.Some?
  {
    hide Run, AllowedRun;
  }

  lemma UniqueParts(s: State)
    requires Unique(s)
    ensures UniqueTokens(s.tokens) && UniqueUsers(s.users)
  {
    hide UniqueTokens, UniqueUsers, UniqueProjects, UniqueEnvironments, OneEntryPerSlot;
  }

  // Unless a step of the run revokes it, a token stands as it did.
  lemma TokenUntouched(m: Machine, v: VaultModel, t: Truth, token: Token, steps: seq<Step>, last: VaultModel,
                       checksum: ShareText.Checksum, digest: Digest)
    requires m.system == Up(v) && v.rootKey.Some? && !v.log.broken && Holds(m, t, NOTHING, checksum)
    requires token in v.state.tokens && EndsAs(m, steps, last, checksum, digest)
    requires Undisturbed(m, steps, TheToken(token.id), checksum, digest)
    ensures token in last.state.tokens
  {
    hide Holds, Run, AllowedRun, Undisturbed, Holding, Standing, Unique;
    UnsealedIsUnique(m, t, v, checksum);
    TokenIsHeld(v.state, token, v.rootKey.value);
    HeldNow(m, t, HeldToken(token), checksum);
    var p := Pledge(EMPTY, Some(HeldToken(token)));
    var truth := RunHolds(m, t, p, steps, checksum, digest);
    HeldAtEnd(Run(m, steps, checksum, digest), truth, HeldToken(token), checksum);
    HeldIsFound(last.state, token, last.rootKey.value);
  }

  lemma TokenIsHeld(s: State, token: Token, rootKey: Key)
    requires Unique(s) && token in s.tokens
    ensures Holding(s, rootKey, HeldToken(token))
  {
    hide UniqueTokens, UniqueUsers, UniqueProjects, UniqueEnvironments, OneEntryPerSlot, TokenById;
    TokenFound(s, token);
  }

  lemma HeldIsFound(s: State, token: Token, rootKey: Key)
    requires Holding(s, rootKey, HeldToken(token))
    ensures token in s.tokens
  {
    FoundMatches(s.tokens, TokenIs(token.id));
  }

  /**
   A token lasts. At every later point of any run at which the vault is
   unsealed, the text whose digest it is known by makes its bearer who it was
   issued to, if and only if it has not been revoked by then, it is before its
   expiry, and, for the root token, there is no account. If no step of the run
   revoked it, it has not been revoked.
   */
  lemma TokenLasts(m: Machine, v: VaultModel, t: Truth, token: Token, steps: seq<Step>, last: VaultModel,
                   presented: string, now: Timestamps.Timestamp, checksum: ShareText.Checksum, digest: Digest)
    returns (later: Token)
    requires m.system == Up(v) && v.rootKey.Some? && !v.log.broken && Holds(m, t, NOTHING, checksum)
    requires token in v.state.tokens && token.tokenHash == digest(presented)
    requires EndsAs(m, steps, last, checksum, digest)
    ensures later in last.state.tokens && SameToken(token, later)
    ensures Authenticate(last, presented, now, digest)
         == if Usable(later, last.state, presented, now) then Some(Bearer(token)) else None
    ensures Undisturbed(m, steps, TheToken(token.id), checksum, digest) ==> later == token
  {
    hide Holds, EndsAs, Authenticate, Undisturbed, UniqueTokens, Usable;
    later := TokenAtEnd(m, v, t, token, steps, last, checksum, digest);
    EndsFacts(m, steps, last, checksum, digest);
    Recognised(last, later, presented, now, digest);
    if Undisturbed(m, steps, TheToken(token.id), checksum, digest) {
      TokenUntouched(m, v, t, token, steps, last, checksum, digest);
      SameIdIsSame(last.state, token, later);
    }
  }

  lemma SameIdIsSame(s: State, token: Token, other: Token)
    requires UniqueTokens(s.tokens) && token in s.tokens && other in s.tokens && token.id == other.id
    ensures token == other
  {
  }

  lemma Recognised(v: VaultModel, token: Token, presented: string, now: Timestamps.Timestamp, digest: Digest)
    requires v.rootKey.Some? && UniqueTokens(v.state.tokens) && token in v.state.tokens
    requires token.tokenHash == digest(presented)
    ensures Authenticate(v, presented, now, digest)
         == if Usable(token, v.state, presented, now) then Some(Bearer(token)) else None
  {
    hide TokenByHash, UniqueTokens;
    TokenFound(v.state, token);
  }

  // ----- tokens as they are issued -----

  // The token an issuing event leaves.
  function TokenOf(e: Event): Token
    requires e.TokenIssued?
  {
    Token(e.id, e.tokenHash, e.kind, e.userId, e.projectId, e.environmentId, e.title, e.expiresAt, None, e.createdAt)
  }

  // After a step that issues a token, and any run from there.
  lemma IssuedLasts(m: Machine, v: VaultModel, t: Truth, op: Op, w: World, e: Event, steps: seq<Step>, last: VaultModel,
                    presented: string, now: Timestamps.Timestamp, checksum: ShareText.Checksum, digest: Digest)
    returns (later: Token)
    requires m.system == Up(v) && v.rootKey.Some? && Holds(m, t, NOTHING, checksum)
    requires OnlyCommits(op) && Fresh(v.state, op, digest) && NamedBy(v.state, op) == Nothing
    requires e.TokenIssued? && Committed(v, e, Performed(v, op, w, digest)) && e.tokenHash == digest(presented)
    requires EndsAs(Next(m, Operate(op, w), checksum, digest), steps, last, checksum, digest)
    ensures later in last.state.tokens && SameToken(TokenOf(e), later)
    ensures Authenticate(last, presented, now, digest)
         == if Usable(later, last.state, presented, now) then Some(Bearer(TokenOf(e))) else None
    ensures Undisturbed(Next(m, Operate(op, w), checksum, digest), steps, TheToken(e.id), checksum, digest) ==>
              later == TokenOf(e)
  {
    hide Holds, Next, EndsAs, Performed, Fresh, Undisturbed, Authenticate, Usable, NamedBy, Leaves;
    StepIs(m, v, op, w, checksum, digest);
    var truth := StepHolds(m, t, NOTHING, Operate(op, w), checksum, digest);
    var after := Performed(v, op, w, digest);
    assert after.state.tokens[|v.state.tokens|] == TokenOf(e);
    later := TokenLasts(Next(m, Operate(op, w), checksum, digest), after, truth, TokenOf(e), steps, last, presented,
                        now, checksum, digest);
  }

  // Before a moment some seconds after another, and before the last that a timestamp can name.
  lemma BeforeExpiry(now: Timestamps.Timestamp, issued: Timestamps.Timestamp, seconds: int)
    ensures now < Timestamps.PlusSeconds(issued, seconds) <==> now < issued + seconds && now < Timestamps.MAX_UNIX
  {
  }

  // Not revoked, and before the end of a lifetime of so many seconds from `issued`.
  predicate Alive(later: Token, issued: Timestamps.Timestamp, ttl: Option<int>, now: Timestamps.Timestamp) {
    later.revokedAt == None && (ttl.Some? ==> now < issued + ttl.value && now < Timestamps.MAX_UNIX)
  }

  /**
   A machine token, from the moment it is issued: at every later point of any
   run at which the vault is unsealed, its secret is recognised if and only if
   it has not been revoked and has not expired, and makes its bearer a machine,
   with the identifier drawn, confined to what the two names resolved to.
   */
  lemma MachineTokenLasts(m: Machine, v: VaultModel, t: Truth, w: World, caller: Caller, projectSlug: string,
                          environmentSlug: string, title: string, ttl: Option<int>, draw: TokenDraw, steps: seq<Step>,
                          last: VaultModel, now: Timestamps.Timestamp, checksum: ShareText.Checksum, digest: Digest)
    returns (names: (string, string), later: Token)
    requires m.system == Up(v) && Holds(m, t, NOTHING, checksum) && FreshDraw(v.state, draw, digest)
    requires IssueMachineToken(v, w, caller, projectSlug, environmentSlug, title, ttl, draw, digest).1.Ok?
    requires var op := DoIssueMachineToken(caller, projectSlug, environmentSlug, title, ttl, draw);
             EndsAs(Next(m, Operate(op, w), checksum, digest), steps, last, checksum, digest)
    ensures Resolve(v.state, projectSlug, environmentSlug) == Ok(names) && draw.id.Some?
    ensures later in last.state.tokens && later.id == draw.id.value
    ensures var secret := IssueMachineToken(v, w, caller, projectSlug, environmentSlug, title, ttl, draw,
                                            digest).1.value;
            Authenticate(last, secret, now, digest)
            == if secret != "" && Alive(later, w.clock(v.log.count), ttl, now)
               then Some(Caller(draw.id.value, Events.Machine, None, Some(names.0), Some(names.1))) else None
    ensures var op := DoIssueMachineToken(caller, projectSlug, environmentSlug, title, ttl, draw);
            Undisturbed(Next(m, Operate(op, w), checksum, digest), steps, TheToken(draw.id.value), checksum, digest) ==>
              later.revokedAt == None
  {
    hide Holds, Next, EndsAs, IssueMachineToken, Undisturbed, Authenticate, FreshDraw, Resolve, Timestamps.PlusSeconds;
    if ttl.Some? {
      BeforeExpiry(now, w.clock(v.log.count), ttl.value);
    }
    var op := DoIssueMachineToken(caller, projectSlug, environmentSlug, title, ttl, draw);
    MachineTokenAdds(v, w, caller, projectSlug, environmentSlug, title, ttl, draw, digest);
    names := Resolve(v.state, projectSlug, environmentSlug).value;
    var e := MachineEvent(names, title, ttl, draw.secret.value, draw.id.value, w.clock(v.log.count), digest);
    later := IssuedLasts(m, v, t, op, w, e, steps, last, draw.secret.value, now, checksum, digest);
  }

  /**
   And a session, from the moment of the login: recognised if and only if it has
   not been revoked and has not expired, as a session of the very account the
   login let in.
   */
  lemma SessionLasts(m: Machine, v: VaultModel, t: Truth, w: World, email: string, password: string, ttl: int,
                     verify: (string, string) -> bool, draw: TokenDraw, steps: seq<Step>, last: VaultModel,
                     now: Timestamps.Timestamp, checksum: ShareText.Checksum, digest: Digest)
    returns (user: User, later: Token)
    requires m.system == Up(v) && Holds(m, t, NOTHING, checksum) && FreshDraw(v.state, draw, digest)
    requires Login(v, w, email, password, ttl, verify, draw, digest).1.Ok?
    requires var op := DoLogin(email, password, ttl, verify, draw);
             EndsAs(Next(m, Operate(op, w), checksum, digest), steps, last, checksum, digest)
    ensures LetsIn(v.state, email, password, verify, user) && draw.id.Some?
    ensures later in last.state.tokens && later.id == draw.id.value
    ensures var secret := Login(v, w, email, password, ttl, verify, draw, digest).1.value;
            Authenticate(last, secret, now, digest)
            == if secret != "" && Alive(later, w.clock(v.log.count), Some(ttl), now)
               then Some(Caller(draw.id.value, Events.Session, Some(user.id), None, None)) else None
    ensures var op := DoLogin(email, password, ttl, verify, draw);
            Undisturbed(Next(m, Operate(op, w), checksum, digest), steps, TheToken(draw.id.value), checksum, digest) ==>
              later.revokedAt == None
  {
    hide Holds, Inv, Next, EndsAs, Login, Undisturbed, Authenticate, FreshDraw, LetsIn, VaultAudit.FileGains,
         Timestamps.PlusSeconds;
    BeforeExpiry(now, w.clock(v.log.count), ttl);
    var op := DoLogin(email, password, ttl, verify, draw);
    var truth := VaultOf(m, v, t, checksum);
    var who, e := LoginIssues(v, truth, w, email, password, ttl, verify, draw, digest);
    user := who;
    LoginIsUnsealed(v, w, email, password, ttl, verify, draw, digest);
    later := IssuedLasts(m, v, t, op, w, e, steps, last, draw.secret.value, now, checksum, digest);
  }

  lemma VaultOf(m: Machine, v: VaultModel, t: Truth, checksum: ShareText.Checksum) returns (truth: Truth)
    requires m.system == Up(v) && Holds(m, t, NOTHING, checksum)
    ensures truth == t && Inv(v, truth)
  {
    hide Inv, Durable, Keeps, Kept, Honours, PrintAll, IssuedShares;
    truth := t;
  }

  // An init of a blank vault that succeeds, what it leaves and what it hands out.
  predicate Begun(v: VaultModel, threshold: byte, shares: byte, c: Ceremony, token: Option<string>, id: Option<string>,
                  w: World, checksum: ShareText.Checksum, digest: Digest, after: VaultModel, outcome: InitOutcome) {
    hide Blank, Fills, Init;
    && Blank(v) && Fills(c, threshold)
    && Init(v, threshold, shares, c, token, id, w, checksum, digest) == (after, Ok(outcome))
  }

  /**
   The root token, from init on: recognised, as root, at every later point at
   which it has not been revoked and there is no account, and never after one is
   created.
   */
  lemma RootTokenLasts(v: VaultModel, threshold: byte, shares: byte, c: Ceremony, token: Option<string>,
                       id: Option<string>, w: World, after: VaultModel, outcome: InitOutcome, steps: seq<Step>,
                       last: VaultModel, now: Timestamps.Timestamp, checksum: ShareText.Checksum, digest: Digest)
    returns (later: Token)
    requires Begun(v, threshold, shares, c, token, id, w, checksum, digest, after, outcome)
    requires EndsAs(Started(after, outcome), steps, last, checksum, digest)
    ensures id.Some? && later in last.state.tokens && later.id == id.value
    ensures Authenticate(last, outcome.rootToken, now, digest)
         == if outcome.rootToken != "" && later.revokedAt == None && last.state.users == []
            then Some(Caller(id.value, Events.Root, None, None, None)) else None
    ensures Undisturbed(Started(after, outcome), steps, TheToken(id.value), checksum, digest) ==>
              later.revokedAt == None
  {
    hide Holds, Init, EndsAs, Undisturbed, Authenticate, Blank, Fills;
    var t := InitEstablishes(v, threshold, shares, c, token, id, w, checksum, digest);
    var e := InitIssues(v, threshold, shares, c, token, id, w, checksum, digest);
    assert after.state.tokens[0] == TokenOf(e);
    later := TokenLasts(Started(after, outcome), after, t, TokenOf(e), steps, last, outcome.rootToken, now, checksum,
                        digest);
  }

  // What init issues, and hands out.
  lemma InitIssues(v: VaultModel, threshold: byte, shares: byte, c: Ceremony, token: Option<string>, id: Option<string>,
                   w: World, checksum: ShareText.Checksum, digest: Digest) returns (e: Event)
    requires Blank(v) && Fills(c, threshold) && Init(v, threshold, shares, c, token, id, w, checksum, digest).1.Ok?
    ensures id.Some? && token.Some?
    ensures var (after, r) := Init(v, threshold, shares, c, token, id, w, checksum, digest);
            && r.value.rootToken == token.value && after.state == Applied(EMPTY, e) && !after.log.broken
            && after.rootKey == c.rootKey && c.rootKey.Some?
    ensures e.TokenIssued? && e.id == id.value && e.tokenHash == digest(token.value) && e.kind == Events.Root
    ensures e.userId == None && e.projectId == None && e.environmentId == None && e.expiresAt == None
  {
    hide Commit, SplitMaster, WrapRoot, Barrier.ToBytes, LogFile.WriteRecordOf, PrintAll, Fills, Applied,
         LogSafety.Sound, LogSafety.FramesIn;
    var barrier := WrapRoot(c, threshold, shares).value;
    var (log, _) := LogFile.AppendPlainOf(v.log, Barrier.ToBytes(barrier), w.fates(v.log.count));
    var begun := v.(log := log, barrier := Some(barrier), rootKey := Some(c.rootKey.value));
    e := RootTokenEvent(id.value, digest(token.value), w.clock(log.count));
    CommitAdds(begun, w, e);
  }

  // ----- an account, carried through a run -----

  /**
   A password that is not the account's is never let in. After an account is
   created with a hash, at every later point of any run, on that address, a
   login is let in only if the password verifies against that hash; and the
   address has that account and no other.
   */
  lemma OnlyItsPasswordLetsIn(m: Machine, v: VaultModel, t: Truth, w: World, caller: Caller, email: string,
                              hash: string, id: string, steps: seq<Step>, last: VaultModel, x: World, again: string,
                              password: string, ttl: int, verify: (string, string) -> bool, draw: TokenDraw,
                              checksum: ShareText.Checksum, digest: Digest)
    requires m.system == Up(v) && Holds(m, t, NOTHING, checksum) && FreshId(v.state, id)
    requires CreateUser(v, w, caller, email, Hashed(hash), Some(id)).1.Ok?
    requires EndsAs(Next(m, Operate(DoCreateUser(caller, email, Hashed(hash), Some(id)), w), checksum, digest), steps,
                    last, checksum, digest)
    requires LoginName(again) == LoginName(email)
    ensures forall user :: user in last.state.users && user.email == LoginName(email) <==>
              user == User(id, LoginName(email), hash, w.clock(v.log.count))
    ensures !verify(password, hash) ==>
              && Login(last, x, again, password, ttl, verify, draw, digest).0 == last
              && Login(last, x, again, password, ttl, verify, draw, digest).1.Err?
    ensures verify(password, hash) ==>
              LetsIn(last.state, again, password, verify, User(id, LoginName(email), hash, w.clock(v.log.count)))
  {
    hide Holds, Next, EndsAs, CreateUser, Login, FreshId, Validate.Email, LoginName, Fresh;
    var op := DoCreateUser(caller, email, Hashed(hash), Some(id));
    var user := User(id, LoginName(email), hash, w.clock(v.log.count));
    CreateUserAdds(v, w, caller, email, Hashed(hash), Some(id));
    StepIs(m, v, op, w, checksum, digest);
    FreshUser(v.state, op, id, digest);
    var truth := StepHolds(m, t, NOTHING, Operate(op, w), checksum, digest);
    var after := CreateUser(v, w, caller, email, Hashed(hash), Some(id)).0;
    UsersLast(Next(m, Operate(op, w), checksum, digest), after, truth, steps, last, checksum, digest);
    EndsFacts(Next(m, Operate(op, w), checksum, digest), steps, last, checksum, digest);
    OnlyUser(after.state, last.state, user);
    if !verify(password, hash) {
      forall other
        ensures !LetsIn(last.state, again, password, verify, other)
      {
      }
      LoginRefused(last, x, again, password, ttl, verify, draw, digest);
    }
  }

  lemma FreshUser(s: State, op: Op, id: string, digest: Digest)
    requires op.DoCreateUser? && op.id == Some(id) && FreshId(s, id)
    ensures Fresh(s, op, digest) && NamedBy(s, op) == Nothing
  {
    hide FreshId;
  }

  lemma UsersLast(m: Machine, v: VaultModel, t: Truth, steps: seq<Step>, last: VaultModel, checksum: ShareText.Checksum,
                  digest: Digest)
    requires m.system == Up(v) && v.rootKey.Some? && Holds(m, t, NOTHING, checksum)
    requires EndsAs(m, steps, last, checksum, digest)
    ensures v.state.users <= last.state.users && UniqueUsers(last.state.users)
  {
    hide Holds, Run, AllowedRun, UniqueUsers;
    RunIsLater(m, v, t, steps, checksum, digest);
    LastIsUnique(m, t, steps, last, checksum, digest);
  }

  lemma OnlyUser(s: State, u: State, user: User)
    requires s.users != [] && s.users[|s.users| - 1] == user && s.users <= u.users && UniqueUsers(u.users)
    ensures forall other :: other in u.users && other.email == user.email <==> other == user
  {
    assert u.users[|s.users| - 1] == user;
  }

  // ----- a revocation, carried through a run -----

  /**
   A revocation lasts. Once revoking a token has been answered done, nothing
   whose digest is that token's authenticates at any later point of any run.
   */
  lemma RevocationLasts(m: Machine, v: VaultModel, t: Truth, w: World, caller: Caller, token: Token, steps: seq<Step>,
                        last: VaultModel, presented: string, now: Timestamps.Timestamp, checksum: ShareText.Checksum,
                        digest: Digest)
    requires m.system == Up(v) && Holds(m, t, NOTHING, checksum) && token in v.state.tokens
    requires RevokeToken(v, w, caller, token.id).1.Ok? && digest(presented) == token.tokenHash
    requires EndsAs(Next(m, Operate(DoRevokeToken(caller, token.id), w), checksum, digest), steps, last, checksum,
                    digest)
    ensures Authenticate(last, presented, now, digest) == None
  {
    hide Holds, Inv, Next, EndsAs, RevokeToken, Authenticate, VaultAudit.FileGains, Fresh;
    var op := DoRevokeToken(caller, token.id);
    var held := VaultOf(m, v, t, checksum);
    RevokeTokenRevokes(v, held, w, caller, token.id);
    StepIs(m, v, op, w, checksum, digest);
    FreshRevocation(v.state, op, digest);
    var truth := StepHolds(m, t, NOTHING, Operate(op, w), checksum, digest);
    var after := RevokeToken(v, w, caller, token.id).0;
    var k :| 0 <= k < |v.state.tokens| && v.state.tokens[k] == token;
    var revoked := after.state.tokens[k];
    var later := TokenLasts(Next(m, Operate(op, w), checksum, digest), after, truth, revoked, steps, last, presented,
                            now, checksum, digest);
  }

  lemma FreshRevocation(s: State, op: Op, digest: Digest)
    requires op.DoRevokeToken?
    ensures Fresh(s, op, digest)
  {
  }

  // ----- a sealed vault, carried through a run -----

  // No step of the run offers a share.
  predicate NoShares(steps: seq<Step>) {
    forall i :: 0 <= i < |steps| && steps[i].Operate? ==> !steps[i].op.DoSubmitShare?
  }

  /** Nothing but shares unseals: a run that begins sealed and offers none ends sealed, whatever else is asked of it. */
  lemma {:induction false} SealedStays(m: Machine, t: Truth, steps: seq<Step>, checksum: ShareText.Checksum,
                                       digest: Digest)
    requires Holds(m, t, NOTHING, checksum) && AllowedRun(m, steps, checksum, digest)
    requires !IsUnsealed(m.system) && NoShares(steps)
    ensures !IsUnsealed(Run(m, steps, checksum, digest).system)
    decreases |steps|
  {
    hide Holds, Next, Fresh, Drawn, Leaves, IsUnsealed;
    if steps != [] {
      StaysSealed(m, t, steps[0], checksum, digest);
      var next := StepHolds(m, t, NOTHING, steps[0], checksum, digest);
      assert NoShares(steps[1..]) by {
        assert forall i :: 0 <= i < |steps[1..]| ==> steps[1..][i] == steps[i + 1];
      }
      SealedStays(Next(m, steps[0], checksum, digest), next, steps[1..], checksum, digest);
    }
  }

  lemma StaysSealed(m: Machine, t: Truth, step: Step, checksum: ShareText.Checksum, digest: Digest)
    requires Holds(m, t, NOTHING, checksum) && Allowed(m, step, digest) && !IsUnsealed(m.system)
    requires step.Operate? ==> !step.op.DoSubmitShare?
    ensures !IsUnsealed(Next(m, step, checksum, digest).system)
  {
    hide Holds, Fresh, Fills, Performed, Rekey, OpenVault;
    match step {
      case Restart(fate) => OpensSealed(FileOf(m.system), fate);
      case Operate(op, w) =>
        if m.system.Up? {
          PerformedSealed(m.system.vault, op, w, digest);
          if op.DoRekey? {
            RekeySealed(m.system.vault, op.caller, op.threshold, op.shares, op.ceremony, op.rewraps, op.fates,
                        checksum);
          }
        }
    }
  }

  lemma OpensSealed(file: seq<byte>, fate: LogFile.WriteFate)
    ensures OpenVault(Some(file), fate).0.Ok? ==> OpenVault(Some(file), fate).0.value.rootKey == None
  {
    hide LogFile.OpenOf, LogFile.ReadPlainOf, Barrier.FromBytes;
  }

  lemma PerformedSealed(v: VaultModel, op: Op, w: World, digest: Digest)
    requires v.rootKey == None
    ensures Performed(v, op, w, digest) == v
  {
  }

  lemma RekeySealed(v: VaultModel, caller: Caller, threshold: byte, shares: byte, c: Ceremony,
                    rewraps: nat -> Option<Aead.Nonce>, fates: LogFile.RewriteFates, checksum: ShareText.Checksum)
    requires v.rootKey == None && Fills(c, threshold)
    ensures Rekey(v, caller, threshold, shares, c, rewraps, fates, checksum) == (v, Err(VaultSealed))
  {
    hide Fills;
  }
}
