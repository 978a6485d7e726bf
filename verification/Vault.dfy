/** The vault as the program holds it: an open log, a live state, and the keys and shares in memory. */
module Vault {
  import opened Wrappers
  import opened Bytes
  import opened StoreState
  import opened LogFile
  import opened VaultSpec
  import opened VaultErrors
  import Aead
  import Barrier
  import Events
  import Shamir
  import ShareText
  import Timestamps
  import Validate

  class Vault {
    var log: Log
    var state: LiveState
    var barrier: Option<Barrier.Barrier>
    var rootKey: Option<Key>
    var pending: seq<Share>
    // The event whose append broke the log; the program keeps no such thing.
    ghost var inFlight: Option<Event>

    constructor (log: Log, state: LiveState, barrier: Option<Barrier.Barrier>)
      ensures this.log == log && this.state == state
      ensures Model() == VaultModel(log.Model(), state.Model(), barrier, None, [], None)
    {
      this.log, this.state, this.barrier, this.rootKey, this.pending, this.inFlight
        := log, state, barrier, None, [], None;
    }

    ghost function Model(): VaultModel
      reads this, log, state
    {
      VaultModel(log.Model(), state.Model(), barrier, rootKey, pending, inFlight)
    }

    static method Open(stored: Option<seq<byte>>, fate: WriteFate)
      returns (r: Result<Vault, VaultError>, left: seq<byte>)
      ensures left == OpenVault(stored, fate).1
      ensures r.Ok? ==> fresh(r.value) && fresh(r.value.log) && fresh(r.value.state)
                        && OpenVault(stored, fate).0 == Ok(r.value.Model())
      ensures r.Err? ==> OpenVault(stored, fate).0 == Err(r.error)
    {
      hide OpenOf, ReadPlainOf, Barrier.FromBytes;
      var result, now := Log.Open(stored, fate);
      if result.Err? {
        return Err(StoreFailed(result.error)), now;
      }
      var log := result.value;
      var plain := log.ReadPlain();
      if plain.Err? {
        return Err(StoreFailed(plain.error)), now;
      }
      if plain.value == [] && log.count > 0 {
        return Err(UnreadableBarrier("the store holds records but no barrier")), now;
      }
      var barrier := None;
      if plain.value != [] {
        var parsed := Barrier.FromBytes(plain.value[|plain.value| - 1]);
        if parsed.Err? {
          return Err(UnreadableBarrier(parsed.error)), now;
        }
        barrier := Some(parsed.value);
      }
      var state := new LiveState();
      var vault := new Vault(log, state, barrier);
      return Ok(vault), now;
    }

    // ----- writing first, then applying -----

    method Commit(e: Event, w: World) returns (r: Result<(), VaultError>)
      modifies this, log, state
      ensures log == old(log) && state == old(state)
      ensures (Model(), r) == VaultSpec.Commit(old(Model()), e, w)
    {
      hide AppendOf, Events.ToBytes, Applied;
      if rootKey.None? {
        return Err(VaultSealed);
      }
      ghost var wasBroken := log.broken;
      var written := log.Append(rootKey.value, Events.ToBytes(e), w.nonces(log.count), w.fates(log.count));
      if written.Err? {
        inFlight := if log.broken && !wasBroken then Some(e) else inFlight;
        return Err(StoreFailed(written.error));
      }
      state.Apply(e);
      return Ok(());
    }

    method RecordAudit(w: World, caller: Caller, action: string, target: string, outcome: string)
      returns (r: Result<(), VaultError>)
      modifies this, log, state
      ensures log == old(log) && state == old(state)
      ensures (Model(), r) == VaultSpec.RecordAudit(old(Model()), w, caller, action, target, outcome)
    {
      hide VaultSpec.Commit;
      r := Commit(Events.Audited(w.clock(log.count), Actor(caller), action, target, outcome), w);
    }

    method ResolveAndRecord(w: World, caller: Caller, action: string, projectSlug: string, environmentSlug: string,
                            target: string)
      returns (r: Result<(string, string), VaultError>)
      modifies this, log, state
      ensures log == old(log) && state == old(state)
      ensures (Model(), r)
           == VaultSpec.ResolveAndRecord(old(Model()), w, caller, action, projectSlug, environmentSlug, target)
    {
      hide VaultSpec.RecordAudit, ResolveFor;
      r := ResolveFor(state.Model(), caller, projectSlug, environmentSlug);
      if r.Err? {
        var recorded := RecordAudit(w, caller, action, target, "unknown");
        if recorded.Err? {
          return Err(recorded.error);
        }
      }
    }

    // ----- sealing and unsealing -----

    method Seal()
      modifies this
      ensures log == old(log) && fresh(state)
      ensures Model() == SealVault(old(Model()))
    {
      rootKey := None;
      state := new LiveState();
      pending := [];
    }

    method SealAs(caller: Caller) returns (r: Result<(), VaultError>)
      modifies this
      ensures log == old(log) && (state == old(state) || fresh(state))
      ensures (Model(), r) == VaultSpec.SealAs(old(Model()), caller)
    {
      r := Require(caller, Administer);
      if r.Ok? {
        Seal();
      }
    }

    method ResetUnseal()
      modifies this
      ensures log == old(log) && state == old(state)
      ensures Model() == old(Model()).(pending := [])
    {
      pending := [];
    }

    method Replay(key: Key) returns (r: Result<LiveState, VaultError>)
      ensures r.Ok? ==> fresh(r.value) && VaultSpec.Replay(log.file, key) == Ok(r.value.Model())
      ensures r.Err? ==> VaultSpec.Replay(log.file, key) == Err(r.error)
    {
      hide ReadRecordsOf, Events.FromBytes, Applied;
      var read := log.ReadRecords(key);
      if read.Err? {
        return Err(StoreFailed(read.error));
      }
      var records := read.value;
      var live := new LiveState();
      for i := 0 to |records|
        invariant fresh(live)
        invariant ReplayRecords(live.Model(), records[i..]) == ReplayRecords(EMPTY, records)
      {
        assert records[i..][0] == records[i] && records[i..][1..] == records[i + 1..];
        if records[i].isSealed {
          var event := Events.FromBytes(records[i].payload);
          if event.Err? {
            return Err(StoreFailed(event.error));
          }
          live.Apply(event.value);
        }
      }
      return Ok(live);
    }

    method TryUnseal() returns (r: Result<(), VaultError>)
      modifies this
      ensures log == old(log) && (state == old(state) || fresh(state))
      ensures (Model(), r) == VaultSpec.TryUnseal(old(Model()))
    {
      hide Shamir.Combined, Aead.UnwrapKey, VaultSpec.Replay, Barrier.Context, ToBytes;
      if barrier.None? {
        return Err(NotInitialized);
      }
      var combined := Shamir.Combine(pending);
      if combined.Err? {
        return Err(UnsealFailed);
      }
      var master := Aead.KeyFromBytes(ToBytes(combined.value));
      if master.None? {
        return Err(UnsealFailed);
      }
      var unwrapped := Aead.UnwrapKey(master.value, Events.EnvelopeOf(barrier.value.rootKey), Barrier.Context());
      if unwrapped.Err? {
        return Err(UnsealFailed);
      }
      var live := Replay(unwrapped.value);
      if live.Err? {
        return Err(live.error);
      }
      rootKey := Some(unwrapped.value);
      state := live.value;
      pending := [];
      inFlight := None;
      return Ok(());
    }

    method SubmitShare(printed: string, checksum: ShareText.Checksum) returns (r: Result<UnsealStatus, VaultError>)
      modifies this
      ensures log == old(log) && (state == old(state) || fresh(state))
      ensures (Model(), r) == VaultSpec.SubmitShare(old(Model()), printed, checksum)
    {
      hide VaultSpec.TryUnseal, ShareText.Parse;
      if barrier.None? {
        return Err(NotInitialized);
      }
      var threshold := barrier.value.threshold;
      if rootKey.Some? {
        return Ok(UnsealStatus(false, 0, threshold));
      }
      var share := ShareText.Parse(printed, checksum);
      if share.Err? {
        return Err(BadShare);
      }
      if share.value !in pending {
        pending := pending + [share.value];
      }
      if |pending| < threshold {
        return Ok(UnsealStatus(true, |pending|, threshold));
      }
      var tried := TryUnseal();
      if tried.Err? {
        pending := [];
        return Err(tried.error);
      }
      return Ok(UnsealStatus(false, 0, threshold));
    }

    // ----- the key ceremonies -----

    method Init(threshold: byte, shares: byte, c: Ceremony, token: Option<string>, id: Option<string>, w: World,
                checksum: ShareText.Checksum, digest: Digest) returns (r: Result<InitOutcome, VaultError>)
      requires Fills(c, threshold)
      modifies this, log, state
      ensures log == old(log) && state == old(state)
      ensures (Model(), r) == VaultSpec.Init(old(Model()), threshold, shares, c, token, id, w, checksum, digest)
    {
      hide VaultSpec.Commit, AppendPlainOf, Barrier.ToBytes, FromBytes, Aead.Wrap, Barrier.Context, Shamir.SharesOf,
           Shamir.SplitOf, ShareText.Print, PrintAll;
      if barrier.Some? {
        return Err(AlreadyInitialized);
      }
      if c.master.None? {
        return Err(CryptoFailed);
      }
      var split := Shamir.Split(FromBytes(c.master.value), threshold, shares, c.coefficients);
      if split.Err? {
        return Err(Invalid("share configuration"));
      }
      if c.rootKey.None? {
        return Err(CryptoFailed);
      }
      var wrapped := WrapRoot(c, threshold, shares);
      if wrapped.Err? {
        return Err(wrapped.error);
      }
      if token.None? || id.None? {
        return Err(CryptoFailed);
      }
      var written := log.AppendPlain(Barrier.ToBytes(wrapped.value), w.fates(log.count));
      if written.Err? {
        return Err(StoreFailed(written.error));
      }
      barrier := Some(wrapped.value);
      rootKey := Some(c.rootKey.value);
      var issued := Commit(RootTokenEvent(id.value, digest(token.value), w.clock(log.count)), w);
      if issued.Err? {
        return Err(InitIncomplete);
      }
      return Ok(InitOutcome(PrintAll(split.value, checksum), token.value, threshold));
    }

    // Every event in the file, read with the root key still in force.
    method ReadHistory() returns (r: Result<seq<Event>, VaultError>)
      requires rootKey.Some?
      ensures r == History(log.file, rootKey.value)
    {
      hide ReadRecordsOf, Events.FromBytes;
      var read := log.ReadRecords(rootKey.value);
      if read.Err? {
        return Err(StoreFailed(read.error));
      }
      var records := read.value;
      var events: seq<Event> := [];
      AfterTwice([], [], EventsOf(records));
      for i := 0 to |records|
        invariant After(events, EventsOf(records[i..])) == EventsOf(records)
      {
        assert records[i..][0] == records[i] && records[i..][1..] == records[i + 1..];
        if records[i].isSealed {
          var event := Events.FromBytes(records[i].payload);
          if event.Err? {
            return Err(StoreFailed(event.error));
          }
          AfterTwice(events, [event.value], EventsOf(records[i + 1..]));
          events := events + [event.value];
        }
      }
      assert events + [] == events;
      return Ok(events);
    }

    // Project data keys move across; everything else is carried as it is.
    static method CarryAll(events: seq<Event>, oldRoot: Key, newRoot: Key, nonces: nat -> Option<Aead.Nonce>)
      returns (r: Result<seq<Event>, VaultError>)
      ensures r == Carry(events, 0, oldRoot, newRoot, nonces)
    {
      hide CarryOne;
      var carried: seq<Event> := [];
      AfterTwice([], [], Carry(events, 0, oldRoot, newRoot, nonces));
      for i := 0 to |events|
        invariant After(carried, Carry(events[i..], i, oldRoot, newRoot, nonces))
             == Carry(events, 0, oldRoot, newRoot, nonces)
      {
        assert events[i..][0] == events[i] && events[i..][1..] == events[i + 1..];
        var moved := CarryOne(events[i], oldRoot, newRoot, nonces(i));
        if moved.Err? {
          return Err(moved.error);
        }
        AfterTwice(carried, [moved.value], Carry(events[i + 1..], i + 1, oldRoot, newRoot, nonces));
        carried := carried + [moved.value];
      }
      assert carried + [] == carried;
      return Ok(carried);
    }

    method Rekey(caller: Caller, threshold: byte, shares: byte, c: Ceremony, rewraps: nat -> Option<Aead.Nonce>,
                 fates: RewriteFates, checksum: ShareText.Checksum) returns (r: Result<InitOutcome, VaultError>)
      requires Fills(c, threshold)
      modifies this, log
      ensures log == old(log) && (state == old(state) || fresh(state))
      ensures (Model(), r) == VaultSpec.Rekey(old(Model()), caller, threshold, shares, c, rewraps, fates, checksum)
    {
      hide History, Carry, CompactOf, Payloads, Barrier.ToBytes, FromBytes, Aead.Wrap, Barrier.Context, Shamir.SharesOf,
           Shamir.SplitOf, ShareText.Print, PrintAll, Applied, RekeyEvent;
      if rootKey.None? {
        return Err(VaultSealed);
      }
      if !GrantedTo(Administer, caller.kind) {
        return Err(Forbidden);
      }
      var events := ReadHistory();
      if events.Err? {
        return Err(events.error);
      }
      if c.rootKey.None? {
        return Err(CryptoFailed);
      }
      var moved := CarryAll(events.value, rootKey.value, c.rootKey.value, rewraps);
      if moved.Err? {
        return Err(moved.error);
      }
      var carried := moved.value + [RekeyEvent(caller, c.auditedAt)];
      if c.master.None? {
        return Err(CryptoFailed);
      }
      var split := Shamir.Split(FromBytes(c.master.value), threshold, shares, c.coefficients);
      if split.Err? {
        return Err(Invalid("share configuration"));
      }
      var wrapped := WrapRoot(c, threshold, shares);
      if wrapped.Err? {
        return Err(wrapped.error);
      }
      var written := log.Compact(c.rootKey.value, [Barrier.ToBytes(wrapped.value)], Payloads(carried), fates);
      if written.Err? {
        return Err(StoreFailed(written.error));
      }
      var live := Rebuild(carried);
      rootKey := c.rootKey;
      barrier := Some(wrapped.value);
      state := live;
      pending := [];
      inFlight := None;
      return Ok(InitOutcome(PrintAll(split.value, checksum), "", threshold));
    }

    static method Rebuild(events: seq<Event>) returns (live: LiveState)
      ensures fresh(live) && live.Model() == Fold(events)
    {
      hide Applied;
      live := new LiveState();
      for i := 0 to |events|
        invariant fresh(live) && FoldFrom(live.Model(), events[i..]) == Fold(events)
      {
        assert events[i..][0] == events[i] && events[i..][1..] == events[i + 1..];
        live.Apply(events[i]);
      }
    }

    // ----- users and tokens -----

    method CreateUser(w: World, caller: Caller, email: string, hashed: PasswordHash, id: Option<string>)
      returns (r: Result<string, VaultError>)
      modifies this, log, state
      ensures log == old(log) && state == old(state)
      ensures (Model(), r) == VaultSpec.CreateUser(old(Model()), w, caller, email, hashed, id)
    {
      hide VaultSpec.Commit, Validate.Email, UserByEmail;
      if rootKey.None? {
        return Err(VaultSealed);
      }
      var allowed := Require(caller, Bootstrap);
      if allowed.Err? {
        return Err(allowed.error);
      }
      var address := Validate.Email(email);
      if address.Err? {
        return Err(address.error);
      }
      if UserByEmail(state.Model(), address.value).Some? {
        return Err(Conflict("user"));
      }
      match hashed {
        case NoEntropy => return Err(CryptoFailed);
        case Unacceptable => return Err(Invalid("password"));
        case Hashed(_) =>
      }
      if id.None? {
        return Err(CryptoFailed);
      }
      var committed := Commit(Events.UserCreated(id.value, address.value, hashed.text, w.clock(log.count)), w);
      if committed.Err? {
        return Err(committed.error);
      }
      return Ok(id.value);
    }

    method IssueToken(w: World, kind: TokenKind, userId: Option<string>, projectId: Option<string>,
                      environmentId: Option<string>, title: Option<string>, ttl: Option<int>, draw: TokenDraw,
                      digest: Digest) returns (r: Result<string, VaultError>)
      modifies this, log, state
      ensures log == old(log) && state == old(state)
      ensures (Model(), r)
           == VaultSpec.IssueToken(old(Model()), w, kind, userId, projectId, environmentId, title, ttl, draw, digest)
    {
      hide VaultSpec.Commit, Timestamps.PlusSeconds;
      if draw.secret.None? || draw.id.None? {
        return Err(CryptoFailed);
      }
      var now := w.clock(log.count);
      var expiresAt := if ttl.Some? then Some(Timestamps.PlusSeconds(now, ttl.value)) else None;
      var committed := Commit(Events.TokenIssued(draw.id.value, digest(draw.secret.value), kind, userId, projectId,
                                                 environmentId, title, expiresAt, now), w);
      if committed.Err? {
        return Err(committed.error);
      }
      return Ok(draw.secret.value);
    }

    method Login(w: World, email: string, password: string, ttl: int, verify: (string, string) -> bool, draw: TokenDraw,
                 digest: Digest)
      returns (r: Result<string, VaultError>)
      modifies this, log, state
      ensures log == old(log) && state == old(state)
      ensures (Model(), r) == VaultSpec.Login(old(Model()), w, email, password, ttl, verify, draw, digest)
    {
      hide VaultSpec.IssueToken, Validate.Email, UserByEmail;
      if rootKey.None? {
        return Err(VaultSealed);
      }
      var lifetime := CheckLifetime(ttl);
      if lifetime.Err? {
        return Err(lifetime.error);
      }
      var address := Validate.Email(email);
      var found := UserByEmail(state.Model(), if address.Ok? then address.value else "");
      if found.None? || !verify(password, found.value.passwordHash) {
        return Err(BadCredentials);
      }
      r := IssueToken(w, Events.Session, Some(found.value.id), None, None, None, Some(ttl), draw, digest);
    }

    method IssueMachineToken(w: World, caller: Caller, projectSlug: string, environmentSlug: string, title: string,
                             ttl: Option<int>, draw: TokenDraw, digest: Digest) returns (r: Result<string, VaultError>)
      modifies this, log, state
      ensures log == old(log) && state == old(state)
      ensures (Model(), r)
           == VaultSpec.IssueMachineToken(old(Model()), w, caller, projectSlug, environmentSlug, title, ttl, draw,
                                          digest)
    {
      hide VaultSpec.IssueToken, Resolve;
      if rootKey.None? {
        return Err(VaultSealed);
      }
      var allowed := Require(caller, Administer);
      if allowed.Err? {
        return Err(allowed.error);
      }
      if ttl.Some? {
        var lifetime := CheckLifetime(ttl.value);
        if lifetime.Err? {
          return Err(lifetime.error);
        }
      }
      var pair := Resolve(state.Model(), projectSlug, environmentSlug);
      if pair.Err? {
        return Err(pair.error);
      }
      r := IssueToken(w, Events.Machine, None, Some(pair.value.0), Some(pair.value.1), Some(title), ttl, draw, digest);
    }

    method RevokeToken(w: World, caller: Caller, id: string) returns (r: Result<(), VaultError>)
      modifies this, log, state
      ensures log == old(log) && state == old(state)
      ensures (Model(), r) == VaultSpec.RevokeToken(old(Model()), w, caller, id)
    {
      hide VaultSpec.Commit, TokenById;
      if rootKey.None? {
        return Err(VaultSealed);
      }
      if id != caller.tokenId {
        var allowed := Require(caller, Administer);
        if allowed.Err? {
          return Err(allowed.error);
        }
      }
      if TokenById(state.Model(), id).None? {
        return Err(NotFound("token"));
      }
      r := Commit(Events.TokenRevoked(id, w.clock(log.count)), w);
    }

    // ----- projects and environments -----

    method CreateProject(w: World, caller: Caller, slug: string, name: string, draw: ProjectDraw)
      returns (r: Result<string, VaultError>)
      modifies this, log, state
      ensures log == old(log) && state == old(state)
      ensures (Model(), r) == VaultSpec.CreateProject(old(Model()), w, caller, slug, name, draw)
    {
      hide VaultSpec.Commit, Validate.Slug, ProjectBySlug, Aead.Wrap, ProjectKeyContext;
      if rootKey.None? {
        return Err(VaultSealed);
      }
      var allowed := Require(caller, Administer);
      if allowed.Err? {
        return Err(allowed.error);
      }
      var accepted := Validate.Slug(slug, "project slug");
      if accepted.Err? {
        return Err(accepted.error);
      }
      if ProjectBySlug(state.Model(), accepted.value).Some? {
        return Err(Conflict("project"));
      }
      if draw.id.None? || draw.dataKey.None? {
        return Err(CryptoFailed);
      }
      var wrapped := Aead.Wrap(rootKey.value, draw.wrapNonce, draw.dataKey.value, ProjectKeyContext(draw.id.value));
      if wrapped.Err? {
        return Err(CryptoFailed);
      }
      var committed := Commit(Events.ProjectCreated(draw.id.value, accepted.value, name, Events.SealedOf(wrapped.value),
                                                    w.clock(log.count)), w);
      if committed.Err? {
        return Err(committed.error);
      }
      return Ok(draw.id.value);
    }

    method CreateEnvironment(w: World, caller: Caller, projectSlug: string, slug: string, name: string,
                             id: Option<string>)
      returns (r: Result<string, VaultError>)
      modifies this, log, state
      ensures log == old(log) && state == old(state)
      ensures (Model(), r) == VaultSpec.CreateEnvironment(old(Model()), w, caller, projectSlug, slug, name, id)
    {
      hide VaultSpec.Commit, Validate.Slug, ProjectBySlug, EnvironmentBySlug;
      if rootKey.None? {
        return Err(VaultSealed);
      }
      var allowed := Require(caller, Administer);
      if allowed.Err? {
        return Err(allowed.error);
      }
      var accepted := Validate.Slug(slug, "environment slug");
      if accepted.Err? {
        return Err(accepted.error);
      }
      var project := ProjectBySlug(state.Model(), projectSlug);
      if project.None? {
        return Err(NotFound("project"));
      }
      if EnvironmentBySlug(state.Model(), project.value.id, accepted.value).Some? {
        return Err(Conflict("environment"));
      }
      if id.None? {
        return Err(CryptoFailed);
      }
      var committed := Commit(Events.EnvironmentCreated(id.value, project.value.id, accepted.value, name,
                                                        w.clock(log.count)), w);
      if committed.Err? {
        return Err(committed.error);
      }
      return Ok(id.value);
    }

    // ----- secrets -----

    method SetSecret(w: World, caller: Caller, projectSlug: string, environmentSlug: string, key: string,
                     value: seq<byte>, nonce: Option<Aead.Nonce>) returns (r: Result<(), VaultError>)
      modifies this, log, state
      ensures log == old(log) && state == old(state)
      ensures (Model(), r)
           == VaultSpec.SetSecret(old(Model()), w, caller, projectSlug, environmentSlug, key, value, nonce)
    {
      hide VaultSpec.RecordAudit, VaultSpec.Commit, DataKeyIn, ResolveFor, Authorise, Validate.IsSecretKey, Aead.Seal,
           SecretContext, Target;
      if rootKey.None? {
        return Err(VaultSealed);
      }
      if !Validate.IsSecretKey(key) {
        return Err(Invalid("secret key"));
      }
      var target := Target(projectSlug, environmentSlug, key);
      var pair := ResolveAndRecord(w, caller, "secret.set", projectSlug, environmentSlug, target);
      if pair.Err? {
        return Err(pair.error);
      }
      var authorised := Authorise(caller, WriteSecrets, pair.value.0, pair.value.1);
      if authorised.Err? {
        var denied := RecordAudit(w, caller, "secret.set", target, "denied");
        return Err(if denied.Err? then denied.error else authorised.error);
      }
      var dataKey := DataKeyIn(state.Model(), rootKey, pair.value.0);
      if dataKey.Err? {
        return Err(dataKey.error);
      }
      var envelope := Aead.Seal(dataKey.value, nonce, value, SecretContext(Slot(pair.value.0, pair.value.1, key)));
      if envelope.Err? {
        return Err(if envelope.error.PlaintextTooLarge? then ValueTooLarge(envelope.error.len, envelope.error.max)
                   else CryptoFailed);
      }
      var committed := Commit(Events.SecretSet(pair.value.0, pair.value.1, key, Events.SealedOf(envelope.value),
                                               w.clock(log.count)), w);
      if committed.Err? {
        return Err(committed.error);
      }
      var recorded := RecordAudit(w, caller, "secret.set", target, "ok");
      if recorded.Err? {
        return Err(recorded.error);
      }
      return Ok(());
    }

    method GetSecret(w: World, caller: Caller, projectSlug: string, environmentSlug: string, key: string)
      returns (r: Result<seq<byte>, VaultError>)
      modifies this, log, state
      ensures log == old(log) && state == old(state)
      ensures (Model(), r) == VaultSpec.GetSecret(old(Model()), w, caller, projectSlug, environmentSlug, key)
    {
      hide VaultSpec.RecordAudit, DataKeyIn, ResolveFor, Authorise, SecretAt, Aead.Open, SecretContext, Target;
      if rootKey.None? {
        return Err(VaultSealed);
      }
      var target := Target(projectSlug, environmentSlug, key);
      var pair := ResolveAndRecord(w, caller, "secret.read", projectSlug, environmentSlug, target);
      if pair.Err? {
        return Err(pair.error);
      }
      var authorised := Authorise(caller, ReadSecrets, pair.value.0, pair.value.1);
      if authorised.Err? {
        var denied := RecordAudit(w, caller, "secret.read", target, "denied");
        return Err(if denied.Err? then denied.error else authorised.error);
      }
      var slot := Slot(pair.value.0, pair.value.1, key);
      var stored := SecretAt(state.Model(), slot);
      if stored.None? {
        var missing := RecordAudit(w, caller, "secret.read", target, "missing");
        return Err(if missing.Err? then missing.error else NotFound("secret"));
      }
      var dataKey := DataKeyIn(state.Model(), rootKey, pair.value.0);
      if dataKey.Err? {
        return Err(dataKey.error);
      }
      var value := Aead.Open(dataKey.value, Events.EnvelopeOf(stored.value.value), SecretContext(slot));
      if value.Err? {
        return Err(CryptoFailed);
      }
      var recorded := RecordAudit(w, caller, "secret.read", target, "ok");
      if recorded.Err? {
        return Err(recorded.error);
      }
      return Ok(value.value);
    }

    // Opens each stored value in turn, stopping at the first that does not open.
    static method OpenEach(dataKey: Key, stored: seq<Secret>) returns (r: Result<seq<(string, seq<byte>)>, VaultError>)
      ensures r == RevealAll(dataKey, stored)
    {
      hide Aead.Open, SecretContext;
      var out: seq<(string, seq<byte>)> := [];
      AfterTwice([], [], RevealAll(dataKey, stored));
      for i := 0 to |stored|
        invariant After(out, RevealAll(dataKey, stored[i..])) == RevealAll(dataKey, stored)
      {
        assert stored[i..][0] == stored[i] && stored[i..][1..] == stored[i + 1..];
        var plain := Aead.Open(dataKey, Events.EnvelopeOf(stored[i].value), SecretContext(stored[i].slot));
        if plain.Err? {
          return Err(CryptoFailed);
        }
        AfterTwice(out, [(stored[i].slot.key, plain.value)], RevealAll(dataKey, stored[i + 1..]));
        out := out + [(stored[i].slot.key, plain.value)];
      }
      assert out + [] == out;
      return Ok(out);
    }

    method ListSecrets(w: World, caller: Caller, projectSlug: string, environmentSlug: string)
      returns (r: Result<seq<(string, seq<byte>)>, VaultError>)
      modifies this, log, state
      ensures log == old(log) && state == old(state)
      ensures (Model(), r) == VaultSpec.ListSecrets(old(Model()), w, caller, projectSlug, environmentSlug)
    {
      hide VaultSpec.RecordAudit, DataKeyIn, ResolveFor, Authorise, SecretsIn, RevealAll, ListTarget;
      if rootKey.None? {
        return Err(VaultSealed);
      }
      var target := ListTarget(projectSlug, environmentSlug);
      var pair := ResolveAndRecord(w, caller, "secret.list", projectSlug, environmentSlug, target);
      if pair.Err? {
        return Err(pair.error);
      }
      var authorised := Authorise(caller, ReadSecrets, pair.value.0, pair.value.1);
      if authorised.Err? {
        var denied := RecordAudit(w, caller, "secret.list", target, "denied");
        return Err(if denied.Err? then denied.error else authorised.error);
      }
      var stored := state.ListSecretsIn(pair.value.0, pair.value.1);
      var dataKey := DataKeyIn(state.Model(), rootKey, pair.value.0);
      if dataKey.Err? {
        return Err(dataKey.error);
      }
      var revealed := OpenEach(dataKey.value, stored);
      if revealed.Err? {
        return Err(revealed.error);
      }
      var recorded := RecordAudit(w, caller, "secret.list", target, "ok");
      if recorded.Err? {
        return Err(recorded.error);
      }
      return Ok(revealed.value);
    }

    method DeleteSecret(w: World, caller: Caller, projectSlug: string, environmentSlug: string, key: string)
      returns (r: Result<(), VaultError>)
      modifies this, log, state
      ensures log == old(log) && state == old(state)
      ensures (Model(), r) == VaultSpec.DeleteSecret(old(Model()), w, caller, projectSlug, environmentSlug, key)
    {
      hide VaultSpec.RecordAudit, VaultSpec.Commit, ResolveFor, Authorise, SecretAt, Target;
      if rootKey.None? {
        return Err(VaultSealed);
      }
      var target := Target(projectSlug, environmentSlug, key);
      var pair := ResolveAndRecord(w, caller, "secret.delete", projectSlug, environmentSlug, target);
      if pair.Err? {
        return Err(pair.error);
      }
      var authorised := Authorise(caller, WriteSecrets, pair.value.0, pair.value.1);
      if authorised.Err? {
        var denied := RecordAudit(w, caller, "secret.delete", target, "denied");
        return Err(if denied.Err? then denied.error else authorised.error);
      }
      if SecretAt(state.Model(), Slot(pair.value.0, pair.value.1, key)).None? {
        return Err(NotFound("secret"));
      }
      var committed := Commit(Events.SecretDeleted(pair.value.0, pair.value.1, key, w.clock(log.count)), w);
      if committed.Err? {
        return Err(committed.error);
      }
      var recorded := RecordAudit(w, caller, "secret.delete", target, "ok");
      if recorded.Err? {
        return Err(recorded.error);
      }
      return Ok(());
    }

    method AuditTrail(caller: Caller) returns (r: Result<seq<AuditEntry>, VaultError>)
      ensures r == VaultSpec.AuditTrail(Model(), caller)
    {
      hide ReadRecordsOf, Events.FromBytes;
      var allowed := Require(caller, Administer);
      if allowed.Err? {
        return Err(allowed.error);
      }
      if rootKey.None? {
        return Err(VaultSealed);
      }
      var read := log.ReadRecords(rootKey.value);
      if read.Err? {
        return Err(StoreFailed(read.error));
      }
      var records := read.value;
      var out: seq<AuditEntry> := [];
      for i := 0 to |records|
        invariant out + EntriesOf(records[i..]) == EntriesOf(records)
      {
        assert records[i..][0] == records[i] && records[i..][1..] == records[i + 1..];
        if records[i].isSealed {
          match Events.FromBytes(records[i].payload) {
            case Ok(Audited(at, actor, action, target, outcome)) =>
              var entry := AuditEntry(at, actor, action, target, outcome);
              assert out + ([entry] + EntriesOf(records[i + 1..])) == (out + [entry]) + EntriesOf(records[i + 1..]);
              out := out + [entry];
            case _ =>
          }
        }
      }
      assert out + [] == out;
      return Ok(out);
    }
  }
}
