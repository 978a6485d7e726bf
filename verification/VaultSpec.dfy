/**
 The vault as a value: what each operation returns and what it leaves behind.

 Time, entropy, password hashing, the token digest and the fate of each write
 are parameters.
 */
module VaultSpec {
  import opened Wrappers
  import opened Bytes
  import opened VaultErrors
  import opened StoreState
  import opened LogFile
  import opened Timestamps
  import Store
  import Aead
  import Barrier
  import Events
  import Shamir
  import ShareText
  import Validate

  type Event = Events.Event
  type TokenKind = Events.TokenKind
  type Key = Aead.Key
  type Share = Shamir.Share
  type Digest = string -> seq<byte>

  const MASTER_KEY_LEN := 32
  const MAX_LIFETIME_SECONDS := 100 * 365 * 86_400

  // All but the last are the source's fields. `inFlight` accounts for the run:
  // it is the event whose append broke the log, if one did since the state was
  // last read from the file.
  datatype VaultModel = VaultModel(log: LogModel, state: State, barrier: Option<Barrier.Barrier>, rootKey: Option<Key>,
                                   pending: seq<Share>, inFlight: Option<Event>)

  // The clock, the nonces and the writes, as the record at each position finds them.
  datatype World = World(clock: nat -> Timestamp, nonces: nat -> Option<Aead.Nonce>, fates: nat -> WriteFate)

  datatype Caller = Caller(tokenId: string, kind: TokenKind, userId: Option<string>, projectId: Option<string>,
                           environmentId: Option<string>)

  datatype Capability = Bootstrap | Administer | ReadSecrets | WriteSecrets

  datatype InitOutcome = InitOutcome(shares: seq<string>, rootToken: string, threshold: byte)

  datatype UnsealStatus = UnsealStatus(isSealed: bool, progress: nat, threshold: byte)

  datatype AuditEntry = AuditEntry(at: Timestamp, actor: string, action: string, target: string, outcome: string)

  function Actor(caller: Caller): string {
    if caller.userId.Some? then "user:" + caller.userId.value
    else if caller.kind.Machine? then "machine:" + caller.tokenId
    else "token:" + caller.tokenId
  }

  predicate GrantedTo(capability: Capability, kind: TokenKind) {
    match kind
    case Root => capability == Bootstrap
    case Session => true
    case Machine => capability == ReadSecrets
  }

  function ProjectKeyContext(projectId: string): Aead.Aad {
    Aead.KeyWrap("project-dek", projectId)
  }

  function SecretContext(slot: Slot): Aead.Aad {
    Aead.SecretSlot(slot.projectId, slot.environmentId, slot.key)
  }

  // ----- checks -----

  function Require(caller: Caller, capability: Capability): Result<(), VaultError> {
    if GrantedTo(capability, caller.kind) then Ok(()) else Err(Forbidden)
  }

  function Authorise(caller: Caller, capability: Capability, projectId: string, environmentId: string)
    : Result<(), VaultError>
  {
    var _ :- Require(caller, capability);
    if !caller.kind.Machine? then Ok(())
    else if caller.projectId == Some(projectId) && caller.environmentId == Some(environmentId) then Ok(())
    else Err(Forbidden)
  }

  function CheckLifetime(seconds: int): Result<(), VaultError> {
    if -MAX_LIFETIME_SECONDS <= seconds <= MAX_LIFETIME_SECONDS then Ok(()) else Err(Invalid("token lifetime"))
  }

  function Resolve(s: State, projectSlug: string, environmentSlug: string): Result<(string, string), VaultError> {
    match ProjectBySlug(s, projectSlug)
    case None => Err(NotFound("project"))
    case Some(project) =>
      match EnvironmentBySlug(s, project.id, environmentSlug)
      case None => Err(NotFound("environment"))
      case Some(environment) => Ok((project.id, environment.id))
  }

  // A confined caller is told the same whether the name is absent or not its own.
  function ResolveFor(s: State, caller: Caller, projectSlug: string, environmentSlug: string)
    : Result<(string, string), VaultError>
  {
    match Resolve(s, projectSlug, environmentSlug)
    case Ok(pair) => Ok(pair)
    case Err(error) => if caller.kind.Machine? then Err(Forbidden) else Err(error)
  }

  function DataKeyIn(s: State, rootKey: Option<Key>, projectId: string): Result<Key, VaultError> {
    if rootKey.None? then Err(VaultSealed)
    else
      match ProjectById(s, projectId)
      case None => Err(NotFound("project"))
      case Some(project) =>
        match Aead.UnwrapKey(rootKey.value, Events.EnvelopeOf(project.dataKey), ProjectKeyContext(projectId))
        case Err(_) => Err(CryptoFailed)
        case Ok(dataKey) => Ok(dataKey)
  }

  function ProjectDataKey(v: VaultModel, projectId: string): Result<Key, VaultError> {
    DataKeyIn(v.state, v.rootKey, projectId)
  }

  // ----- writing first, then applying -----

  function Commit(v: VaultModel, e: Event, w: World): (VaultModel, Result<(), VaultError>) {
    if v.rootKey.None? then (v, Err(VaultSealed))
    else
      match AppendOf(v.log, v.rootKey.value, Events.ToBytes(e), w.nonces(v.log.count), w.fates(v.log.count))
      case (log, Err(error)) =>
        (v.(log := log, inFlight := if log.broken && !v.log.broken then Some(e) else v.inFlight),
         Err(StoreFailed(error)))
      case (log, Ok(_)) => (v.(log := log, state := Applied(v.state, e)), Ok(()))
  }

  function AuditEvent(v: VaultModel, w: World, caller: Caller, action: string, target: string, outcome: string): Event {
    Events.Audited(w.clock(v.log.count), Actor(caller), action, target, outcome)
  }

  function RecordAudit(v: VaultModel, w: World, caller: Caller, action: string, target: string, outcome: string)
    : (VaultModel, Result<(), VaultError>)
  {
    Commit(v, AuditEvent(v, w, caller, action, target, outcome), w)
  }

  // Record the attempt and then report `error`, unless recording itself fails.
  function Refused<T>(v: VaultModel, w: World, caller: Caller, action: string, target: string, outcome: string,
                      error: VaultError)
    : (VaultModel, Result<T, VaultError>)
  {
    match RecordAudit(v, w, caller, action, target, outcome)
    case (next, Err(e)) => (next, Err(e))
    case (next, Ok(_)) => (next, Err(error))
  }

  function ResolveAndRecord(v: VaultModel, w: World, caller: Caller, action: string, projectSlug: string,
                            environmentSlug: string, target: string): (VaultModel, Result<(string, string), VaultError>)
  {
    match ResolveFor(v.state, caller, projectSlug, environmentSlug)
    case Ok(pair) => (v, Ok(pair))
    case Err(error) => Refused(v, w, caller, action, target, "unknown", error)
  }

  // Record success and then report `value`, unless recording fails.
  function Granted<T>(v: VaultModel, w: World, caller: Caller, action: string, target: string, value: T)
    : (VaultModel, Result<T, VaultError>)
  {
    match RecordAudit(v, w, caller, action, target, "ok")
    case (next, Err(e)) => (next, Err(e))
    case (next, Ok(_)) => (next, Ok(value))
  }

  // ----- opening, sealing and unsealing -----

  function OpenVault(stored: Option<seq<byte>>, fate: WriteFate): (Result<VaultModel, VaultError>, seq<byte>) {
    match OpenOf(stored, fate)
    case (Err(e), left) => (Err(StoreFailed(e)), left)
    case (Ok(log), left) =>
      match ReadPlainOf(log.file)
      case Err(e) => (Err(StoreFailed(e)), left)
      case Ok(plain) =>
        if plain == [] && log.count > 0 then (Err(UnreadableBarrier("the store holds records but no barrier")), left)
        else if plain == [] then (Ok(VaultModel(log, EMPTY, None, None, [], None)), left)
        else
          match Barrier.FromBytes(plain[|plain| - 1])
          case Err(why) => (Err(UnreadableBarrier(why)), left)
          case Ok(barrier) => (Ok(VaultModel(log, EMPTY, Some(barrier), None, [], None)), left)
  }

  function SealVault(v: VaultModel): VaultModel {
    v.(rootKey := None, state := EMPTY, pending := [])
  }

  function SealAs(v: VaultModel, caller: Caller): (VaultModel, Result<(), VaultError>) {
    match Require(caller, Administer)
    case Err(e) => (v, Err(e))
    case Ok(_) => (SealVault(v), Ok(()))
  }

  function ReplayRecords(s: State, records: seq<Record>): Result<State, Store.StoreError>
    decreases |records|
  {
    if records == [] then Ok(s)
    else if !records[0].isSealed then ReplayRecords(s, records[1..])
    else
      match Events.FromBytes(records[0].payload)
      case Err(e) => Err(e)
      case Ok(event) => ReplayRecords(Applied(s, event), records[1..])
  }

  function Replay(file: seq<byte>, rootKey: Key): Result<State, VaultError> {
    match ReadRecordsOf(file, rootKey)
    case Err(e) => Err(StoreFailed(e))
    case Ok(records) =>
      match ReplayRecords(EMPTY, records)
      case Err(e) => Err(StoreFailed(e))
      case Ok(s) => Ok(s)
  }

  function TryUnseal(v: VaultModel): (VaultModel, Result<(), VaultError>) {
    if v.barrier.None? then (v, Err(NotInitialized))
    else
      match Shamir.Combined(v.pending)
      case Err(_) => (v, Err(UnsealFailed))
      case Ok(combined) =>
        match Aead.KeyFromBytes(ToBytes(combined))
        case None => (v, Err(UnsealFailed))
        case Some(masterKey) =>
          match Aead.UnwrapKey(masterKey, Events.EnvelopeOf(v.barrier.value.rootKey), Barrier.Context())
          case Err(_) => (v, Err(UnsealFailed))
          case Ok(rootKey) =>
            match Replay(v.log.file, rootKey)
            case Err(e) => (v, Err(e))
            case Ok(state) => (v.(rootKey := Some(rootKey), state := state, pending := [], inFlight := None), Ok(()))
  }

  function SubmitShare(v: VaultModel, printed: string, checksum: ShareText.Checksum)
    : (VaultModel, Result<UnsealStatus, VaultError>)
  {
    if v.barrier.None? then (v, Err(NotInitialized))
    else
      var threshold := v.barrier.value.threshold;
      if v.rootKey.Some? then (v, Ok(UnsealStatus(false, 0, threshold)))
      else
        match ShareText.Parse(printed, checksum)
        case Err(_) => (v, Err(BadShare))
        case Ok(share) =>
          var offered := v.(pending := if share in v.pending then v.pending else v.pending + [share]);
          if |offered.pending| < threshold then (offered, Ok(UnsealStatus(true, |offered.pending|, threshold)))
          else
            match TryUnseal(offered)
            case (next, Ok(_)) => (next, Ok(UnsealStatus(false, 0, threshold)))
            case (next, Err(e)) => (next.(pending := []), Err(e))
  }

  // ----- the key ceremony -----

  // What entropy gave a key ceremony; None where it failed.
  datatype Ceremony = Ceremony(master: Option<Key>, coefficients: Option<seq<bv8>>, rootKey: Option<Key>,
                               wrapNonce: Option<Aead.Nonce>, now: Timestamp, auditedAt: Timestamp)

  // Enough coefficients were drawn for that many shares to be needed.
  predicate Fills(c: Ceremony, threshold: byte) {
    threshold >= 1 && c.coefficients.Some? ==> |c.coefficients.value| == MASTER_KEY_LEN * (threshold - 1)
  }

  function SplitMaster(c: Ceremony, threshold: byte, shares: byte): Result<seq<Share>, VaultError>
    requires Fills(c, threshold) && c.master.Some?
  {
    match Shamir.SplitOf(FromBytes(c.master.value), threshold, shares, c.coefficients)
    case Err(_) => Err(Invalid("share configuration"))
    case Ok(split) => Ok(split)
  }

  function PrintAll(split: seq<Share>, checksum: ShareText.Checksum): (printed: seq<string>)
    ensures |printed| == |split|
  {
    seq(|split|, i requires 0 <= i < |split| => ShareText.Print(split[i], checksum))
  }

  function WrapRoot(c: Ceremony, threshold: byte, shares: byte): Result<Barrier.Barrier, VaultError>
    requires c.master.Some? && c.rootKey.Some?
  {
    match Aead.Wrap(c.master.value, c.wrapNonce, c.rootKey.value, Barrier.Context())
    case Err(_) => Err(CryptoFailed)
    case Ok(wrapped) => Ok(Barrier.Barrier(threshold, shares, Events.SealedOf(wrapped), c.now))
  }

  function RootTokenEvent(id: string, tokenHash: seq<byte>, now: Timestamp): Event {
    Events.TokenIssued(id, tokenHash, Events.Root, None, None, None, Some("root"), None, now)
  }

  function Init(v: VaultModel, threshold: byte, shares: byte, c: Ceremony, token: Option<string>, id: Option<string>,
                w: World, checksum: ShareText.Checksum, digest: Digest): (VaultModel, Result<InitOutcome, VaultError>)
    requires Fills(c, threshold)
  {
    if v.barrier.Some? then (v, Err(AlreadyInitialized))
    else if c.master.None? then (v, Err(CryptoFailed))
    else
      match SplitMaster(c, threshold, shares)
      case Err(e) => (v, Err(e))
      case Ok(split) =>
        if c.rootKey.None? then (v, Err(CryptoFailed))
        else
          match WrapRoot(c, threshold, shares)
          case Err(e) => (v, Err(e))
          case Ok(barrier) =>
            if token.None? || id.None? then (v, Err(CryptoFailed))
            else
              match AppendPlainOf(v.log, Barrier.ToBytes(barrier), w.fates(v.log.count))
              case (log, Err(e)) => (v.(log := log), Err(StoreFailed(e)))
              case (log, Ok(_)) =>
                var begun := v.(log := log, barrier := Some(barrier), rootKey := Some(c.rootKey.value));
                match Commit(begun, RootTokenEvent(id.value, digest(token.value), w.clock(log.count)), w)
                case (next, Err(_)) => (next, Err(InitIncomplete))
                case (next, Ok(_)) => (next, Ok(InitOutcome(PrintAll(split, checksum), token.value, threshold)))
  }

  // ----- the rekey -----

  function EventsOf(records: seq<Record>): Result<seq<Event>, Store.StoreError>
    decreases |records|
  {
    if records == [] then Ok([])
    else if !records[0].isSealed then EventsOf(records[1..])
    else
      var event :- Events.FromBytes(records[0].payload);
      var rest :- EventsOf(records[1..]);
      Ok([event] + rest)
  }

  // A project moves its data key to the new root key; anything else is carried as it is.
  function CarryOne(e: Event, oldRoot: Key, newRoot: Key, nonce: Option<Aead.Nonce>): Result<Event, VaultError> {
    match e
    case ProjectCreated(id, slug, name, dataKey, createdAt) =>
      (match Aead.UnwrapKey(oldRoot, Events.EnvelopeOf(dataKey), ProjectKeyContext(id))
       case Err(_) => Err(CryptoFailed)
       case Ok(unwrapped) =>
         match Aead.Wrap(newRoot, nonce, unwrapped, ProjectKeyContext(id))
         case Err(_) => Err(CryptoFailed)
         case Ok(rewrapped) => Ok(Events.ProjectCreated(id, slug, name, Events.SealedOf(rewrapped), createdAt)))
    case _ => Ok(e)
  }

  // The nonces are those drawn for the event at each position.
  function Carry(events: seq<Event>, position: nat, oldRoot: Key, newRoot: Key, nonces: nat -> Option<Aead.Nonce>)
    : Result<seq<Event>, VaultError>
    decreases |events|
  {
    if events == [] then Ok([])
    else
      var first :- CarryOne(events[0], oldRoot, newRoot, nonces(position));
      var rest :- Carry(events[1..], position + 1, oldRoot, newRoot, nonces);
      Ok([first] + rest)
  }

  function RekeyEvent(caller: Caller, now: Timestamp): Event {
    Events.Audited(now, Actor(caller), "vault.rekey", "unseal shares", "ok")
  }

  function Payloads(events: seq<Event>): (p: seq<seq<byte>>)
    ensures |p| == |events|
  {
    seq(|events|, i requires 0 <= i < |events| => Events.ToBytes(events[i]))
  }

  function History(file: seq<byte>, rootKey: Key): Result<seq<Event>, VaultError> {
    match ReadRecordsOf(file, rootKey)
    case Err(e) => Err(StoreFailed(e))
    case Ok(records) =>
      match EventsOf(records)
      case Err(e) => Err(StoreFailed(e))
      case Ok(events) => Ok(events)
  }

  function Rekey(v: VaultModel, caller: Caller, threshold: byte, shares: byte, c: Ceremony,
                 rewraps: nat -> Option<Aead.Nonce>, fates: RewriteFates, checksum: ShareText.Checksum)
    : (VaultModel, Result<InitOutcome, VaultError>)
    requires Fills(c, threshold)
  {
    if v.rootKey.None? then (v, Err(VaultSealed))
    else if !GrantedTo(Administer, caller.kind) then (v, Err(Forbidden))
    else
      match History(v.log.file, v.rootKey.value)
      case Err(e) => (v, Err(e))
      case Ok(events) =>
        if c.rootKey.None? then (v, Err(CryptoFailed))
        else
          match Carry(events, 0, v.rootKey.value, c.rootKey.value, rewraps)
          case Err(e) => (v, Err(e))
          case Ok(moved) =>
            var carried := moved + [RekeyEvent(caller, c.auditedAt)];
            if c.master.None? then (v, Err(CryptoFailed))
            else
              match SplitMaster(c, threshold, shares)
              case Err(e) => (v, Err(e))
              case Ok(split) =>
                match WrapRoot(c, threshold, shares)
                case Err(e) => (v, Err(e))
                case Ok(barrier) =>
                  match CompactOf(v.log, c.rootKey.value, [Barrier.ToBytes(barrier)], Payloads(carried), fates)
                  case (log, Err(e)) => (v.(log := log), Err(StoreFailed(e)))
                  case (log, Ok(_)) =>
                    (VaultModel(log, Fold(carried), Some(barrier), c.rootKey, [], None),
                     Ok(InitOutcome(PrintAll(split, checksum), "", threshold)))
  }

  // ----- users and tokens -----

  // What hashing a password came to.
  datatype PasswordHash = Hashed(text: string) | NoEntropy | Unacceptable

  function CreateUser(v: VaultModel, w: World, caller: Caller, email: string, hashed: PasswordHash, id: Option<string>)
    : (VaultModel, Result<string, VaultError>)
  {
    if v.rootKey.None? then (v, Err(VaultSealed))
    else if !GrantedTo(Bootstrap, caller.kind) then (v, Err(Forbidden))
    else
      match Validate.Email(email)
      case Err(e) => (v, Err(e))
      case Ok(address) =>
        if UserByEmail(v.state, address).Some? then (v, Err(Conflict("user")))
        else if hashed.NoEntropy? then (v, Err(CryptoFailed))
        else if hashed.Unacceptable? then (v, Err(Invalid("password")))
        else if id.None? then (v, Err(CryptoFailed))
        else
          match Commit(v, Events.UserCreated(id.value, address, hashed.text, w.clock(v.log.count)), w)
          case (next, Err(e)) => (next, Err(e))
          case (next, Ok(_)) => (next, Ok(id.value))
  }

  // The secret and identifier drawn for a new token.
  datatype TokenDraw = TokenDraw(secret: Option<string>, id: Option<string>)

  function IssueToken(v: VaultModel, w: World, kind: TokenKind, userId: Option<string>, projectId: Option<string>,
                      environmentId: Option<string>, title: Option<string>, ttl: Option<int>, draw: TokenDraw,
                      digest: Digest)
    : (VaultModel, Result<string, VaultError>)
  {
    if draw.secret.None? || draw.id.None? then (v, Err(CryptoFailed))
    else
      var now := w.clock(v.log.count);
      var expiresAt := if ttl.Some? then Some(PlusSeconds(now, ttl.value)) else None;
      var event := Events.TokenIssued(draw.id.value, digest(draw.secret.value), kind, userId, projectId, environmentId,
                                      title, expiresAt, now);
      match Commit(v, event, w)
      case (next, Err(e)) => (next, Err(e))
      case (next, Ok(_)) => (next, Ok(draw.secret.value))
  }

  // `verify` says whether a password matches a stored hash.
  function Login(v: VaultModel, w: World, email: string, password: string, ttl: int, verify: (string, string) -> bool,
                 draw: TokenDraw, digest: Digest): (VaultModel, Result<string, VaultError>)
  {
    if v.rootKey.None? then (v, Err(VaultSealed))
    else if CheckLifetime(ttl).Err? then (v, Err(CheckLifetime(ttl).error))
    else
      var normalised := if Validate.Email(email).Ok? then Validate.Email(email).value else "";
      match UserByEmail(v.state, normalised)
      case None => (v, Err(BadCredentials))
      case Some(user) =>
        if !verify(password, user.passwordHash) then (v, Err(BadCredentials))
        else IssueToken(v, w, Events.Session, Some(user.id), None, None, None, Some(ttl), draw, digest)
  }

  function IssueMachineToken(v: VaultModel, w: World, caller: Caller, projectSlug: string, environmentSlug: string,
                             title: string, ttl: Option<int>, draw: TokenDraw, digest: Digest)
    : (VaultModel, Result<string, VaultError>)
  {
    if v.rootKey.None? then (v, Err(VaultSealed))
    else if !GrantedTo(Administer, caller.kind) then (v, Err(Forbidden))
    else if ttl.Some? && CheckLifetime(ttl.value).Err? then (v, Err(CheckLifetime(ttl.value).error))
    else
      match Resolve(v.state, projectSlug, environmentSlug)
      case Err(e) => (v, Err(e))
      case Ok((projectId, environmentId)) =>
        IssueToken(v, w, Events.Machine, None, Some(projectId), Some(environmentId), Some(title), ttl, draw, digest)
  }

  function RevokeToken(v: VaultModel, w: World, caller: Caller, id: string): (VaultModel, Result<(), VaultError>) {
    if v.rootKey.None? then (v, Err(VaultSealed))
    else if id != caller.tokenId && !GrantedTo(Administer, caller.kind) then (v, Err(Forbidden))
    else if TokenById(v.state, id).None? then (v, Err(NotFound("token")))
    else Commit(v, Events.TokenRevoked(id, w.clock(v.log.count)), w)
  }

  function Authenticate(v: VaultModel, presented: string, now: Timestamp, digest: Digest): Option<Caller> {
    if v.rootKey.None? || presented == "" then None
    else
      match TokenByHash(v.state, digest(presented))
      case None => None
      case Some(token) =>
        if !token.IsValidAt(now) then None
        else if token.kind.Root? && v.state.users != [] then None
        else Some(Caller(token.id, token.kind, token.userId, token.projectId, token.environmentId))
  }

  // ----- projects and environments -----

  // The identifier, data key and wrapping nonce drawn for a new project.
  datatype ProjectDraw = ProjectDraw(id: Option<string>, dataKey: Option<Key>, wrapNonce: Option<Aead.Nonce>)

  function CreateProject(v: VaultModel, w: World, caller: Caller, slug: string, name: string, draw: ProjectDraw)
    : (VaultModel, Result<string, VaultError>)
  {
    if v.rootKey.None? then (v, Err(VaultSealed))
    else if !GrantedTo(Administer, caller.kind) then (v, Err(Forbidden))
    else
      match Validate.Slug(slug, "project slug")
      case Err(e) => (v, Err(e))
      case Ok(accepted) =>
        if ProjectBySlug(v.state, accepted).Some? then (v, Err(Conflict("project")))
        else if draw.id.None? || draw.dataKey.None? then (v, Err(CryptoFailed))
        else
          match Aead.Wrap(v.rootKey.value, draw.wrapNonce, draw.dataKey.value, ProjectKeyContext(draw.id.value))
          case Err(_) => (v, Err(CryptoFailed))
          case Ok(wrapped) =>
            var event := Events.ProjectCreated(draw.id.value, accepted, name, Events.SealedOf(wrapped),
                                               w.clock(v.log.count));
            match Commit(v, event, w)
            case (next, Err(e)) => (next, Err(e))
            case (next, Ok(_)) => (next, Ok(draw.id.value))
  }

  function CreateEnvironment(v: VaultModel, w: World, caller: Caller, projectSlug: string, slug: string, name: string,
                             id: Option<string>): (VaultModel, Result<string, VaultError>)
  {
    if v.rootKey.None? then (v, Err(VaultSealed))
    else if !GrantedTo(Administer, caller.kind) then (v, Err(Forbidden))
    else
      match Validate.Slug(slug, "environment slug")
      case Err(e) => (v, Err(e))
      case Ok(accepted) =>
        match ProjectBySlug(v.state, projectSlug)
        case None => (v, Err(NotFound("project")))
        case Some(project) =>
          if EnvironmentBySlug(v.state, project.id, accepted).Some? then (v, Err(Conflict("environment")))
          else if id.None? then (v, Err(CryptoFailed))
          else
            match Commit(v, Events.EnvironmentCreated(id.value, project.id, accepted, name, w.clock(v.log.count)), w)
            case (next, Err(e)) => (next, Err(e))
            case (next, Ok(_)) => (next, Ok(id.value))
  }

  // ----- secrets -----

  function Target(projectSlug: string, environmentSlug: string, key: string): string {
    projectSlug + "/" + environmentSlug + "/" + key
  }

  function ListTarget(projectSlug: string, environmentSlug: string): string {
    projectSlug + "/" + environmentSlug
  }

  function SetSecret(v: VaultModel, w: World, caller: Caller, projectSlug: string, environmentSlug: string, key: string,
                     value: seq<byte>, nonce: Option<Aead.Nonce>): (VaultModel, Result<(), VaultError>)
  {
    if v.rootKey.None? then (v, Err(VaultSealed))
    else if !Validate.IsSecretKey(key) then (v, Err(Invalid("secret key")))
    else
      var target := Target(projectSlug, environmentSlug, key);
      match ResolveAndRecord(v, w, caller, "secret.set", projectSlug, environmentSlug, target)
      case (next, Err(e)) => (next, Err(e))
      case (_, Ok((projectId, environmentId))) =>
        match Authorise(caller, WriteSecrets, projectId, environmentId)
        case Err(e) => Refused(v, w, caller, "secret.set", target, "denied", e)
        case Ok(_) =>
          match ProjectDataKey(v, projectId)
          case Err(e) => (v, Err(e))
          case Ok(dataKey) =>
            match Aead.Seal(dataKey, nonce, value, SecretContext(Slot(projectId, environmentId, key)))
            case Err(PlaintextTooLarge(len, max)) => (v, Err(ValueTooLarge(len, max)))
            case Err(_) => (v, Err(CryptoFailed))
            case Ok(envelope) =>
              var event := Events.SecretSet(projectId, environmentId, key, Events.SealedOf(envelope),
                                            w.clock(v.log.count));
              match Commit(v, event, w)
              case (next, Err(e)) => (next, Err(e))
              case (next, Ok(_)) => Granted(next, w, caller, "secret.set", target, ())
  }

  function GetSecret(v: VaultModel, w: World, caller: Caller, projectSlug: string, environmentSlug: string, key: string)
    : (VaultModel, Result<seq<byte>, VaultError>)
  {
    if v.rootKey.None? then (v, Err(VaultSealed))
    else
      var target := Target(projectSlug, environmentSlug, key);
      match ResolveAndRecord(v, w, caller, "secret.read", projectSlug, environmentSlug, target)
      case (next, Err(e)) => (next, Err(e))
      case (_, Ok((projectId, environmentId))) =>
        match Authorise(caller, ReadSecrets, projectId, environmentId)
        case Err(e) => Refused(v, w, caller, "secret.read", target, "denied", e)
        case Ok(_) =>
          var slot := Slot(projectId, environmentId, key);
          match SecretAt(v.state, slot)
          case None => Refused(v, w, caller, "secret.read", target, "missing", NotFound("secret"))
          case Some(secret) =>
            match ProjectDataKey(v, projectId)
            case Err(e) => (v, Err(e))
            case Ok(dataKey) =>
              match Aead.Open(dataKey, Events.EnvelopeOf(secret.value), SecretContext(slot))
              case Err(_) => (v, Err(CryptoFailed))
              case Ok(value) => Granted(v, w, caller, "secret.read", target, value)
  }

  function RevealAll(dataKey: Key, stored: seq<Secret>): Result<seq<(string, seq<byte>)>, VaultError>
    decreases |stored|
  {
    if stored == [] then Ok([])
    else
      match Aead.Open(dataKey, Events.EnvelopeOf(stored[0].value), SecretContext(stored[0].slot))
      case Err(_) => Err(CryptoFailed)
      case Ok(plain) =>
        var rest :- RevealAll(dataKey, stored[1..]);
        Ok([(stored[0].slot.key, plain)] + rest)
  }

  function ListSecrets(v: VaultModel, w: World, caller: Caller, projectSlug: string, environmentSlug: string)
    : (VaultModel, Result<seq<(string, seq<byte>)>, VaultError>)
  {
    if v.rootKey.None? then (v, Err(VaultSealed))
    else
      var target := ListTarget(projectSlug, environmentSlug);
      match ResolveAndRecord(v, w, caller, "secret.list", projectSlug, environmentSlug, target)
      case (next, Err(e)) => (next, Err(e))
      case (_, Ok((projectId, environmentId))) =>
        match Authorise(caller, ReadSecrets, projectId, environmentId)
        case Err(e) => Refused(v, w, caller, "secret.list", target, "denied", e)
        case Ok(_) =>
          match ProjectDataKey(v, projectId)
          case Err(e) => (v, Err(e))
          case Ok(dataKey) =>
            match RevealAll(dataKey, SecretsIn(v.state, projectId, environmentId))
            case Err(e) => (v, Err(e))
            case Ok(revealed) => Granted(v, w, caller, "secret.list", target, revealed)
  }

  function DeleteSecret(v: VaultModel, w: World, caller: Caller, projectSlug: string, environmentSlug: string,
                        key: string)
    : (VaultModel, Result<(), VaultError>)
  {
    if v.rootKey.None? then (v, Err(VaultSealed))
    else
      var target := Target(projectSlug, environmentSlug, key);
      match ResolveAndRecord(v, w, caller, "secret.delete", projectSlug, environmentSlug, target)
      case (next, Err(e)) => (next, Err(e))
      case (_, Ok((projectId, environmentId))) =>
        match Authorise(caller, WriteSecrets, projectId, environmentId)
        case Err(e) => Refused(v, w, caller, "secret.delete", target, "denied", e)
        case Ok(_) =>
          if SecretAt(v.state, Slot(projectId, environmentId, key)).None? then (v, Err(NotFound("secret")))
          else
            match Commit(v, Events.SecretDeleted(projectId, environmentId, key, w.clock(v.log.count)), w)
            case (next, Err(e)) => (next, Err(e))
            case (next, Ok(_)) => Granted(next, w, caller, "secret.delete", target, ())
  }

  function CheckSecret(v: VaultModel, caller: Caller, projectSlug: string, environmentSlug: string, key: string,
                       value: seq<byte>)
    : Result<(), VaultError>
  {
    if v.rootKey.None? then Err(VaultSealed)
    else if !Validate.IsSecretKey(key) then Err(Invalid("secret key"))
    else if |value| > Aead.MAX_PLAINTEXT_LEN then Err(ValueTooLarge(|value|, Aead.MAX_PLAINTEXT_LEN))
    else
      var pair :- ResolveFor(v.state, caller, projectSlug, environmentSlug);
      Authorise(caller, WriteSecrets, pair.0, pair.1)
  }

  // ----- the audit trail -----

  function EntriesOf(records: seq<Record>): seq<AuditEntry>
    decreases |records|
  {
    if records == [] then []
    else
      var rest := EntriesOf(records[1..]);
      if !records[0].isSealed then rest
      else
        match Events.FromBytes(records[0].payload)
        case Ok(Audited(at, actor, action, target, outcome)) => [AuditEntry(at, actor, action, target, outcome)] + rest
        case _ => rest
  }

  function AuditTrail(v: VaultModel, caller: Caller): Result<seq<AuditEntry>, VaultError> {
    if !GrantedTo(Administer, caller.kind) then Err(Forbidden)
    else if v.rootKey.None? then Err(VaultSealed)
    else
      match ReadRecordsOf(v.log.file, v.rootKey.value)
      case Err(e) => Err(StoreFailed(e))
      case Ok(records) => Ok(EntriesOf(records))
  }
}
