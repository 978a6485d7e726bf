/**
 Every run of a vault: operations, sealing and unsealing, rekeying, writes that
 fail at any byte, and restarts, in any order.
 */
module VaultRuns {
  import opened Wrappers
  import opened Bytes
  import opened StoreState
  import opened LogFile
  import opened LogSafety
  import opened VaultSpec
  import opened VaultErrors
  import opened VaultSafety
  import opened VaultOps
  import opened VaultRekey
  import Aead
  import Barrier
  import Events
  import Shamir
  import ShareText
  import Store
  import Timestamps

  datatype Op =
    | DoCreateUser(caller: Caller, email: string, hashed: PasswordHash, id: Option<string>)
    | DoLogin(email: string, password: string, ttl: int, verify: (string, string) -> bool, draw: TokenDraw)
    | DoIssueMachineToken(caller: Caller, projectSlug: string, environmentSlug: string, title: string,
                          lifetime: Option<int>, draw: TokenDraw)
    | DoRevokeToken(caller: Caller, tokenId: string)
    | DoCreateProject(caller: Caller, slug: string, name: string, drawn: ProjectDraw)
    | DoCreateEnvironment(caller: Caller, projectSlug: string, slug: string, name: string, id: Option<string>)
    | DoSetSecret(caller: Caller, projectSlug: string, environmentSlug: string, key: string, value: seq<byte>,
                  nonce: Option<Aead.Nonce>)
    | DoGetSecret(caller: Caller, projectSlug: string, environmentSlug: string, key: string)
    | DoListSecrets(caller: Caller, projectSlug: string, environmentSlug: string)
    | DoDeleteSecret(caller: Caller, projectSlug: string, environmentSlug: string, key: string)
    | DoSealAs(caller: Caller)
    | DoSeal
    | DoResetUnseal
    | DoSubmitShare(printed: string)
    | DoRekey(caller: Caller, threshold: byte, shares: byte, ceremony: Ceremony, rewraps: nat -> Option<Aead.Nonce>,
              fates: RewriteFates)

  // A restart drops memory, whatever the process was doing, and opens the file again.
  datatype Step = Operate(op: Op, world: World) | Restart(fate: WriteFate)

  // Up with a vault, or down because the file could not be opened.
  datatype System = Up(vault: VaultModel) | Down(file: seq<byte>)

  // With the printed shares last handed out, how many of them are needed, and
  // what memory held when it was last unsealed: the state, and the event whose
  // append had then broken the log.
  datatype Machine = Machine(system: System, issued: seq<string>, needed: byte, kept: State, flight: Option<Event>)

  function FileOf(system: System): seq<byte> {
    match system
    case Up(v) => v.log.file
    case Down(file) => file
  }

  predicate IsUnsealed(system: System) {
    system.Up? && system.vault.rootKey.Some?
  }

  function InFlight(v: VaultModel): Option<Event> {
    if v.log.broken then v.inFlight else None
  }

  // An unsealed vault is what will be remembered of it.
  function Noted(m: Machine): Machine {
    if IsUnsealed(m.system) then m.(kept := m.system.vault.state, flight := InFlight(m.system.vault)) else m
  }

  predicate Drawn(op: Op) {
    op.DoRekey? ==> Fills(op.ceremony, op.threshold)
  }

  // Identifiers and tokens drawn are ones not in use.
  predicate Fresh(s: State, op: Op, digest: Digest) {
    match op
    case DoCreateUser(_, _, _, id) => id.Some? ==> FreshId(s, id.value)
    case DoLogin(_, _, _, _, draw) => FreshDraw(s, draw, digest)
    case DoIssueMachineToken(_, _, _, _, _, draw) => FreshDraw(s, draw, digest)
    case DoCreateProject(_, _, _, drawn) => drawn.id.Some? ==> FreshId(s, drawn.id.value)
    case DoCreateEnvironment(_, _, _, _, id) => id.Some? ==> FreshId(s, id.value)
    case _ => true
  }

  // The operations that only commit events.
  function Performed(v: VaultModel, op: Op, w: World, digest: Digest): VaultModel {
    match op
    case DoCreateUser(caller, email, hashed, id) => CreateUser(v, w, caller, email, hashed, id).0
    case DoLogin(email, password, ttl, verify, draw) => Login(v, w, email, password, ttl, verify, draw, digest).0
    case DoIssueMachineToken(caller, project, environment, title, lifetime, draw) =>
      IssueMachineToken(v, w, caller, project, environment, title, lifetime, draw, digest).0
    case DoRevokeToken(caller, id) => RevokeToken(v, w, caller, id).0
    case DoCreateProject(caller, slug, name, drawn) => CreateProject(v, w, caller, slug, name, drawn).0
    case DoCreateEnvironment(caller, project, slug, name, id) =>
      CreateEnvironment(v, w, caller, project, slug, name, id).0
    case DoSetSecret(caller, project, environment, key, value, nonce) =>
      SetSecret(v, w, caller, project, environment, key, value, nonce).0
    case DoGetSecret(caller, project, environment, key) => GetSecret(v, w, caller, project, environment, key).0
    case DoListSecrets(caller, project, environment) => ListSecrets(v, w, caller, project, environment).0
    case DoDeleteSecret(caller, project, environment, key) => DeleteSecret(v, w, caller, project, environment, key).0
    case _ => v
  }

  // The slot or the token an operation is asked to change.
  function NamedBy(s: State, op: Op): Touch {
    match op
    case DoSetSecret(_, project, environment, key, _, _) => SlotTouch(Named(s, project, environment, key))
    case DoDeleteSecret(_, project, environment, key) => SlotTouch(Named(s, project, environment, key))
    case DoRevokeToken(_, id) => TheToken(id)
    case _ => Nothing
  }

  lemma PerformedSteps(v: VaultModel, op: Op, w: World, digest: Digest)
    requires Fresh(v.state, op, digest)
    ensures TwoSteps(v, w, NamedBy(v.state, op), Performed(v, op, w, digest))
  {
    hide Named, TwoSteps, FreshId, FreshHash, CreateUser, Login, IssueMachineToken, RevokeToken, CreateProject,
         CreateEnvironment, SetSecret, GetSecret, ListSecrets, DeleteSecret, FreshDraw;
    match op {
      case DoCreateUser(caller, email, hashed, id) => CreateUserSteps(v, w, caller, email, hashed, id);
      case DoLogin(email, password, ttl, verify, draw) => LoginSteps(v, w, email, password, ttl, verify, draw, digest);
      case DoIssueMachineToken(caller, project, environment, title, lifetime, draw) =>
        IssueMachineTokenSteps(v, w, caller, project, environment, title, lifetime, draw, digest);
      case DoRevokeToken(caller, id) => RevokeTokenSteps(v, w, caller, id);
      case DoCreateProject(caller, slug, name, drawn) => CreateProjectSteps(v, w, caller, slug, name, drawn);
      case DoCreateEnvironment(caller, project, slug, name, id) =>
        CreateEnvironmentSteps(v, w, caller, project, slug, name, id);
      case DoSetSecret(caller, project, environment, key, value, nonce) =>
        SetSecretSteps(v, w, caller, project, environment, key, value, nonce);
      case DoGetSecret(caller, project, environment, key) => GetSecretSteps(v, w, caller, project, environment, key);
      case DoListSecrets(caller, project, environment) => ListSecretsSteps(v, w, caller, project, environment);
      case DoDeleteSecret(caller, project, environment, key) =>
        DeleteSecretSteps(v, w, caller, project, environment, key);
      case _ => NoStep(v, w, Nothing);
    }
  }

  // One operation on a vault that is up, with the shares it may hand out.
  function Operated(v: VaultModel, m: Machine, op: Op, w: World, checksum: ShareText.Checksum, digest: Digest): Machine
    requires Drawn(op)
  {
    hide Performed, Rekey, SubmitShare, SealAs, SealVault, Fills;
    match op
    case DoSealAs(caller) => m.(system := Up(SealAs(v, caller).0))
    case DoSeal => m.(system := Up(SealVault(v)))
    case DoResetUnseal => m.(system := Up(v.(pending := [])))
    case DoSubmitShare(printed) => m.(system := Up(SubmitShare(v, printed, checksum).0))
    case DoRekey(caller, threshold, shares, c, rewraps, fates) =>
      (match Rekey(v, caller, threshold, shares, c, rewraps, fates, checksum)
       case (after, Err(_)) => m.(system := Up(after))
       case (after, Ok(outcome)) => m.(system := Up(after), issued := outcome.shares, needed := outcome.threshold))
    case _ => m.(system := Up(Performed(v, op, w, digest)))
  }

  function Restarted(m: Machine, fate: WriteFate): Machine {
    hide OpenVault;
    match OpenVault(Some(FileOf(m.system)), fate)
    case (Ok(v), _) => m.(system := Up(v))
    case (Err(_), left) => m.(system := Down(left))
  }

  // Nothing can be asked of a process that is down.
  function Next(m: Machine, step: Step, checksum: ShareText.Checksum, digest: Digest): Machine {
    hide Operated, Restarted, Fills, Noted;
    match step
    case Restart(fate) => Noted(Restarted(m, fate))
    case Operate(op, w) =>
      if m.system.Up? && Drawn(op) then Noted(Operated(m.system.vault, m, op, w, checksum, digest)) else m
  }

  predicate Allowed(m: Machine, step: Step, digest: Digest) {
    step.Operate? ==> Drawn(step.op) && (m.system.Up? ==> Fresh(m.system.vault.state, step.op, digest))
  }

  predicate AllowedRun(m: Machine, steps: seq<Step>, checksum: ShareText.Checksum, digest: Digest)
    decreases |steps|
  {
    hide Next, Fresh, Fills;
    steps == []
    || (Allowed(m, steps[0], digest) && AllowedRun(Next(m, steps[0], checksum, digest), steps[1..], checksum, digest))
  }

  function Run(m: Machine, steps: seq<Step>, checksum: ShareText.Checksum, digest: Digest): Machine
    decreases |steps|
  {
    hide Next, Fresh, Fills;
    if steps == [] then m else Run(Next(m, steps[0], checksum, digest), steps[1..], checksum, digest)
  }

  // The step is not asked to change this.
  predicate Leaves(m: Machine, step: Step, what: Touch) {
    step.Operate? && m.system.Up? ==> NamedBy(m.system.vault.state, step.op) != what
  }

  // No step of the run is a write or a deletion of this slot, or a revocation of this token.
  predicate Undisturbed(m: Machine, steps: seq<Step>, what: Touch, checksum: ShareText.Checksum, digest: Digest)
    decreases |steps|
  {
    hide Next, Leaves;
    steps == []
    || (Leaves(m, steps[0], what)
        && Undisturbed(Next(m, steps[0], checksum, digest), steps[1..], what, checksum, digest))
  }

  // ----- the invariant of a run -----

  // The machine's file and memory are those of one vault, and honour the pledge.
  ghost predicate Standing(m: Machine, t: Truth, p: Pledge, checksum: ShareText.Checksum) {
    && Durable(FileOf(m.system), t) && Honours(Fold(t.events), t.rootKey, p)
    && (m.system.Up? ==> Inv(m.system.vault, t) && Keeps(m.system.vault, t, p))
    && m.issued == PrintAll(IssuedShares(t), checksum) && m.needed == t.barrier.threshold
  }

  // The state is the one given, or that with the event in flight added.
  predicate KeptOrInFlight(kept: State, flight: Option<Event>, s: State) {
    s == kept || (flight.Some? && s == Applied(kept, flight.value))
  }

  // What was last noted of memory is what the file replays to, but for the event in flight.
  predicate Kept(m: Machine, t: Truth) {
    Noted(m) == m && KeptOrInFlight(m.kept, m.flight, Fold(t.events))
  }

  ghost predicate Holds(m: Machine, t: Truth, p: Pledge, checksum: ShareText.Checksum) {
    Standing(m, t, p, checksum) && Kept(m, t)
  }

  lemma ReplayIsMemoryOrInFlight(v: VaultModel, t: Truth)
    requires Inv(v, t) && v.rootKey.Some?
    ensures KeptOrInFlight(v.state, InFlight(v), Fold(t.events))
  {
    hide Inv, Fold, Applied, Durable, Unique;
    InvIsDurable(v, t);
    if v.state != Fold(t.events) {
      FoldLast(t.events);
    }
  }

  // Noting what an unsealed vault holds, or nothing if it is sealed and its file did not change.
  lemma NotedHolds(m: Machine, t: Truth, after: Machine, next: Truth, p: Pledge, checksum: ShareText.Checksum)
    requires Kept(m, t) && Standing(after, next, p, checksum) && after.kept == m.kept && after.flight == m.flight
    requires !IsUnsealed(after.system) ==> next == t
    ensures Holds(Noted(after), next, p, checksum)
  {
    hide Durable, Inv, Honours, Fold, Applied, IssuedShares, PrintAll;
    if IsUnsealed(after.system) {
      ReplayIsMemoryOrInFlight(after.system.vault, next);
    }
  }

  lemma RestartKeeps(m: Machine, t: Truth, p: Pledge, fate: WriteFate, checksum: ShareText.Checksum)
    requires Holds(m, t, p, checksum)
    ensures Holds(Noted(Restarted(m, fate)), t, p, checksum)
  {
    hide OpenVault, Durable, Inv, FoldFrom, Honours, IssuedShares, PrintAll, Kept;
    OpenVaultKeeps(FileOf(m.system), t, fate);
    NotedHolds(m, t, Restarted(m, fate), t, p, checksum);
  }

  lemma PerformedKeeps(v: VaultModel, t: Truth, p: Pledge, op: Op, w: World, digest: Digest) returns (next: Truth)
    requires Inv(v, t) && Fresh(v.state, op, digest) && Keeps(v, t, p) && Spares(p, NamedBy(v.state, op))
    ensures var after := Performed(v, op, w, digest);
            && Inv(after, next) && next == t.(events := next.events) && Keeps(after, next, p)
            && (after.rootKey.None? ==> next == t)
  {
    hide Inv, Fresh, Performed, TwoSteps, Keeps, NamedBy, Spares;
    PerformedSteps(v, op, w, digest);
    next := OperationKeeps(v, t, w, NamedBy(v.state, op), Performed(v, op, w, digest), p);
  }

  lemma IssuedSame(t: Truth, u: Truth)
    requires u == t.(events := u.events)
    ensures IssuedShares(u) == IssuedShares(t)
  {
    hide FromBytes, Shamir.SharesOf;
    assert u.master == t.master && u.barrier == t.barrier && u.coefficients == t.coefficients;
  }

  lemma SubmitKeeps(v: VaultModel, t: Truth, p: Pledge, printed: string, checksum: ShareText.Checksum)
    requires Inv(v, t) && Keeps(v, t, p)
    ensures var after := SubmitShare(v, printed, checksum).0;
            Inv(after, t) && Keeps(after, t, p)
  {
    hide TryUnseal, ShareText.Parse, Durable, Sound, Unique, FoldFrom, Honours;
    if v.rootKey.None? && ShareText.Parse(printed, checksum).Ok? {
      var share := ShareText.Parse(printed, checksum).value;
      TryUnsealKeeps(v.(pending := if share in v.pending then v.pending else v.pending + [share]), t);
    }
  }

  lemma SealAsEither(v: VaultModel, caller: Caller)
    ensures SealAs(v, caller).0 == v || SealAs(v, caller).0 == SealVault(v)
  {
  }

  lemma RekeyStands(v: VaultModel, t: Truth, p: Pledge, m: Machine, caller: Caller, threshold: byte, shares: byte,
                    c: Ceremony, rewraps: nat -> Option<Aead.Nonce>, fates: RewriteFates, checksum: ShareText.Checksum)
    returns (next: Truth)
    requires m.system == Up(v) && Standing(m, t, p, checksum) && Fills(c, threshold)
    ensures match Rekey(v, caller, threshold, shares, c, rewraps, fates, checksum)
            case (after, Err(_)) => after == v && next == t
            case (after, Ok(outcome)) =>
              && Standing(m.(system := Up(after), issued := outcome.shares, needed := outcome.threshold),
                          next, p, checksum)
              && after.rootKey.Some?
  {
    hide Rekey, FoldFrom, Fills, Durable, Inv, PrintAll, IssuedShares, AuditsIn, Actor, Rewrapped, Honours;
    next := RekeyKeeps(v, t, caller, threshold, shares, c, rewraps, fates, checksum);
    var (after, r) := Rekey(v, caller, threshold, shares, c, rewraps, fates, checksum);
    if r.Ok? {
      InvIsDurable(after, next);
      RewrappedHonours(Fold(t.events), t.rootKey, after.state, next.rootKey, p);
    }
  }

  lemma InvIsDurable(v: VaultModel, t: Truth)
    requires Inv(v, t)
    ensures Durable(v.log.file, t)
    ensures v.rootKey.Some? ==> v.rootKey == Some(t.rootKey)
    ensures v.rootKey.Some? ==>
              || v.state == Fold(t.events)
              || (v.log.broken && t.events != [] && v.state == Fold(t.events[..|t.events| - 1])
                  && v.inFlight == Some(t.events[|t.events| - 1]))
    ensures Unique(v.state)
  {
    hide Durable, Sound, Unique, FoldFrom;
  }

  lemma OperatedKeeps(v: VaultModel, m: Machine, t: Truth, p: Pledge, op: Op, w: World, checksum: ShareText.Checksum,
                      digest: Digest)
    returns (next: Truth)
    requires m.system == Up(v) && Drawn(op) && Fresh(v.state, op, digest) && Standing(m, t, p, checksum)
    requires Spares(p, NamedBy(v.state, op))
    ensures var after := Operated(v, m, op, w, checksum, digest);
            && Standing(after, next, p, checksum) && after.kept == m.kept && after.flight == m.flight
            && (!IsUnsealed(after.system) ==> next == t)
  {
    hide Rekey, SubmitShare, SealAs, Performed, Fresh, FoldFrom, Fills, Durable, Inv, PrintAll, IssuedShares, Honours,
         NamedBy, Spares;
    next := t;
    match op {
      case DoSealAs(caller) =>
        SealAsEither(v, caller);
        SealKeeps(v, t);
        InvIsDurable(SealVault(v), t);
      case DoSeal =>
        SealKeeps(v, t);
        InvIsDurable(SealVault(v), t);
      case DoResetUnseal =>
        ResetKeeps(v, t);
      case DoSubmitShare(printed) =>
        SubmitKeeps(v, t, p, printed, checksum);
        InvIsDurable(SubmitShare(v, printed, checksum).0, t);
      case DoRekey(caller, threshold, shares, c, rewraps, fates) =>
        next := RekeyStands(v, t, p, m, caller, threshold, shares, c, rewraps, fates, checksum);
      case _ =>
        next := PerformedKeeps(v, t, p, op, w, digest);
        InvIsDurable(Performed(v, op, w, digest), next);
        IssuedSame(t, next);
    }
  }

  lemma StepHolds(m: Machine, t: Truth, p: Pledge, step: Step, checksum: ShareText.Checksum, digest: Digest)
    returns (next: Truth)
    requires Holds(m, t, p, checksum) && Allowed(m, step, digest)
    requires p.held.Some? ==> Leaves(m, step, TouchOf(p.held.value))
    ensures Holds(Next(m, step, checksum, digest), next, p, checksum)
  {
    hide Standing, Kept, Operated, Restarted, Fresh, Fills, Noted, NamedBy;
    next := t;
    match step {
      case Restart(fate) => RestartKeeps(m, t, p, fate, checksum);
      case Operate(op, w) =>
        if m.system.Up? {
          next := OperatedKeeps(m.system.vault, m, t, p, op, w, checksum, digest);
          NotedHolds(m, t, Operated(m.system.vault, m, op, w, checksum, digest), next, p, checksum);
        }
    }
  }

  /** Every run keeps the invariant, and whatever is pledged that no step of it is asked to change. */
  lemma {:induction false} RunHolds(m: Machine, t: Truth, p: Pledge, steps: seq<Step>, checksum: ShareText.Checksum,
                                    digest: Digest)
    returns (last: Truth)
    requires Holds(m, t, p, checksum) && AllowedRun(m, steps, checksum, digest)
    requires p.held.Some? ==> Undisturbed(m, steps, TouchOf(p.held.value), checksum, digest)
    ensures Holds(Run(m, steps, checksum, digest), last, p, checksum)
    decreases |steps|
  {
    hide Holds, Next, Fresh, Drawn, Leaves;
    last := t;
    if steps != [] {
      var next := StepHolds(m, t, p, steps[0], checksum, digest);
      last := RunHolds(Next(m, steps[0], checksum, digest), next, p, steps[1..], checksum, digest);
    }
  }

  // ----- initialisation -----

  // Opened, and never initialised.
  predicate Blank(v: VaultModel) {
    && Sound(v.log) && !v.log.broken && FramesIn(v.log.file) == []
    && v.state == EMPTY && v.barrier.None? && v.rootKey.None? && v.pending == []
  }

  /** A store that is not there, or is empty, opens as a blank vault. */
  lemma NewStoreIsBlank(stored: Option<seq<byte>>)
    requires stored.None? || stored.value == []
    ensures match OpenVault(stored, Written) { case (Ok(v), left) => Blank(v) && v.log.file == left
                                            case (Err(_), _) => false }
  {
    hide Walk, CheckHeader;
    FreshLogIsEmpty();
    WalksAgree(HEADER, Store.HEADER_LEN, 0, KeepPlain);
    hide Visited, FoldFrom;
  }

  lemma BarrierFiled(log: LogModel, t: Truth, fate: WriteFate)
    requires Sound(log) && !log.broken && FramesIn(log.file) == [] && t.events == []
    ensures match AppendPlainOf(log, Barrier.ToBytes(t.barrier), fate)
            case (after, Ok(_)) => Sound(after) && !after.broken && after.count == 1 && Filed(after.file, t)
            case (_, Err(_)) => true
  {
    hide WriteRecordOf, Walk, CheckHeader, Barrier.ToBytes, SealedAs;
    WriteKeeps(log, KIND_PLAIN, Barrier.ToBytes(t.barrier), fate);
  }

  lemma RootTokenAdmissible(root: Key, id: string, hash: seq<byte>, now: Timestamps.Timestamp)
    ensures Admissible(EMPTY, root, RootTokenEvent(id, hash, now))
  {
  }

  /** A successful init gives an unsealed vault with its hierarchy and exactly its shares handed out. */
  lemma InitEstablishes(v: VaultModel, threshold: byte, shares: byte, c: Ceremony, token: Option<string>,
                        id: Option<string>, w: World, checksum: ShareText.Checksum, digest: Digest) returns (t: Truth)
    requires Blank(v) && Fills(c, threshold) && Init(v, threshold, shares, c, token, id, w, checksum, digest).1.Ok?
    ensures var (after, r) := Init(v, threshold, shares, c, token, id, w, checksum, digest);
            && Holds(Started(after, r.value), t, NOTHING, checksum)
            && after.rootKey.Some? && !after.log.broken && after.state == Fold(t.events)
            && c.master == Some(t.master)
  {
    hide Commit, AppendPlainOf, Barrier.ToBytes, FoldFrom, Admissible, KeyOpens, Unique, Sound, Filed, WellSplit,
         WrapsRoot, SplitMaster, WrapRoot, PrintAll, IssuedShares, Fills, CoefficientsUsed, RootTokenEvent, FramesIn,
         CommitLands, Holds;
    CeremonyHolds(c, threshold, shares, []);
    var barrier := WrapRoot(c, threshold, shares).value;
    var begun := TruthOf(c, barrier, []);
    BarrierFiled(v.log, begun, w.fates(v.log.count));
    EmptyIsUnique();
    NothingFolded();
    var (log, _) := AppendPlainOf(v.log, Barrier.ToBytes(barrier), w.fates(v.log.count));
    var started := v.(log := log, barrier := Some(barrier), rootKey := Some(c.rootKey.value));
    var e := RootTokenEvent(id.value, digest(token.value), w.clock(log.count));
    RootTokenAdmissible(c.rootKey.value, id.value, digest(token.value), w.clock(log.count));
    assert Inv(started, begun);
    t := CommitKeeps(started, begun, e, w);
    IssuedSame(begun, t);
    StartHolds(Commit(started, e, w).0, t, InitOutcome(PrintAll(IssuedShares(t), checksum), token.value, threshold),
               checksum);
  }

  lemma StartHolds(after: VaultModel, t: Truth, outcome: InitOutcome, checksum: ShareText.Checksum)
    requires Inv(after, t) && after.rootKey.Some? && after.state == Fold(t.events)
    requires outcome.shares == PrintAll(IssuedShares(t), checksum) && outcome.threshold == t.barrier.threshold
    ensures Holds(Started(after, outcome), t, NOTHING, checksum)
  {
    hide Inv, Durable, Honours, Fold, PrintAll, IssuedShares;
    NothingPledged(Fold(t.events), t.rootKey);
    NothingPledged(after.state, t.rootKey);
    InvIsDurable(after, t);
  }

  lemma NothingFolded()
    ensures Fold([]) == EMPTY
  {
  }

  function Started(after: VaultModel, outcome: InitOutcome): Machine {
    Machine(Up(after), outcome.shares, outcome.threshold, after.state, InFlight(after))
  }

  // ----- over every run -----

  // Distinct choices among the shares handed out, as many as are needed.
  predicate Choice(picks: seq<nat>, m: Machine) {
    && |picks| == m.needed
    && (forall i :: 0 <= i < |picks| ==> picks[i] < |m.issued|)
    && (forall i, j :: 0 <= i < j < |picks| ==> picks[i] != picks[j])
  }

  function Picked(picks: seq<nat>, issued: seq<string>): seq<string> {
    seq(|picks|, i requires 0 <= i < |picks| => if picks[i] < |issued| then issued[picks[i]] else "")
  }

  lemma ChoiceIsQuorum(m: Machine, t: Truth, picks: seq<nat>, checksum: ShareText.Checksum) returns (chosen: seq<Share>)
    requires WellSplit(t) && m.issued == PrintAll(IssuedShares(t), checksum) && m.needed == t.barrier.threshold
    requires Choice(picks, m)
    ensures Quorum(chosen, t) && PrintAll(chosen, checksum) == Picked(picks, m.issued)
  {
    hide ShareText.Print, FromBytes, Shamir.SharesOf;
    var shares := IssuedShares(t);
    Shamir.SharesAreDistinct(FromBytes(t.master), t.coefficients, t.barrier.threshold - 1, t.barrier.shares);
    chosen := seq(|picks|, i requires 0 <= i < |picks| => shares[picks[i]]);
    forall i, j | 0 <= i < j < |chosen|
      ensures chosen[i] != chosen[j]
    {
      assert Shamir.Indices(shares)[picks[i]] != Shamir.Indices(shares)[picks[j]];
    }
  }

  lemma FoldLast(events: seq<Event>)
    requires events != []
    ensures Fold(events) == Applied(Fold(events[..|events| - 1]), events[|events| - 1])
  {
    hide Applied, FoldFrom;
    FoldOneMore(EMPTY, events[..|events| - 1], events[|events| - 1]);
    assert events == events[..|events| - 1] + [events[|events| - 1]];
  }

  // Restart, offer the shares, and look at what comes up.
  function Recovered(m: Machine, printed: seq<string>, checksum: ShareText.Checksum): Result<VaultModel, VaultError> {
    hide OpenVault, SubmitAll;
    match OpenVault(Some(FileOf(m.system)), Written)
    case (Err(e), _) => Err(e)
    case (Ok(v), _) => Ok(SubmitAll(v, printed, checksum))
  }

  lemma RecoversTo(m: Machine, t: Truth, p: Pledge, picks: seq<nat>, checksum: ShareText.Checksum)
    returns (u: VaultModel)
    requires Standing(m, t, p, checksum) && Choice(picks, m)
    ensures Recovered(m, Picked(picks, m.issued), checksum) == Ok(u)
    ensures u.rootKey == Some(t.rootKey) && u.state == Fold(t.events) && Inv(u, t)
  {
    hide *;
    StandingSplit(m, t, p, checksum);
    OpenVaultKeeps(FileOf(m.system), t, Written);
    var chosen := ChoiceIsQuorum(m, t, picks, checksum);
    var v := OpenVault(Some(FileOf(m.system)), Written).0.value;
    WholeQuorumUnseals(v, t, chosen, checksum);
    RecoveredIs(m, Picked(picks, m.issued), checksum);
    u := Unsealed(v, t);
  }

  lemma RecoveredIs(m: Machine, printed: seq<string>, checksum: ShareText.Checksum)
    ensures var r := OpenVault(Some(FileOf(m.system)), Written).0;
            r.Ok? ==> Recovered(m, printed, checksum) == Ok(SubmitAll(r.value, printed, checksum))
  {
    hide OpenVault, SubmitAll;
  }

  lemma StandingSplit(m: Machine, t: Truth, p: Pledge, checksum: ShareText.Checksum)
    requires Standing(m, t, p, checksum)
    ensures WellSplit(t) && Durable(FileOf(m.system), t)
    ensures m.issued == PrintAll(IssuedShares(t), checksum) && m.needed == t.barrier.threshold
  {
    hide PrintAll, IssuedShares, FromBytes, Inv, KeysOpen, Unique, Filed, WrapsRoot, Honours, Keeps, Fold;
  }

  /**
   Over every run from a successful init, whatever operations, seals, rekeys,
   failed writes and restarts it has, and however it ends: restarting and
   offering any quorum of the shares last handed out, in any order, unseals the
   vault, and the state replayed is what memory held when it was last unsealed,
   or that and the one event whose append had broken the log.
   */
  lemma EveryRunCanBeUnsealed(v: VaultModel, threshold: byte, shares: byte, c: Ceremony, token: Option<string>,
                              id: Option<string>, w: World, steps: seq<Step>, picks: seq<nat>,
                              checksum: ShareText.Checksum, digest: Digest)
    requires Blank(v) && Fills(c, threshold) && Init(v, threshold, shares, c, token, id, w, checksum, digest).1.Ok?
    requires var (after, r) := Init(v, threshold, shares, c, token, id, w, checksum, digest);
             AllowedRun(Started(after, r.value), steps, checksum, digest)
    requires var (after, r) := Init(v, threshold, shares, c, token, id, w, checksum, digest);
             Choice(picks, Run(Started(after, r.value), steps, checksum, digest))
    ensures var (after, r) := Init(v, threshold, shares, c, token, id, w, checksum, digest);
            var m := Run(Started(after, r.value), steps, checksum, digest);
            && Noted(m) == m
            && match Recovered(m, Picked(picks, m.issued), checksum)
               case Err(_) => false
               case Ok(u) =>
                 && u.rootKey.Some? && KeptOrInFlight(m.kept, m.flight, u.state)
                 && (IsUnsealed(m.system) ==> u.rootKey == m.system.vault.rootKey)
  {
    hide *;
    var (after, r) := Init(v, threshold, shares, c, token, id, w, checksum, digest);
    var t := InitEstablishes(v, threshold, shares, c, token, id, w, checksum, digest);
    NothingPledged(EMPTY, t.rootKey);
    var last := RunHolds(Started(after, r.value), t, NOTHING, steps, checksum, digest);
    var m := Run(Started(after, r.value), steps, checksum, digest);
    RunEnds(m, last, NOTHING, checksum);
    var _ := RecoversTo(m, last, NOTHING, picks, checksum);
  }

  // What the invariant says of the end of a run.
  lemma RunEnds(m: Machine, t: Truth, p: Pledge, checksum: ShareText.Checksum)
    requires Holds(m, t, p, checksum)
    ensures Standing(m, t, p, checksum) && Noted(m) == m && KeptOrInFlight(m.kept, m.flight, Fold(t.events))
    ensures IsUnsealed(m.system) ==> m.system.vault.rootKey == Some(t.rootKey)
    ensures m.system.Up? ==> Unique(m.system.vault.state)
  {
    hide Durable, Honours, Keeps, Fold, PrintAll, IssuedShares, Inv, Unique, KeptOrInFlight, Noted;
    if m.system.Up? {
      InvIsDurable(m.system.vault, t);
    }
  }

  /**
   A crash at any byte of one commit: after a restart and a quorum of shares the
   state has that very event added if its whole frame got through, as it did if
   the commit was reported done, and is what it was if not.
   */
  lemma CrashDuringCommit(m: Machine, t: Truth, v: VaultModel, e: Event, w: World, picks: seq<nat>,
                          checksum: ShareText.Checksum)
    returns (u: VaultModel)
    requires m.system == Up(v) && Holds(m, t, NOTHING, checksum) && Choice(picks, m)
    requires v.rootKey.Some? && !v.log.broken && Admissible(v.state, t.rootKey, e)
    ensures Recovered(m.(system := Up(Commit(v, e, w).0)), Picked(picks, m.issued), checksum) == Ok(u)
    ensures u.state == if CommitLands(v, e, w) then Applied(v.state, e) else v.state
    ensures Commit(v, e, w).1.Ok? ==> CommitLands(v, e, w) && u.state == Commit(v, e, w).0.state
  {
    hide Commit, CommitLands, Recovered, Picked, Choice, Inv, Durable, Fold, Applied, Admissible, PrintAll,
         IssuedShares, Honours;
    var after := m.(system := Up(Commit(v, e, w).0));
    var next := CommitKeeps(v, t, e, w);
    InvIsDurable(v, t);
    InvIsDurable(Commit(v, e, w).0, next);
    NothingPledged(Fold(next.events), t.rootKey);
    NothingPledged(Commit(v, e, w).0.state, t.rootKey);
    IssuedSame(t, next);
    FoldedOneMore(t.events, e);
    assert Choice(picks, after) by { ChoiceDependsOnIssued(picks, m, after); }
    u := RecoversTo(after, next, NOTHING, picks, checksum);
  }

  lemma ChoiceDependsOnIssued(picks: seq<nat>, m: Machine, after: Machine)
    requires after.issued == m.issued && after.needed == m.needed
    ensures Choice(picks, after) == Choice(picks, m)
  {
  }

  lemma FoldedOneMore(events: seq<Event>, e: Event)
    ensures Fold(events + [e]) == Applied(Fold(events), e)
  {
    hide Applied, FoldFrom;
    FoldOneMore(EMPTY, events, e);
  }

  // Memory is no further along than the file.
  lemma FileIsLater(v: VaultModel, t: Truth)
    requires Inv(v, t) && v.rootKey.Some?
    ensures Later(v.state, Fold(t.events))
  {
    hide Inv, Fold, Applied, Durable, Unique, Later;
    InvIsDurable(v, t);
    LaterSame(v.state);
    if v.state != Fold(t.events) {
      FoldLast(t.events);
      AppliedLater(v.state, t.events[|t.events| - 1]);
    }
  }

  // What was so of memory at one point of a run, carried to a later point.
  lemma RunIsLater(m: Machine, v: VaultModel, t: Truth, steps: seq<Step>, checksum: ShareText.Checksum, digest: Digest)
    requires m.system == Up(v) && v.rootKey.Some? && Holds(m, t, NOTHING, checksum)
    requires AllowedRun(m, steps, checksum, digest)
    ensures NowLater(v, Run(m, steps, checksum, digest).system)
  {
    hide Run, AllowedRun, Holds, Later;
    HeldSince(m, v, t, checksum);
    var last := RunHolds(m, t, Pledge(v.state, None), steps, checksum, digest);
    if IsUnsealed(Run(m, steps, checksum, digest).system) {
      LastIsLater(Run(m, steps, checksum, digest), last, v.state, checksum);
    }
  }

  lemma HeldSince(m: Machine, v: VaultModel, t: Truth, checksum: ShareText.Checksum)
    requires m.system == Up(v) && v.rootKey.Some? && Holds(m, t, NOTHING, checksum)
    ensures Holds(m, t, Pledge(v.state, None), checksum)
  {
    hide Inv, Durable, Fold, Later, PrintAll, IssuedShares, Kept;
    FileIsLater(v, t);
    LaterSame(v.state);
  }

  lemma LastIsLater(m: Machine, t: Truth, s: State, checksum: ShareText.Checksum)
    requires Holds(m, t, Pledge(s, None), checksum) && IsUnsealed(m.system)
    ensures Later(s, m.system.vault.state)
  {
    hide Inv, Durable, Fold, Later, PrintAll, IssuedShares, Kept;
  }

  // A vault that is up and unsealed remembers at least what `v` did.
  predicate NowLater(v: VaultModel, system: System) {
    system.Up? && system.vault.rootKey.Some? ==> Later(v.state, system.vault.state)
  }

  lemma RevokedIsFound(s: State, u: State, hash: seq<byte>)
    requires Later(s, u) && TokenByHash(s, hash).Some? && TokenByHash(s, hash).value.revokedAt.Some?
    ensures TokenByHash(u, hash).Some? && TokenByHash(u, hash).value.revokedAt.Some?
  {
    var k := FirstIndex(s.tokens, HashIs(hash));
    assert SameToken(s.tokens[k], u.tokens[k]);
    forall j | 0 <= j < k
      ensures u.tokens[j].tokenHash != hash
    {
      assert SameToken(s.tokens[j], u.tokens[j]);
      assert !HashIs(hash)(s.tokens[j]);
    }
    FirstIsUnique(u.tokens, HashIs(hash), k);
  }

  /** A revoked token never authenticates again, through any run, whatever the clock says. */
  lemma RevokedStaysRevoked(m: Machine, v: VaultModel, t: Truth, steps: seq<Step>, last: VaultModel, presented: string,
                            now: Timestamps.Timestamp, checksum: ShareText.Checksum, digest: Digest)
    requires m.system == Up(v) && v.rootKey.Some? && Holds(m, t, NOTHING, checksum)
    requires AllowedRun(m, steps, checksum, digest)
    requires TokenByHash(v.state, digest(presented)).Some?
    requires TokenByHash(v.state, digest(presented)).value.revokedAt.Some?
    requires Run(m, steps, checksum, digest).system == Up(last)
    ensures Authenticate(last, presented, now, digest) == None
  {
    hide Run, AllowedRun, Holds, Later, TokenByHash;
    RunIsLater(m, v, t, steps, checksum, digest);
    if last.rootKey.Some? {
      RevokedIsFound(v.state, last.state, digest(presented));
    }
  }

  /** Once an account exists the root token is spent: nothing presented, in any later run, authenticates as root. */
  lemma RootStaysSpent(m: Machine, v: VaultModel, t: Truth, steps: seq<Step>, last: VaultModel, presented: string,
                       now: Timestamps.Timestamp, checksum: ShareText.Checksum, digest: Digest)
    requires m.system == Up(v) && v.rootKey.Some? && Holds(m, t, NOTHING, checksum)
    requires AllowedRun(m, steps, checksum, digest)
    requires v.state.users != [] && Run(m, steps, checksum, digest).system == Up(last)
    ensures Authenticate(last, presented, now, digest).Some? ==>
              Authenticate(last, presented, now, digest).value.kind != Events.Root
  {
    hide Run, AllowedRun, Holds, TokenByHash;
    RunIsLater(m, v, t, steps, checksum, digest);
  }

  /** In every run from a successful init, emails, slugs, identifiers and slots are unique in memory at every point. */
  lemma EveryRunStaysUnique(v: VaultModel, threshold: byte, shares: byte, c: Ceremony, token: Option<string>,
                            id: Option<string>, w: World, steps: seq<Step>, checksum: ShareText.Checksum,
                            digest: Digest)
    requires Blank(v) && Fills(c, threshold) && Init(v, threshold, shares, c, token, id, w, checksum, digest).1.Ok?
    requires var (after, r) := Init(v, threshold, shares, c, token, id, w, checksum, digest);
             AllowedRun(Started(after, r.value), steps, checksum, digest)
    ensures var (after, r) := Init(v, threshold, shares, c, token, id, w, checksum, digest);
            var last := Run(Started(after, r.value), steps, checksum, digest).system;
            last.Up? ==> Unique(last.vault.state)
  {
    hide *;
    var (after, r) := Init(v, threshold, shares, c, token, id, w, checksum, digest);
    var t := InitEstablishes(v, threshold, shares, c, token, id, w, checksum, digest);
    NothingPledged(EMPTY, t.rootKey);
    var truth := RunHolds(Started(after, r.value), t, NOTHING, steps, checksum, digest);
    RunEnds(Run(Started(after, r.value), steps, checksum, digest), truth, NOTHING, checksum);
  }
}
