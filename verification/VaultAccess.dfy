/** What callers can reach: machine tokens see their own environment and nothing else, and writes are read back. */
module VaultAccess {
  import opened Wrappers
  import opened Bytes
  import opened StoreState
  import opened VaultSpec
  import opened VaultErrors
  import opened VaultSafety
  import opened VaultRekey
  import Aead
  import Events
  import LogFile
  import Timestamps
  import Validate

  function EnvironmentHas(id: string): Environment -> bool {
    (e: Environment) => e.id == id
  }

  // What the names of one project and one of its environments are, if they exist.
  function OwnNames(s: State, projectId: string, environmentId: string): Option<(string, string)> {
    match ProjectById(s, projectId)
    case None => None
    case Some(project) =>
      match Find(s.environments, EnvironmentHas(environmentId))
      case None => None
      case Some(environment) =>
        if environment.projectId == projectId then Some((project.slug, environment.slug)) else None
  }

  lemma ProjectFound(s: State, p: Project)
    requires UniqueProjects(s.projects)
    ensures ProjectById(s, p.id) == Some(p) <==> p in s.projects
    ensures ProjectBySlug(s, p.slug) == Some(p) <==> p in s.projects
  {
    if p in s.projects {
      var k :| 0 <= k < |s.projects| && s.projects[k] == p;
      FoundAt(s.projects, ProjectIs(p.id), k);
      FoundAt(s.projects, SlugIs(p.slug), k);
    }
  }

  lemma EnvironmentFound(s: State, e: Environment)
    requires UniqueEnvironments(s.environments)
    ensures Find(s.environments, EnvironmentHas(e.id)) == Some(e) <==> e in s.environments
    ensures EnvironmentBySlug(s, e.projectId, e.slug) == Some(e) <==> e in s.environments
  {
    if e in s.environments {
      var k :| 0 <= k < |s.environments| && s.environments[k] == e;
      FoundAt(s.environments, EnvironmentHas(e.id), k);
      FoundAt(s.environments, EnvironmentIs(e.projectId, e.slug), k);
    }
  }

  lemma FoundMatches<T>(s: seq<T>, p: T -> bool)
    ensures Find(s, p).Some? ==> p(Find(s, p).value) && Find(s, p).value in s
  {
  }

  // A project that was resolved is found by its identifier.
  lemma ResolvedIsThere(s: State, projectSlug: string, environmentSlug: string)
    requires Resolve(s, projectSlug, environmentSlug).Ok?
    ensures var id := Resolve(s, projectSlug, environmentSlug).value.0;
            ProjectById(s, id).Some? && ProjectById(s, id).value.id == id && ProjectById(s, id).value in s.projects
  {
    hide FirstIndex, EnvironmentBySlug;
    var id := Resolve(s, projectSlug, environmentSlug).value.0;
    FoundMatches(s.projects, SlugIs(projectSlug));
    var project := ProjectBySlug(s, projectSlug).value;
    var k :| 0 <= k < |s.projects| && s.projects[k] == project;
    NoneMatch(s.projects, ProjectIs(id));
    assert ProjectIs(id)(s.projects[k]);
    FoundMatches(s.projects, ProjectIs(id));
  }

  /** With unique names, a pair of names resolves to a pair of identifiers exactly when they are its own. */
  lemma ResolvesToOwn(s: State, projectSlug: string, environmentSlug: string, projectId: string, environmentId: string)
    requires UniqueProjects(s.projects) && UniqueEnvironments(s.environments)
    ensures Resolve(s, projectSlug, environmentSlug) == Ok((projectId, environmentId))
       <==> OwnNames(s, projectId, environmentId) == Some((projectSlug, environmentSlug))
  {
    hide Find, UniqueProjects, UniqueEnvironments;
    FoundMatches(s.projects, SlugIs(projectSlug));
    FoundMatches(s.projects, ProjectIs(projectId));
    FoundMatches(s.environments, EnvironmentIs(projectId, environmentSlug));
    FoundMatches(s.environments, EnvironmentHas(environmentId));
    if ProjectBySlug(s, projectSlug).Some? {
      ProjectFound(s, ProjectBySlug(s, projectSlug).value);
    }
    if ProjectById(s, projectId).Some? {
      ProjectFound(s, ProjectById(s, projectId).value);
    }
    if EnvironmentBySlug(s, projectId, environmentSlug).Some? {
      EnvironmentFound(s, EnvironmentBySlug(s, projectId, environmentSlug).value);
    }
    if Find(s.environments, EnvironmentHas(environmentId)).Some? {
      EnvironmentFound(s, Find(s.environments, EnvironmentHas(environmentId)).value);
    }
  }

  // ----- two vaults one caller cannot tell apart -----

  function ValueAt(s: State, slot: Slot): Option<Events.Sealed> {
    match SecretAt(s, slot) { case None => None case Some(secret) => Some(secret.value) }
  }

  ghost predicate SameSecretsIn(s: State, u: State, projectId: string, environmentId: string) {
    forall key :: ValueAt(s, Slot(projectId, environmentId, key)) == ValueAt(u, Slot(projectId, environmentId, key))
  }

  // Unsealed vaults with unique names that agree on the caller's own project, environment and secrets.
  ghost predicate Alike(v: VaultModel, u: VaultModel, caller: Caller) {
    && v.rootKey.Some? && u.rootKey.Some? && Unique(v.state) && Unique(u.state) && caller.kind.Machine?
    && (caller.projectId.Some? && caller.environmentId.Some? ==>
          var p, e := caller.projectId.value, caller.environmentId.value;
          && OwnNames(v.state, p, e) == OwnNames(u.state, p, e)
          && ProjectDataKey(v, p) == ProjectDataKey(u, p)
          && SameSecretsIn(v.state, u.state, p, e))
  }

  predicate AuditsSucceed(v: VaultModel, w: World, caller: Caller, action: string, target: string) {
    && RecordAudit(v, w, caller, action, target, "ok").1.Ok?
    && RecordAudit(v, w, caller, action, target, "denied").1.Ok?
    && RecordAudit(v, w, caller, action, target, "missing").1.Ok?
    && RecordAudit(v, w, caller, action, target, "unknown").1.Ok?
  }

  // Whether these names are the caller's own, in this state.
  predicate IsOwn(s: State, caller: Caller, projectSlug: string, environmentSlug: string) {
    && caller.projectId.Some? && caller.environmentId.Some?
    && OwnNames(s, caller.projectId.value, caller.environmentId.value) == Some((projectSlug, environmentSlug))
  }

  // For a machine, every name but its own is one refusal.
  lemma MachineResolves(s: State, caller: Caller, projectSlug: string, environmentSlug: string)
    requires Unique(s) && caller.kind.Machine?
    ensures ResolveFor(s, caller, projectSlug, environmentSlug).Err? ==>
              ResolveFor(s, caller, projectSlug, environmentSlug) == Err(Forbidden)
              && !IsOwn(s, caller, projectSlug, environmentSlug)
    ensures ResolveFor(s, caller, projectSlug, environmentSlug).Ok? ==>
              var pair := ResolveFor(s, caller, projectSlug, environmentSlug).value;
              Authorise(caller, ReadSecrets, pair.0, pair.1)
              == (if IsOwn(s, caller, projectSlug, environmentSlug) then Ok(()) else Err(Forbidden))
              && (IsOwn(s, caller, projectSlug, environmentSlug) ==>
                    pair.0 == caller.projectId.value && pair.1 == caller.environmentId.value)
    ensures forall p, e :: Authorise(caller, WriteSecrets, p, e) == Err(Forbidden)
  {
    hide OwnNames, UniqueProjects, UniqueEnvironments, Resolve, UniqueTokens, UniqueUsers, OneEntryPerSlot;
    if caller.projectId.Some? && caller.environmentId.Some? {
      ResolvesToOwn(s, projectSlug, environmentSlug, caller.projectId.value, caller.environmentId.value);
    }
    var r := Resolve(s, projectSlug, environmentSlug);
    if r.Ok? {
      assert r == Ok((r.value.0, r.value.1));
    }
  }

  // What reading one key comes to for a machine, given only its own data.
  function MachineReads(own: bool, value: Option<Events.Sealed>, dataKey: Result<Key, VaultError>, context: Aead.Aad)
    : Result<seq<byte>, VaultError>
  {
    if !own then Err(Forbidden)
    else if value.None? then Err(NotFound("secret"))
    else if dataKey.Err? then Err(dataKey.error)
    else
      match Aead.Open(dataKey.value, Events.EnvelopeOf(value.value), context)
      case Err(_) => Err(CryptoFailed)
      case Ok(plain) => Ok(plain)
  }

  lemma MachineGets(v: VaultModel, w: World, caller: Caller, projectSlug: string, environmentSlug: string, key: string,
                    projectId: string, environmentId: string)
    requires v.rootKey.Some? && Unique(v.state) && caller.kind.Machine?
    requires AuditsSucceed(v, w, caller, "secret.read", Target(projectSlug, environmentSlug, key))
    requires IsOwn(v.state, caller, projectSlug, environmentSlug) ==>
               caller.projectId == Some(projectId) && caller.environmentId == Some(environmentId)
    ensures GetSecret(v, w, caller, projectSlug, environmentSlug, key).1
         == MachineReads(IsOwn(v.state, caller, projectSlug, environmentSlug),
                         ValueAt(v.state, Slot(projectId, environmentId, key)),
                         ProjectDataKey(v, projectId), SecretContext(Slot(projectId, environmentId, key)))
  {
    hide RecordAudit, Unique, IsOwn, ResolveFor, Authorise, ProjectDataKey, Aead.Open, SecretContext, SecretAt, Target;
    MachineResolves(v.state, caller, projectSlug, environmentSlug);
  }

  ghost predicate Has(b: seq<Secret>, slot: Slot, value: Events.Sealed) {
    exists y :: y in b && y.slot == slot && y.value == value
  }

  // Each secret of one listing is in the other, whenever it was written.
  ghost predicate Covered(a: seq<Secret>, b: seq<Secret>) {
    forall x :: x in a ==> Has(b, x.slot, x.value)
  }

  lemma HeadIsLeast(a: seq<Secret>, x: Secret)
    requires SortedStrictly(a) && x in a
    ensures x == a[0] || (Timestamps.TextBefore(a[0].slot.key, x.slot.key) && x.slot.key != a[0].slot.key)
  {
    hide Timestamps.TextBefore;
    var k :| 0 <= k < |a| && a[k] == x;
    Timestamps.NotBeforeItself(a[0].slot.key);
  }

  lemma HeadsAgree(a: seq<Secret>, b: seq<Secret>)
    requires SortedStrictly(a) && SortedStrictly(b) && Covered(a, b) && Covered(b, a) && a != [] && b != []
    ensures a[0].slot == b[0].slot && a[0].value == b[0].value
  {
    assert Has(b, a[0].slot, a[0].value) && Has(a, b[0].slot, b[0].value);
    hide Covered, SortedStrictly, Timestamps.TextBefore;
    var y :| y in b && y.slot == a[0].slot && y.value == a[0].value;
    var x :| x in a && x.slot == b[0].slot && x.value == b[0].value;
    HeadIsLeast(b, y);
    HeadIsLeast(a, x);
    Timestamps.NotBeforeItself(a[0].slot.key);
    if Timestamps.TextBefore(a[0].slot.key, b[0].slot.key) && Timestamps.TextBefore(b[0].slot.key, a[0].slot.key) {
      TextBeforeTransitive(a[0].slot.key, b[0].slot.key, a[0].slot.key);
    }
  }

  lemma TailsCovered(a: seq<Secret>, b: seq<Secret>)
    requires SortedStrictly(a) && Covered(a, b) && a != [] && b != [] && a[0].slot == b[0].slot
    ensures Covered(a[1..], b[1..]) && SortedStrictly(a[1..])
  {
    hide Timestamps.TextBefore;
    forall x | x in a[1..]
      ensures Has(b[1..], x.slot, x.value)
    {
      var k :| 0 <= k < |a[1..]| && a[1..][k] == x;
      assert Timestamps.TextBefore(a[0].slot.key, a[1 + k].slot.key);
      Timestamps.NotBeforeItself(a[0].slot.key);
      assert a[1 + k] in a && Has(b, x.slot, x.value);
      var y :| y in b && y.slot == x.slot && y.value == x.value;
      assert y in b[1..];
    }
  }

  lemma NothingCovers(a: seq<Secret>, b: seq<Secret>)
    requires Covered(a, b)
    ensures b == [] ==> a == []
  {
    if a != [] {
      assert Has(b, a[0].slot, a[0].value);
    }
  }

  lemma {:induction false} RevealSame(dataKey: Key, a: seq<Secret>, b: seq<Secret>)
    requires SortedStrictly(a) && SortedStrictly(b) && Covered(a, b) && Covered(b, a)
    ensures RevealAll(dataKey, a) == RevealAll(dataKey, b)
    decreases |a|
  {
    hide Aead.Open, SecretContext, SortedStrictly, Covered;
    NothingCovers(a, b);
    NothingCovers(b, a);
    if a != [] && b != [] {
      HeadsAgree(a, b);
      TailsCovered(a, b);
      TailsCovered(b, a);
      RevealSame(dataKey, a[1..], b[1..]);
    }
  }

  lemma ListingCovers(s: State, u: State, projectId: string, environmentId: string)
    requires OneEntryPerSlot(s) && OneEntryPerSlot(u) && SameSecretsIn(s, u, projectId, environmentId)
    ensures Covered(SecretsIn(s, projectId, environmentId), SecretsIn(u, projectId, environmentId))
  {
    hide SecretsIn, SecretAt, SortedStrictly, OneEntryPerSlot;
    ListingIsSortedAndComplete(s, projectId, environmentId);
    ListingIsSortedAndComplete(u, projectId, environmentId);
    var a, b := SecretsIn(s, projectId, environmentId), SecretsIn(u, projectId, environmentId);
    forall x | x in a
      ensures Has(b, x.slot, x.value)
    {
      assert x.slot == Slot(projectId, environmentId, x.slot.key);
      assert ValueAt(s, Slot(projectId, environmentId, x.slot.key))
          == ValueAt(u, Slot(projectId, environmentId, x.slot.key));
      FoundIsAt(u, x.slot);
      var y := SecretAt(u, x.slot).value;
      assert y in b && y.slot == x.slot && y.value == x.value;
    }
  }

  lemma ListingsReveal(dataKey: Key, s: State, u: State, projectId: string, environmentId: string)
    requires OneEntryPerSlot(s) && OneEntryPerSlot(u) && SameSecretsIn(s, u, projectId, environmentId)
    ensures RevealAll(dataKey, SecretsIn(s, projectId, environmentId))
         == RevealAll(dataKey, SecretsIn(u, projectId, environmentId))
  {
    hide SecretsIn, OneEntryPerSlot, RevealAll, Covered, SortedStrictly, ValueAt;
    ListingCovers(s, u, projectId, environmentId);
    ListingCovers(u, s, projectId, environmentId);
    ListingIsSortedAndComplete(s, projectId, environmentId);
    ListingIsSortedAndComplete(u, projectId, environmentId);
    RevealSame(dataKey, SecretsIn(s, projectId, environmentId), SecretsIn(u, projectId, environmentId));
  }

  // What listing comes to for a machine.
  function MachineListing(own: bool, dataKey: Result<Key, VaultError>, stored: seq<Secret>)
    : Result<seq<(string, seq<byte>)>, VaultError>
  {
    if !own then Err(Forbidden)
    else if dataKey.Err? then Err(dataKey.error)
    else RevealAll(dataKey.value, stored)
  }

  lemma MachineLists(v: VaultModel, w: World, caller: Caller, projectSlug: string, environmentSlug: string,
                     projectId: string, environmentId: string)
    requires v.rootKey.Some? && Unique(v.state) && caller.kind.Machine?
    requires AuditsSucceed(v, w, caller, "secret.list", ListTarget(projectSlug, environmentSlug))
    requires IsOwn(v.state, caller, projectSlug, environmentSlug) ==>
               caller.projectId == Some(projectId) && caller.environmentId == Some(environmentId)
    ensures ListSecrets(v, w, caller, projectSlug, environmentSlug).1
         == MachineListing(IsOwn(v.state, caller, projectSlug, environmentSlug), ProjectDataKey(v, projectId),
                           SecretsIn(v.state, projectId, environmentId))
  {
    hide RecordAudit, Unique, IsOwn, ResolveFor, Authorise, ProjectDataKey, RevealAll, SecretsIn, ListTarget;
    MachineResolves(v.state, caller, projectSlug, environmentSlug);
  }

  /**
   Noninterference for reading. Two vaults that agree on a machine's own
   project, environment and secrets, and may differ in everything else, give
   it the same answer for every name and key, as long as the audit appends succeed.
   */
  lemma MachineReadsTheSame(v: VaultModel, u: VaultModel, w: World, x: World, caller: Caller, projectSlug: string,
                            environmentSlug: string, key: string)
    requires Alike(v, u, caller)
    requires AuditsSucceed(v, w, caller, "secret.read", Target(projectSlug, environmentSlug, key))
    requires AuditsSucceed(u, x, caller, "secret.read", Target(projectSlug, environmentSlug, key))
    ensures GetSecret(v, w, caller, projectSlug, environmentSlug, key).1
         == GetSecret(u, x, caller, projectSlug, environmentSlug, key).1
  {
    hide AuditsSucceed, Unique, OwnNames, ProjectDataKey, ValueAt, GetSecret, MachineReads, Target, SecretContext;
    var p := if caller.projectId.Some? then caller.projectId.value else "";
    var e := if caller.environmentId.Some? then caller.environmentId.value else "";
    assert IsOwn(v.state, caller, projectSlug, environmentSlug) == IsOwn(u.state, caller, projectSlug, environmentSlug);
    MachineGets(v, w, caller, projectSlug, environmentSlug, key, p, e);
    MachineGets(u, x, caller, projectSlug, environmentSlug, key, p, e);
    if !IsOwn(v.state, caller, projectSlug, environmentSlug) {
      OthersForbidden(ValueAt(v.state, Slot(p, e, key)), ProjectDataKey(v, p), SecretContext(Slot(p, e, key)));
      OthersForbidden(ValueAt(u.state, Slot(p, e, key)), ProjectDataKey(u, p), SecretContext(Slot(p, e, key)));
    }
  }

  lemma OthersForbidden(value: Option<Events.Sealed>, dataKey: Result<Key, VaultError>, context: Aead.Aad)
    ensures MachineReads(false, value, dataKey, context) == Err(Forbidden)
  {
  }

  /** Noninterference for listing, however differently the two vaults came by their secrets. */
  lemma MachineListsTheSame(v: VaultModel, u: VaultModel, w: World, x: World, caller: Caller, projectSlug: string,
                            environmentSlug: string)
    requires Alike(v, u, caller)
    requires AuditsSucceed(v, w, caller, "secret.list", ListTarget(projectSlug, environmentSlug))
    requires AuditsSucceed(u, x, caller, "secret.list", ListTarget(projectSlug, environmentSlug))
    ensures ListSecrets(v, w, caller, projectSlug, environmentSlug).1
         == ListSecrets(u, x, caller, projectSlug, environmentSlug).1
  {
    hide AuditsSucceed, UniqueUsers, UniqueTokens, UniqueProjects, UniqueEnvironments, OneEntryPerSlot, OwnNames,
         ProjectDataKey, ValueAt, ListSecrets, ListTarget, RevealAll, SecretsIn, SameSecretsIn;
    var p := if caller.projectId.Some? then caller.projectId.value else "";
    var e := if caller.environmentId.Some? then caller.environmentId.value else "";
    assert IsOwn(v.state, caller, projectSlug, environmentSlug) == IsOwn(u.state, caller, projectSlug, environmentSlug);
    MachineLists(v, w, caller, projectSlug, environmentSlug, p, e);
    MachineLists(u, x, caller, projectSlug, environmentSlug, p, e);
    if IsOwn(v.state, caller, projectSlug, environmentSlug) && ProjectDataKey(v, p).Ok? {
      ListingsReveal(ProjectDataKey(v, p).value, v.state, u.state, p, e);
    }
  }

  lemma CommitOfAudit(v: VaultModel, w: World, caller: Caller, action: string, target: string, outcome: string)
    ensures var after := RecordAudit(v, w, caller, action, target, outcome).0;
            after == v.(log := after.log, inFlight := after.inFlight)
  {
    hide LogFile.AppendOf, Events.ToBytes;
  }

  // A refusal changes nothing but the log.
  lemma RefusalKeepsState<T>(v: VaultModel, w: World, caller: Caller, action: string, target: string, outcome: string,
                             error: VaultError)
    ensures var (next, r) := Refused<T>(v, w, caller, action, target, outcome, error);
            next.state == v.state && r.Err?
            && (RecordAudit(v, w, caller, action, target, outcome).1.Ok? ==> r == Err(error))
  {
    hide RecordAudit;
    CommitOfAudit(v, w, caller, action, target, outcome);
  }

  /**
   Noninterference for writing: a machine is refused whatever it names, with an
   answer that depends only on what it sent, and the state is left as it was.
   */
  lemma MachineNeverSets(v: VaultModel, w: World, caller: Caller, projectSlug: string, environmentSlug: string,
                         key: string, value: seq<byte>, nonce: Option<Aead.Nonce>)
    requires v.rootKey.Some? && caller.kind.Machine?
    ensures var (next, r) := SetSecret(v, w, caller, projectSlug, environmentSlug, key, value, nonce);
            && next.state == v.state && r.Err?
            && (AuditsSucceed(v, w, caller, "secret.set", Target(projectSlug, environmentSlug, key)) ==>
                  r == Err(if !Validate.IsSecretKey(key) then Invalid("secret key") else Forbidden))
  {
    hide RecordAudit, Refused, Resolve, Target, ProjectDataKey, Commit, Granted, Aead.Seal, SecretContext,
         Validate.IsSecretKey;
    var target := Target(projectSlug, environmentSlug, key);
    RefusalKeepsState<(string, string)>(v, w, caller, "secret.set", target, "unknown", Forbidden);
    RefusalKeepsState<()>(v, w, caller, "secret.set", target, "denied", Forbidden);
  }

  /** Noninterference for deleting. */
  lemma MachineNeverDeletes(v: VaultModel, w: World, caller: Caller, projectSlug: string, environmentSlug: string,
                            key: string)
    requires v.rootKey.Some? && caller.kind.Machine?
    ensures var (next, r) := DeleteSecret(v, w, caller, projectSlug, environmentSlug, key);
            && next.state == v.state && r.Err?
            && (AuditsSucceed(v, w, caller, "secret.delete", Target(projectSlug, environmentSlug, key)) ==>
                  r == Err(Forbidden))
  {
    hide RecordAudit, Refused, Resolve, Target, SecretAt, Commit, Granted;
    var target := Target(projectSlug, environmentSlug, key);
    RefusalKeepsState<(string, string)>(v, w, caller, "secret.delete", target, "unknown", Forbidden);
    RefusalKeepsState<()>(v, w, caller, "secret.delete", target, "denied", Forbidden);
  }

  /** Noninterference for checking a write. */
  lemma MachineCheckIsRefused(v: VaultModel, caller: Caller, projectSlug: string, environmentSlug: string, key: string,
                              value: seq<byte>)
    requires v.rootKey.Some? && caller.kind.Machine?
    ensures CheckSecret(v, caller, projectSlug, environmentSlug, key, value)
         == Err(if !Validate.IsSecretKey(key) then Invalid("secret key")
                else if |value| > Aead.MAX_PLAINTEXT_LEN then ValueTooLarge(|value|, Aead.MAX_PLAINTEXT_LEN)
                else Forbidden)
  {
    hide Resolve, Validate.IsSecretKey;
  }

  // ----- what is written is what is read -----

  lemma CommitApplies(v: VaultModel, w: World, e: Event)
    ensures Commit(v, e, w).1.Ok? ==> Commit(v, e, w).0.state == Applied(v.state, e)
    ensures Commit(v, e, w).0.rootKey == v.rootKey
  {
    hide LogFile.AppendOf, Events.ToBytes, Applied;
  }

  // What a successful write came to.
  lemma SetUnfolds(v: VaultModel, w: World, caller: Caller, projectSlug: string, environmentSlug: string, key: string,
                   value: seq<byte>, nonce: Option<Aead.Nonce>)
    returns (slot: Slot, dataKey: Key, envelope: Aead.Envelope)
    requires SetSecret(v, w, caller, projectSlug, environmentSlug, key, value, nonce).1.Ok?
    ensures Resolve(v.state, projectSlug, environmentSlug) == Ok((slot.projectId, slot.environmentId))
    ensures slot.key == key
    ensures ProjectDataKey(v, slot.projectId) == Ok(dataKey)
    ensures Aead.Seal(dataKey, nonce, value, SecretContext(slot)) == Ok(envelope)
    ensures var after := SetSecret(v, w, caller, projectSlug, environmentSlug, key, value, nonce).0;
            && after.rootKey == v.rootKey
            && exists at :: after.state
                  == Applied(v.state, Events.SecretSet(slot.projectId, slot.environmentId, key,
                                                       Events.SealedOf(envelope), at))
  {
    hide RecordAudit, Resolve, Authorise, Target, ProjectDataKey, Commit, Aead.Seal, SecretContext,
         Validate.IsSecretKey, Applied;
    var target := Target(projectSlug, environmentSlug, key);
    RefusalIsError<(string, string)>(v, w, caller, "secret.set", target, "unknown");
    RefusalIsError<()>(v, w, caller, "secret.set", target, "denied");
    var pair := Resolve(v.state, projectSlug, environmentSlug).value;
    slot := Slot(pair.0, pair.1, key);
    dataKey := ProjectDataKey(v, pair.0).value;
    envelope := Aead.Seal(dataKey, nonce, value, SecretContext(slot)).value;
    var at := w.clock(v.log.count);
    var event := Events.SecretSet(pair.0, pair.1, key, Events.SealedOf(envelope), at);
    CommitApplies(v, w, event);
    CommitOfAudit(Commit(v, event, w).0, w, caller, "secret.set", target, "ok");
  }

  lemma RefusalIsError<T(!new)>(v: VaultModel, w: World, caller: Caller, action: string, target: string,
                                outcome: string)
    ensures forall error :: Refused<T>(v, w, caller, action, target, outcome, error).1.Err?
  {
    hide RecordAudit;
  }

  lemma SameProjects(s: State, u: State, id: string)
    requires s.projects == u.projects
    ensures ProjectById(s, id) == ProjectById(u, id)
  {
  }

  lemma RevealedByValue(s: State, u: State, rootKey: Key, slot: Slot)
    requires s.projects == u.projects && ValueAt(s, slot) == ValueAt(u, slot)
    ensures Revealed(s, rootKey, slot) == Revealed(u, rootKey, slot)
  {
    hide SecretAt, ProjectById, Aead.Open, Aead.UnwrapKey, ProjectKeyContext, SecretContext;
    SameProjects(s, u, slot.projectId);
  }

  lemma RevealedWith(v: VaultModel, s: State, slot: Slot, dataKey: Key, value: Events.Sealed)
    requires v.rootKey.Some? && ProjectDataKey(v, slot.projectId) == Ok(dataKey)
    requires s.projects == v.state.projects && ValueAt(s, slot) == Some(value)
    ensures Revealed(s, v.rootKey.value, slot)
         == Some(Aead.Open(dataKey, Events.EnvelopeOf(value), SecretContext(slot)))
  {
    hide SecretAt, ProjectById, Aead.Open, Aead.UnwrapKey, ProjectKeyContext, SecretContext;
    SameProjects(s, v.state, slot.projectId);
  }

  lemma WriteValues(s: State, slot: Slot, value: Events.Sealed, at: Timestamps.Timestamp, other: Slot)
    requires OneEntryPerSlot(s)
    ensures var u := Applied(s, Events.SecretSet(slot.projectId, slot.environmentId, slot.key, value, at));
            u.projects == s.projects && ValueAt(u, other) == if other == slot then Some(value) else ValueAt(s, other)
  {
    ApplyStores(s, Events.SecretSet(slot.projectId, slot.environmentId, slot.key, value, at), other);
    hide SecretAt, OneEntryPerSlot, Put;
  }

  // Applying a write changes what one slot reveals.
  lemma WriteReveals(v: VaultModel, slot: Slot, dataKey: Key, nonce: Option<Aead.Nonce>, value: seq<byte>,
                     envelope: Aead.Envelope, at: Timestamps.Timestamp, other: Slot)
    requires v.rootKey.Some? && OneEntryPerSlot(v.state) && ProjectDataKey(v, slot.projectId) == Ok(dataKey)
    requires Aead.Seal(dataKey, nonce, value, SecretContext(slot)) == Ok(envelope)
    ensures var s := Applied(v.state, Events.SecretSet(slot.projectId, slot.environmentId, slot.key,
                                                       Events.SealedOf(envelope), at));
            Revealed(s, v.rootKey.value, other)
            == if other == slot then Some(Ok(value)) else Revealed(v.state, v.rootKey.value, other)
  {
    hide Applied, Revealed, ProjectDataKey, OneEntryPerSlot, ValueAt, Aead.Seal, Aead.Open, SecretContext;
    var s := Applied(v.state,
                     Events.SecretSet(slot.projectId, slot.environmentId, slot.key, Events.SealedOf(envelope), at));
    WriteValues(v.state, slot, Events.SealedOf(envelope), at, other);
    if other == slot {
      SealedNeedsNonce(dataKey, nonce, value, SecretContext(slot));
      RevealedWith(v, s, slot, dataKey, Events.SealedOf(envelope));
      Aead.OpensExactly(dataKey, nonce.value, value, SecretContext(slot), dataKey, SecretContext(slot));
    } else {
      RevealedByValue(s, v.state, v.rootKey.value, other);
    }
  }

  lemma SealedNeedsNonce(key: Key, nonce: Option<Aead.Nonce>, value: seq<byte>, context: Aead.Aad)
    ensures Aead.Seal(key, nonce, value, context).Ok? ==> nonce.Some? && |value| <= Aead.MAX_PLAINTEXT_LEN
  {
  }

  /** A write that succeeds makes its slot decrypt to the value written, and leaves every other slot as it was. */
  lemma SetIsReadBack(v: VaultModel, w: World, caller: Caller, projectSlug: string, environmentSlug: string,
                      key: string, value: seq<byte>, nonce: Option<Aead.Nonce>, other: Slot)
    requires v.rootKey.Some? && Unique(v.state)
    requires SetSecret(v, w, caller, projectSlug, environmentSlug, key, value, nonce).1.Ok?
    ensures Resolve(v.state, projectSlug, environmentSlug).Ok?
    ensures var pair := Resolve(v.state, projectSlug, environmentSlug).value;
            Revealed(SetSecret(v, w, caller, projectSlug, environmentSlug, key, value, nonce).0.state,
                     v.rootKey.value, other)
            == if other == Slot(pair.0, pair.1, key) then Some(Ok(value)) else Revealed(v.state, v.rootKey.value, other)
  {
    hide SetSecret, Revealed, Applied, Resolve, ProjectDataKey, Aead.Seal, SecretContext, UniqueUsers, UniqueTokens,
         UniqueProjects, UniqueEnvironments, OneEntryPerSlot;
    var slot, dataKey, envelope := SetUnfolds(v, w, caller, projectSlug, environmentSlug, key, value, nonce);
    var after := SetSecret(v, w, caller, projectSlug, environmentSlug, key, value, nonce).0;
    var at :| after.state
        == Applied(v.state, Events.SecretSet(slot.projectId, slot.environmentId, key, Events.SealedOf(envelope), at));
    WriteReveals(v, slot, dataKey, nonce, value, envelope, at, other);
  }

  /** A read that succeeds returns what its slot decrypts to. */
  lemma GetIsRevealed(v: VaultModel, w: World, caller: Caller, projectSlug: string, environmentSlug: string,
                      key: string)
    requires v.rootKey.Some? && GetSecret(v, w, caller, projectSlug, environmentSlug, key).1.Ok?
    ensures Resolve(v.state, projectSlug, environmentSlug).Ok?
    ensures var pair := Resolve(v.state, projectSlug, environmentSlug).value;
            Revealed(v.state, v.rootKey.value, Slot(pair.0, pair.1, key))
            == Some(Ok(GetSecret(v, w, caller, projectSlug, environmentSlug, key).1.value))
  {
    hide RecordAudit, Authorise, SecretAt, ProjectById, ProjectBySlug, EnvironmentBySlug, Aead.Open, Aead.UnwrapKey,
         ProjectKeyContext, SecretContext, Target;
  }

  // ----- what a listing holds -----

  lemma {:induction false} RevealAllIs(dataKey: Key, stored: seq<Secret>)
    ensures RevealAll(dataKey, stored).Ok?
       <==> forall i :: 0 <= i < |stored| ==>
              Aead.Open(dataKey, Events.EnvelopeOf(stored[i].value), SecretContext(stored[i].slot)).Ok?
    ensures RevealAll(dataKey, stored).Ok? ==>
              var r := RevealAll(dataKey, stored).value;
              && |r| == |stored|
              && forall i :: 0 <= i < |stored| ==>
                   && r[i].0 == stored[i].slot.key
                   && Aead.Open(dataKey, Events.EnvelopeOf(stored[i].value), SecretContext(stored[i].slot))
                      == Ok(r[i].1)
    decreases |stored|
  {
    hide Aead.Open, SecretContext;
    if stored != [] {
      RevealAllIs(dataKey, stored[1..]);
      assert forall i :: 1 <= i < |stored| ==> stored[i] == stored[1..][i - 1];
    }
  }

  // The secrets of one environment, and what each of their slots decrypts to.
  lemma StoredReveals(v: VaultModel, projectId: string, environmentId: string, dataKey: Key, x: Secret)
    requires v.rootKey.Some? && OneEntryPerSlot(v.state) && ProjectDataKey(v, projectId) == Ok(dataKey)
    requires x in SecretsIn(v.state, projectId, environmentId)
    ensures x.slot == Slot(projectId, environmentId, x.slot.key)
    ensures Revealed(v.state, v.rootKey.value, x.slot)
         == Some(Aead.Open(dataKey, Events.EnvelopeOf(x.value), SecretContext(x.slot)))
  {
    hide SecretsIn, SecretAt, ProjectDataKey, Aead.Open, SecretContext, SortedStrictly, OneEntryPerSlot, Revealed;
    ListingIsSortedAndComplete(v.state, projectId, environmentId);
    RevealedWith(v, v.state, x.slot, dataKey, x.value);
  }

  lemma RevealedIsStored(v: VaultModel, projectId: string, environmentId: string, key: string) returns (x: Secret)
    requires v.rootKey.Some? && OneEntryPerSlot(v.state)
    requires Revealed(v.state, v.rootKey.value, Slot(projectId, environmentId, key)).Some?
    ensures x in SecretsIn(v.state, projectId, environmentId) && x.slot == Slot(projectId, environmentId, key)
  {
    hide SecretsIn, SecretAt, ProjectById, Aead.UnwrapKey, Aead.Open, ProjectKeyContext, SecretContext, SortedStrictly,
         OneEntryPerSlot;
    ListingIsSortedAndComplete(v.state, projectId, environmentId);
    x := SecretAt(v.state, Slot(projectId, environmentId, key)).value;
    FoundIsAt(v.state, Slot(projectId, environmentId, key));
  }

  // A listing whose keys are strictly ascending, and that has exactly what the environment's slots decrypt to.
  ghost predicate Lists(listing: seq<(string, seq<byte>)>, s: State, rootKey: Key, projectId: string,
                        environmentId: string) {
    && (forall i, j :: 0 <= i < j < |listing| ==> Timestamps.TextBefore(listing[i].0, listing[j].0))
    && forall key, plain :: (key, plain) in listing
                       <==> Revealed(s, rootKey, Slot(projectId, environmentId, key)) == Some(Ok(plain))
  }

  lemma RevealAllLists(v: VaultModel, projectId: string, environmentId: string, dataKey: Key)
    requires v.rootKey.Some? && OneEntryPerSlot(v.state) && ProjectDataKey(v, projectId) == Ok(dataKey)
    ensures var r := RevealAll(dataKey, SecretsIn(v.state, projectId, environmentId));
            && (r.Ok? <==> forall key :: var x := Revealed(v.state, v.rootKey.value,
                                                           Slot(projectId, environmentId, key));
                                         x.Some? ==> x.value.Ok?)
            && (r.Ok? ==> Lists(r.value, v.state, v.rootKey.value, projectId, environmentId))
  {
    hide SecretsIn, SecretAt, ProjectDataKey, Aead.Open, SecretContext, OneEntryPerSlot, Revealed, RevealAll,
         Timestamps.TextBefore;
    var stored := SecretsIn(v.state, projectId, environmentId);
    var r := RevealAll(dataKey, stored);
    RevealAllIs(dataKey, stored);
    ListingIsSortedAndComplete(v.state, projectId, environmentId);
    forall i | 0 <= i < |stored|
      ensures stored[i].slot == Slot(projectId, environmentId, stored[i].slot.key)
      ensures Revealed(v.state, v.rootKey.value, stored[i].slot)
           == Some(Aead.Open(dataKey, Events.EnvelopeOf(stored[i].value), SecretContext(stored[i].slot)))
    {
      StoredReveals(v, projectId, environmentId, dataKey, stored[i]);
    }
    forall key | Revealed(v.state, v.rootKey.value, Slot(projectId, environmentId, key)).Some?
      ensures exists i :: 0 <= i < |stored| && stored[i].slot == Slot(projectId, environmentId, key)
    {
      var x := RevealedIsStored(v, projectId, environmentId, key);
    }
    if r.Ok? {
      forall key, plain
        ensures (key, plain) in r.value
           <==> Revealed(v.state, v.rootKey.value, Slot(projectId, environmentId, key)) == Some(Ok(plain))
      {
        if Revealed(v.state, v.rootKey.value, Slot(projectId, environmentId, key)) == Some(Ok(plain)) {
          var i :| 0 <= i < |stored| && stored[i].slot == Slot(projectId, environmentId, key);
          assert r.value[i] == (key, plain);
        }
      }
    }
  }

  // What a listing that is permitted comes to.
  lemma ListIs(v: VaultModel, w: World, caller: Caller, projectSlug: string, environmentSlug: string,
               names: (string, string), dataKey: Key)
    requires v.rootKey.Some? && Resolve(v.state, projectSlug, environmentSlug) == Ok(names)
    requires Authorise(caller, ReadSecrets, names.0, names.1).Ok? && ProjectDataKey(v, names.0) == Ok(dataKey)
    ensures var r := RevealAll(dataKey, SecretsIn(v.state, names.0, names.1));
            ListSecrets(v, w, caller, projectSlug, environmentSlug)
            == match r
               case Err(e) => (v, Err(e))
               case Ok(revealed) =>
                 Granted(v, w, caller, "secret.list", ListTarget(projectSlug, environmentSlug), revealed)
  {
    hide RecordAudit, Resolve, Authorise, ProjectDataKey, RevealAll, SecretsIn, ListTarget, Granted;
  }

  lemma ListNeeds(v: VaultModel, w: World, caller: Caller, projectSlug: string, environmentSlug: string)
    requires ListSecrets(v, w, caller, projectSlug, environmentSlug).1.Ok?
    ensures v.rootKey.Some? && Resolve(v.state, projectSlug, environmentSlug).Ok?
    ensures var names := Resolve(v.state, projectSlug, environmentSlug).value;
            Authorise(caller, ReadSecrets, names.0, names.1).Ok? && ProjectDataKey(v, names.0).Ok?
  {
    hide RecordAudit, Resolve, Authorise, ProjectDataKey, RevealAll, SecretsIn, ListTarget;
  }

  lemma GrantIs<T>(v: VaultModel, w: World, caller: Caller, action: string, target: string, value: T)
    ensures var r := Granted(v, w, caller, action, target, value).1;
            && (r.Ok? <==> RecordAudit(v, w, caller, action, target, "ok").1.Ok?) && (r.Ok? ==> r.value == value)
  {
    hide RecordAudit;
  }

  /**
   A listing holds what is there: its keys strictly ascending, and a key with a
   value if and only if that slot of the environment named decrypts to it.
   */
  lemma ListIsRevealed(v: VaultModel, w: World, caller: Caller, projectSlug: string, environmentSlug: string)
    requires Unique(v.state) && ListSecrets(v, w, caller, projectSlug, environmentSlug).1.Ok?
    ensures v.rootKey.Some? && Resolve(v.state, projectSlug, environmentSlug).Ok?
    ensures var names := Resolve(v.state, projectSlug, environmentSlug).value;
            Lists(ListSecrets(v, w, caller, projectSlug, environmentSlug).1.value, v.state, v.rootKey.value, names.0,
                  names.1)
  {
    hide ListSecrets, Resolve, Authorise, ProjectDataKey, RevealAll, SecretsIn, ListTarget, Lists, RecordAudit, Granted,
         UniqueUsers, UniqueTokens, UniqueProjects, UniqueEnvironments, OneEntryPerSlot;
    ListNeeds(v, w, caller, projectSlug, environmentSlug);
    var names := Resolve(v.state, projectSlug, environmentSlug).value;
    var dataKey := ProjectDataKey(v, names.0).value;
    ListIs(v, w, caller, projectSlug, environmentSlug, names, dataKey);
    RevealAllLists(v, names.0, names.1, dataKey);
    var r := RevealAll(dataKey, SecretsIn(v.state, names.0, names.1));
    if r.Ok? {
      GrantIs(v, w, caller, "secret.list", ListTarget(projectSlug, environmentSlug), r.value);
    }
  }

  /**
   And one that is permitted is answered, once its record can be made, unless
   some slot of that environment holds what does not open.
   */
  lemma ListSucceedsExactly(v: VaultModel, w: World, caller: Caller, projectSlug: string, environmentSlug: string,
                            names: (string, string))
    requires v.rootKey.Some? && Unique(v.state) && Resolve(v.state, projectSlug, environmentSlug) == Ok(names)
    requires Authorise(caller, ReadSecrets, names.0, names.1).Ok? && ProjectDataKey(v, names.0).Ok?
    requires RecordAudit(v, w, caller, "secret.list", ListTarget(projectSlug, environmentSlug), "ok").1.Ok?
    ensures ListSecrets(v, w, caller, projectSlug, environmentSlug).1.Ok?
       <==> forall key :: var x := Revealed(v.state, v.rootKey.value, Slot(names.0, names.1, key));
                          x.Some? ==> x.value.Ok?
  {
    hide ListSecrets, Resolve, Authorise, ProjectDataKey, RevealAll, SecretsIn, ListTarget, Lists, RecordAudit, Granted,
         Revealed, UniqueUsers, UniqueTokens, UniqueProjects, UniqueEnvironments, OneEntryPerSlot;
    var dataKey := ProjectDataKey(v, names.0).value;
    ListIs(v, w, caller, projectSlug, environmentSlug, names, dataKey);
    RevealAllLists(v, names.0, names.1, dataKey);
    var r := RevealAll(dataKey, SecretsIn(v.state, names.0, names.1));
    if r.Ok? {
      GrantIs(v, w, caller, "secret.list", ListTarget(projectSlug, environmentSlug), r.value);
    }
  }

  /** A read that is permitted, and whose record can be made, is answered with just what the slot decrypts to. */
  lemma GetAnswersExactly(v: VaultModel, w: World, caller: Caller, projectSlug: string, environmentSlug: string,
                          key: string, names: (string, string))
    requires v.rootKey.Some? && Resolve(v.state, projectSlug, environmentSlug) == Ok(names)
    requires Authorise(caller, ReadSecrets, names.0, names.1).Ok? && ProjectDataKey(v, names.0).Ok?
    requires RecordAudit(v, w, caller, "secret.read", Target(projectSlug, environmentSlug, key), "ok").1.Ok?
    requires RecordAudit(v, w, caller, "secret.read", Target(projectSlug, environmentSlug, key), "missing").1.Ok?
    ensures GetSecret(v, w, caller, projectSlug, environmentSlug, key).1
         == match Revealed(v.state, v.rootKey.value, Slot(names.0, names.1, key))
            case None => Err(NotFound("secret"))
            case Some(Err(_)) => Err(CryptoFailed)
            case Some(Ok(plain)) => Ok(plain)
  {
    hide RecordAudit, Resolve, Authorise, Aead.Open, SecretContext, Target, SecretAt, ProjectById, Aead.UnwrapKey,
         ProjectKeyContext;
  }

  // ----- sealed data out of its place -----

  predicate SlotFits(slot: Slot) {
    Aead.FitsInMemory(slot.projectId) && Aead.FitsInMemory(slot.environmentId) && Aead.FitsInMemory(slot.key)
  }

  /**
   A sealed value belongs to its slot. Whatever puts it in the store under
   another one, it decrypts only where it was sealed for, under the key it was
   sealed with.
   */
  lemma MovedSecretRefused(v: VaultModel, slot: Slot, other: Slot, dataKey: Key, otherKey: Key,
                           nonce: Option<Aead.Nonce>, value: seq<byte>, envelope: Aead.Envelope)
    requires v.rootKey.Some? && ProjectDataKey(v, other.projectId) == Ok(otherKey)
    requires Aead.Seal(dataKey, nonce, value, SecretContext(slot)) == Ok(envelope)
    requires ValueAt(v.state, other) == Some(Events.SealedOf(envelope)) && SlotFits(slot) && SlotFits(other)
    ensures Revealed(v.state, v.rootKey.value, other)
         == Some(if other == slot && otherKey == dataKey then Ok(value) else Err(Aead.Decrypt))
  {
    hide Revealed, ProjectDataKey, ValueAt, Aead.Seal, Aead.Open, Aead.FitsInMemory, Aead.SecretSlot;
    SealedNeedsNonce(dataKey, nonce, value, SecretContext(slot));
    RevealedWith(v, v.state, other, otherKey, Events.SealedOf(envelope));
    Aead.OpensExactly(dataKey, nonce.value, value, SecretContext(slot), otherKey, SecretContext(other));
    Aead.SlotsAreSeparate(slot.projectId, slot.environmentId, slot.key, other.projectId, other.environmentId, other.key,
                          slot.key, slot.key);
  }

  /** A wrapped data key belongs to its project in the same way. */
  lemma MovedKeyRefused(s: State, rootKey: Key, id: string, wrappingKey: Key, owner: string,
                        nonce: Option<Aead.Nonce>, dataKey: Key, wrapped: Aead.Envelope)
    requires ProjectById(s, id).Some? && ProjectById(s, id).value.dataKey == Events.SealedOf(wrapped)
    requires Aead.Wrap(wrappingKey, nonce, dataKey, ProjectKeyContext(owner)) == Ok(wrapped)
    requires Aead.FitsInMemory(id) && Aead.FitsInMemory(owner)
    ensures DataKeyIn(s, Some(rootKey), id)
         == if id == owner && rootKey == wrappingKey then Ok(dataKey) else Err(CryptoFailed)
  {
    hide ProjectById, Aead.Seal, Aead.UnwrapKey, Aead.FitsInMemory, Aead.KeyWrap;
    SealedNeedsNonce(wrappingKey, nonce, dataKey, ProjectKeyContext(owner));
    Aead.UnwrapUndoesWrap(wrappingKey, nonce.value, dataKey, ProjectKeyContext(owner), rootKey, ProjectKeyContext(id));
    var purpose := "project-dek";
    Aead.ShortTextFits(purpose);
    Aead.KeyWrapsAreSeparate(purpose, owner, purpose, id);
  }
}
