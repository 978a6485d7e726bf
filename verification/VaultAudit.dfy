/** The audit record of each access to a secret, in the file before the answer is given. */
module VaultAudit {
  import opened Wrappers
  import opened Bytes
  import opened StoreState
  import opened VaultSpec
  import opened VaultErrors
  import opened VaultSafety
  import opened VaultOps
  import opened VaultAccess
  import Aead
  import Events
  import LogFile
  import Text
  import Utf8
  import Validate

  // ----- what the file gains -----

  // Read back with the root key, the file holds these events more than it did.
  predicate FileGains(v: VaultModel, after: VaultModel, extra: seq<Event>) {
    && v.rootKey.Some? && after.rootKey == v.rootKey
    && var before := History(v.log.file, v.rootKey.value);
       before.Ok? && History(after.log.file, v.rootKey.value) == Ok(before.value + extra)
  }

  // The file gains `done` and then the record of this attempt.
  ghost predicate Recorded(v: VaultModel, after: VaultModel, done: seq<Event>, caller: Caller, action: string,
                           target: string, outcome: string) {
    exists at :: FileGains(v, after, done + [Events.Audited(at, Actor(caller), action, target, outcome)])
  }

  // How an answer is told in its record.
  predicate Tells<T>(r: Result<T, VaultError>, outcome: string) {
    match r
    case Ok(_) => outcome == "ok"
    case Err(NotFound(what)) => outcome == if what == "secret" then "missing" else "unknown"
    case Err(Forbidden) => outcome == "denied" || outcome == "unknown"
    case _ => false
  }

  // An answer about the secret itself, rather than about the request or the disk.
  predicate Answered<T>(r: Result<T, VaultError>) {
    r.Ok? || r.error.NotFound? || r.error.Forbidden?
  }

  lemma HistoryIs(v: VaultModel, t: Truth)
    requires Inv(v, t)
    ensures History(v.log.file, t.rootKey) == Ok(t.events)
    ensures v.rootKey.Some? ==> v.rootKey == Some(t.rootKey)
  {
    hide History, Filed, LogSafety.Sound, Unique, Hierarchy, KeysOpen, Fold;
    FiledReplays(v.log.file, t);
  }

  lemma GainsEvents(v: VaultModel, t: Truth, after: VaultModel, next: Truth, extra: seq<Event>)
    requires Inv(v, t) && Inv(after, next) && v.rootKey.Some? && after.rootKey == v.rootKey
    requires next == t.(events := t.events + extra)
    ensures FileGains(v, after, extra)
  {
    hide Inv, History;
    HistoryIs(v, t);
    HistoryIs(after, next);
  }

  // A file that did not change gained nothing.
  lemma NothingGained(v: VaultModel, extra: seq<Event>)
    ensures FileGains(v, v, extra) ==> extra == []
  {
    hide History;
    if FileGains(v, v, extra) {
      var before := History(v.log.file, v.rootKey.value).value;
      assert |before + extra| == |before|;
    }
  }

  lemma AuditIsCommit(v: VaultModel, rootKey: Key, w: World, caller: Caller, action: string, target: string,
                      outcome: string)
    ensures var e := AuditEvent(v, w, caller, action, target, outcome);
            && e == Events.Audited(w.clock(v.log.count), Actor(caller), action, target, outcome)
            && RecordAudit(v, w, caller, action, target, outcome) == Commit(v, e, w) && Admissible(v.state, rootKey, e)
  {
    hide Commit, Actor;
  }

  // What a commit adds to the file, whatever it reports.
  function Left(v: VaultModel, w: World, e: Event): seq<Event> {
    if CommitLands(v, e, w) then [e] else []
  }

  // What a change and the record after it add: the record is tried only if the change was done.
  function ChangeLeft(v: VaultModel, w: World, e: Event, caller: Caller, action: string, target: string): seq<Event> {
    var between := Commit(v, e, w).0;
    if Commit(v, e, w).1.Err? then Left(v, w, e)
    else [e] + Left(between, w, AuditEvent(between, w, caller, action, target, "ok"))
  }

  // A change and then, if it was done, its record.
  function Changed(v: VaultModel, w: World, e: Event, caller: Caller, action: string, target: string)
    : (VaultModel, Result<(), VaultError>)
  {
    match Commit(v, e, w)
    case (next, Err(error)) => (next, Err(error))
    case (next, Ok(_)) => Granted(next, w, caller, action, target, ())
  }

  lemma CommitGains(v: VaultModel, t: Truth, w: World, e: Event) returns (next: Truth)
    requires Inv(v, t) && v.rootKey.Some? && (!v.log.broken ==> Admissible(v.state, t.rootKey, e))
    ensures next == t.(events := t.events + Left(v, w, e)) && Inv(Commit(v, e, w).0, next)
    ensures Commit(v, e, w).0.rootKey == v.rootKey && (Commit(v, e, w).1.Ok? ==> Left(v, w, e) == [e])
  {
    hide Commit, CommitLands, Inv, Admissible;
    next := CommitKeeps(v, t, e, w);
    assert t.events + [] == t.events;
  }

  lemma AuditGains(v: VaultModel, t: Truth, w: World, caller: Caller, action: string, target: string, outcome: string)
    returns (next: Truth)
    requires Inv(v, t) && v.rootKey.Some?
    ensures var after := RecordAudit(v, w, caller, action, target, outcome).0;
            && Inv(after, next) && FileGains(v, after, Left(v, w, AuditEvent(v, w, caller, action, target, outcome)))
            && (RecordAudit(v, w, caller, action, target, outcome).1.Ok? ==>
                  Recorded(v, after, [], caller, action, target, outcome))
  {
    hide Commit, Inv, Admissible, Actor, RecordAudit, AuditEvent, FileGains, Left;
    var e := AuditEvent(v, w, caller, action, target, outcome);
    AuditIsCommit(v, t.rootKey, w, caller, action, target, outcome);
    next := CommitGains(v, t, w, e);
    GainsEvents(v, t, Commit(v, e, w).0, next, Left(v, w, e));
    assert [] + [e] == [e];
  }

  lemma ChangeGains(v: VaultModel, t: Truth, w: World, e: Event, caller: Caller, action: string, target: string)
    returns (next: Truth)
    requires Inv(v, t) && v.rootKey.Some? && (!v.log.broken ==> Admissible(v.state, t.rootKey, e))
    ensures var (after, r) := Changed(v, w, e, caller, action, target);
            && Inv(after, next) && FileGains(v, after, ChangeLeft(v, w, e, caller, action, target))
            && (r.Ok? ==> Recorded(v, after, [e], caller, action, target, "ok"))
  {
    hide Commit, Inv, Admissible, Actor, RecordAudit, AuditEvent, FileGains, Left;
    var between := Commit(v, e, w).0;
    next := CommitGains(v, t, w, e);
    if Commit(v, e, w).1.Ok? {
      var audit := AuditEvent(between, w, caller, action, target, "ok");
      AuditIsCommit(between, t.rootKey, w, caller, action, target, "ok");
      var done := next;
      next := CommitGains(between, done, w, audit);
      assert t.events + [e] + Left(between, w, audit) == t.events + ([e] + Left(between, w, audit));
      GainsEvents(v, t, Commit(between, audit, w).0, next, [e] + Left(between, w, audit));
    } else {
      GainsEvents(v, t, between, next, Left(v, w, e));
    }
  }

  // ----- what each answer comes from -----

  lemma RecordErrors(v: VaultModel, w: World, caller: Caller, action: string, target: string, outcome: string)
    requires v.rootKey.Some?
    ensures RecordAudit(v, w, caller, action, target, outcome).1.Err? ==>
              RecordAudit(v, w, caller, action, target, outcome).1.error.StoreFailed?
  {
    hide LogFile.AppendOf, Events.ToBytes, AuditEvent, Applied;
  }

  lemma CommitErrors(v: VaultModel, w: World, e: Event)
    requires v.rootKey.Some?
    ensures Commit(v, e, w).1.Err? ==> Commit(v, e, w).1.error.StoreFailed?
    ensures Commit(v, e, w).0.rootKey == v.rootKey
  {
    hide LogFile.AppendOf, Events.ToBytes, Applied;
  }

  lemma RefusedIs<T>(v: VaultModel, w: World, caller: Caller, action: string, target: string, outcome: string,
                     error: VaultError)
    requires v.rootKey.Some? && !error.StoreFailed?
    ensures var (next, r) := Refused<T>(v, w, caller, action, target, outcome, error);
            && r.Err? && next == RecordAudit(v, w, caller, action, target, outcome).0
            && (!r.error.StoreFailed? ==> r.error == error && RecordAudit(v, w, caller, action, target, outcome).1.Ok?)
            && (r.error.StoreFailed? ==> RecordAudit(v, w, caller, action, target, outcome).1 == Err(r.error))
  {
    hide RecordAudit;
    RecordErrors(v, w, caller, action, target, outcome);
  }

  lemma ResolveErrors(s: State, caller: Caller, projectSlug: string, environmentSlug: string)
    ensures ResolveFor(s, caller, projectSlug, environmentSlug).Err? ==>
              var e := ResolveFor(s, caller, projectSlug, environmentSlug).error;
              e == Forbidden || e == NotFound("project") || e == NotFound("environment")
    ensures ResolveFor(s, caller, projectSlug, environmentSlug).Ok? <==> Resolve(s, projectSlug, environmentSlug).Ok?
    ensures ResolveFor(s, caller, projectSlug, environmentSlug).Ok? ==>
              ResolveFor(s, caller, projectSlug, environmentSlug) == Resolve(s, projectSlug, environmentSlug)
  {
    hide ProjectBySlug, EnvironmentBySlug;
  }

  lemma AuthoriseErrors(caller: Caller, capability: Capability, projectId: string, environmentId: string)
    ensures Authorise(caller, capability, projectId, environmentId).Err? ==>
              Authorise(caller, capability, projectId, environmentId) == Err(Forbidden)
  {
  }

  // A project that was resolved is there, so its key fails to open or opens.
  lemma KeyErrors(v: VaultModel, caller: Caller, projectSlug: string, environmentSlug: string)
    requires v.rootKey.Some? && ResolveFor(v.state, caller, projectSlug, environmentSlug).Ok?
    ensures var key := ProjectDataKey(v, ResolveFor(v.state, caller, projectSlug, environmentSlug).value.0);
            key.Ok? || key == Err(CryptoFailed)
  {
    hide Resolve, ProjectById, Aead.UnwrapKey, ProjectKeyContext;
    ResolveErrors(v.state, caller, projectSlug, environmentSlug);
    ResolvedIsThere(v.state, projectSlug, environmentSlug);
  }

  lemma NamesOfThings()
    ensures "secret" != "project" && "secret" != "environment"
  {
  }

  lemma GetIsTold(v: VaultModel, w: World, caller: Caller, projectSlug: string, environmentSlug: string, key: string)
    returns (outcome: string)
    requires v.rootKey.Some?
    ensures var (next, r) := GetSecret(v, w, caller, projectSlug, environmentSlug, key);
            var target := Target(projectSlug, environmentSlug, key);
            Answered(r) ==>
              && Tells(r, outcome) && next == RecordAudit(v, w, caller, "secret.read", target, outcome).0
              && RecordAudit(v, w, caller, "secret.read", target, outcome).1.Ok?
  {
    hide RecordAudit, ResolveFor, Authorise, SecretAt, Aead.Open, SecretContext, Target, Refused, ProjectDataKey;
    NamesOfThings();
    var target := Target(projectSlug, environmentSlug, key);
    ResolveErrors(v.state, caller, projectSlug, environmentSlug);
    outcome := "unknown";
    var pair := ResolveFor(v.state, caller, projectSlug, environmentSlug);
    if pair.Err? {
      RefusedIs<(string, string)>(v, w, caller, "secret.read", target, "unknown", pair.error);
    } else {
      var (projectId, environmentId) := pair.value;
      AuthoriseErrors(caller, ReadSecrets, projectId, environmentId);
      KeyErrors(v, caller, projectSlug, environmentSlug);
      RecordErrors(v, w, caller, "secret.read", target, "ok");
      if Authorise(caller, ReadSecrets, projectId, environmentId).Err? {
        outcome := "denied";
        RefusedIs<seq<byte>>(v, w, caller, "secret.read", target, "denied", Forbidden);
      } else if SecretAt(v.state, Slot(projectId, environmentId, key)).None? {
        outcome := "missing";
        RefusedIs<seq<byte>>(v, w, caller, "secret.read", target, "missing", NotFound("secret"));
      } else {
        outcome := "ok";
      }
    }
  }

  lemma ListIsTold(v: VaultModel, w: World, caller: Caller, projectSlug: string, environmentSlug: string)
    returns (outcome: string)
    requires v.rootKey.Some?
    ensures var (next, r) := ListSecrets(v, w, caller, projectSlug, environmentSlug);
            var target := ListTarget(projectSlug, environmentSlug);
            Answered(r) ==>
              && Tells(r, outcome) && next == RecordAudit(v, w, caller, "secret.list", target, outcome).0
              && RecordAudit(v, w, caller, "secret.list", target, outcome).1.Ok?
  {
    hide RecordAudit, ResolveFor, Authorise, SecretsIn, RevealAll, ListTarget, Refused, ProjectDataKey;
    NamesOfThings();
    var target := ListTarget(projectSlug, environmentSlug);
    ResolveErrors(v.state, caller, projectSlug, environmentSlug);
    outcome := "unknown";
    var pair := ResolveFor(v.state, caller, projectSlug, environmentSlug);
    if pair.Err? {
      RefusedIs<(string, string)>(v, w, caller, "secret.list", target, "unknown", pair.error);
    } else {
      var (projectId, environmentId) := pair.value;
      AuthoriseErrors(caller, ReadSecrets, projectId, environmentId);
      KeyErrors(v, caller, projectSlug, environmentSlug);
      RecordErrors(v, w, caller, "secret.list", target, "ok");
      if Authorise(caller, ReadSecrets, projectId, environmentId).Err? {
        outcome := "denied";
        RefusedIs<seq<(string, seq<byte>)>>(v, w, caller, "secret.list", target, "denied", Forbidden);
      } else {
        outcome := "ok";
        if ProjectDataKey(v, projectId).Ok? {
          RevealErrors(ProjectDataKey(v, projectId).value, SecretsIn(v.state, projectId, environmentId));
        }
      }
    }
  }

  lemma {:induction false} RevealErrors(dataKey: Key, stored: seq<Secret>)
    ensures RevealAll(dataKey, stored).Err? ==> RevealAll(dataKey, stored) == Err(CryptoFailed)
    decreases |stored|
  {
    hide Aead.Open, SecretContext;
    if stored != [] {
      RevealErrors(dataKey, stored[1..]);
    }
  }

  // The names do not resolve for this caller, or the caller may not write there.
  predicate Refuses(s: State, caller: Caller, projectSlug: string, environmentSlug: string) {
    match ResolveFor(s, caller, projectSlug, environmentSlug)
    case Err(_) => true
    case Ok((projectId, environmentId)) => Authorise(caller, WriteSecrets, projectId, environmentId).Err?
  }

  // An answer about the secret, or a failure of the store.
  predicate Ended<T>(r: Result<T, VaultError>) {
    Answered(r) || r.error.StoreFailed?
  }

  // A refusal and its record, if that could be made.
  predicate RefusedAs(v: VaultModel, w: World, caller: Caller, action: string, target: string, outcome: string,
                      after: VaultModel, r: Result<(), VaultError>) {
    && after == RecordAudit(v, w, caller, action, target, outcome).0
    && (if Answered(r) then r.Err? && Tells(r, outcome) && RecordAudit(v, w, caller, action, target, outcome).1.Ok?
        else r == RecordAudit(v, w, caller, action, target, outcome).1)
  }

  lemma SetIsTold(v: VaultModel, w: World, caller: Caller, projectSlug: string, environmentSlug: string, key: string,
                  value: seq<byte>, nonce: Option<Aead.Nonce>) returns (outcome: string, change: Option<Event>)
    requires v.rootKey.Some?
    ensures var (after, r) := SetSecret(v, w, caller, projectSlug, environmentSlug, key, value, nonce);
            var target := Target(projectSlug, environmentSlug, key);
            Ended(r) ==>
              && (change.None? <==> Refuses(v.state, caller, projectSlug, environmentSlug))
              && match change
                 case None => RefusedAs(v, w, caller, "secret.set", target, outcome, after, r)
                 case Some(e) =>
                   && e.SecretSet? && Writes(e) == Named(v.state, projectSlug, environmentSlug, key)
                   && (after, r) == Changed(v, w, e, caller, "secret.set", target)
                   && (Answered(r) ==> r.Ok?)
  {
    hide RecordAudit, ResolveFor, Resolve, Authorise, Aead.Seal, SecretContext, Target, Refused, ProjectDataKey, Commit,
         Validate.IsSecretKey;
    NamesOfThings();
    var target := Target(projectSlug, environmentSlug, key);
    ResolveErrors(v.state, caller, projectSlug, environmentSlug);
    outcome, change := "unknown", None;
    var pair := ResolveFor(v.state, caller, projectSlug, environmentSlug);
    if pair.Err? {
      RefusedIs<(string, string)>(v, w, caller, "secret.set", target, "unknown", pair.error);
    } else {
      var (projectId, environmentId) := pair.value;
      AuthoriseErrors(caller, WriteSecrets, projectId, environmentId);
      KeyErrors(v, caller, projectSlug, environmentSlug);
      if Authorise(caller, WriteSecrets, projectId, environmentId).Err? {
        outcome := "denied";
        RefusedIs<()>(v, w, caller, "secret.set", target, "denied", Forbidden);
      } else if ProjectDataKey(v, projectId).Ok? {
        var dataKey := ProjectDataKey(v, projectId).value;
        var envelope := Aead.Seal(dataKey, nonce, value, SecretContext(Slot(projectId, environmentId, key)));
        if envelope.Ok? {
          var e := Events.SecretSet(projectId, environmentId, key, Events.SealedOf(envelope.value),
                                    w.clock(v.log.count));
          CommitErrors(v, w, e);
          RecordErrors(Commit(v, e, w).0, w, caller, "secret.set", target, "ok");
          outcome, change := "ok", Some(e);
        }
      }
    }
  }

  // The names resolve, the caller may delete there, and there is nothing to delete.
  predicate NothingToDelete(s: State, caller: Caller, projectSlug: string, environmentSlug: string, key: string) {
    match Resolve(s, projectSlug, environmentSlug)
    case Err(_) => false
    case Ok((projectId, environmentId)) =>
      Authorise(caller, WriteSecrets, projectId, environmentId).Ok?
      && SecretAt(s, Slot(projectId, environmentId, key)).None?
  }

  lemma DeleteIsTold(v: VaultModel, w: World, caller: Caller, projectSlug: string, environmentSlug: string, key: string)
    returns (outcome: string, change: Option<Event>)
    requires v.rootKey.Some?
    ensures NothingToDelete(v.state, caller, projectSlug, environmentSlug, key) ==>
              DeleteSecret(v, w, caller, projectSlug, environmentSlug, key) == (v, Err(NotFound("secret")))
    ensures var (after, r) := DeleteSecret(v, w, caller, projectSlug, environmentSlug, key);
            var target := Target(projectSlug, environmentSlug, key);
            Ended(r) && !NothingToDelete(v.state, caller, projectSlug, environmentSlug, key) ==>
              && (change.None? <==> Refuses(v.state, caller, projectSlug, environmentSlug))
              && match change
                 case None => RefusedAs(v, w, caller, "secret.delete", target, outcome, after, r)
                 case Some(e) =>
                   && e.SecretDeleted? && Writes(e) == Named(v.state, projectSlug, environmentSlug, key)
                   && (after, r) == Changed(v, w, e, caller, "secret.delete", target)
                   && (Answered(r) ==> r.Ok?)
  {
    hide RecordAudit, ResolveFor, Resolve, Authorise, SecretAt, Target, Refused, Commit;
    NamesOfThings();
    var target := Target(projectSlug, environmentSlug, key);
    ResolveErrors(v.state, caller, projectSlug, environmentSlug);
    outcome, change := "unknown", None;
    var pair := ResolveFor(v.state, caller, projectSlug, environmentSlug);
    if pair.Err? {
      RefusedIs<(string, string)>(v, w, caller, "secret.delete", target, "unknown", pair.error);
    } else {
      var (projectId, environmentId) := pair.value;
      AuthoriseErrors(caller, WriteSecrets, projectId, environmentId);
      if Authorise(caller, WriteSecrets, projectId, environmentId).Err? {
        outcome := "denied";
        RefusedIs<()>(v, w, caller, "secret.delete", target, "denied", Forbidden);
      } else {
        var e := Events.SecretDeleted(projectId, environmentId, key, w.clock(v.log.count));
        CommitErrors(v, w, e);
        RecordErrors(Commit(v, e, w).0, w, caller, "secret.delete", target, "ok");
        outcome, change := "ok", Some(e);
      }
    }
  }

  // ----- the theorems -----

  /**
   No answer to a read without its record. Whenever a read returns a value,
   says the secret, project or environment is missing, or refuses, the file by
   then holds exactly one event more, telling who asked for what and what they
   were told.
   */
  lemma EveryReadIsRecorded(v: VaultModel, t: Truth, w: World, caller: Caller, projectSlug: string,
                            environmentSlug: string, key: string)
    returns (next: Truth, outcome: string)
    requires Inv(v, t) && v.rootKey.Some?
    requires Answered(GetSecret(v, w, caller, projectSlug, environmentSlug, key).1)
    ensures var (after, r) := GetSecret(v, w, caller, projectSlug, environmentSlug, key);
            && Inv(after, next) && Tells(r, outcome)
            && Recorded(v, after, [], caller, "secret.read", Target(projectSlug, environmentSlug, key), outcome)
  {
    hide Inv, GetSecret, RecordAudit, Recorded, Target, Tells;
    outcome := GetIsTold(v, w, caller, projectSlug, environmentSlug, key);
    next := AuditGains(v, t, w, caller, "secret.read", Target(projectSlug, environmentSlug, key), outcome);
  }

  /** Nor any answer to a listing, whether given, refused or unknown. */
  lemma EveryListingIsRecorded(v: VaultModel, t: Truth, w: World, caller: Caller, projectSlug: string,
                               environmentSlug: string)
    returns (next: Truth, outcome: string)
    requires Inv(v, t) && v.rootKey.Some?
    requires Answered(ListSecrets(v, w, caller, projectSlug, environmentSlug).1)
    ensures var (after, r) := ListSecrets(v, w, caller, projectSlug, environmentSlug);
            && Inv(after, next) && Tells(r, outcome)
            && Recorded(v, after, [], caller, "secret.list", ListTarget(projectSlug, environmentSlug), outcome)
  {
    hide Inv, ListSecrets, RecordAudit, Recorded, ListTarget, Tells;
    outcome := ListIsTold(v, w, caller, projectSlug, environmentSlug);
    next := AuditGains(v, t, w, caller, "secret.list", ListTarget(projectSlug, environmentSlug), outcome);
  }

  // The change an answer reports, if any: one event about the slot named.
  predicate Reports<T>(r: Result<T, VaultError>, named: Option<Slot>, done: seq<Event>, deletion: bool) {
    if r.Err? then done == []
    else |done| == 1 && (if deletion then done[0].SecretDeleted? else done[0].SecretSet?) && Writes(done[0]) == named
  }

  lemma AdmissibleChange(s: State, rootKey: Key, e: Event)
    requires e.SecretSet? || e.SecretDeleted?
    ensures Admissible(s, rootKey, e)
  {
    hide FreshId, FreshHash, Aead.UnwrapKey;
  }

  /**
   Nor to a write. One that is done leaves in the file the new value and then
   its record, and nothing else; one refused, or of unknown names, its record.
   */
  lemma EveryWriteIsRecorded(v: VaultModel, t: Truth, w: World, caller: Caller, projectSlug: string,
                             environmentSlug: string, key: string, value: seq<byte>, nonce: Option<Aead.Nonce>)
    returns (next: Truth, outcome: string, done: seq<Event>)
    requires Inv(v, t) && v.rootKey.Some?
    requires Answered(SetSecret(v, w, caller, projectSlug, environmentSlug, key, value, nonce).1)
    ensures var (after, r) := SetSecret(v, w, caller, projectSlug, environmentSlug, key, value, nonce);
            && Inv(after, next) && Tells(r, outcome)
            && Reports(r, Named(v.state, projectSlug, environmentSlug, key), done, false)
            && Recorded(v, after, done, caller, "secret.set", Target(projectSlug, environmentSlug, key), outcome)
  {
    hide Inv, SetSecret, RecordAudit, Changed, ChangeLeft, Left, FileGains, Recorded, Target, Named, Refuses,
         Admissible;
    var target := Target(projectSlug, environmentSlug, key);
    var told, event := SetIsTold(v, w, caller, projectSlug, environmentSlug, key, value, nonce);
    outcome := told;
    if event.Some? {
      AdmissibleChange(v.state, t.rootKey, event.value);
      next := ChangeGains(v, t, w, event.value, caller, "secret.set", target);
      outcome, done := "ok", [event.value];
    } else {
      next := AuditGains(v, t, w, caller, "secret.set", target, outcome);
      done := [];
    }
  }

  /**
   Deletions, exactly. An answered delete is recorded, after the deletion itself
   if it was done, if and only if there was something to delete or the caller
   could not have deleted it; the one exception leaves vault and file untouched.
   */
  lemma DeletionsAreRecordedExactly(v: VaultModel, t: Truth, w: World, caller: Caller, projectSlug: string,
                                    environmentSlug: string, key: string)
    returns (next: Truth, outcome: string, done: seq<Event>)
    requires Inv(v, t) && v.rootKey.Some?
    requires Answered(DeleteSecret(v, w, caller, projectSlug, environmentSlug, key).1)
    ensures Inv(DeleteSecret(v, w, caller, projectSlug, environmentSlug, key).0, next)
    ensures Recorded(v, DeleteSecret(v, w, caller, projectSlug, environmentSlug, key).0, done, caller, "secret.delete",
                     Target(projectSlug, environmentSlug, key), outcome)
       <==> !NothingToDelete(v.state, caller, projectSlug, environmentSlug, key)
    ensures !NothingToDelete(v.state, caller, projectSlug, environmentSlug, key) ==>
              var r := DeleteSecret(v, w, caller, projectSlug, environmentSlug, key).1;
              Tells(r, outcome) && Reports(r, Named(v.state, projectSlug, environmentSlug, key), done, true)
    ensures NothingToDelete(v.state, caller, projectSlug, environmentSlug, key) ==>
              && DeleteSecret(v, w, caller, projectSlug, environmentSlug, key) == (v, Err(NotFound("secret")))
              && forall extra :: FileGains(v, v, extra) ==> extra == []
  {
    hide Inv, DeleteSecret, RecordAudit, Changed, ChangeLeft, Left, FileGains, Target, Named, Refuses, Admissible,
         NothingToDelete, Actor;
    var target := Target(projectSlug, environmentSlug, key);
    var told, event := DeleteIsTold(v, w, caller, projectSlug, environmentSlug, key);
    outcome, done, next := told, [], t;
    if NothingToDelete(v.state, caller, projectSlug, environmentSlug, key) {
      forall extra
        ensures FileGains(v, v, extra) ==> extra == []
      {
        NothingGained(v, extra);
      }
    } else if event.Some? {
      AdmissibleChange(v.state, t.rootKey, event.value);
      next := ChangeGains(v, t, w, event.value, caller, "secret.delete", target);
      outcome, done := "ok", [event.value];
    } else {
      next := AuditGains(v, t, w, caller, "secret.delete", target, outcome);
    }
  }

  // ----- when the store fails -----

  // The record a refusal leaves, or the change and the record a change leaves.
  function AttemptLeft(v: VaultModel, w: World, caller: Caller, action: string, target: string, outcome: string,
                       change: Option<Event>): seq<Event> {
    match change
    case None => Left(v, w, AuditEvent(v, w, caller, action, target, outcome))
    case Some(e) => ChangeLeft(v, w, e, caller, action, target)
  }

  // Memory after the attempt: changed only by a change that was done.
  function StateLeft(v: VaultModel, w: World, change: Option<Event>): State {
    match change
    case None => v.state
    case Some(e) => if Commit(v, e, w).1.Ok? then Applied(v.state, e) else v.state
  }

  // File, memory and answer are what the attempt comes to.
  predicate Accounted(v: VaultModel, w: World, caller: Caller, action: string, target: string, outcome: string,
                      change: Option<Event>, after: VaultModel, r: Result<(), VaultError>) {
    && FileGains(v, after, AttemptLeft(v, w, caller, action, target, outcome, change))
    && after.state == StateLeft(v, w, change)
    && (change.Some? ==> r == Changed(v, w, change.value, caller, action, target).1)
  }

  // The event is one about the slot named, of the kind given.
  predicate ChangeAsked(change: Option<Event>, named: Option<Slot>, deletion: bool) {
    change.Some? ==>
      (if deletion then change.value.SecretDeleted? else change.value.SecretSet?) && Writes(change.value) == named
  }

  lemma AttemptKeepsState(v: VaultModel, w: World, caller: Caller, action: string, target: string, outcome: string,
                          e: Event)
    ensures RecordAudit(v, w, caller, action, target, outcome).0.state == v.state
    ensures Changed(v, w, e, caller, action, target).0.state == StateLeft(v, w, Some(e))
  {
    CommitOfAudit(v, w, caller, action, target, outcome);
    CommitOfAudit(Commit(v, e, w).0, w, caller, action, target, "ok");
    CommitIsApplied(v, w, e);
    hide Commit, RecordAudit, Applied;
  }

  lemma CommitIsApplied(v: VaultModel, w: World, e: Event)
    ensures Commit(v, e, w).0.state == if Commit(v, e, w).1.Ok? then Applied(v.state, e) else v.state
  {
    hide LogFile.AppendOf, Events.ToBytes, Applied;
  }

  /**
   A write that ends in a failure of the store, exactly. If the caller was to be
   refused, only the record of that was tried. If not, the change was tried, and
   its record once the change was done: so when the failure is that of the
   record, the change is in memory and file to stay, and the file has its
   record if and only if every byte of it got through.
   */
  lemma FailedWritesExactly(v: VaultModel, t: Truth, w: World, caller: Caller, projectSlug: string,
                            environmentSlug: string, key: string, value: seq<byte>, nonce: Option<Aead.Nonce>)
    returns (next: Truth, outcome: string, change: Option<Event>)
    requires Inv(v, t) && v.rootKey.Some?
    requires Failed(SetSecret(v, w, caller, projectSlug, environmentSlug, key, value, nonce).1)
    ensures Inv(SetSecret(v, w, caller, projectSlug, environmentSlug, key, value, nonce).0, next)
    ensures change.None? <==> Refuses(v.state, caller, projectSlug, environmentSlug)
    ensures ChangeAsked(change, Named(v.state, projectSlug, environmentSlug, key), false)
    ensures var (after, r) := SetSecret(v, w, caller, projectSlug, environmentSlug, key, value, nonce);
            Accounted(v, w, caller, "secret.set", Target(projectSlug, environmentSlug, key), outcome, change, after, r)
  {
    hide Inv, SetSecret, RecordAudit, Changed, ChangeLeft, Left, FileGains, Recorded, Target, Named, Refuses,
         Admissible, Tells, StateLeft;
    var target := Target(projectSlug, environmentSlug, key);
    outcome, change := SetIsTold(v, w, caller, projectSlug, environmentSlug, key, value, nonce);
    if change.Some? {
      AdmissibleChange(v.state, t.rootKey, change.value);
      next := ChangeGains(v, t, w, change.value, caller, "secret.set", target);
      AttemptKeepsState(v, w, caller, "secret.set", target, outcome, change.value);
    } else {
      next := AuditGains(v, t, w, caller, "secret.set", target, outcome);
      RefusalKeeps(v, w, caller, "secret.set", target, outcome);
    }
  }

  predicate Failed<T>(r: Result<T, VaultError>) {
    r.Err? && r.error.StoreFailed?
  }

  lemma RefusalKeeps(v: VaultModel, w: World, caller: Caller, action: string, target: string, outcome: string)
    ensures RecordAudit(v, w, caller, action, target, outcome).0.state == StateLeft(v, w, None)
  {
    CommitOfAudit(v, w, caller, action, target, outcome);
    hide RecordAudit;
  }

  /** And a deletion that ends so. */
  lemma FailedDeletionsExactly(v: VaultModel, t: Truth, w: World, caller: Caller, projectSlug: string,
                               environmentSlug: string, key: string)
    returns (next: Truth, outcome: string, change: Option<Event>)
    requires Inv(v, t) && v.rootKey.Some?
    requires Failed(DeleteSecret(v, w, caller, projectSlug, environmentSlug, key).1)
    ensures Inv(DeleteSecret(v, w, caller, projectSlug, environmentSlug, key).0, next)
    ensures change.None? <==> Refuses(v.state, caller, projectSlug, environmentSlug)
    ensures ChangeAsked(change, Named(v.state, projectSlug, environmentSlug, key), true)
    ensures var (after, r) := DeleteSecret(v, w, caller, projectSlug, environmentSlug, key);
            Accounted(v, w, caller, "secret.delete", Target(projectSlug, environmentSlug, key), outcome, change, after,
                      r)
  {
    hide Inv, DeleteSecret, RecordAudit, Changed, ChangeLeft, Left, FileGains, Recorded, Target, Named, Refuses,
         Admissible, Tells, StateLeft, NothingToDelete;
    var target := Target(projectSlug, environmentSlug, key);
    outcome, change := DeleteIsTold(v, w, caller, projectSlug, environmentSlug, key);
    if change.Some? {
      AdmissibleChange(v.state, t.rootKey, change.value);
      next := ChangeGains(v, t, w, change.value, caller, "secret.delete", target);
      AttemptKeepsState(v, w, caller, "secret.delete", target, outcome, change.value);
    } else {
      next := AuditGains(v, t, w, caller, "secret.delete", target, outcome);
      RefusalKeeps(v, w, caller, "secret.delete", target, outcome);
    }
  }

  // ----- what a record names -----

  // Who an audit record speaks of: a user, or a token of one of two sorts.
  datatype Identity = Person(userId: string) | MachineToken(tokenId: string) | OtherToken(tokenId: string)

  function IdentityOf(caller: Caller): Identity {
    match caller.userId
    case Some(userId) => Person(userId)
    case None => if caller.kind == Events.Machine then MachineToken(caller.tokenId) else OtherToken(caller.tokenId)
  }

  /** Two callers are recorded under one name exactly when they are one user, or one token of no user. */
  lemma ActorsIdentify(a: Caller, b: Caller)
    ensures Actor(a) == Actor(b) <==> IdentityOf(a) == IdentityOf(b)
  {
    ActorSplits(a);
    ActorSplits(b);
    if Actor(a) == Actor(b) {
      assert Actor(a)[0] == Actor(b)[0];
      assert Actor(a)[Prefix(a)..] == Actor(b)[Prefix(b)..];
    }
  }

  function Prefix(caller: Caller): nat {
    if IdentityOf(caller).Person? then 5 else if IdentityOf(caller).MachineToken? then 8 else 6
  }

  lemma ActorSplits(caller: Caller)
    ensures var who := IdentityOf(caller);
            && |Actor(caller)| >= Prefix(caller)
            && Actor(caller)[0] == (if who.Person? then 'u' else if who.MachineToken? then 'm' else 't')
            && Actor(caller)[Prefix(caller)..] == if who.Person? then who.userId else who.tokenId
  {
  }

  lemma SlugHasNoSlash(slug: string, what: string)
    requires Validate.Slug(slug, what).Ok?
    ensures '/' !in slug
  {
    hide Utf8.Encode;
  }

  /** A record's target tells apart every secret of every environment: for names in use, it is one slot's alone. */
  lemma TargetsIdentify(project: string, environment: string, key: string, otherProject: string,
                        otherEnvironment: string, otherKey: string)
    requires Validate.Slug(project, "project slug").Ok? && Validate.Slug(otherProject, "project slug").Ok?
    requires Validate.Slug(environment, "environment slug").Ok?
    requires Validate.Slug(otherEnvironment, "environment slug").Ok?
    ensures Target(project, environment, key) == Target(otherProject, otherEnvironment, otherKey)
       <==> project == otherProject && environment == otherEnvironment && key == otherKey
    ensures ListTarget(project, environment) == ListTarget(otherProject, otherEnvironment)
       <==> project == otherProject && environment == otherEnvironment
  {
    hide Validate.Slug;
    SlugHasNoSlash(project, "project slug");
    SlugHasNoSlash(otherProject, "project slug");
    SlugHasNoSlash(environment, "environment slug");
    SlugHasNoSlash(otherEnvironment, "environment slug");
    TargetSplits(project, environment, key);
    TargetSplits(otherProject, otherEnvironment, otherKey);
  }

  lemma TargetSplits(project: string, environment: string, key: string)
    requires '/' !in project && '/' !in environment
    ensures Text.SplitOnce(Target(project, environment, key), '/') == Some((project, environment + "/" + key))
    ensures Text.SplitOnce(environment + "/" + key, '/') == Some((environment, key))
    ensures Text.SplitOnce(ListTarget(project, environment), '/') == Some((project, environment))
  {
    hide Text.SplitOnce;
    assert Target(project, environment, key) == project + ['/'] + (environment + "/" + key);
    assert environment + "/" + key == environment + ['/'] + key;
    assert ListTarget(project, environment) == project + ['/'] + environment;
    Text.SplitOnceAt(project, '/', environment + "/" + key);
    Text.SplitOnceAt(environment, '/', key);
    Text.SplitOnceAt(project, '/', environment);
  }
}
