/** The size limit on a secret: what the check before a write promises, and exactly when the write succeeds. */
module VaultLimits {
  import opened Wrappers
  import opened Bytes
  import opened RecordLengths
  import opened StoreState
  import opened VaultSpec
  import opened VaultErrors
  import opened VaultSafety
  import opened VaultOps
  import opened VaultAccess
  import Aead
  import Events
  import LogFile
  import Validate

  // The bytes of the event that writes to this slot, given how long the nonce and the ciphertext are.
  function WriteSize(slot: Slot, nonce: nat, ciphertext: nat): nat {
    137 + Escaped(slot.projectId) + Escaped(slot.environmentId) + Escaped(slot.key) + 2 * nonce + 2 * ciphertext
  }

  // The bytes of the event that records a write done.
  function WriteAuditSize(caller: Caller, target: string): nat {
    104 + Escaped(Actor(caller)) + Escaped(target)
  }

  lemma ActionsAreBare()
    ensures Escaped("secret.set") == 10 && Escaped("ok") == 2
  {
    hide Escaped;
    BareLength("secret.set");
    BareLength("ok");
  }

  lemma WriteAuditIs(v: VaultModel, w: World, caller: Caller, target: string)
    ensures |Events.ToBytes(AuditEvent(v, w, caller, "secret.set", target, "ok"))| == WriteAuditSize(caller, target)
  {
    hide Escaped, Actor, Events.ToBytes;
    ActionsAreBare();
    AuditedSize(AuditEvent(v, w, caller, "secret.set", target, "ok"));
  }

  // The next record's nonce is drawn and its write completes.
  predicate NextWriteCompletes(log: LogFile.LogModel, w: World) {
    !log.broken && Aead.Countable(log.count) && w.nonces(log.count).Some? && w.fates(log.count).Written?
  }

  /** Given a nonce and a write that completes, a commit succeeds exactly when its event is within the limit. */
  lemma CommitsExactly(v: VaultModel, w: World, e: Event)
    requires v.rootKey.Some? && NextWriteCompletes(v.log, w)
    ensures var (next, r) := Commit(v, e, w);
            && (r.Ok? <==> |Events.ToBytes(e)| <= Aead.MAX_PLAINTEXT_LEN)
            && (r.Ok? ==> next.log.count == v.log.count + 1 && !next.log.broken && next.rootKey == v.rootKey)
  {
    hide LogFile.AppendOf, Events.ToBytes, Applied, Aead.Countable;
    AppendsExactly(v.log, v.rootKey.value, Events.ToBytes(e), w.nonces(v.log.count).value);
  }

  // A checked write is its two commits.
  lemma SetIsTwoCommits(v: VaultModel, w: World, caller: Caller, projectSlug: string, environmentSlug: string,
                        key: string, value: seq<byte>, nonce: Option<Aead.Nonce>, slot: Slot, dataKey: Key,
                        envelope: Aead.Envelope)
    requires CheckSecret(v, caller, projectSlug, environmentSlug, key, value).Ok?
    requires ResolveFor(v.state, caller, projectSlug, environmentSlug) == Ok((slot.projectId, slot.environmentId))
    requires slot.key == key
    requires ProjectDataKey(v, slot.projectId) == Ok(dataKey)
    requires Aead.Seal(dataKey, nonce, value, SecretContext(slot)) == Ok(envelope)
    ensures var e := Events.SecretSet(slot.projectId, slot.environmentId, key, Events.SealedOf(envelope),
                                      w.clock(v.log.count));
            SetSecret(v, w, caller, projectSlug, environmentSlug, key, value, nonce).1.Ok?
            <==> Commit(v, e, w).1.Ok?
                 && RecordAudit(Commit(v, e, w).0, w, caller, "secret.set", Target(projectSlug, environmentSlug, key),
                                "ok").1.Ok?
  {
    hide RecordAudit, ResolveFor, Authorise, Target, ProjectDataKey, Commit, Aead.Seal, SecretContext,
         Validate.IsSecretKey;
  }

  lemma CheckResolves(v: VaultModel, caller: Caller, projectSlug: string, environmentSlug: string, key: string,
                      value: seq<byte>)
    requires CheckSecret(v, caller, projectSlug, environmentSlug, key, value).Ok?
    ensures v.rootKey.Some? && |value| <= Aead.MAX_PLAINTEXT_LEN && Resolve(v.state, projectSlug, environmentSlug).Ok?
    ensures ResolveFor(v.state, caller, projectSlug, environmentSlug) == Resolve(v.state, projectSlug, environmentSlug)
  {
    hide Resolve, Authorise, Validate.IsSecretKey;
  }

  // The vault is unsealed and the data key of each of its projects opens, as in every vault that keeps the invariant.
  predicate KeysAtHand(v: VaultModel) {
    v.rootKey.Some? && ProjectsOpen(v.state, v.rootKey.value)
  }

  lemma InvKeysAtHand(v: VaultModel, t: Truth)
    requires Inv(v, t) && v.rootKey.Some?
    ensures KeysAtHand(v)
  {
    hide Inv, ProjectsOpen;
    DataKeysOpen(v, t);
  }

  // The data key of a project that was resolved opens.
  lemma ResolvedKeyOpens(v: VaultModel, projectSlug: string, environmentSlug: string)
    requires KeysAtHand(v) && Resolve(v.state, projectSlug, environmentSlug).Ok?
    ensures ProjectDataKey(v, Resolve(v.state, projectSlug, environmentSlug).value.0).Ok?
  {
    hide Resolve, ProjectById, Aead.UnwrapKey, ProjectKeyContext;
    ResolvedIsThere(v.state, projectSlug, environmentSlug);
    var project := ProjectById(v.state, Resolve(v.state, projectSlug, environmentSlug).value.0).value;
    var k :| 0 <= k < |v.state.projects| && v.state.projects[k] == project;
  }

  // The event that makes the write and the event that records it are both within the limit of one sealed record.
  predicate Fits(slot: Slot, nonce: nat, ciphertext: nat, caller: Caller, target: string) {
    && WriteSize(slot, nonce, ciphertext) <= Aead.MAX_PLAINTEXT_LEN
    && WriteAuditSize(caller, target) <= Aead.MAX_PLAINTEXT_LEN
  }

  // The next two records get a nonce and are written in full.
  predicate NextTwoComplete(v: VaultModel, w: World) {
    && NextWriteCompletes(v.log, w) && Aead.Countable(v.log.count + 1)
    && w.nonces(v.log.count + 1).Some? && w.fates(v.log.count + 1).Written?
  }

  // What a write seals: the slot its names stand for, that project's data key, and the envelope.
  predicate SealsTo(v: VaultModel, projectSlug: string, environmentSlug: string, key: string, value: seq<byte>,
                    nonce: Aead.Nonce, slot: Slot, envelope: Aead.Envelope) {
    && Resolve(v.state, projectSlug, environmentSlug) == Ok((slot.projectId, slot.environmentId)) && slot.key == key
    && match ProjectDataKey(v, slot.projectId)
       case Err(_) => false
       case Ok(dataKey) => Aead.Seal(dataKey, Some(nonce), value, SecretContext(slot)) == Ok(envelope)
  }

  /**
   When a checked write succeeds, exactly. In a vault whose next two writes
   complete, a write that the check accepts seals its value, and succeeds if and
   only if the event with that nonce and ciphertext and the event that records
   it are within the limit. Nothing is said of how long a ciphertext is.
   */
  lemma CheckedWriteSucceedsExactly(v: VaultModel, w: World, caller: Caller, projectSlug: string,
                                    environmentSlug: string, key: string, value: seq<byte>, nonce: Aead.Nonce)
    returns (slot: Slot, envelope: Aead.Envelope)
    requires KeysAtHand(v) && CheckSecret(v, caller, projectSlug, environmentSlug, key, value).Ok?
    requires NextTwoComplete(v, w)
    ensures SealsTo(v, projectSlug, environmentSlug, key, value, nonce, slot, envelope)
    ensures SetSecret(v, w, caller, projectSlug, environmentSlug, key, value, Some(nonce)).1.Ok?
       <==> Fits(slot, |envelope.nonce|, |envelope.ciphertext|, caller, Target(projectSlug, environmentSlug, key))
  {
    hide KeysAtHand, CheckSecret, SetSecret, Resolve, ResolveFor, ProjectDataKey, Commit, Target, SecretContext,
         Escaped, Actor, Aead.Countable, Aead.Seal, Events.ToBytes, WriteAuditSize, Overhead, AuditEvent;
    CheckResolves(v, caller, projectSlug, environmentSlug, key, value);
    ResolvedKeyOpens(v, projectSlug, environmentSlug);
    var pair := Resolve(v.state, projectSlug, environmentSlug).value;
    slot := Slot(pair.0, pair.1, key);
    var dataKey := ProjectDataKey(v, pair.0).value;
    CiphertextLength(dataKey, nonce, value, SecretContext(slot));
    envelope := Aead.Seal(dataKey, Some(nonce), value, SecretContext(slot)).value;
    var e := Events.SecretSet(pair.0, pair.1, key, Events.SealedOf(envelope), w.clock(v.log.count));
    SetIsTwoCommits(v, w, caller, projectSlug, environmentSlug, key, value, Some(nonce), slot, dataKey, envelope);
    SecretSetSize(e);
    CommitsExactly(v, w, e);
    var between, target := Commit(v, e, w).0, Target(projectSlug, environmentSlug, key);
    if Commit(v, e, w).1.Ok? {
      WriteAuditIs(between, w, caller, target);
      CommitsExactly(between, w, AuditEvent(between, w, caller, "secret.set", target, "ok"));
    }
  }

  lemma CheckIsUnsealed(v: VaultModel, caller: Caller, projectSlug: string, environmentSlug: string, key: string,
                        value: seq<byte>)
    requires CheckSecret(v, caller, projectSlug, environmentSlug, key, value).Ok?
    ensures v.rootKey.Some?
  {
    hide ResolveFor, Authorise, Validate.IsSecretKey;
  }

  predicate FitsIdeal(slot: Slot, length: nat, caller: Caller, target: string) {
    hide Fits, Overhead, SecretContext;
    Fits(slot, 12, Overhead(SecretContext(slot)) + length, caller, target)
  }

  /** With the ideal cipher of this model, whose ciphertexts are `Overhead` longer than their plaintexts. */
  lemma CheckedWriteWithIdealCipher(v: VaultModel, t: Truth, w: World, caller: Caller, projectSlug: string,
                                    environmentSlug: string, key: string, value: seq<byte>, nonce: Aead.Nonce)
    returns (slot: Slot)
    requires Inv(v, t) && CheckSecret(v, caller, projectSlug, environmentSlug, key, value).Ok? && NextTwoComplete(v, w)
    ensures Named(v.state, projectSlug, environmentSlug, key) == Some(slot)
    ensures SetSecret(v, w, caller, projectSlug, environmentSlug, key, value, Some(nonce)).1.Ok?
       <==> FitsIdeal(slot, |value|, caller, Target(projectSlug, environmentSlug, key))
  {
    hide Inv, KeysAtHand, CheckSecret, NextTwoComplete, SetSecret, Resolve, ProjectDataKey, Target, SecretContext,
         Aead.Seal, Overhead, Fits;
    CheckIsUnsealed(v, caller, projectSlug, environmentSlug, key, value);
    InvKeysAtHand(v, t);
    var named, envelope := CheckedWriteSucceedsExactly(v, w, caller, projectSlug, environmentSlug, key, value, nonce);
    slot := named;
    CiphertextLength(ProjectDataKey(v, slot.projectId).value, nonce, value, SecretContext(slot));
  }

  // A deletion of what is there is its two commits.
  lemma DeleteIsTwoCommits(v: VaultModel, w: World, caller: Caller, projectSlug: string, environmentSlug: string,
                           key: string, slot: Slot)
    requires v.rootKey.Some?
    requires Resolve(v.state, projectSlug, environmentSlug) == Ok((slot.projectId, slot.environmentId))
    requires Authorise(caller, WriteSecrets, slot.projectId, slot.environmentId).Ok? && slot.key == key
    ensures SecretAt(v.state, slot).None? ==>
              DeleteSecret(v, w, caller, projectSlug, environmentSlug, key) == (v, Err(NotFound("secret")))
    ensures var e := Events.SecretDeleted(slot.projectId, slot.environmentId, key, w.clock(v.log.count));
            SecretAt(v.state, slot).Some? ==>
              (DeleteSecret(v, w, caller, projectSlug, environmentSlug, key).1.Ok?
               <==> Commit(v, e, w).1.Ok?
                    && RecordAudit(Commit(v, e, w).0, w, caller, "secret.delete",
                                   Target(projectSlug, environmentSlug, key),
                                   "ok").1.Ok?)
  {
    hide RecordAudit, Resolve, Authorise, Target, Commit, SecretAt;
  }

  /**
   When a deletion succeeds, exactly: permitted, in a vault whose next two writes
   complete, if and only if there is something to delete and both events fit.
   */
  lemma DeleteSucceedsExactly(v: VaultModel, w: World, caller: Caller, projectSlug: string, environmentSlug: string,
                              key: string, slot: Slot)
    requires v.rootKey.Some?
    requires Resolve(v.state, projectSlug, environmentSlug) == Ok((slot.projectId, slot.environmentId))
    requires Authorise(caller, WriteSecrets, slot.projectId, slot.environmentId).Ok? && slot.key == key
    requires NextTwoComplete(v, w)
    ensures DeleteSecret(v, w, caller, projectSlug, environmentSlug, key).1.Ok?
       <==> && SecretAt(v.state, slot).Some?
            && DeleteAuditSize(caller, Target(projectSlug, environmentSlug, key)) <= Aead.MAX_PLAINTEXT_LEN
            && |Events.ToBytes(Events.SecretDeleted(slot.projectId, slot.environmentId, key, w.clock(v.log.count)))|
               <= Aead.MAX_PLAINTEXT_LEN
  {
    hide DeleteSecret, Resolve, Authorise, Commit, Target, SecretAt, Events.ToBytes, Aead.Countable, DeleteAuditSize,
         AuditEvent;
    DeleteIsTwoCommits(v, w, caller, projectSlug, environmentSlug, key, slot);
    var e := Events.SecretDeleted(slot.projectId, slot.environmentId, key, w.clock(v.log.count));
    var between, target := Commit(v, e, w).0, Target(projectSlug, environmentSlug, key);
    CommitsExactly(v, w, e);
    if Commit(v, e, w).1.Ok? {
      DeleteAuditIs(between, w, caller, target);
      CommitsExactly(between, w, AuditEvent(between, w, caller, "secret.delete", target, "ok"));
    }
  }

  // The bytes of the event that records a deletion done.
  function DeleteAuditSize(caller: Caller, target: string): nat {
    107 + Escaped(Actor(caller)) + Escaped(target)
  }

  lemma DeleteAuditIs(v: VaultModel, w: World, caller: Caller, target: string)
    ensures |Events.ToBytes(AuditEvent(v, w, caller, "secret.delete", target, "ok"))| == DeleteAuditSize(caller, target)
  {
    hide Escaped, Actor, Events.ToBytes;
    BareLength("secret.delete");
    BareLength("ok");
    AuditedSize(AuditEvent(v, w, caller, "secret.delete", target, "ok"));
  }

  // ----- whatever the state of the vault -----

  lemma CiphertextHoldsValue(key: Key, nonce: Option<Aead.Nonce>, value: seq<byte>, context: Aead.Aad)
    ensures var sealed := Aead.Seal(key, nonce, value, context); sealed.Ok? ==> |sealed.value.ciphertext| >= |value|
  {
    hide Aead.CipherHeader;
  }

  lemma OversizedNeverCommits(v: VaultModel, w: World, e: Event)
    requires |Events.ToBytes(e)| > Aead.MAX_PLAINTEXT_LEN
    ensures Commit(v, e, w).1.Err?
  {
    hide Events.ToBytes, LogFile.WriteRecordOf, LogFile.RecordContext, Applied;
  }

  /**
   Whatever the vault and the disk do, no value over half the advertised limit
   can be written: its ciphertext is spelled in hexadecimal inside the event.
   */
  lemma LargeWritesFail(v: VaultModel, w: World, caller: Caller, projectSlug: string, environmentSlug: string,
                        key: string, value: seq<byte>, nonce: Option<Aead.Nonce>)
    requires v.rootKey.Some? && 2 * |value| > Aead.MAX_PLAINTEXT_LEN
    ensures SetSecret(v, w, caller, projectSlug, environmentSlug, key, value, nonce).1.Err?
  {
    hide SetSecret, Commit, Resolve, ProjectDataKey, Aead.Seal, SecretContext, Applied, Events.ToBytes, Escaped;
    if SetSecret(v, w, caller, projectSlug, environmentSlug, key, value, nonce).1.Ok? {
      var slot, dataKey, envelope := SetUnfolds(v, w, caller, projectSlug, environmentSlug, key, value, nonce);
      CiphertextHoldsValue(dataKey, nonce, value, SecretContext(slot));
      var e := Events.SecretSet(slot.projectId, slot.environmentId, key, Events.SealedOf(envelope),
                                w.clock(v.log.count));
      SecretSetSize(e);
      OversizedNeverCommits(v, w, e);
      SetCommits(v, w, caller, projectSlug, environmentSlug, key, value, nonce, slot, dataKey, envelope);
      assert false;
    }
  }

  // A write that succeeds has committed its event.
  lemma SetCommits(v: VaultModel, w: World, caller: Caller, projectSlug: string, environmentSlug: string, key: string,
                   value: seq<byte>, nonce: Option<Aead.Nonce>, slot: Slot, dataKey: Key, envelope: Aead.Envelope)
    requires SetSecret(v, w, caller, projectSlug, environmentSlug, key, value, nonce).1.Ok?
    requires Resolve(v.state, projectSlug, environmentSlug) == Ok((slot.projectId, slot.environmentId))
    requires slot.key == key
    requires ProjectDataKey(v, slot.projectId) == Ok(dataKey)
    requires Aead.Seal(dataKey, nonce, value, SecretContext(slot)) == Ok(envelope)
    ensures Commit(v, Events.SecretSet(slot.projectId, slot.environmentId, key, Events.SealedOf(envelope),
                                       w.clock(v.log.count)), w).1.Ok?
  {
    hide RecordAudit, Resolve, Authorise, Target, ProjectDataKey, Commit, Aead.Seal, SecretContext,
         Validate.IsSecretKey;
    var target := Target(projectSlug, environmentSlug, key);
    RefusalIsError<(string, string)>(v, w, caller, "secret.set", target, "unknown");
    RefusalIsError<()>(v, w, caller, "secret.set", target, "denied");
  }

  /** So the check is no promise: every value between half the limit and the limit passes it and cannot be written. */
  lemma CheckDoesNotPromiseWrite(v: VaultModel, w: World, caller: Caller, projectSlug: string, environmentSlug: string,
                                 key: string, value: seq<byte>, nonce: Option<Aead.Nonce>)
    requires v.rootKey.Some? && Validate.IsSecretKey(key)
    requires Aead.MAX_PLAINTEXT_LEN < 2 * |value| <= 2 * Aead.MAX_PLAINTEXT_LEN
    requires Resolve(v.state, projectSlug, environmentSlug).Ok? && caller.kind == Events.Session
    ensures CheckSecret(v, caller, projectSlug, environmentSlug, key, value).Ok?
    ensures SetSecret(v, w, caller, projectSlug, environmentSlug, key, value, nonce).1.Err?
  {
    hide SetSecret, Resolve, Validate.IsSecretKey;
    LargeWritesFail(v, w, caller, projectSlug, environmentSlug, key, value, nonce);
  }
}
