/** What a caller was told is done stays done: through seals, crashes, restarts and rekeys, until someone changes it. */
module VaultLasting {
  import opened Wrappers
  import opened Bytes
  import opened StoreState
  import opened VaultSpec
  import opened VaultSafety
  import opened VaultOps
  import opened VaultRekey
  import opened VaultRuns
  import opened VaultAccess
  import opened VaultAudit
  import Aead
  import Events
  import LogFile
  import ShareText

  // A commit that succeeds leaves a log that has not failed.
  lemma CommitLeavesIntact(v: VaultModel, w: World, e: Event)
    ensures Commit(v, e, w).1.Ok? ==> !Commit(v, e, w).0.log.broken
  {
    hide LogFile.SealRecord, LogFile.FrameBytes, Events.ToBytes, Applied;
  }

  // A change and its record, both committed, change only what the change does.
  lemma ChangeIsApplied(v: VaultModel, w: World, e: Event, caller: Caller, action: string, target: string)
    requires Changed(v, w, e, caller, action, target).1.Ok?
    ensures var after := Changed(v, w, e, caller, action, target).0;
            after.state == Applied(v.state, e) && after.rootKey == v.rootKey && !after.log.broken
  {
    var between := Commit(v, e, w).0;
    var audit := AuditEvent(between, w, caller, action, target, "ok");
    hide Commit, Applied, AuditEvent;
    CommitApplies(v, w, e);
    CommitOfAudit(between, w, caller, action, target, "ok");
    CommitLeavesIntact(between, w, audit);
    CommitApplies(between, w, audit);
  }

  lemma SetLeaves(v: VaultModel, w: World, caller: Caller, projectSlug: string, environmentSlug: string, key: string,
                  value: seq<byte>, nonce: Option<Aead.Nonce>, slot: Slot)
    requires v.rootKey.Some? && Unique(v.state) && Named(v.state, projectSlug, environmentSlug, key) == Some(slot)
    requires SetSecret(v, w, caller, projectSlug, environmentSlug, key, value, nonce).1.Ok?
    ensures var after := SetSecret(v, w, caller, projectSlug, environmentSlug, key, value, nonce).0;
            !after.log.broken && after.rootKey == v.rootKey
            && Holding(after.state, v.rootKey.value, HeldSlot(slot, Some(value)))
  {
    hide SetSecret, Changed, RecordAudit, Resolve, Unique, Revealed, Applied, Target, Refuses, Tells;
    var _, e := SetIsTold(v, w, caller, projectSlug, environmentSlug, key, value, nonce);
    ChangeIsApplied(v, w, e.value, caller, "secret.set", Target(projectSlug, environmentSlug, key));
    SetIsReadBack(v, w, caller, projectSlug, environmentSlug, key, value, nonce, slot);
  }

  lemma DeletedIsGone(s: State, rootKey: Key, e: Event, slot: Slot)
    requires e.SecretDeleted? && Writes(e) == Some(slot) && Unique(s)
    ensures Revealed(Applied(s, e), rootKey, slot) == None
  {
    hide Applied, Aead.UnwrapKey, Aead.Open, ProjectKeyContext, SecretContext, SecretAt, ProjectById, UniqueUsers,
         UniqueTokens, UniqueProjects, UniqueEnvironments, OneEntryPerSlot;
    ApplyStores(s, e, slot);
  }

  lemma DeleteLeaves(v: VaultModel, w: World, caller: Caller, projectSlug: string, environmentSlug: string, key: string,
                     slot: Slot)
    requires v.rootKey.Some? && Unique(v.state) && Named(v.state, projectSlug, environmentSlug, key) == Some(slot)
    requires DeleteSecret(v, w, caller, projectSlug, environmentSlug, key).1.Ok?
    ensures var after := DeleteSecret(v, w, caller, projectSlug, environmentSlug, key).0;
            && !after.log.broken && after.rootKey == v.rootKey
            && Holding(after.state, v.rootKey.value, HeldSlot(slot, None))
  {
    hide DeleteSecret, Changed, RecordAudit, Resolve, Unique, Revealed, Applied, Target, Refuses, Tells,
         NothingToDelete;
    var _, e := DeleteIsTold(v, w, caller, projectSlug, environmentSlug, key);
    ChangeIsApplied(v, w, e.value, caller, "secret.delete", Target(projectSlug, environmentSlug, key));
    DeletedIsGone(v.state, v.rootKey.value, e.value, slot);
  }

  // What an unsealed vault with a sound log holds may be pledged.
  lemma HeldNow(m: Machine, t: Truth, held: Held, checksum: ShareText.Checksum)
    requires Holds(m, t, NOTHING, checksum) && IsUnsealed(m.system) && !m.system.vault.log.broken
    requires Holding(m.system.vault.state, m.system.vault.rootKey.value, held)
    ensures Holds(m, t, Pledge(EMPTY, Some(held)), checksum)
  {
    hide Inv, Durable, Fold, Later, PrintAll, IssuedShares, Kept, Holding;
    InvIsDurable(m.system.vault, t);
  }

  lemma HeldAtEnd(m: Machine, t: Truth, held: Held, checksum: ShareText.Checksum)
    requires Holds(m, t, Pledge(EMPTY, Some(held)), checksum)
    ensures Standing(m, t, Pledge(EMPTY, Some(held)), checksum)
    ensures Holding(Fold(t.events), t.rootKey, held)
    ensures IsUnsealed(m.system) ==> Holding(m.system.vault.state, m.system.vault.rootKey.value, held)
  {
    hide Inv, Durable, Fold, Later, PrintAll, IssuedShares, Kept, Holding;
    if IsUnsealed(m.system) {
      InvIsDurable(m.system.vault, t);
    }
  }

  /**
   What a slot holds in an unsealed vault whose log has not failed, it holds at
   the end of every run that is not asked to change it, in memory if the vault
   is then unsealed, and after a restart and a quorum however it ends.
   */
  lemma HeldLasts(m: Machine, t: Truth, held: Held, steps: seq<Step>, picks: seq<nat>, checksum: ShareText.Checksum,
                  digest: Digest)
    returns (u: VaultModel)
    requires Holds(m, t, NOTHING, checksum) && IsUnsealed(m.system) && !m.system.vault.log.broken
    requires Holding(m.system.vault.state, m.system.vault.rootKey.value, held)
    requires AllowedRun(m, steps, checksum, digest) && Undisturbed(m, steps, TouchOf(held), checksum, digest)
    requires Choice(picks, Run(m, steps, checksum, digest))
    ensures var last := Run(m, steps, checksum, digest);
            && Recovered(last, Picked(picks, last.issued), checksum) == Ok(u)
            && u.rootKey.Some? && Holding(u.state, u.rootKey.value, held)
            && (IsUnsealed(last.system) ==> Holding(last.system.vault.state, last.system.vault.rootKey.value, held))
  {
    hide Holds, Standing, Holding, AllowedRun, Undisturbed, Run, Recovered, Picked, Choice, Inv;
    HeldNow(m, t, held, checksum);
    var p := Pledge(EMPTY, Some(held));
    var truth := RunHolds(m, t, p, steps, checksum, digest);
    var last := Run(m, steps, checksum, digest);
    HeldAtEnd(last, truth, held, checksum);
    u := RecoversTo(last, truth, p, picks, checksum);
  }

  lemma UnsealedIsUnique(m: Machine, t: Truth, v: VaultModel, checksum: ShareText.Checksum)
    requires m.system == Up(v) && Holds(m, t, NOTHING, checksum)
    ensures Unique(v.state)
  {
    hide Holds;
    RunEnds(m, t, NOTHING, checksum);
  }

  // One of the operations that only commit, as a step of a run.
  predicate OnlyCommits(op: Op) {
    !op.DoSealAs? && !op.DoSeal? && !op.DoResetUnseal? && !op.DoSubmitShare? && !op.DoRekey?
  }

  lemma StepIs(m: Machine, v: VaultModel, op: Op, w: World, checksum: ShareText.Checksum, digest: Digest)
    requires m.system == Up(v) && OnlyCommits(op)
    ensures Fresh(v.state, op, digest) ==> Allowed(m, Operate(op, w), digest)
    ensures Next(m, Operate(op, w), checksum, digest).system == Up(Performed(v, op, w, digest))
  {
    hide Performed, Fresh;
  }

  /**
   An acknowledged write lasts. Once a write has been answered done, its value
   is what the slot decrypts to at the end of every later run in which no step
   sets or deletes that slot, and after a restart and any quorum of the shares
   last handed out, whatever seals, crashes, restarts and rekeys the run has.
   */
  lemma AcknowledgedWriteLasts(m: Machine, v: VaultModel, t: Truth, w: World, caller: Caller, projectSlug: string,
                               environmentSlug: string, key: string, value: seq<byte>, nonce: Option<Aead.Nonce>,
                               slot: Slot, steps: seq<Step>, picks: seq<nat>, checksum: ShareText.Checksum,
                               digest: Digest)
    returns (u: VaultModel)
    requires m.system == Up(v) && v.rootKey.Some? && Holds(m, t, NOTHING, checksum)
    requires SetSecret(v, w, caller, projectSlug, environmentSlug, key, value, nonce).1.Ok?
    requires Named(v.state, projectSlug, environmentSlug, key) == Some(slot)
    requires var next := Next(m, Operate(DoSetSecret(caller, projectSlug, environmentSlug, key, value, nonce), w),
                              checksum, digest);
             && AllowedRun(next, steps, checksum, digest) && Undisturbed(next, steps, TheSlot(slot), checksum, digest)
             && Choice(picks, Run(next, steps, checksum, digest))
    ensures var next := Next(m, Operate(DoSetSecret(caller, projectSlug, environmentSlug, key, value, nonce), w),
                             checksum, digest);
            var last := Run(next, steps, checksum, digest);
            && Recovered(last, Picked(picks, last.issued), checksum) == Ok(u)
            && u.rootKey.Some? && Revealed(u.state, u.rootKey.value, slot) == Some(Ok(value))
            && (IsUnsealed(last.system) ==>
                  Revealed(last.system.vault.state, last.system.vault.rootKey.value, slot) == Some(Ok(value)))
  {
    hide Holds, SetSecret, Next, AllowedRun, Undisturbed, Run, Choice, Recovered, Picked, Named, Revealed, Unique;
    var op := DoSetSecret(caller, projectSlug, environmentSlug, key, value, nonce);
    UnsealedIsUnique(m, t, v, checksum);
    SetLeaves(v, w, caller, projectSlug, environmentSlug, key, value, nonce, slot);
    StepIs(m, v, op, w, checksum, digest);
    var truth := StepHolds(m, t, NOTHING, Operate(op, w), checksum, digest);
    u := HeldLasts(Next(m, Operate(op, w), checksum, digest), truth, HeldSlot(slot, Some(value)), steps, picks,
                   checksum, digest);
  }

  /** And so does an acknowledged deletion: nothing is stored in the slot again until someone sets it. */
  lemma AcknowledgedDeleteLasts(m: Machine, v: VaultModel, t: Truth, w: World, caller: Caller, projectSlug: string,
                                environmentSlug: string, key: string, slot: Slot, steps: seq<Step>, picks: seq<nat>,
                                checksum: ShareText.Checksum, digest: Digest)
    returns (u: VaultModel)
    requires m.system == Up(v) && v.rootKey.Some? && Holds(m, t, NOTHING, checksum)
    requires DeleteSecret(v, w, caller, projectSlug, environmentSlug, key).1.Ok?
    requires Named(v.state, projectSlug, environmentSlug, key) == Some(slot)
    requires var next := Next(m, Operate(DoDeleteSecret(caller, projectSlug, environmentSlug, key), w), checksum,
                              digest);
             && AllowedRun(next, steps, checksum, digest) && Undisturbed(next, steps, TheSlot(slot), checksum, digest)
             && Choice(picks, Run(next, steps, checksum, digest))
    ensures var next := Next(m, Operate(DoDeleteSecret(caller, projectSlug, environmentSlug, key), w), checksum,
                             digest);
            var last := Run(next, steps, checksum, digest);
            && Recovered(last, Picked(picks, last.issued), checksum) == Ok(u)
            && u.rootKey.Some? && Revealed(u.state, u.rootKey.value, slot) == None
            && (IsUnsealed(last.system) ==>
                  Revealed(last.system.vault.state, last.system.vault.rootKey.value, slot) == None)
  {
    hide Holds, DeleteSecret, Next, AllowedRun, Undisturbed, Run, Choice, Recovered, Picked, Named, Revealed, Unique;
    var op := DoDeleteSecret(caller, projectSlug, environmentSlug, key);
    UnsealedIsUnique(m, t, v, checksum);
    DeleteLeaves(v, w, caller, projectSlug, environmentSlug, key, slot);
    StepIs(m, v, op, w, checksum, digest);
    var truth := StepHolds(m, t, NOTHING, Operate(op, w), checksum, digest);
    u := HeldLasts(Next(m, Operate(op, w), checksum, digest), truth, HeldSlot(slot, None), steps, picks, checksum,
                   digest);
  }
}
