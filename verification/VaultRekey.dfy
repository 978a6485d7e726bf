/** Rekeying: the whole history moves to a new root key, and nothing a caller can see changes. */
module VaultRekey {
  import opened Wrappers
  import opened Bytes
  import opened StoreState
  import opened LogFile
  import opened LogSafety
  import opened VaultSpec
  import opened VaultErrors
  import opened VaultSafety
  import Aead
  import Barrier
  import Events
  import Shamir
  import ShareText
  import Timestamps

  // The same project, its data key wrapped anew.
  predicate RewrappedProject(p: Project, oldRoot: Key, q: Project, newRoot: Key) {
    && q == p.(dataKey := q.dataKey)
    && Aead.UnwrapKey(oldRoot, Events.EnvelopeOf(p.dataKey), ProjectKeyContext(p.id)).Ok?
    && Aead.UnwrapKey(newRoot, Events.EnvelopeOf(q.dataKey), ProjectKeyContext(q.id))
       == Aead.UnwrapKey(oldRoot, Events.EnvelopeOf(p.dataKey), ProjectKeyContext(p.id))
  }

  // The same state but for the wrapping of project data keys, which hold the same keys.
  predicate Rewrapped(s: State, oldRoot: Key, u: State, newRoot: Key) {
    && u == s.(projects := u.projects) && |u.projects| == |s.projects|
    && forall i :: 0 <= i < |s.projects| ==> RewrappedProject(s.projects[i], oldRoot, u.projects[i], newRoot)
  }

  function AuditsIn(events: seq<Event>): seq<AuditEntry>
    decreases |events|
  {
    if events == [] then []
    else
      match events[0]
      case Audited(at, actor, action, target, outcome) =>
        [AuditEntry(at, actor, action, target, outcome)] + AuditsIn(events[1..])
      case _ => AuditsIn(events[1..])
  }

  lemma {:induction false} AuditsAppend(events: seq<Event>, more: seq<Event>)
    ensures AuditsIn(events + more) == AuditsIn(events) + AuditsIn(more)
    decreases |events|
  {
    if events == [] {
      assert events + more == more;
    } else {
      assert (events + more)[1..] == events[1..] + more;
      AuditsAppend(events[1..], more);
    }
  }

  lemma {:induction false} EntriesAreAudits(events: seq<Event>)
    ensures EntriesOf(SealedRecords(events)) == AuditsIn(events)
    decreases |events|
  {
    hide Events.ToBytes, Events.FromBytes;
    var records := SealedRecords(events);
    if events != [] {
      assert records[0] == RecordOf(events[0]) && records[1..] == SealedRecords(events[1..]);
      Events.EventRoundTrip(events[0]);
      EntriesAreAudits(events[1..]);
    }
  }

  /** The audit trail is the audit events of the file, oldest first. */
  lemma TrailIsAudits(v: VaultModel, t: Truth, caller: Caller)
    requires Inv(v, t) && v.rootKey.Some? && GrantedTo(Administer, caller.kind)
    ensures AuditTrail(v, caller) == Ok(AuditsIn(t.events))
  {
    hide ReadRecordsOf, Filed, FoldFrom, KeysOpen, Unique, Sound, Hierarchy, SealedRecords, EntriesOf, AuditsIn;
    FiledRecords(v.log.file, t);
    EntriesAreAudits(t.events);
    PlainSkipped(EMPTY, Barrier.ToBytes(t.barrier), SealedRecords(t.events));
  }

  lemma CarriedOne(e: Event, oldRoot: Key, newRoot: Key, nonce: Option<Aead.Nonce>)
    requires CarryOne(e, oldRoot, newRoot, nonce).Ok?
    ensures var f := CarryOne(e, oldRoot, newRoot, nonce).value;
            && KeyOpens(newRoot, f)
            && (if e.ProjectCreated?
                then f.ProjectCreated? && f == e.(dataKey := f.dataKey)
                     && RewrappedProject(Project(e.id, e.slug, e.name, e.dataKey, e.createdAt), oldRoot,
                                         Project(f.id, f.slug, f.name, f.dataKey, f.createdAt), newRoot)
                else f == e)
  {
    if e.ProjectCreated? {
      var context := ProjectKeyContext(e.id);
      hide Aead.Wrap, Aead.UnwrapKey, ProjectKeyContext;
      var inner := Aead.UnwrapKey(oldRoot, Events.EnvelopeOf(e.dataKey), context).value;
      WrappedOpens(newRoot, nonce, inner, context);
    }
  }

  lemma AppliedSame(s: State, u: State, e: Event, oldRoot: Key, newRoot: Key)
    requires Rewrapped(s, oldRoot, u, newRoot) && !e.ProjectCreated?
    ensures Rewrapped(Applied(s, e), oldRoot, Applied(u, e), newRoot)
  {
    hide RewrappedProject, Put, Filter, Revoke;
  }

  lemma ProjectAdded(s: State, u: State, p: Project, oldRoot: Key, q: Project, newRoot: Key)
    requires Rewrapped(s, oldRoot, u, newRoot) && RewrappedProject(p, oldRoot, q, newRoot)
    ensures Rewrapped(s.(projects := s.projects + [p]), oldRoot, u.(projects := u.projects + [q]), newRoot)
  {
    hide RewrappedProject;
  }

  lemma AppliedRewraps(s: State, u: State, e: Event, oldRoot: Key, newRoot: Key, nonce: Option<Aead.Nonce>)
    requires Rewrapped(s, oldRoot, u, newRoot) && CarryOne(e, oldRoot, newRoot, nonce).Ok?
    ensures Rewrapped(Applied(s, e), oldRoot, Applied(u, CarryOne(e, oldRoot, newRoot, nonce).value), newRoot)
  {
    hide CarryOne, RewrappedProject, Rewrapped, KeyOpens;
    CarriedOne(e, oldRoot, newRoot, nonce);
    if e.ProjectCreated? {
      var f := CarryOne(e, oldRoot, newRoot, nonce).value;
      ProjectAdded(s, u, Project(e.id, e.slug, e.name, e.dataKey, e.createdAt), oldRoot,
                   Project(f.id, f.slug, f.name, f.dataKey, f.createdAt), newRoot);
    } else {
      hide Applied;
      AppliedSame(s, u, e, oldRoot, newRoot);
    }
  }

  lemma {:induction false} CarryFolds(s: State, u: State, events: seq<Event>, position: nat, oldRoot: Key, newRoot: Key,
                                      nonces: nat -> Option<Aead.Nonce>)
    requires Rewrapped(s, oldRoot, u, newRoot) && Carry(events, position, oldRoot, newRoot, nonces).Ok?
    ensures var moved := Carry(events, position, oldRoot, newRoot, nonces).value;
            && Rewrapped(FoldFrom(s, events), oldRoot, FoldFrom(u, moved), newRoot)
            && AuditsIn(moved) == AuditsIn(events)
            && forall i :: 0 <= i < |moved| ==> KeyOpens(newRoot, moved[i])
    decreases |events|
  {
    hide CarryOne, Applied, Rewrapped, KeyOpens, RewrappedProject;
    if events != [] {
      var first := CarryOne(events[0], oldRoot, newRoot, nonces(position)).value;
      var rest := Carry(events[1..], position + 1, oldRoot, newRoot, nonces).value;
      AppliedRewraps(s, u, events[0], oldRoot, newRoot, nonces(position));
      CarriedOne(events[0], oldRoot, newRoot, nonces(position));
      CarryFolds(Applied(s, events[0]), Applied(u, first), events[1..], position + 1, oldRoot, newRoot, nonces);
      assert ([first] + rest)[1..] == rest;
    }
  }

  lemma RewrappedUnique(s: State, oldRoot: Key, u: State, newRoot: Key)
    requires Unique(s) && Rewrapped(s, oldRoot, u, newRoot)
    ensures Unique(u)
  {
    hide Aead.UnwrapKey, ProjectKeyContext, OneEntryPerSlot, UniqueUsers, UniqueTokens, UniqueEnvironments;
    assert s.secrets == u.secrets;
    assert OneEntryPerSlot(u) by { SameSecrets(s, u); }
    forall i | 0 <= i < |s.projects|
      ensures u.projects[i].id == s.projects[i].id && u.projects[i].slug == s.projects[i].slug
    {
      assert RewrappedProject(s.projects[i], oldRoot, u.projects[i], newRoot);
    }
  }

  lemma SameSecrets(s: State, u: State)
    requires s.secrets == u.secrets
    ensures OneEntryPerSlot(s) == OneEntryPerSlot(u)
    ensures forall slot :: SecretAt(s, slot) == SecretAt(u, slot)
  {
  }

  // What a slot decrypts to: nothing stored, no key to open it with, or a value.
  function Revealed(s: State, rootKey: Key, slot: Slot): Option<Result<seq<byte>, Aead.AeadError>> {
    match SecretAt(s, slot)
    case None => None
    case Some(secret) =>
      match ProjectById(s, slot.projectId)
      case None => Some(Err(Aead.Decrypt))
      case Some(project) =>
        match Aead.UnwrapKey(rootKey, Events.EnvelopeOf(project.dataKey), ProjectKeyContext(slot.projectId))
        case Err(e) => Some(Err(e))
        case Ok(dataKey) => Some(Aead.Open(dataKey, Events.EnvelopeOf(secret.value), SecretContext(slot)))
  }

  lemma RewrappedFinds(s: State, oldRoot: Key, u: State, newRoot: Key, id: string)
    requires Rewrapped(s, oldRoot, u, newRoot)
    ensures match ProjectById(s, id)
            case None => ProjectById(u, id) == None
            case Some(p) =>
              && p.id == id
              && match ProjectById(u, id)
                 case None => false
                 case Some(q) => RewrappedProject(p, oldRoot, q, newRoot)
  {
    hide Aead.UnwrapKey, ProjectKeyContext;
    var i := FirstIndex(s.projects, ProjectIs(id));
    forall j | 0 <= j < |s.projects|
      ensures u.projects[j].id == s.projects[j].id
    {
      assert RewrappedProject(s.projects[j], oldRoot, u.projects[j], newRoot);
    }
    FirstIsUnique(u.projects, ProjectIs(id), i);
    hide FirstIndex;
    if i < |s.projects| {
      assert RewrappedProject(s.projects[i], oldRoot, u.projects[i], newRoot);
    }
  }

  lemma RewrappedReveals(s: State, oldRoot: Key, u: State, newRoot: Key, slot: Slot)
    requires Rewrapped(s, oldRoot, u, newRoot)
    ensures Revealed(u, newRoot, slot) == Revealed(s, oldRoot, slot)
  {
    RewrappedFinds(s, oldRoot, u, newRoot, slot.projectId);
    SameSecrets(s, u);
    hide Aead.UnwrapKey, Aead.Open, ProjectKeyContext, SecretContext, SecretAt, ProjectById;
  }

  // ----- the ceremony -----

  function CoefficientsUsed(c: Ceremony, threshold: byte): seq<bv8> {
    if threshold == 1 || c.coefficients.None? then [] else c.coefficients.value
  }

  function TruthOf(c: Ceremony, barrier: Barrier.Barrier, events: seq<Event>): Truth
    requires c.master.Some? && c.rootKey.Some? && c.wrapNonce.Some?
  {
    Truth(c.master.value, c.rootKey.value, c.wrapNonce.value, barrier, CoefficientsUsed(c, barrier.threshold), events)
  }

  lemma MasterLength(c: Ceremony, threshold: byte)
    requires Fills(c, threshold) && c.master.Some? && threshold >= 1
    ensures |FromBytes(c.master.value)| == MASTER_KEY_LEN
    ensures c.coefficients.Some? ==> |c.coefficients.value| == |FromBytes(c.master.value)| * (threshold - 1)
  {
    hide FromBytes;
  }

  /** A ceremony that gets as far as a barrier has split the master key that wraps the root key. */
  lemma CeremonyHolds(c: Ceremony, threshold: byte, shares: byte, events: seq<Event>)
    requires Fills(c, threshold) && c.master.Some? && c.rootKey.Some?
    requires SplitMaster(c, threshold, shares).Ok? && WrapRoot(c, threshold, shares).Ok?
    ensures c.wrapNonce.Some?
    ensures var t := TruthOf(c, WrapRoot(c, threshold, shares).value, events);
            && Hierarchy(t) && IssuedShares(t) == SplitMaster(c, threshold, shares).value
            && t.barrier.threshold == threshold && t.barrier.shares == shares
  {
    hide FromBytes, Shamir.SharesOf, Aead.Open, Barrier.Context;
    var wrapped := Aead.Wrap(c.master.value, c.wrapNonce, c.rootKey.value, Barrier.Context());
    WrappedOpens(c.master.value, c.wrapNonce, c.rootKey.value, Barrier.Context());
    hide Aead.Wrap;
    assert threshold >= 1;
    MasterLength(c, threshold);
    NoCoefficients(FromBytes(c.master.value));
  }

  lemma NoCoefficients(secret: seq<bv8>)
    ensures |secret| * 0 == 0
  {
  }

  // ----- the whole rekey -----

  lemma RekeyEventFacts(s: State, oldRoot: Key, newRoot: Key, caller: Caller, now: Timestamps.Timestamp)
    ensures var last := RekeyEvent(caller, now);
            && KeyOpens(newRoot, last) && Applied(s, last) == s
            && AuditsIn([last]) == [AuditEntry(now, Actor(caller), "vault.rekey", "unseal shares", "ok")]
    ensures Rewrapped(EMPTY, oldRoot, EMPTY, newRoot)
  {
    hide Actor;
    assert [RekeyEvent(caller, now)][1..] == [];
    assert AuditsIn([]) == [];
  }

  // The events after a rekey.
  lemma CarriedHistory(events: seq<Event>, moved: seq<Event>, caller: Caller, c: Ceremony, oldRoot: Key,
                       rewraps: nat -> Option<Aead.Nonce>)
    requires c.rootKey.Some? && Unique(Fold(events)) && Carry(events, 0, oldRoot, c.rootKey.value, rewraps) == Ok(moved)
    ensures var carried := moved + [RekeyEvent(caller, c.auditedAt)];
            && Rewrapped(Fold(events), oldRoot, Fold(carried), c.rootKey.value) && Unique(Fold(carried))
            && AuditsIn(carried) == AuditsIn(events)
                  + [AuditEntry(c.auditedAt, Actor(caller), "vault.rekey", "unseal shares", "ok")]
            && forall i :: 0 <= i < |carried| ==> KeyOpens(c.rootKey.value, carried[i])
  {
    hide Actor, Carry, KeyOpens, Rewrapped, Unique, AuditsIn, FoldFrom, Applied, RekeyEvent;
    var newRoot, last := c.rootKey.value, RekeyEvent(caller, c.auditedAt);
    RekeyEventFacts(Fold(moved), oldRoot, newRoot, caller, c.auditedAt);
    CarryFolds(EMPTY, EMPTY, events, 0, oldRoot, newRoot, rewraps);
    FoldOneMore(EMPTY, moved, last);
    AuditsAppend(moved, [last]);
    RewrappedUnique(Fold(events), oldRoot, Fold(moved), newRoot);
  }

  lemma RewriteFiled(log: LogModel, t: Truth, fates: RewriteFates)
    ensures match CompactOf(log, t.rootKey, [Barrier.ToBytes(t.barrier)], Payloads(t.events), fates)
            case (after, Err(_)) => after == log
            case (after, Ok(_)) => Sound(after) && !after.broken && Filed(after.file, t)
  {
    hide CompactOf, FramesIn, Readable, Walk, SealedFrom, Barrier.ToBytes, Payloads;
    CompactRewrites(log, t.rootKey, [Barrier.ToBytes(t.barrier)], Payloads(t.events), fates);
  }

  /**
   Rekeying, all or nothing: any failure leaves the vault, the file included,
   exactly as it was, and success gives the vault of a new key hierarchy whose
   history is the old one carried over with one audit entry added.
   */
  lemma RekeyKeeps(v: VaultModel, t: Truth, caller: Caller, threshold: byte, shares: byte, c: Ceremony,
                   rewraps: nat -> Option<Aead.Nonce>, fates: RewriteFates, checksum: ShareText.Checksum)
    returns (next: Truth)
    requires Inv(v, t) && Fills(c, threshold)
    ensures match Rekey(v, caller, threshold, shares, c, rewraps, fates, checksum)
            case (after, Err(_)) => after == v && next == t
            case (after, Ok(outcome)) =>
              && Inv(after, next) && after.rootKey == Some(next.rootKey) && c.master == Some(next.master)
              && after.pending == [] && !after.log.broken
              && next.barrier.threshold == threshold == outcome.threshold && next.barrier.shares == shares
              && outcome.shares == PrintAll(IssuedShares(next), checksum)
              && Rewrapped(Fold(t.events), t.rootKey, after.state, next.rootKey)
              && AuditsIn(next.events)
                 == AuditsIn(t.events) + [AuditEntry(c.auditedAt, Actor(caller), "vault.rekey", "unseal shares", "ok")]
  {
    next := t;
    hide History, Carry, CompactOf, Payloads, Barrier.ToBytes, FoldFrom, AuditsIn, Rewrapped, RekeyEvent, Actor, Unique,
         KeyOpens, Sound, Filed, WellSplit, WrapsRoot, SplitMaster, WrapRoot, PrintAll, IssuedShares, Fills,
         CoefficientsUsed;
    if v.rootKey.Some? {
      FiledReplays(v.log.file, t);
      if c.rootKey.Some? && c.master.Some? {
        var moved := Carry(t.events, 0, t.rootKey, c.rootKey.value, rewraps);
        if moved.Ok? && SplitMaster(c, threshold, shares).Ok? && WrapRoot(c, threshold, shares).Ok? {
          var carried := moved.value + [RekeyEvent(caller, c.auditedAt)];
          CarriedHistory(t.events, moved.value, caller, c, t.rootKey, rewraps);
          CeremonyHolds(c, threshold, shares, carried);
          var renewed := TruthOf(c, WrapRoot(c, threshold, shares).value, carried);
          RewriteFiled(v.log, renewed, fates);
          if Rekey(v, caller, threshold, shares, c, rewraps, fates, checksum).1.Ok? {
            next := renewed;
          }
        }
      }
    }
  }

  // The vault means what state `s` meant under the old root key, and its file has one record in the clear.
  predicate KeepsMeaning(s: State, oldRoot: Key, v: VaultModel, slot: Slot) {
    && v.rootKey.Some? && v.barrier.Some?
    && Rewrapped(s, oldRoot, v.state, v.rootKey.value)
    && Revealed(v.state, v.rootKey.value, slot) == Revealed(s, oldRoot, slot)
    && ReadPlainOf(v.log.file) == Ok([Barrier.ToBytes(v.barrier.value)])
  }

  /**
   Rekeying preserves meaning. Against the replay `s` of the file, which is
   memory unless an append has failed: users, tokens, environments and secrets
   are as they were, projects differ only in how their data keys are wrapped,
   every slot decrypts to what it did, and one record of the file is in the clear.
   */
  lemma RekeyPreservesMeaning(v: VaultModel, t: Truth, s: State, caller: Caller, threshold: byte, shares: byte,
                              c: Ceremony, rewraps: nat -> Option<Aead.Nonce>, fates: RewriteFates,
                              checksum: ShareText.Checksum, slot: Slot)
    requires Inv(v, t) && v.rootKey == Some(t.rootKey) && Fills(c, threshold)
    requires Replay(v.log.file, t.rootKey) == Ok(s)
    ensures !v.log.broken ==> s == v.state
    ensures match Rekey(v, caller, threshold, shares, c, rewraps, fates, checksum)
            case (after, Err(_)) => after == v
            case (after, Ok(_)) =>
              && KeepsMeaning(s, t.rootKey, after, slot)
  {
    hide Rekey, Replay, ReadPlainOf, Revealed, Rewrapped, AuditsIn, Actor, FoldFrom, Hierarchy, KeysOpen, Unique, Filed,
         Sound, IssuedShares, PrintAll, Fills, Barrier.ToBytes, GrantedTo;
    FiledReplays(v.log.file, t);
    var next := RekeyKeeps(v, t, caller, threshold, shares, c, rewraps, fates, checksum);
    var (after, r) := Rekey(v, caller, threshold, shares, c, rewraps, fates, checksum);
    if r.Ok? {
      FiledPlain(after.log.file, next);
      RewrappedReveals(s, t.rootKey, after.state, next.rootKey, slot);
    }
  }

  /** The old audit trail is a prefix of the new one, which has the rekey itself as its one further entry. */
  lemma RekeyExtendsTrail(v: VaultModel, t: Truth, caller: Caller, threshold: byte, shares: byte, c: Ceremony,
                          rewraps: nat -> Option<Aead.Nonce>, fates: RewriteFates, checksum: ShareText.Checksum)
    requires Inv(v, t) && Fills(c, threshold)
    requires Rekey(v, caller, threshold, shares, c, rewraps, fates, checksum).1.Ok?
    ensures AuditTrail(v, caller).Ok?
    ensures AuditTrail(Rekey(v, caller, threshold, shares, c, rewraps, fates, checksum).0, caller)
         == Ok(AuditTrail(v, caller).value
               + [AuditEntry(c.auditedAt, Actor(caller), "vault.rekey", "unseal shares", "ok")])
  {
    hide *;
    RekeyNeedsAdministrator(v, caller, threshold, shares, c, rewraps, fates, checksum);
    var next := RekeyKeeps(v, t, caller, threshold, shares, c, rewraps, fates, checksum);
    TrailIsAudits(v, t, caller);
    TrailIsAudits(Rekey(v, caller, threshold, shares, c, rewraps, fates, checksum).0, next, caller);
  }

  lemma RekeyNeedsAdministrator(v: VaultModel, caller: Caller, threshold: byte, shares: byte, c: Ceremony,
                                rewraps: nat -> Option<Aead.Nonce>, fates: RewriteFates, checksum: ShareText.Checksum)
    requires Fills(c, threshold)
    ensures Rekey(v, caller, threshold, shares, c, rewraps, fates, checksum).1.Ok? ==>
              v.rootKey.Some? && GrantedTo(Administer, caller.kind)
  {
    hide History, Carry, CompactOf, SplitMaster, WrapRoot, GrantedTo;
  }

  /** Shares that recombine to a master key from before the rekey are refused by the vault after it. */
  lemma OldSharesRefused(v: VaultModel, t: Truth, caller: Caller, threshold: byte, shares: byte, c: Ceremony,
                         rewraps: nat -> Option<Aead.Nonce>, fates: RewriteFates, checksum: ShareText.Checksum,
                         offered: seq<Share>)
    requires Inv(v, t) && Fills(c, threshold)
    requires Rekey(v, caller, threshold, shares, c, rewraps, fates, checksum).1.Ok?
    requires Shamir.Combined(offered) == Ok(FromBytes(t.master)) && c.master != Some(t.master)
    ensures var next := Rekey(v, caller, threshold, shares, c, rewraps, fates, checksum).0;
            var after := SealVault(next).(pending := offered);
            TryUnseal(after) == (after, Err(UnsealFailed))
  {
    hide Rekey, Replay, FoldFrom, KeysOpen, Unique, Filed, Sound, IssuedShares, PrintAll, Fills, Shamir.Combined,
         ToBytes, FromBytes, Rewrapped, AuditsIn, Actor, WellSplit, Aead.Wrap, Aead.UnwrapKey, Barrier.Context;
    var next := RekeyKeeps(v, t, caller, threshold, shares, c, rewraps, fates, checksum);
    ElementsRoundTrip(t.master);
    Aead.UnwrapUndoesWrap(next.master, next.wrapNonce, next.rootKey, Barrier.Context(), t.master, Barrier.Context());
  }

  /**
   A crash in the rekey after the rename: the file opens as the sealed vault of
   the new hierarchy, which only the new master key unseals. The shares of that
   key were then never handed out, and the old ones no longer open it.
   */
  lemma CrashAfterRename(v: VaultModel, t: Truth, caller: Caller, threshold: byte, shares: byte, c: Ceremony,
                         rewraps: nat -> Option<Aead.Nonce>, fates: RewriteFates, checksum: ShareText.Checksum,
                         offered: seq<Share>)
    returns (sealed: VaultModel, next: Truth)
    requires Inv(v, t) && Fills(c, threshold)
    requires Rekey(v, caller, threshold, shares, c, rewraps, fates, checksum).1.Ok?
    ensures OpenVault(Some(Rekey(v, caller, threshold, shares, c, rewraps, fates, checksum).0.log.file), Written).0
         == Ok(sealed)
    ensures Inv(sealed, next) && sealed.rootKey == None && c.master == Some(next.master)
    ensures TryUnseal(sealed.(pending := offered)).1.Ok? <==> Shamir.Combined(offered) == Ok(FromBytes(next.master))
  {
    hide Rekey, TryUnseal, OpenVault, Durable, Sound, Unique, FoldFrom, Fills, PrintAll, IssuedShares, Rewrapped,
         AuditsIn, Actor, Shamir.Combined, FromBytes;
    next := RekeyKeeps(v, t, caller, threshold, shares, c, rewraps, fates, checksum);
    var file := Rekey(v, caller, threshold, shares, c, rewraps, fates, checksum).0.log.file;
    OpenVaultKeeps(file, next, Written);
    sealed := OpenVault(Some(file), Written).0.value;
    UnsealsExactly(sealed.(pending := offered), next);
  }
}
