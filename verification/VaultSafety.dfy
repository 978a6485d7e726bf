/**
 What every operation on an initialised vault keeps: the file holds one barrier
 and the sealed events, the barrier holds the root key under the master key,
 and memory is the replay of the file, less at most one record in flight.
 */
module VaultSafety {
  import opened Wrappers
  import opened Bytes
  import opened StoreState
  import opened LogFile
  import opened LogSafety
  import opened VaultSpec
  import opened VaultErrors
  import Aead
  import Barrier
  import Events
  import Shamir
  import ShareText
  import Store

  // What is true of a vault though no part of it need be in memory.
  datatype Truth = Truth(master: Key, rootKey: Key, wrapNonce: Aead.Nonce, barrier: Barrier.Barrier,
                         coefficients: seq<bv8>, events: seq<Event>)

  // The counts allow a split, and there are as many coefficients as it takes.
  predicate WellSplit(t: Truth) {
    && 1 <= t.barrier.threshold <= t.barrier.shares
    && |t.coefficients| == |FromBytes(t.master)| * (t.barrier.threshold - 1)
  }

  predicate WrapsRoot(t: Truth) {
    Aead.Wrap(t.master, Some(t.wrapNonce), t.rootKey, Barrier.Context()) == Ok(Events.EnvelopeOf(t.barrier.rootKey))
  }

  // The barrier wraps the root key under the master key the shares were split from.
  predicate Hierarchy(t: Truth) {
    WellSplit(t) && WrapsRoot(t)
  }

  function IssuedShares(t: Truth): seq<Share> {
    if WellSplit(t)
    then Shamir.SharesOf(FromBytes(t.master), t.coefficients, t.barrier.threshold - 1, t.barrier.shares) else []
  }

  // The file holds the barrier in the clear and then the events, sealed in order.
  ghost predicate Filed(file: seq<byte>, t: Truth) {
    && Readable(file)
    && SealedFrom(FramesIn(file), t.rootKey, 1, Payloads(t.events))
    && FramesIn(file)[0] == Frame(KIND_PLAIN, Barrier.ToBytes(t.barrier))
  }

  // ----- uniqueness -----

  predicate UniqueTokens(tokens: seq<Token>) {
    forall i, j :: 0 <= i < j < |tokens| ==> tokens[i].id != tokens[j].id && tokens[i].tokenHash != tokens[j].tokenHash
  }

  predicate UniqueProjects(projects: seq<Project>) {
    forall i, j :: 0 <= i < j < |projects| ==> projects[i].id != projects[j].id && projects[i].slug != projects[j].slug
  }

  predicate UniqueEnvironments(environments: seq<Environment>) {
    forall i, j :: 0 <= i < j < |environments| ==>
      && environments[i].id != environments[j].id
      && (environments[i].projectId != environments[j].projectId || environments[i].slug != environments[j].slug)
  }

  predicate UniqueUsers(users: seq<User>) {
    forall i, j :: 0 <= i < j < |users| ==> users[i].id != users[j].id && users[i].email != users[j].email
  }

  predicate Unique(s: State) {
    && UniqueUsers(s.users) && UniqueTokens(s.tokens) && UniqueProjects(s.projects)
    && UniqueEnvironments(s.environments)
    && OneEntryPerSlot(s)
  }

  predicate FreshId(s: State, id: string) {
    && (forall i :: 0 <= i < |s.users| ==> s.users[i].id != id)
    && (forall i :: 0 <= i < |s.tokens| ==> s.tokens[i].id != id)
    && (forall i :: 0 <= i < |s.projects| ==> s.projects[i].id != id)
    && (forall i :: 0 <= i < |s.environments| ==> s.environments[i].id != id)
  }

  predicate FreshHash(s: State, hash: seq<byte>) {
    forall i :: 0 <= i < |s.tokens| ==> s.tokens[i].tokenHash != hash
  }

  predicate KeyOpens(rootKey: Key, e: Event) {
    e.ProjectCreated? ==> Aead.UnwrapKey(rootKey, Events.EnvelopeOf(e.dataKey), ProjectKeyContext(e.id)).Ok?
  }

  // An event that may be added to this state.
  predicate Admissible(s: State, rootKey: Key, e: Event) {
    && KeyOpens(rootKey, e)
    && match e
       case UserCreated(id, email, _, _) =>
         FreshId(s, id) && forall i :: 0 <= i < |s.users| ==> s.users[i].email != email
       case TokenIssued(id, tokenHash, _, _, _, _, _, _, _) => FreshId(s, id) && FreshHash(s, tokenHash)
       case ProjectCreated(id, slug, _, _, _) =>
         FreshId(s, id) && forall i :: 0 <= i < |s.projects| ==> s.projects[i].slug != slug
       case EnvironmentCreated(id, ownerId, slug, _, _) =>
         FreshId(s, id)
         && forall i :: 0 <= i < |s.environments| ==>
              s.environments[i].projectId != ownerId || s.environments[i].slug != slug
       case _ => true
  }

  /** Identifiers, emails and slugs stay unique as events are folded in. */
  lemma AppliedUnique(s: State, rootKey: Key, e: Event)
    requires Unique(s) && Admissible(s, rootKey, e)
    ensures Unique(Applied(s, e))
  {
    hide KeyOpens, Put, Filter;
    ApplyStores(s, e, Slot("", "", ""));
    hide OneEntryPerSlot, SecretAt, Stored;
    if e.TokenRevoked? {
      hide FirstIndex;
      var r := Revoke(s.tokens, e.id, e.at);
      assert forall i :: 0 <= i < |r| ==> r[i].id == s.tokens[i].id && r[i].tokenHash == s.tokens[i].tokenHash;
    }
  }

  // ----- the invariant -----

  lemma WrappedOpens(key: Key, nonce: Option<Aead.Nonce>, inner: Key, context: Aead.Aad)
    ensures match Aead.Wrap(key, nonce, inner, context)
            case Ok(wrapped) =>
              nonce.Some? && Aead.UnwrapKey(key, Events.EnvelopeOf(Events.SealedOf(wrapped)), context) == Ok(inner)
            case Err(_) => nonce.None?
  {
    if nonce.Some? {
      hide Aead.Seal, Aead.UnwrapKey;
      Aead.UnwrapUndoesWrap(key, nonce.value, inner, context, key, context);
    }
  }

  predicate KeysOpen(t: Truth) {
    forall i :: 0 <= i < |t.events| ==> KeyOpens(t.rootKey, t.events[i])
  }

  // Memory is the replay of the file, or, after a failed append, that less the record in flight.
  predicate Remembers(v: VaultModel, t: Truth) {
    if v.rootKey.None? then v.state == EMPTY
    else
      && v.rootKey == Some(t.rootKey)
      && (v.state == Fold(t.events)
          || (v.log.broken && t.events != [] && v.state == Fold(t.events[..|t.events| - 1])
              && v.inFlight == Some(t.events[|t.events| - 1])))
  }

  // What the file alone carries, whatever becomes of memory.
  ghost predicate Durable(file: seq<byte>, t: Truth) {
    Hierarchy(t) && KeysOpen(t) && Unique(Fold(t.events)) && Filed(file, t)
  }

  ghost predicate Inv(v: VaultModel, t: Truth) {
    && Durable(v.log.file, t) && Sound(v.log)
    && v.barrier == Some(t.barrier) && Remembers(v, t) && Unique(v.state)
  }

  // ----- reading the file back -----

  function RecordOf(e: Event): Record {
    Record(true, Events.ToBytes(e))
  }

  function SealedRecords(events: seq<Event>): (r: seq<Record>)
    ensures |r| == |events|
  {
    seq(|events|, i requires 0 <= i < |events| => RecordOf(events[i]))
  }

  lemma FiledRecords(file: seq<byte>, t: Truth)
    requires Filed(file, t)
    ensures ReadRecordsOf(file, t.rootKey) == Ok([Record(false, Barrier.ToBytes(t.barrier))] + SealedRecords(t.events))
  {
    hide FramesIn, Readable, ReadRecordsOf, SealedAs, OpenRecord, Barrier.ToBytes, Events.ToBytes;
    ReadsEachFrame(file, t.rootKey);
    var frames := FramesIn(file);
    var expected := [Record(false, Barrier.ToBytes(t.barrier))] + SealedRecords(t.events);
    forall i | 0 <= i < |frames|
      ensures ReadOne(t.rootKey, i, frames[i]) == Ok(expected[i])
    {
      if i > 0 {
        assert SealedAs(frames[1 + (i - 1)], t.rootKey, 1 + (i - 1), Payloads(t.events)[i - 1]);
        SealedAsReads(frames[i], t.rootKey, i, Payloads(t.events)[i - 1]);
      }
    }
    var records := ReadRecordsOf(file, t.rootKey).value;
    assert forall i :: 0 <= i < |frames| ==> Ok(records[i]) == ReadOne(t.rootKey, i, frames[i]);
    assert records == expected;
  }

  lemma {:induction false} NoneArePlain(frames: seq<Frame>, sequence: nat)
    requires forall i :: 0 <= i < |frames| ==> frames[i].kind != KIND_PLAIN
    ensures VisitAll(frames, sequence, KeepPlain) == Ok([])
    decreases |frames|
  {
    if frames != [] {
      NoneArePlain(frames[1..], sequence + 1);
      assert KeepPlain(sequence, frames[0]) == Ok([]);
      var none: seq<seq<byte>> := [];
      assert none + none == none;
    }
  }

  /** The barrier is the one record readable without a key. */
  lemma FiledPlain(file: seq<byte>, t: Truth)
    requires Filed(file, t)
    ensures ReadPlainOf(file) == Ok([Barrier.ToBytes(t.barrier)])
  {
    hide Visited, Barrier.ToBytes, SealRecord, Walk, CheckHeader;
    var frames := FramesIn(file);
    WalksAgree(file, Store.HEADER_LEN, 0, KeepPlain);
    forall i | 0 <= i < |frames[1..]|
      ensures frames[1..][i].kind != KIND_PLAIN
    {
      assert SealedAs(frames[1 + i], t.rootKey, 1 + i, Payloads(t.events)[i]);
    }
    NoneArePlain(frames[1..], 1);
    assert KeepPlain(0, frames[0]) == Ok([Barrier.ToBytes(t.barrier)]);
    assert [Barrier.ToBytes(t.barrier)] + [] == [Barrier.ToBytes(t.barrier)];
  }

  lemma {:induction false} ReplayFolds(s: State, events: seq<Event>)
    ensures ReplayRecords(s, SealedRecords(events)) == Ok(FoldFrom(s, events))
    decreases |events|
  {
    hide Events.ToBytes, Events.FromBytes, Applied;
    var records := SealedRecords(events);
    if events != [] {
      assert records[0] == RecordOf(events[0]) && records[1..] == SealedRecords(events[1..]);
      Events.EventRoundTrip(events[0]);
      ReplayFolds(Applied(s, events[0]), events[1..]);
    }
  }

  lemma {:induction false} SealedRecordsRead(events: seq<Event>)
    ensures EventsOf(SealedRecords(events)) == Ok(events)
    decreases |events|
  {
    hide Events.ToBytes, Events.FromBytes;
    var records := SealedRecords(events);
    if events != [] {
      assert records[0] == RecordOf(events[0]) && records[1..] == SealedRecords(events[1..]);
      Events.EventRoundTrip(events[0]);
      SealedRecordsRead(events[1..]);
      assert [events[0]] + events[1..] == events;
    }
  }

  /** Replaying the file gives the fold of its events, and the history gives them back. */
  lemma FiledReplays(file: seq<byte>, t: Truth)
    requires Filed(file, t)
    ensures Replay(file, t.rootKey) == Ok(Fold(t.events))
    ensures History(file, t.rootKey) == Ok(t.events)
  {
    hide Filed, ReadRecordsOf, SealedRecords, FoldFrom, ReplayRecords, EventsOf;
    FiledRecords(file, t);
    ReplayFolds(EMPTY, t.events);
    SealedRecordsRead(t.events);
    PlainSkipped(EMPTY, Barrier.ToBytes(t.barrier), SealedRecords(t.events));
  }

  lemma PlainSkipped(s: State, payload: seq<byte>, records: seq<Record>)
    ensures ReplayRecords(s, [Record(false, payload)] + records) == ReplayRecords(s, records)
    ensures EventsOf([Record(false, payload)] + records) == EventsOf(records)
    ensures EntriesOf([Record(false, payload)] + records) == EntriesOf(records)
  {
    assert ([Record(false, payload)] + records)[1..] == records;
  }

  // ----- one commit -----

  lemma FiledGrows(file: seq<byte>, t: Truth, next: seq<byte>, f: Frame, e: Event)
    requires Filed(file, t) && Readable(next) && FramesIn(next) == FramesIn(file) + [f]
    requires SealedAs(f, t.rootKey, |FramesIn(file)|, Events.ToBytes(e))
    ensures Filed(next, t.(events := t.events + [e]))
  {
    hide Readable, FramesIn, SealedAs, Events.ToBytes, Barrier.ToBytes;
    var frames, events := FramesIn(next), t.events + [e];
    forall i | 0 <= i < |events|
      ensures SealedAs(frames[1 + i], t.rootKey, 1 + i, Payloads(events)[i])
    {
      if i < |t.events| {
        assert SealedAs(FramesIn(file)[1 + i], t.rootKey, 1 + i, Payloads(t.events)[i]);
      }
    }
  }

  // The event is in the file after the commit, whatever the commit reports.
  predicate CommitLands(v: VaultModel, e: Event, w: World) {
    && v.rootKey.Some?
    && AppendLands(v.log, v.rootKey.value, Events.ToBytes(e), w.nonces(v.log.count), w.fates(v.log.count))
  }

  function Grown(t: Truth, e: Event, lands: bool): Truth {
    if lands then t.(events := t.events + [e]) else t
  }

  // The file's side of a commit.
  lemma AppendFiles(log: LogModel, t: Truth, e: Event, nonce: Option<Aead.Nonce>, fate: WriteFate)
    requires Sound(log) && Filed(log.file, t)
    ensures var (after, r) := AppendOf(log, t.rootKey, Events.ToBytes(e), nonce, fate);
            var lands := AppendLands(log, t.rootKey, Events.ToBytes(e), nonce, fate);
            && Sound(after) && Filed(after.file, Grown(t, e, lands))
            && (lands ==> !log.broken)
            && (r.Ok? <==> lands && fate.Written?)
            && (r.Ok? ==> !after.broken)
            && (r.Err? ==> after == log || (after.broken && !log.broken))
            && (lands && r.Err? ==> after.broken)
  {
    hide AppendOf, AppendLands, FramesIn, SealedAs, SealedFrom, Walk, Events.ToBytes;
    var (after, r) := AppendOf(log, t.rootKey, Events.ToBytes(e), nonce, fate);
    AppendKeeps(log, t.rootKey, Events.ToBytes(e), nonce, fate);
    hide Readable;
    if AppendLands(log, t.rootKey, Events.ToBytes(e), nonce, fate) {
      var f :| FramesIn(after.file) == FramesIn(log.file) + [f] && SealedAs(f, t.rootKey, log.count, Events.ToBytes(e));
      SoundCounts(log);
      FiledGrows(log.file, t, after.file, f, e);
    } else {
      FiledSame(log.file, after.file, t);
    }
  }

  /**
   Write first, then apply. The file gains the event if and only if its whole
   frame got through. A commit that succeeds adds it to memory as well; one that
   fails leaves memory alone, and if it wrote anything the log refuses more.
   */
  lemma CommitKeeps(v: VaultModel, t: Truth, e: Event, w: World) returns (next: Truth)
    requires Inv(v, t) && v.rootKey.Some?
    requires !v.log.broken ==> Admissible(v.state, t.rootKey, e)
    ensures var (after, r) := Commit(v, e, w);
            && Inv(after, next) && next == Grown(t, e, CommitLands(v, e, w))
            && (r.Ok? ==> CommitLands(v, e, w) && after.state == Applied(v.state, e)
                          && !v.log.broken && !after.log.broken)
            && (r.Err? ==> after == v.(log := after.log, inFlight := after.inFlight)
                           && (after == v || (after.log.broken && !v.log.broken && after.inFlight == Some(e))))
            && after.rootKey == v.rootKey
  {
    hide AppendOf, AppendLands, Sound, Filed, Applied, FoldFrom, Admissible, KeyOpens, Unique, Hierarchy,
         Events.ToBytes;
    AppendFiles(v.log, t, e, w.nonces(v.log.count), w.fates(v.log.count));
    next := Grown(t, e, CommitLands(v, e, w));
    if CommitLands(v, e, w) {
      FoldOneMore(EMPTY, t.events, e);
      AppliedUnique(v.state, t.rootKey, e);
      KeyOpensIfAdmissible(v.state, t.rootKey, e);
      assert next.events[..|next.events| - 1] == t.events;
      HierarchyOfKeys(t, next);
    }
  }

  /** What a commit leaves in the file: its history, with the event added exactly when the commit lands. */
  lemma CommitLeaves(v: VaultModel, t: Truth, e: Event, w: World)
    requires Inv(v, t) && v.rootKey.Some?
    ensures History(v.log.file, t.rootKey) == Ok(t.events)
    ensures History(Commit(v, e, w).0.log.file, t.rootKey) == Ok(Grown(t, e, CommitLands(v, e, w)).events)
  {
    hide AppendOf, AppendLands, Sound, Filed, Applied, Fold, Unique, Hierarchy, KeysOpen, Events.ToBytes, History;
    AppendFiles(v.log, t, e, w.nonces(v.log.count), w.fates(v.log.count));
    FiledReplays(v.log.file, t);
    FiledReplays(Commit(v, e, w).0.log.file, Grown(t, e, CommitLands(v, e, w)));
  }

  /**
   A failed commit, exactly: memory is as it was, and the file has the event all
   the same if and only if every byte of its frame got through.
   */
  lemma FailedCommitExactly(v: VaultModel, t: Truth, e: Event, w: World, body: seq<byte>, reached: nat)
    requires Inv(v, t) && v.rootKey.Some? && !v.log.broken && w.fates(v.log.count) == Failed(reached)
    requires SealRecord(t.rootKey, v.log.count, Events.ToBytes(e), w.nonces(v.log.count)) == Ok(body)
    requires |body| + 1 <= Store.MAX_RECORD_LEN
    ensures var (after, r) := Commit(v, e, w);
            && r.Err? && after.state == v.state == Fold(t.events) && after.log.broken
            && (History(after.log.file, t.rootKey) == Ok(t.events + [e]) <==> reached >= 5 + |body|)
            && (History(after.log.file, t.rootKey) == Ok(t.events) <==> reached < 5 + |body|)
  {
    hide Sound, Filed, Applied, Fold, Unique, Hierarchy, KeysOpen, Events.ToBytes, History, FrameBytes, RecordContext;
    CommitLeaves(v, t, e, w);
    assert |t.events + [e]| == |t.events| + 1;
  }

  lemma HierarchyOfKeys(t: Truth, u: Truth)
    requires Hierarchy(t) && u == t.(events := u.events)
    ensures Hierarchy(u)
  {
    hide FromBytes, Aead.Wrap, Barrier.Context;
    assert u.coefficients == t.coefficients && u.master == t.master && u.barrier == t.barrier;
  }

  lemma FiledSame(file: seq<byte>, next: seq<byte>, t: Truth)
    requires Filed(file, t) && Readable(next) && FramesIn(next) == FramesIn(file)
    ensures Filed(next, t)
  {
  }

  lemma KeyOpensIfAdmissible(s: State, rootKey: Key, e: Event)
    requires Admissible(s, rootKey, e)
    ensures KeyOpens(rootKey, e)
  {
  }

  // ----- opening and unsealing -----

  lemma FiledIsReadable(file: seq<byte>, t: Truth)
    requires Filed(file, t)
    ensures Readable(file) && |FramesIn(file)| == 1 + |t.events|
  {
  }

  lemma FiledElsewhere(file: seq<byte>, left: seq<byte>, t: Truth)
    requires Durable(file, t) && Readable(left) && FramesIn(left) == FramesIn(file)
    ensures Durable(left, t)
  {
    hide Readable, FramesIn, FoldFrom, Unique, KeysOpen, Hierarchy, SealedFrom;
  }

  /** Opening a vault's file gives that vault, sealed, with nothing lost but a torn tail. */
  lemma OpenVaultKeeps(file: seq<byte>, t: Truth, fate: WriteFate)
    requires Durable(file, t)
    ensures var (r, left) := OpenVault(Some(file), fate);
            && Durable(left, t)
            && match r
               case Ok(v) => Inv(v, t) && v.rootKey == None && v.pending == [] && v.log.file == left
               case Err(e) => e == StoreFailed(Store.Io) && fate != Written
  {
    hide OpenOf, ReadPlainOf, FoldFrom, KeysOpen, Hierarchy, Filed, Sound, FramesIn, Readable, Barrier.ToBytes,
         Barrier.FromBytes;
    FiledIsReadable(file, t);
    OpenKeeps(file, fate);
    var left := OpenOf(Some(file), fate).1;
    FiledElsewhere(file, left, t);
    FiledPlain(left, t);
    Barrier.BarrierRoundTrip(t.barrier);
    EmptyStores(Slot("", "", ""));
    hide Unique;
    EmptyIsUnique();
  }

  lemma EmptyIsUnique()
    ensures Unique(EMPTY)
  {
  }

  /** No share set unseals the vault into anything but its own root key and the replay of its file. */
  lemma TryUnsealKeeps(v: VaultModel, t: Truth)
    requires Inv(v, t) && v.rootKey.None?
    ensures var (after, r) := TryUnseal(v);
            && Inv(after, t)
            && (r.Ok? ==> after == Unsealed(v, t))
            && (r.Err? ==> after == v)
  {
    hide Shamir.Combined, Aead.Wrap, Aead.UnwrapKey, Replay, FoldFrom, KeysOpen, Unique, Filed, Sound, Barrier.Context,
         ToBytes;
    FiledReplays(v.log.file, t);
    var context := Barrier.Context();
    if Shamir.Combined(v.pending).Ok? {
      var master := Aead.KeyFromBytes(ToBytes(Shamir.Combined(v.pending).value));
      if master.Some? {
        Aead.UnwrapUndoesWrap(t.master, t.wrapNonce, t.rootKey, context, master.value, context);
      }
    }
  }

  // Shares of the current set, no two alike, and as many as are needed.
  predicate Quorum(chosen: seq<Share>, t: Truth) {
    && |chosen| == t.barrier.threshold
    && (forall i :: 0 <= i < |chosen| ==> chosen[i] in IssuedShares(t))
    && (forall i, j :: 0 <= i < j < |chosen| ==> chosen[i] != chosen[j])
  }

  lemma QuorumCombines(chosen: seq<Share>, t: Truth)
    requires Quorum(chosen, t) && WellSplit(t)
    ensures Shamir.Combined(chosen) == Ok(FromBytes(t.master))
    ensures ToBytes(FromBytes(t.master)) == t.master
  {
    hide Shamir.Combined, Shamir.SharesOf, FromBytes, ToBytes;
    ElementsRoundTrip(t.master);
    Shamir.AnyThresholdRecovers(FromBytes(t.master), t.coefficients, t.barrier.threshold, t.barrier.shares, chosen);
  }

  lemma QuorumUnsealsAtOnce(v: VaultModel, t: Truth)
    requires Inv(v, t) && v.rootKey.None? && Quorum(v.pending, t)
    ensures TryUnseal(v) == (Unsealed(v, t), Ok(()))
  {
    hide Shamir.Combined, Aead.Wrap, Aead.UnwrapKey, Replay, FoldFrom, KeysOpen, Unique, Filed, Sound, Barrier.Context,
         ToBytes, FromBytes, Quorum;
    FiledReplays(v.log.file, t);
    QuorumCombines(v.pending, t);
    Aead.UnwrapUndoesWrap(t.master, t.wrapNonce, t.rootKey, Barrier.Context(), t.master, Barrier.Context());
  }

  // Offer printed shares one after another.
  function SubmitAll(v: VaultModel, printed: seq<string>, checksum: ShareText.Checksum): VaultModel
    decreases |printed|
  {
    hide SubmitShare;
    if printed == [] then v else SubmitAll(SubmitShare(v, printed[0], checksum).0, printed[1..], checksum)
  }

  function Unsealed(v: VaultModel, t: Truth): VaultModel {
    v.(rootKey := Some(t.rootKey), state := Fold(t.events), pending := [], inFlight := None)
  }

  function AfterShare(v: VaultModel, t: Truth, chosen: seq<Share>, offered: nat): VaultModel
    requires offered < |chosen|
  {
    if offered + 1 < |chosen| then v.(pending := v.pending + [chosen[offered]]) else Unsealed(v, t)
  }

  function StatusAfter(t: Truth, chosen: seq<Share>, offered: nat): UnsealStatus {
    if offered + 1 < |chosen| then UnsealStatus(true, offered + 1, t.barrier.threshold)
    else UnsealStatus(false, 0, t.barrier.threshold)
  }

  // One share of a quorum, offered in its turn.
  lemma SubmitNext(v: VaultModel, t: Truth, chosen: seq<Share>, offered: nat, checksum: ShareText.Checksum)
    returns (next: VaultModel, status: UnsealStatus)
    requires offered < |chosen| && v.pending == chosen[..offered]
    requires Inv(v, t) && v.rootKey.None? && Quorum(chosen, t)
    ensures SubmitShare(v, ShareText.Print(chosen[offered], checksum), checksum) == (next, Ok(status))
    ensures next == AfterShare(v, t, chosen, offered) && status == StatusAfter(t, chosen, offered)
  {
    hide TryUnseal, ShareText.Parse, ShareText.Print, Durable, Sound, Unique, FoldFrom, IssuedShares, WellSplit;
    var share := chosen[offered];
    IssuedParse(t, share, checksum);
    var held := v.(pending := chosen[..offered + 1]);
    assert share !in v.pending;
    assert chosen[..offered + 1] == chosen[..offered] + [share];
    next, status := held, UnsealStatus(true, offered + 1, t.barrier.threshold);
    if offered + 1 == |chosen| {
      assert held.pending == chosen;
      QuorumUnsealsAtOnce(held, t);
      next, status := Unsealed(v, t), UnsealStatus(false, 0, t.barrier.threshold);
    }
  }

  /** Offering a quorum in any order, from where the ceremony stands, ends with the vault unsealed. */
  lemma {:induction false} QuorumUnseals(v: VaultModel, t: Truth, chosen: seq<Share>, offered: nat,
                                         checksum: ShareText.Checksum)
    requires offered < |chosen| && v.pending == chosen[..offered]
    requires Inv(v, t) && v.rootKey.None? && Quorum(chosen, t)
    ensures SubmitAll(v, PrintAll(chosen[offered..], checksum), checksum) == Unsealed(v, t)
    decreases |chosen| - offered
  {
    hide SubmitShare, PrintAll, Durable, Sound, Unique, FoldFrom, Quorum;
    var next, _ := SubmitNext(v, t, chosen, offered, checksum);
    PrintTail(chosen[offered..], checksum);
    assert chosen[offered..][1..] == chosen[offered + 1..];
    assert chosen[..offered + 1] == chosen[..offered] + [chosen[offered]];
    if offered + 1 < |chosen| {
      QuorumUnseals(v.(pending := chosen[..offered + 1]), t, chosen, offered + 1, checksum);
    } else {
      NothingLeft(chosen[offered + 1..], checksum);
    }
  }

  lemma NothingLeft(chosen: seq<Share>, checksum: ShareText.Checksum)
    requires chosen == []
    ensures PrintAll(chosen, checksum) == []
  {
  }

  lemma PrintTail(split: seq<Share>, checksum: ShareText.Checksum)
    requires split != []
    ensures PrintAll(split, checksum)[0] == ShareText.Print(split[0], checksum)
    ensures PrintAll(split, checksum)[1..] == PrintAll(split[1..], checksum)
  {
    hide ShareText.Print;
  }

  lemma IssuedParse(t: Truth, share: Share, checksum: ShareText.Checksum)
    requires share in IssuedShares(t)
    ensures ShareText.Parse(ShareText.Print(share, checksum), checksum) == Ok(share)
  {
    hide ShareText.Parse, ShareText.Print, FromBytes, Shamir.SharesOf;
    Shamir.SharesAreDistinct(FromBytes(t.master), t.coefficients, t.barrier.threshold - 1, t.barrier.shares);
    ShareText.PrintParse(share, checksum);
    assert |share.data| == |FromBytes(t.master)|;
  }

  lemma SealKeeps(v: VaultModel, t: Truth)
    requires Inv(v, t)
    ensures Inv(SealVault(v), t)
  {
    hide Durable, Sound;
  }

  // ----- what unseals, exactly -----

  lemma MasterIs(combined: seq<bv8>, master: Key)
    ensures Aead.KeyFromBytes(ToBytes(combined)) == Some(master) <==> combined == FromBytes(master)
  {
    hide ToBytes, FromBytes;
    BytesRoundTrip(combined);
    ElementsRoundTrip(master);
  }

  /** Shares unseal the vault if and only if they recombine to the master key it was split from. */
  lemma UnsealsExactly(v: VaultModel, t: Truth)
    requires Inv(v, t) && v.rootKey.None?
    ensures TryUnseal(v).1.Ok? <==> Shamir.Combined(v.pending) == Ok(FromBytes(t.master))
  {
    hide Shamir.Combined, Aead.Wrap, Aead.UnwrapKey, Replay, FoldFrom, KeysOpen, Unique, Filed, Sound, Barrier.Context,
         ToBytes, FromBytes, WellSplit, Aead.KeyFromBytes;
    FiledReplays(v.log.file, t);
    var context := Barrier.Context();
    if Shamir.Combined(v.pending).Ok? {
      var combined := Shamir.Combined(v.pending).value;
      MasterIs(combined, t.master);
      var master := Aead.KeyFromBytes(ToBytes(combined));
      if master.Some? {
        Aead.UnwrapUndoesWrap(t.master, t.wrapNonce, t.rootKey, context, master.value, context);
      }
    }
  }

  lemma ResetKeeps(v: VaultModel, t: Truth)
    requires Inv(v, t)
    ensures Inv(v.(pending := []), t)
  {
    hide Durable, Sound, Unique, FoldFrom;
  }

  lemma QuorumIsSome(chosen: seq<Share>, t: Truth)
    requires Quorum(chosen, t) && WellSplit(t)
    ensures |chosen| > 0
  {
    hide FromBytes;
  }

  lemma WholeQuorumUnseals(v: VaultModel, t: Truth, chosen: seq<Share>, checksum: ShareText.Checksum)
    requires v.pending == [] && v.rootKey.None? && Inv(v, t) && WellSplit(t) && Quorum(chosen, t)
    ensures SubmitAll(v, PrintAll(chosen, checksum), checksum) == Unsealed(v, t)
    ensures Inv(Unsealed(v, t), t) && Unsealed(v, t).rootKey == Some(t.rootKey)
    ensures Unsealed(v, t).state == Fold(t.events)
  {
    hide SubmitAll, Durable, Sound, Unique, IssuedShares, PrintAll, WellSplit, Fold;
    QuorumIsSome(chosen, t);
    assert chosen[..0] == [] && chosen[0..] == chosen;
    QuorumUnseals(v, t, chosen, 0, checksum);
    UnsealedHolds(v, t);
  }

  lemma UnsealedHolds(v: VaultModel, t: Truth)
    requires Inv(v, t)
    ensures Inv(Unsealed(v, t), t)
  {
    hide Sound, Filed, KeysOpen, Unique, FoldFrom, Hierarchy;
  }

  /** Whatever was offered before, after a reset any quorum unseals. */
  lemma ResetThenQuorumUnseals(v: VaultModel, t: Truth, chosen: seq<Share>, checksum: ShareText.Checksum)
    requires Inv(v, t) && v.rootKey.None? && Quorum(chosen, t)
    ensures SubmitAll(v.(pending := []), PrintAll(chosen, checksum), checksum) == Unsealed(v, t)
  {
    hide SubmitAll, Inv, Quorum, PrintAll, Fold, WellSplit;
    ResetKeeps(v, t);
    InvIsSplit(v, t);
    WholeQuorumUnseals(v.(pending := []), t, chosen, checksum);
  }

  lemma InvIsSplit(v: VaultModel, t: Truth)
    requires Inv(v, t)
    ensures WellSplit(t)
  {
    hide FromBytes, KeysOpen, Unique, Filed, Sound, WrapsRoot, Remembers;
  }

  // ----- every data key opens -----

  predicate ProjectsOpen(s: State, rootKey: Key) {
    forall i :: 0 <= i < |s.projects| ==>
      Aead.UnwrapKey(rootKey, Events.EnvelopeOf(s.projects[i].dataKey), ProjectKeyContext(s.projects[i].id)).Ok?
  }

  lemma {:induction false} FoldOpens(s: State, events: seq<Event>, rootKey: Key)
    requires ProjectsOpen(s, rootKey) && forall i :: 0 <= i < |events| ==> KeyOpens(rootKey, events[i])
    ensures ProjectsOpen(FoldFrom(s, events), rootKey)
    decreases |events|
  {
    hide Aead.UnwrapKey, ProjectKeyContext, Put, Filter, Revoke;
    if events != [] {
      assert KeyOpens(rootKey, events[0]);
      FoldOpens(Applied(s, events[0]), events[1..], rootKey);
    }
  }

  lemma FoldedKeysOpen(t: Truth, events: seq<Event>)
    requires KeysOpen(t) && events <= t.events
    ensures ProjectsOpen(Fold(events), t.rootKey)
  {
    hide KeyOpens, FoldFrom, ProjectsOpen;
    NothingToOpen(t.rootKey);
    forall i | 0 <= i < |events|
      ensures KeyOpens(t.rootKey, events[i])
    {
      assert t.events[i] == events[i];
    }
    FoldOpens(EMPTY, events, t.rootKey);
  }

  /** In an unsealed vault the data key of every project opens. */
  lemma DataKeysOpen(v: VaultModel, t: Truth)
    requires Inv(v, t) && v.rootKey.Some?
    ensures v.rootKey == Some(t.rootKey) && ProjectsOpen(v.state, t.rootKey)
  {
    hide Filed, Sound, Unique, Hierarchy, KeysOpen, Fold, ProjectsOpen;
    FoldedKeysOpen(t, t.events);
    if t.events != [] {
      FoldedKeysOpen(t, t.events[..|t.events| - 1]);
    }
  }

  lemma NothingToOpen(rootKey: Key)
    ensures ProjectsOpen(EMPTY, rootKey)
  {
  }
}
