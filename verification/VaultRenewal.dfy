/** That a rekey can be done at all, and exactly when. */
module VaultRenewal {
  import opened Wrappers
  import opened Bytes
  import opened StoreState
  import opened VaultSpec
  import opened VaultSafety
  import opened VaultStart
  import opened RecordLengths
  import opened LogSafety
  import Aead
  import Barrier
  import Events
  import LogFile
  import Shamir
  import ShareText
  import Timestamps

  // ----- what is in the file is within the limit, and stays so -----

  predicate WithinLimit(events: seq<Event>) {
    forall i :: 0 <= i < |events| ==> |Events.ToBytes(events[i])| <= Aead.MAX_PLAINTEXT_LEN
  }

  lemma FiledIsWithin(file: seq<byte>, t: Truth)
    requires Filed(file, t)
    ensures WithinLimit(t.events)
  {
    hide Readable, FramesIn, Events.ToBytes, Barrier.ToBytes, LogFile.SealRecord;
    forall i | 0 <= i < |t.events|
      ensures |Events.ToBytes(t.events[i])| <= Aead.MAX_PLAINTEXT_LEN
    {
      var f := FramesIn(file)[1 + i];
      assert SealedAs(f, t.rootKey, 1 + i, Payloads(t.events)[i]);
      var nonce :| LogFile.SealRecord(t.rootKey, 1 + i, Payloads(t.events)[i], nonce) == Ok(f.payload);
      SealedBody(t.rootKey, 1 + i, Payloads(t.events)[i], nonce);
    }
  }

  // A wrapped key that opens is as long as any other for the same owner.
  lemma OpenedKeyLength(key: Key, envelope: Aead.Envelope, context: Aead.Aad)
    requires Aead.UnwrapKey(key, envelope, context).Ok?
    ensures |envelope.nonce| == 12 && |envelope.ciphertext| == Overhead(context) + 32
  {
    hide Aead.Delimited;
    DelimitedLength(context);
  }

  lemma CarriesSameSize(e: Event, oldRoot: Key, newRoot: Key, nonce: Option<Aead.Nonce>)
    requires nonce.Some? && KeyOpens(oldRoot, e)
    ensures CarryOne(e, oldRoot, newRoot, nonce).Ok?
    ensures |Events.ToBytes(CarryOne(e, oldRoot, newRoot, nonce).value)| == |Events.ToBytes(e)|
  {
    hide Events.ToBytes, Escaped, ProjectKeyContext, Aead.UnwrapKey, Aead.Seal, Overhead;
    if e.ProjectCreated? {
      var context := ProjectKeyContext(e.id);
      OpenedKeyLength(oldRoot, Events.EnvelopeOf(e.dataKey), context);
      var inner := Aead.UnwrapKey(oldRoot, Events.EnvelopeOf(e.dataKey), context).value;
      CiphertextLength(newRoot, nonce.value, inner, context);
      ProjectCreatedSize(e);
      ProjectCreatedSize(CarryOne(e, oldRoot, newRoot, nonce).value);
    }
  }

  // Every data key opens and every nonce is drawn, so the whole history is carried, as long as it was.
  lemma {:induction false} CarriesWithin(events: seq<Event>, position: nat, oldRoot: Key, newRoot: Key,
                                         nonces: nat -> Option<Aead.Nonce>)
    requires WithinLimit(events)
    requires forall i :: 0 <= i < |events| ==> KeyOpens(oldRoot, events[i])
    requires forall i :: position <= i < position + |events| ==> nonces(i).Some?
    ensures var moved := Carry(events, position, oldRoot, newRoot, nonces);
            moved.Ok? && |moved.value| == |events| && WithinLimit(moved.value)
    decreases |events|
  {
    hide CarryOne, KeyOpens, Events.ToBytes;
    if events != [] {
      assert KeyOpens(oldRoot, events[0]) && nonces(position).Some?;
      CarriesSameSize(events[0], oldRoot, newRoot, nonces(position));
      CarriesWithin(events[1..], position + 1, oldRoot, newRoot, nonces);
    }
  }

  // The bytes of the event that records a rekey.
  function RekeyEventSize(caller: Caller): nat {
    118 + Escaped(Actor(caller))
  }

  lemma RekeyWordsAreBare()
    ensures Escaped("vault.rekey") == 11 && Escaped("unseal shares") == 13 && Escaped("ok") == 2
  {
    hide Escaped;
    BareLength("vault.rekey");
    BareLength("unseal shares");
    BareLength("ok");
  }

  lemma RekeyEventIs(caller: Caller, now: Timestamps.Timestamp)
    ensures |Events.ToBytes(RekeyEvent(caller, now))| == RekeyEventSize(caller)
  {
    hide Escaped, Actor, Events.ToBytes;
    RekeyWordsAreBare();
    AuditedSize(RekeyEvent(caller, now));
  }

  // ----- the rewrite -----

  // Every step of the rewrite of this many records completes.
  predicate RewriteCompletes(fates: LogFile.RewriteFates, records: nat) {
    && fates.removed && fates.created.Written? && fates.synced && fates.renamed
    && AllComplete(fates.nonces, fates.writes, 0, records)
  }

  lemma RewritesExactly(log: LogFile.LogModel, c: Ceremony, threshold: byte, shares: byte, payloads: seq<seq<byte>>,
                        fates: LogFile.RewriteFates)
    requires c.master.Some? && c.rootKey.Some? && c.wrapNonce.Some?
    requires RewriteCompletes(fates, 1 + |payloads|) && Aead.Countable(1 + |payloads|)
    ensures WrapRoot(c, threshold, shares).Ok?
    ensures LogFile.CompactOf(log, c.rootKey.value, [Barrier.ToBytes(WrapRoot(c, threshold, shares).value)],
                              payloads, fates).1.Ok?
       <==> forall i :: 0 <= i < |payloads| ==> |payloads[i]| <= Aead.MAX_PLAINTEXT_LEN
  {
    hide WrapRoot, Barrier.ToBytes, LogFile.AppendPlainOf, LogFile.Appends, Aead.Countable;
    var created := LogFile.LogModel(LogFile.HEADER, 0, false, false);
    BarrierWrites(created, c, threshold, shares);
    var bytes := Barrier.ToBytes(WrapRoot(c, threshold, shares).value);
    assert fates.writes(0).Written?;
    var (begun, _) := LogFile.AppendPlainOf(created, bytes, fates.writes(0));
    var plain := [bytes];
    assert plain[1..] == [];
    assert LogFile.AppendPlains(begun, plain[1..], fates.writes) == (begun, Ok(()));
    assert LogFile.AppendPlains(created, plain, fates.writes) == (begun, Ok(()));
    AppendsAllExactly(begun, c.rootKey.value, payloads, fates.nonces, fates.writes);
  }

  // Entropy gave the ceremony everything it draws.
  predicate AllDrawn(c: Ceremony, threshold: byte) {
    && c.master.Some? && c.rootKey.Some? && c.wrapNonce.Some? && Fills(c, threshold)
    && (threshold > 1 ==> c.coefficients.Some?)
  }

  lemma SplitsExactly(c: Ceremony, threshold: byte, shares: byte)
    requires AllDrawn(c, threshold)
    ensures SplitMaster(c, threshold, shares).Ok? <==> 1 <= threshold <= shares
  {
    hide Shamir.SharesOf, FromBytes;
    assert |FromBytes(c.master.value)| == MASTER_KEY_LEN;
  }

  lemma PayloadsWithin(events: seq<Event>, last: Event)
    requires WithinLimit(events)
    ensures (forall i :: 0 <= i < |events| + 1 ==> |Payloads(events + [last])[i]| <= Aead.MAX_PLAINTEXT_LEN)
       <==> |Events.ToBytes(last)| <= Aead.MAX_PLAINTEXT_LEN
  {
    hide Events.ToBytes;
    var p := Payloads(events + [last]);
    assert p[|events|] == Events.ToBytes(last);
    assert forall i :: 0 <= i < |events| ==> p[i] == Events.ToBytes(events[i]);
  }

  // What a rekey comes to once everything it reads, draws and carries is there.
  lemma RekeyIsRewrite(v: VaultModel, events: seq<Event>, moved: seq<Event>, caller: Caller, threshold: byte,
                       shares: byte, c: Ceremony, rewraps: nat -> Option<Aead.Nonce>, fates: LogFile.RewriteFates,
                       checksum: ShareText.Checksum)
    requires v.rootKey.Some? && AllDrawn(c, threshold) && History(v.log.file, v.rootKey.value) == Ok(events)
    requires Carry(events, 0, v.rootKey.value, c.rootKey.value, rewraps) == Ok(moved)
    requires WrapRoot(c, threshold, shares).Ok?
    ensures Rekey(v, caller, threshold, shares, c, rewraps, fates, checksum).1.Ok?
       <==> && GrantedTo(Administer, caller.kind) && SplitMaster(c, threshold, shares).Ok?
            && LogFile.CompactOf(v.log, c.rootKey.value, [Barrier.ToBytes(WrapRoot(c, threshold, shares).value)],
                                 Payloads(moved + [RekeyEvent(caller, c.auditedAt)]), fates).1.Ok?
  {
    hide History, Carry, SplitMaster, WrapRoot, LogFile.CompactOf, Payloads, RekeyEvent, Fold, PrintAll,
         Barrier.ToBytes, Fills, GrantedTo;
  }

  // Every data key of this many events can be wrapped anew, and every step of the rewrite completes.
  predicate Completes(rewraps: nat -> Option<Aead.Nonce>, fates: LogFile.RewriteFates, events: nat) {
    && (forall i :: 0 <= i < events ==> rewraps(i).Some?)
    && RewriteCompletes(fates, events + 2) && Aead.Countable(events + 2)
  }

  /**
   When a rekey succeeds, exactly. In an unsealed vault, given entropy for every
   draw and a disk that completes every step of the rewrite, it succeeds if and
   only if the caller is an administrator, the counts are workable, and the
   event that records it is within the limit of one sealed record: whatever the
   history holds, it can be carried.
   */
  lemma RekeySucceedsExactly(v: VaultModel, t: Truth, caller: Caller, threshold: byte, shares: byte, c: Ceremony,
                             rewraps: nat -> Option<Aead.Nonce>, fates: LogFile.RewriteFates,
                             checksum: ShareText.Checksum)
    requires AllDrawn(c, threshold) && v.rootKey.Some? && Inv(v, t)
    requires Completes(rewraps, fates, |t.events|)
    ensures Rekey(v, caller, threshold, shares, c, rewraps, fates, checksum).1.Ok?
       <==> && caller.kind == Events.Session && 1 <= threshold <= shares
            && RekeyEventSize(caller) <= Aead.MAX_PLAINTEXT_LEN
  {
    hide Inv, AllDrawn, RewriteCompletes, Aead.Countable, Rekey, RekeyEventSize, Carry, LogFile.CompactOf,
         WithinLimit, SplitMaster, WrapRoot, Payloads, RekeyEvent, Events.ToBytes, Barrier.ToBytes, KeyOpens, History;
    var last := RekeyEvent(caller, c.auditedAt);
    UnsealedFile(v, t);
    EverythingDrawn(c, threshold);
    CarriesWithin(t.events, 0, t.rootKey, c.rootKey.value, rewraps);
    var moved := Carry(t.events, 0, t.rootKey, c.rootKey.value, rewraps).value;
    RewritesExactly(v.log, c, threshold, shares, Payloads(moved + [last]), fates);
    RekeyIsRewrite(v, t.events, moved, caller, threshold, shares, c, rewraps, fates, checksum);
    SplitsExactly(c, threshold, shares);
    PayloadsWithin(moved, last);
    RekeyEventIs(caller, c.auditedAt);
  }

  lemma EverythingDrawn(c: Ceremony, threshold: byte)
    requires AllDrawn(c, threshold)
    ensures c.master.Some? && c.rootKey.Some? && c.wrapNonce.Some? && Fills(c, threshold)
  {
    hide Fills;
  }

  // What the invariant says of the file of an unsealed vault.
  lemma UnsealedFile(v: VaultModel, t: Truth)
    requires Inv(v, t) && v.rootKey.Some?
    ensures v.rootKey == Some(t.rootKey) && History(v.log.file, t.rootKey) == Ok(t.events)
    ensures WithinLimit(t.events) && forall i :: 0 <= i < |t.events| ==> KeyOpens(t.rootKey, t.events[i])
  {
    hide History, Filed, Sound, Unique, Hierarchy, KeyOpens, Fold, WithinLimit;
    FiledReplays(v.log.file, t);
    FiledIsWithin(v.log.file, t);
  }
}
