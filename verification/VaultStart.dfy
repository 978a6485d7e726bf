/** That a vault can be started at all: given entropy and a disk that takes two writes, init succeeds. */
module VaultStart {
  import opened Wrappers
  import opened Bytes
  import opened JsonValue
  import opened StoreState
  import opened VaultErrors
  import opened VaultSpec
  import opened VaultRuns
  import opened RecordLengths
  import opened LogSafety
  import Aead
  import Barrier
  import Decimal
  import Events
  import Hex
  import LogFile
  import Shamir
  import ShareText
  import Timestamps
  import Utf8

  // ----- how long things are at most -----

  lemma {:induction false} CharsAtMost(s: string)
    ensures |WriteChars(s)| <= 6 * |s|
  {
    if s != "" {
      CharsAtMost(s[1..]);
    }
  }

  lemma {:induction false} EncodingAtMost(s: string)
    ensures |Utf8.Encode(s)| <= 4 * |s|
  {
    hide Utf8.EncodeChar;
    if s != "" {
      EncodingAtMost(s[1..]);
    }
  }

  lemma StringAtMost(s: string)
    ensures |WriteString(s)| <= 6 * |s| + 2 && JsonValue.Write(String(s)) == WriteString(s)
  {
    CharsAtMost(s);
    hide WriteChars;
  }

  lemma SmallIntAtMost(i: byte)
    ensures |JsonValue.Write(Int(i))| <= 256
  {
    hide Decimal.Render;
    RenderShort(i);
  }

  // Every field from `position` on is written in at most `each` characters, comma included.
  predicate FieldsWithin(fields: seq<(string, Value)>, each: nat) {
    forall k :: 0 <= k < |fields| ==>
      FloatFree(fields[k].1) && |WriteString(fields[k].0)| + |JsonValue.Write(fields[k].1)| + 2 <= each
  }

  lemma {:induction false} FieldsAtMost(fields: seq<(string, Value)>, position: nat, each: nat)
    requires position <= |fields| && FieldsWithin(fields, each)
    ensures |WriteFields(fields, position)| <= each * (|fields| - position)
    decreases |fields| - position
  {
    hide WriteString, JsonValue.Write;
    if position < |fields| {
      FieldsAtMost(fields, position + 1, each);
      OneMoreTimes(each, |fields| - position - 1);
      assert |WriteField(fields[position])| + 1 <= each;
    }
  }

  lemma OneMoreTimes(each: nat, n: nat)
    ensures each * (n + 1) == each * n + each
  {
  }

  lemma ObjectAtMost(fields: seq<(string, Value)>, each: nat)
    requires FieldsWithin(fields, each)
    ensures FloatFree(Object(fields))
    ensures |Utf8.Encode(JsonValue.Write(Object(fields)))| <= 4 * (each * |fields| + 2)
  {
    hide Utf8.Encode, WriteString;
    FieldsAtMost(fields, 0, each);
    EncodingAtMost(JsonValue.Write(Object(fields)));
  }

  lemma BarrierContextLength()
    ensures |Barrier.Context()| <= 80
  {
    hide BigEndian, Utf8.Encode, Aead.PushField;
    var domain, purpose, owner := "localsecrets.keywrap.v1", "root-key", "barrier";
    Utf8.EncodeAscii(domain);
    Utf8.EncodeAscii(purpose);
    Utf8.EncodeAscii(owner);
    var d, p, o := Utf8.Encode(domain), Utf8.Encode(purpose), Utf8.Encode(owner);
    var begun := Aead.PushField([], d) + BigEndian(2, 8);
    PushFieldLength([], d);
    PushFieldLength(begun, p);
    PushFieldLength(Aead.PushField(begun, p), o);
    assert [purpose, owner][1..] == [owner] && [owner][1..] == [];
    assert Aead.PushFields(Aead.PushField(begun, p), [owner]) == Aead.PushField(Aead.PushField(begun, p), o);
  }

  lemma BarrierAtMost(b: Barrier.Barrier)
    requires |b.rootKey.nonce| == 12 && |b.rootKey.ciphertext| <= 300
    ensures |Barrier.ToBytes(b)| <= 150_000
  {
    var f := Barrier.BarrierFields(b);
    hide JsonValue.Write, WriteString, Hex.EncodeBytes, Timestamps.ToRfc3339, Utf8.Encode;
    HexIsBare(b.rootKey.nonce);
    HexIsBare(b.rootKey.ciphertext);
    StringAtMost("barrier");
    StringAtMost(Hex.EncodeBytes(b.rootKey.nonce));
    StringAtMost(Hex.EncodeBytes(b.rootKey.ciphertext));
    StringAtMost(Timestamps.ToRfc3339(b.createdAt));
    SmallIntAtMost(1);
    SmallIntAtMost(b.threshold);
    SmallIntAtMost(b.shares);
    forall k | 0 <= k < |f|
      ensures |WriteString(f[k].0)| <= 6 * 19 + 2
    {
      StringAtMost(f[k].0);
    }
    assert FieldsWithin(f, 4000);
    ObjectAtMost(f, 4000);
  }

  lemma RootTokenAtMost(id: string, hash: seq<byte>, now: Timestamps.Timestamp)
    requires |id| <= 64 && |hash| <= 64
    ensures |Events.ToBytes(RootTokenEvent(id, hash, now))| <= 45_000
  {
    var e := RootTokenEvent(id, hash, now);
    var f := Events.ToFields(e);
    hide JsonValue.Write, WriteString, Hex.EncodeBytes, Timestamps.ToRfc3339, Utf8.Encode;
    HexIsBare(hash);
    StringAtMost("token.issued");
    StringAtMost(id);
    StringAtMost(Hex.EncodeBytes(hash));
    StringAtMost("root");
    StringAtMost(Timestamps.ToRfc3339(now));
    NullAtMost();
    forall k | 0 <= k < |f|
      ensures |WriteString(f[k].0)| <= 6 * 14 + 2
    {
      StringAtMost(f[k].0);
    }
    assert FieldsWithin(f, 1100);
    ObjectAtMost(f, 1100);
  }

  lemma NullAtMost()
    ensures |JsonValue.Write(Null)| == 4
  {
  }

  // ----- init succeeds -----

  lemma BarrierWrites(log: LogFile.LogModel, c: Ceremony, threshold: byte, shares: byte)
    requires !log.broken && c.master.Some? && c.rootKey.Some? && c.wrapNonce.Some?
    ensures WrapRoot(c, threshold, shares).Ok?
    ensures var (next, r) := LogFile.AppendPlainOf(log, Barrier.ToBytes(WrapRoot(c, threshold, shares).value),
                                                   LogFile.Written);
            r.Ok? && next.count == log.count + 1 && !next.broken
  {
    hide Aead.CipherHeader, Barrier.Context, Barrier.ToBytes, LogFile.FrameBytes;
    BarrierContextLength();
    CiphertextLength(c.master.value, c.wrapNonce.value, c.rootKey.value, Barrier.Context());
    BarrierAtMost(WrapRoot(c, threshold, shares).value);
  }

  lemma BlankStarts(v: VaultModel, threshold: byte, shares: byte, c: Ceremony, token: string, id: string, w: World,
                    checksum: ShareText.Checksum, digest: Digest)
    requires Blank(v) && Fills(c, threshold) && 1 <= threshold <= shares
    requires c.master.Some? && c.rootKey.Some? && c.wrapNonce.Some? && (threshold > 1 ==> c.coefficients.Some?)
    requires |id| <= 64 && |digest(token)| <= 64
    requires w.fates(0).Written? && w.fates(1).Written? && w.nonces(1).Some?
    ensures Init(v, threshold, shares, c, Some(token), Some(id), w, checksum, digest).1.Ok?
  {
    hide Blank, SplitMaster, WrapRoot, Barrier.ToBytes, LogFile.AppendOf, LogFile.AppendPlainOf, Events.ToBytes,
         RootTokenEvent, PrintAll, Applied, Fills;
    BlankCounts(v);
    BarrierWrites(v.log, c, threshold, shares);
    SplitSucceeds(c, threshold, shares);
    var log := LogFile.AppendPlainOf(v.log, Barrier.ToBytes(WrapRoot(c, threshold, shares).value), w.fates(0)).0;
    RootTokenAtMost(id, digest(token), w.clock(1));
    Aead.SmallCounts();
    AppendsExactly(log, c.rootKey.value, Events.ToBytes(RootTokenEvent(id, digest(token), w.clock(1))),
                   w.nonces(1).value);
  }

  lemma CountsAreChecked(v: VaultModel, threshold: byte, shares: byte, c: Ceremony, token: Option<string>,
                         id: Option<string>, w: World, checksum: ShareText.Checksum, digest: Digest)
    requires Fills(c, threshold)
    ensures v.barrier.Some? ==>
              Init(v, threshold, shares, c, token, id, w, checksum, digest) == (v, Err(AlreadyInitialized))
    ensures v.barrier.None? && c.master.Some? && c.rootKey.Some? && !(1 <= threshold <= shares) ==>
              Init(v, threshold, shares, c, token, id, w, checksum, digest) == (v, Err(Invalid("share configuration")))
  {
    hide WrapRoot, Barrier.ToBytes, Commit, LogFile.AppendPlainOf, PrintAll, RootTokenEvent, Shamir.SharesOf, FromBytes;
  }

  /**
   When a vault can be started, exactly. On a store that is blank or already
   holds a vault, given entropy for every draw and a disk that takes both
   writes, init succeeds if and only if there is no vault yet and the counts
   are workable; otherwise it changes nothing.
   */
  lemma InitSucceedsExactly(v: VaultModel, threshold: byte, shares: byte, c: Ceremony, token: string, id: string,
                            w: World, checksum: ShareText.Checksum, digest: Digest)
    requires (Blank(v) || v.barrier.Some?) && Fills(c, threshold)
    requires c.master.Some? && c.rootKey.Some? && c.wrapNonce.Some? && (threshold > 1 ==> c.coefficients.Some?)
    requires |id| <= 64 && |digest(token)| <= 64
    requires w.fates(0).Written? && w.fates(1).Written? && w.nonces(1).Some?
    ensures var (after, r) := Init(v, threshold, shares, c, Some(token), Some(id), w, checksum, digest);
            && (r.Ok? <==> v.barrier.None? && 1 <= threshold <= shares)
            && (r.Err? ==> after == v
                           && r == Err(if v.barrier.Some? then AlreadyInitialized else Invalid("share configuration")))
  {
    hide Init, Fills;
    BlankNeedsNoBarrier(v);
    hide Blank;
    CountsAreChecked(v, threshold, shares, c, Some(token), Some(id), w, checksum, digest);
    if v.barrier.None? && 1 <= threshold <= shares {
      BlankStarts(v, threshold, shares, c, token, id, w, checksum, digest);
    }
  }

  lemma BlankNeedsNoBarrier(v: VaultModel)
    ensures Blank(v) ==> v.barrier.None?
  {
  }

  lemma BlankCounts(v: VaultModel)
    requires Blank(v)
    ensures v.log.count == 0 && !v.log.broken && v.barrier.None?
  {
  }

  lemma SplitSucceeds(c: Ceremony, threshold: byte, shares: byte)
    requires Fills(c, threshold) && 1 <= threshold <= shares && c.master.Some?
    requires (threshold > 1 ==> c.coefficients.Some?)
    ensures SplitMaster(c, threshold, shares).Ok?
  {
    hide Shamir.SharesOf;
  }
}
