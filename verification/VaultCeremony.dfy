/** The unseal ceremony: what shares offered one after another come to, repeats and misprints among them. */
module VaultCeremony {
  import opened Wrappers
  import opened Bytes
  import opened VaultErrors
  import opened StoreState
  import opened VaultSpec
  import opened VaultSafety
  import Aead
  import Barrier
  import LogSafety
  import Shamir
  import ShareText

  // The shares held once these texts are offered: what each spells, if anything, unless it is held already.
  function Gathered(held: seq<Share>, texts: seq<string>, checksum: ShareText.Checksum): seq<Share>
    decreases |texts|
  {
    if texts == [] then held
    else
      match ShareText.Parse(texts[0], checksum)
      case Err(_) => Gathered(held, texts[1..], checksum)
      case Ok(share) => Gathered(if share in held then held else held + [share], texts[1..], checksum)
  }

  predicate NoRepeats(shares: seq<Share>) {
    forall i, j :: 0 <= i < j < |shares| ==> shares[i] != shares[j]
  }

  predicate Spells(text: string, share: Share, checksum: ShareText.Checksum) {
    ShareText.Parse(text, checksum) == Ok(share)
  }

  /** The shares gathered are those the texts spell, each of them once, behind those held before. */
  lemma {:induction false} GatheredExactly(held: seq<Share>, texts: seq<string>, checksum: ShareText.Checksum)
    requires NoRepeats(held)
    ensures NoRepeats(Gathered(held, texts, checksum)) && held <= Gathered(held, texts, checksum)
    ensures forall share :: share in Gathered(held, texts, checksum)
                       <==> share in held || exists i :: 0 <= i < |texts| && Spells(texts[i], share, checksum)
    decreases |texts|
  {
    hide ShareText.Parse;
    if texts != [] {
      var first := ShareText.Parse(texts[0], checksum);
      var now := if first.Ok? && first.value !in held then held + [first.value] else held;
      GatheredExactly(now, texts[1..], checksum);
      assert Gathered(held, texts, checksum) == Gathered(now, texts[1..], checksum);
      forall share
        ensures share in Gathered(held, texts, checksum)
           <==> share in held || exists i :: 0 <= i < |texts| && Spells(texts[i], share, checksum)
      {
        if i :| 0 <= i < |texts| && Spells(texts[i], share, checksum) {
          if i > 0 {
            assert Spells(texts[1..][i - 1], share, checksum);
          } else {
            assert share in now;
          }
        }
        if i :| 0 <= i < |texts[1..]| && Spells(texts[1..][i], share, checksum) {
          assert Spells(texts[i + 1], share, checksum);
        }
        if share in now && share !in held {
          assert Spells(texts[0], share, checksum);
        }
      }
    }
  }

  lemma {:induction false} GatheredGrows(held: seq<Share>, texts: seq<string>, checksum: ShareText.Checksum)
    ensures |held| <= |Gathered(held, texts, checksum)|
    decreases |texts|
  {
    hide ShareText.Parse;
    if texts != [] {
      var first := ShareText.Parse(texts[0], checksum);
      GatheredGrows(if first.Ok? && first.value !in held then held + [first.value] else held, texts[1..], checksum);
    }
  }

  /**
   Until the threshold is reached, offering texts to a sealed vault does nothing
   but gather the shares they spell: a share offered again counts once, and a
   text that spells none is passed over.
   */
  lemma {:induction false} OffersGather(v: VaultModel, texts: seq<string>, checksum: ShareText.Checksum)
    requires v.barrier.Some? && v.rootKey.None?
    requires |Gathered(v.pending, texts, checksum)| < v.barrier.value.threshold
    ensures SubmitAll(v, texts, checksum) == v.(pending := Gathered(v.pending, texts, checksum))
    decreases |texts|
  {
    hide ShareText.Parse, TryUnseal;
    if texts != [] {
      var first := ShareText.Parse(texts[0], checksum);
      var now := if first.Ok? && first.value !in v.pending then v.pending + [first.value] else v.pending;
      GatheredGrows(now, texts[1..], checksum);
      assert SubmitShare(v, texts[0], checksum).0 == v.(pending := now);
      OffersGather(v.(pending := now), texts[1..], checksum);
    }
  }

  lemma WrongSharesFail(v: VaultModel, t: Truth)
    requires Inv(v, t) && v.rootKey.None? && Shamir.Combined(v.pending) != Ok(FromBytes(t.master))
    ensures TryUnseal(v) == (v, Err(UnsealFailed))
  {
    hide Shamir.Combined, Aead.Wrap, Aead.UnwrapKey, Replay, FoldFrom, KeysOpen, Unique, Filed, LogSafety.Sound,
         Barrier.Context, ToBytes, FromBytes, WellSplit, Aead.KeyFromBytes;
    var context := Barrier.Context();
    if Shamir.Combined(v.pending).Ok? {
      var combined := Shamir.Combined(v.pending).value;
      MasterIs(combined, t.master);
      var master := Aead.KeyFromBytes(ToBytes(combined));
      if master.Some? {
        Aead.UnwrapUndoesWrap(t.master, t.wrapNonce, t.rootKey, context, master.value, context);
      }
    }
  }

  lemma RightSharesUnseal(v: VaultModel, t: Truth)
    requires Inv(v, t) && v.rootKey.None? && Shamir.Combined(v.pending) == Ok(FromBytes(t.master))
    ensures TryUnseal(v) == (Unsealed(v, t), Ok(()))
  {
    hide TryUnseal, Inv, Shamir.Combined, Unsealed;
    UnsealsExactly(v, t);
    TryUnsealKeeps(v, t);
    assert TryUnseal(v).1.value == ();
  }

  /**
   The share that reaches the threshold decides. If those held and it recombine
   to the master key, the vault is unsealed; if not, the attempt is refused and
   every share held is dropped.
   */
  lemma LastShareDecides(v: VaultModel, t: Truth, text: string, share: Share, checksum: ShareText.Checksum)
    requires Inv(v, t) && v.rootKey.None?
    requires Spells(text, share, checksum) && share !in v.pending && |v.pending| + 1 == t.barrier.threshold
    ensures SubmitShare(v, text, checksum)
         == if Shamir.Combined(v.pending + [share]) == Ok(FromBytes(t.master))
            then (Unsealed(v, t), Ok(UnsealStatus(false, 0, t.barrier.threshold)))
            else (v.(pending := []), Err(UnsealFailed))
  {
    hide TryUnseal, Shamir.Combined, FromBytes, ShareText.Parse, Durable, LogSafety.Sound, Unique, Fold, WellSplit;
    var offered := v.(pending := v.pending + [share]);
    if Shamir.Combined(offered.pending) == Ok(FromBytes(t.master)) {
      RightSharesUnseal(offered, t);
    } else {
      WrongSharesFail(offered, t);
    }
  }

  /** A failed attempt costs no more than itself: any quorum offered after it unseals the vault. */
  lemma FailedAttemptThenQuorum(v: VaultModel, t: Truth, text: string, share: Share, chosen: seq<Share>,
                                checksum: ShareText.Checksum)
    requires Inv(v, t) && v.rootKey.None? && Quorum(chosen, t)
    requires Spells(text, share, checksum) && share !in v.pending && |v.pending| + 1 == t.barrier.threshold
    requires SubmitShare(v, text, checksum).1.Err?
    ensures SubmitAll(v, [text] + PrintAll(chosen, checksum), checksum) == Unsealed(v, t)
  {
    hide SubmitShare, Inv, Quorum, PrintAll, Fold, Shamir.Combined, FromBytes, Spells;
    LastShareDecides(v, t, text, share, checksum);
    ResetThenQuorumUnseals(v, t, chosen, checksum);
    var texts := [text] + PrintAll(chosen, checksum);
    assert texts[0] == text && texts[1..] == PrintAll(chosen, checksum);
  }
}
