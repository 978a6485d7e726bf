/** What the log keeps: across torn writes and reopening, across the rewrite, and against reordering. */
module LogSafety {
  import opened Wrappers
  import opened Bytes
  import opened Store
  import opened Aead
  import opened LogFile
  import Decimal
  import Utf8

  // ----- a cut at any byte -----

  // How many of the frames fit whole in the first `room` bytes.
  function Fitting(frames: seq<Frame>, room: nat): (k: nat)
    ensures k <= |frames|
  {
    if frames == [] || |FrameBytes(frames[0])| > room then 0
    else 1 + Fitting(frames[1..], room - |FrameBytes(frames[0])|)
  }

  function WholeFile(frames: seq<Frame>): seq<byte> {
    HEADER + FramesBytes(frames)
  }

  lemma {:induction false} CutLeavesWhole(frames: seq<Frame>, room: nat)
    requires AllWritable(frames) && room <= |FramesBytes(frames)|
    ensures var k := Fitting(frames, room);
            var kept := FramesBytes(frames[..k]);
            && |kept| <= room && FramesBytes(frames)[..|kept|] == kept
            && Torn(FramesBytes(frames)[|kept|..room])
            && (k < |frames| ==> room < |FramesBytes(frames[..k + 1])|)
    decreases |frames|
  {
    hide FrameBytes, Torn;
    var bytes := FramesBytes(frames);
    if frames == [] {
      assert Torn([]) by { NothingIsTorn(); }
      assert bytes[0..0] == [];
    } else {
      var f, rest := frames[0], frames[1..];
      var first := FrameBytes(f);
      if |first| > room {
        CutFrameIsTorn(f, room);
        assert bytes[0..room] == first[..room];
        assert frames[..1] == [f];
        FramesBytesOne(f);
      } else {
        CutLeavesWhole(rest, room - |first|);
        var k := Fitting(rest, room - |first|);
        assert frames[..k + 1][1..] == rest[..k];
        var kept := FramesBytes(rest[..k]);
        assert bytes[..|first + kept|] == first + kept;
        assert bytes[|first + kept|..room] == FramesBytes(rest)[|kept|..room - |first|];
        if k < |rest| {
          assert frames[..k + 2][1..] == rest[..k + 1];
        }
      }
    }
  }

  lemma NothingIsTorn()
    ensures Torn([])
  {
  }

  /**
   Repair of a torn tail. Whatever records were written, and wherever past the
   header the file is cut, opening keeps exactly the records that fit whole,
   truncates to their end, and never calls the file corrupt.
   */
  lemma TornTailRepair(frames: seq<Frame>, cut: nat)
    requires AllWritable(frames) && HEADER_LEN <= cut <= |WholeFile(frames)|
    ensures var k := Fitting(frames, cut - HEADER_LEN);
            var kept := WholeFile(frames[..k]);
            && |kept| <= cut && (k < |frames| ==> cut < |WholeFile(frames[..k + 1])|)
            && OpenOf(Some(WholeFile(frames)[..cut]), Written)
               == (Ok(LogModel(kept, k, false, |kept| != cut)), kept)
  {
    hide FramesBytes, Torn, Walk, Fitting;
    var k := Fitting(frames, cut - HEADER_LEN);
    var kept := FramesBytes(frames[..k]);
    CutLeavesWhole(frames, cut - HEADER_LEN);
    var file := WholeFile(frames)[..cut];
    HeaderReads(FramesBytes(frames)[..cut - HEADER_LEN]);
    assert file == HEADER + FramesBytes(frames)[..cut - HEADER_LEN];
    var end := HEADER_LEN + |kept|;
    assert file[HEADER_LEN..end] == FramesBytes(frames)[..|kept|];
    assert file[end..] == FramesBytes(frames)[|kept|..cut - HEADER_LEN];
    WalkExactly(file, frames[..k], end);
    assert file[..end] == WholeFile(frames[..k]);
    if |file| == end {
      assert file[..end] == file;
    }
  }

  lemma HeaderReads(rest: seq<byte>)
    ensures CheckHeader(HEADER + rest) == Ok(())
  {
    var file := HEADER + rest;
    assert file[..|MAGIC|] == MAGIC;
    assert file[HEADER_LEN - 1] == FORMAT_VERSION;
  }

  // ----- the invariant of an open log -----

  // A file some log could have been appending to: a good header, and frames up
  // to a tail at most torn.
  predicate Readable(file: seq<byte>) {
    CheckHeader(file).Ok? && Walk(file, HEADER_LEN).Ok?
  }

  function FramesIn(file: seq<byte>): seq<Frame>
    requires Readable(file)
  {
    Walk(file, HEADER_LEN).value.0
  }

  // Unless an append has failed, there is no tail and the count is right.
  predicate Sound(log: LogModel) {
    && Readable(log.file)
    && (!log.broken ==> Walk(log.file, HEADER_LEN) == Ok((FramesIn(log.file), |log.file|))
                          && log.count == |FramesIn(log.file)|)
  }

  lemma HeaderStays(file: seq<byte>, more: seq<byte>)
    requires CheckHeader(file).Ok?
    ensures CheckHeader(file + more).Ok?
  {
    assert (file + more)[..|MAGIC|] == file[..|MAGIC|];
  }

  lemma GrowWhole(file: seq<byte>, f: Frame)
    requires Readable(file) && Walk(file, HEADER_LEN).value.1 == |file| && Writable(f)
    ensures Walk(file + FrameBytes(f), HEADER_LEN) == Ok((FramesIn(file) + [f], |file| + |FrameBytes(f)|))
  {
    hide Walk, FramesBytes, FrameBytes, Torn;
    var frames := FramesIn(file);
    var grown := file + FrameBytes(f);
    WalkExactly(file, frames, |file|);
    FramesBytesAppend(frames, [f]);
    FramesBytesOne(f);
    NothingIsTorn();
    SliceGrows(file, FrameBytes(f));
    assert AllWritable(frames + [f]);
    WalkExactly(grown, frames + [f], |grown|);
  }

  lemma SliceGrows(file: seq<byte>, more: seq<byte>)
    requires |file| >= HEADER_LEN
    ensures (file + more)[HEADER_LEN..|file + more|] == file[HEADER_LEN..|file|] + more
    ensures (file + more)[|file + more|..] == []
  {
  }

  lemma GrowTorn(file: seq<byte>, f: Frame, n: nat)
    requires Readable(file) && Walk(file, HEADER_LEN).value.1 == |file| && Writable(f) && n < |FrameBytes(f)|
    ensures Walk(file + FrameBytes(f)[..n], HEADER_LEN) == Ok((FramesIn(file), |file|))
  {
    hide Walk, FramesBytes, FrameBytes, Torn;
    var frames := FramesIn(file);
    var grown := file + FrameBytes(f)[..n];
    WalkExactly(file, frames, |file|);
    CutFrameIsTorn(f, n);
    assert grown[HEADER_LEN..|file|] == file[HEADER_LEN..|file|];
    assert grown[|file|..] == FrameBytes(f)[..n];
    WalkExactly(grown, frames, |file|);
  }

  // The whole frame of a record this long gets through.
  predicate Arrives(length: nat, fate: WriteFate) {
    fate.Written? || fate.reached >= 5 + length
  }

  // The write is not refused, and its record is in the file afterwards.
  predicate Lands(log: LogModel, payload: seq<byte>, fate: WriteFate) {
    !log.broken && |payload| + 1 <= MAX_RECORD_LEN && Arrives(|payload|, fate)
  }

  lemma FrameLength(f: Frame)
    requires Writable(f)
    ensures |FrameBytes(f)| == 5 + |f.payload|
  {
    hide FrameBytes, LengthAt, FrameAt;
    FrameStarts(f, [], []);
  }

  /**
   A write, exactly. Refused, it changes nothing. Otherwise the file gains the
   record if and only if its whole frame got through, reported done or not, and
   a write not reported done stops the log from being appended to.
   */
  lemma WriteKeeps(log: LogModel, kind: byte, payload: seq<byte>, fate: WriteFate)
    requires Sound(log)
    ensures var (next, r) := WriteRecordOf(log, kind, payload, fate);
            && Sound(next)
            && FramesIn(next.file) == FramesIn(log.file)
                                      + (if Lands(log, payload, fate) then [Frame(kind, payload)] else [])
            && (r.Ok? <==> Lands(log, payload, fate) && fate.Written?)
            && (r.Ok? ==> !next.broken && next.count == log.count + 1)
            && (r.Err? ==> next.count == log.count && (next == log || (next.broken && !log.broken)))
            && (Lands(log, payload, fate) && r.Err? ==> next.broken)
  {
    hide Walk, FrameBytes, Writable;
    var f := Frame(kind, payload);
    var framed := FrameBytes(f);
    assert FramesIn(log.file) + [] == FramesIn(log.file);
    if !log.broken && |payload| + 1 <= MAX_RECORD_LEN {
      assert Writable(f) by { WritableIs(f); }
      FrameLength(f);
      GrowWhole(log.file, f);
      HeaderStays(log.file, framed);
      if fate.Failed? && fate.reached < |framed| {
        GrowTorn(log.file, f, fate.reached);
        HeaderStays(log.file, framed[..fate.reached]);
      }
    }
  }

  lemma WritableIs(f: Frame)
    ensures Writable(f) <==> |f.payload| + 1 <= MAX_RECORD_LEN
  {
  }

  lemma OneFrameMore(frames: seq<Frame>, f: Frame)
    ensures frames + [f] != frames
  {
    assert |frames + [f]| == |frames| + 1;
  }

  /**
   The window of a failed write: it leaves its record in the file if and only if
   every byte of the frame got through, and leaves the records as they were if
   and only if not, so memory and file part company exactly in the first case.
   */
  lemma FailedWriteExactly(log: LogModel, kind: byte, payload: seq<byte>, reached: nat)
    requires Sound(log) && !log.broken && |payload| + 1 <= MAX_RECORD_LEN
    ensures var (next, r) := WriteRecordOf(log, kind, payload, Failed(reached));
            && r == Err(Io) && Sound(next) && next.broken
            && (FramesIn(next.file) == FramesIn(log.file) + [Frame(kind, payload)] <==> reached >= 5 + |payload|)
            && (FramesIn(next.file) == FramesIn(log.file) <==> reached < 5 + |payload|)
  {
    hide Walk, FrameBytes, FramesIn, Readable;
    WriteKeeps(log, kind, payload, Failed(reached));
    OneFrameMore(FramesIn(log.file), Frame(kind, payload));
    assert FramesIn(log.file) + [] == FramesIn(log.file);
  }

  /**
   Opening a readable file keeps its records, drops the torn tail, and leaves a
   log that can be appended to; when the truncation fails the records are still there.
   */
  lemma OpenKeeps(file: seq<byte>, fate: WriteFate)
    requires Readable(file)
    ensures var (log, left) := OpenOf(Some(file), fate);
            && Readable(left) && FramesIn(left) == FramesIn(file)
            && (fate.Written? ==> log.Ok?)
            && (log.Err? ==> log == Err(Io))
            && (log.Ok? ==> Sound(log.value) && !log.value.broken && log.value.file == left)
  {
    hide Walk, FramesBytes, Torn;
    var frames := FramesIn(file);
    var end := Walk(file, HEADER_LEN).value.1;
    WalkExactly(file, frames, end);
    var whole := file[..end];
    assert whole[HEADER_LEN..end] == file[HEADER_LEN..end];
    assert whole[end..] == [];
    NothingIsTorn();
    WalkExactly(whole, frames, end);
    assert whole[..|MAGIC|] == file[..|MAGIC|];
  }

  // ----- reading it all -----

  lemma {:induction false} VisitAllReads(frames: seq<Frame>, sequence: nat, key: Key)
    ensures var r := VisitAll(frames, sequence, KeepRecord(key));
            && (r.Ok? <==> forall i :: 0 <= i < |frames| ==> ReadOne(key, sequence + i, frames[i]).Ok?)
            && (r.Ok? ==> |r.value| == |frames|
                          && forall i :: 0 <= i < |frames| ==> ReadOne(key, sequence + i, frames[i]) == Ok(r.value[i]))
    decreases |frames|
  {
    hide ReadOne;
    if frames != [] {
      var f, rest := frames[0], frames[1..];
      VisitAllReads(rest, sequence + 1, key);
      forall i | 0 < i < |frames|
        ensures ReadOne(key, sequence + i, frames[i]) == ReadOne(key, sequence + 1 + (i - 1), rest[i - 1])
      {
      }
      var r := VisitAll(frames, sequence, KeepRecord(key));
      if forall i :: 0 <= i < |frames| ==> ReadOne(key, sequence + i, frames[i]).Ok? {
        assert ReadOne(key, sequence + 0, frames[0]).Ok?;
        forall i | 0 <= i < |rest|
          ensures ReadOne(key, sequence + 1 + i, rest[i]).Ok?
        {
          assert ReadOne(key, sequence + (i + 1), frames[i + 1]).Ok?;
        }
      }
      if r.Ok? {
        assert ReadOne(key, sequence + 0, frames[0]).Ok?;
        var more := VisitAll(rest, sequence + 1, KeepRecord(key)).value;
        assert r.value == [ReadOne(key, sequence, f).value] + more;
      }
    }
  }

  /** Reading gives one record for each frame, opened at its own position, and fails if any does not open. */
  lemma ReadsEachFrame(file: seq<byte>, key: Key)
    requires Readable(file)
    ensures var r, frames := ReadRecordsOf(file, key), FramesIn(file);
            && (r.Ok? <==> forall i :: 0 <= i < |frames| ==> ReadOne(key, i, frames[i]).Ok?)
            && (r.Ok? ==> |r.value| == |frames|
                          && forall i :: 0 <= i < |frames| ==> ReadOne(key, i, frames[i]) == Ok(r.value[i]))
  {
    hide Walk, Visited, ReadOne, KeepRecord;
    var frames := FramesIn(file);
    WalksAgree(file, HEADER_LEN, 0, KeepRecord(key));
    VisitAllReads(frames, 0, key);
    assert forall i :: 0 <= i < |frames| ==> ReadOne(key, 0 + i, frames[i]) == ReadOne(key, i, frames[i]);
  }

  // ----- sealed to its position -----

  lemma {:induction false} RenderShort(n: nat)
    ensures |Decimal.Render(n)| <= if n == 0 then 1 else n
    decreases n
  {
    if n >= 10 {
      RenderShort(n / 10);
    }
  }

  lemma PositionFits(n: nat)
    requires Countable(n)
    ensures FitsInMemory(Decimal.Render(n))
  {
    hide Decimal.Render, Pow256;
    RenderShort(n);
    Utf8.EncodeAscii(Decimal.Render(n));
    SmallCounts();
  }

  /** No two positions share associated data. */
  lemma PositionsAreSeparate(m: nat, n: nat)
    requires Countable(m) && Countable(n)
    ensures RecordContext(m) == RecordContext(n) <==> m == n
  {
    hide NewAad, FitsInMemory, Countable, Decimal.Render;
    PositionFits(m);
    PositionFits(n);
    ShortTextFits("localsecrets.log.v1");
    SmallCounts();
    var domain, f, g := "localsecrets.log.v1", [Decimal.Render(m)], [Decimal.Render(n)];
    assert |f| == 1 && |g| == 1;
    AadInjective(domain, f, domain, g);
    if f == g {
      assert f[0] == g[0];
      Decimal.RenderInjective(m, n);
    }
  }

  lemma SealedBody(key: Key, sequence: nat, payload: seq<byte>, nonce: Option<Nonce>)
    ensures SealRecord(key, sequence, payload, nonce).Ok? <==> nonce.Some? && |payload| <= MAX_PLAINTEXT_LEN
    ensures SealRecord(key, sequence, payload, nonce).Ok? ==>
      var body := SealRecord(key, sequence, payload, nonce).value;
      && |body| >= NONCE_LEN
      && Seal(key, nonce, payload, RecordContext(sequence)) == Ok(Envelope(body[..NONCE_LEN], body[NONCE_LEN..]))
  {
    hide CipherHeader, RecordContext;
    if nonce.Some? && |payload| <= MAX_PLAINTEXT_LEN {
      var envelope := Seal(key, nonce, payload, RecordContext(sequence)).value;
      var body := envelope.nonce + envelope.ciphertext;
      assert body[..NONCE_LEN] == envelope.nonce && body[NONCE_LEN..] == envelope.ciphertext;
    }
  }

  /** A sealed record opens with the same key at the same position. */
  lemma SealedOpens(key: Key, sequence: nat, payload: seq<byte>, nonce: Option<Nonce>)
    requires SealRecord(key, sequence, payload, nonce).Ok?
    ensures OpenRecord(key, sequence, SealRecord(key, sequence, payload, nonce).value) == Ok(payload)
  {
    hide Seal, Aead.Open, RecordContext, SealRecord;
    SealedBody(key, sequence, payload, nonce);
    OpensExactly(key, nonce.value, payload, RecordContext(sequence), key, RecordContext(sequence));
  }

  /** And with no other key, and at no other position. */
  lemma SealedOpensOnlyThere(key: Key, sequence: nat, payload: seq<byte>, nonce: Option<Nonce>, otherKey: Key,
                             position: nat)
    requires SealRecord(key, sequence, payload, nonce).Ok?
    requires Countable(sequence) && Countable(position)
    ensures OpenRecord(otherKey, position, SealRecord(key, sequence, payload, nonce).value)
         == if otherKey == key && position == sequence then Ok(payload) else Err(Unreadable(position))
  {
    hide Seal, Aead.Open, RecordContext, SealRecord, Countable;
    SealedBody(key, sequence, payload, nonce);
    OpensExactly(key, nonce.value, payload, RecordContext(sequence), otherKey, RecordContext(position));
    PositionsAreSeparate(sequence, position);
  }

  // A record someone sealed: with what key, for what position, holding what.
  datatype Made = Made(key: Key, sequence: nat, payload: seq<byte>, nonce: Nonce)

  predicate MadeAs(m: Made, body: seq<byte>) {
    Countable(m.sequence) && SealRecord(m.key, m.sequence, m.payload, Some(m.nonce)) == Ok(body)
  }

  /**
   Position binding. Take any file whose sealed frames are bodies that were
   sealed at some time, in any order, repeated or spliced from elsewhere. If it
   reads at all with a key, each sealed record read at a position is one that
   was sealed under that key for that very position.
   */
  lemma PositionBinding(file: seq<byte>, key: Key, made: set<Made>)
    requires Readable(file) && Countable(|FramesIn(file)|)
    requires forall i :: 0 <= i < |FramesIn(file)| && FramesIn(file)[i].kind != KIND_PLAIN ==>
               exists m :: m in made && MadeAs(m, FramesIn(file)[i].payload)
    requires ReadRecordsOf(file, key).Ok?
    ensures var records := ReadRecordsOf(file, key).value;
            && |records| == |FramesIn(file)|
            && forall i :: 0 <= i < |records| && records[i].isSealed ==>
                 exists m :: m in made && m.key == key && m.sequence == i && m.payload == records[i].payload
  {
    hide FramesIn, Readable, ReadRecordsOf, OpenRecord, SealRecord;
    ReadsEachFrame(file, key);
    var records, frames := ReadRecordsOf(file, key).value, FramesIn(file);
    forall i | 0 <= i < |records| && records[i].isSealed
      ensures exists m :: m in made && m.key == key && m.sequence == i && m.payload == records[i].payload
    {
      assert ReadOne(key, i, frames[i]) == Ok(records[i]);
      var m :| m in made && MadeAs(m, frames[i].payload);
      SealedOpensOnlyThere(m.key, m.sequence, m.payload, Some(m.nonce), key, i);
    }
  }

  // ----- the rewrite -----

  // The frame holds this payload, sealed for this position.
  ghost predicate SealedAs(f: Frame, key: Key, sequence: nat, payload: seq<byte>) {
    f.kind == KIND_SEALED && exists nonce :: SealRecord(key, sequence, payload, nonce) == Ok(f.payload)
  }

  // The frames past the first `from` hold these payloads, each sealed for its place.
  ghost predicate SealedFrom(frames: seq<Frame>, key: Key, from: nat, payloads: seq<seq<byte>>) {
    |frames| == from + |payloads|
    && forall i :: 0 <= i < |payloads| ==> SealedAs(frames[from + i], key, from + i, payloads[i])
  }

  lemma SealedAsReads(f: Frame, key: Key, sequence: nat, payload: seq<byte>)
    requires SealedAs(f, key, sequence, payload)
    ensures ReadOne(key, sequence, f) == Ok(Record(true, payload))
  {
    hide SealRecord, OpenRecord;
    var nonce :| SealRecord(key, sequence, payload, nonce) == Ok(f.payload);
    SealedOpens(key, sequence, payload, nonce);
  }

  // The append is not refused, and its record is in the file afterwards.
  predicate AppendLands(log: LogModel, key: Key, payload: seq<byte>, nonce: Option<Nonce>, fate: WriteFate) {
    |payload| <= MAX_RECORD_LEN
    && match SealRecord(key, log.count, payload, nonce)
       case Err(_) => false
       case Ok(body) => Lands(log, body, fate)
  }

  // The file gained this payload, sealed for the position it took.
  ghost predicate GainsSealed(before: seq<Frame>, after: seq<Frame>, key: Key, sequence: nat, payload: seq<byte>) {
    exists f :: after == before + [f] && SealedAs(f, key, sequence, payload)
  }

  /** An append leaves one record more, sealed for the position it takes, if and only if its whole frame got through. */
  lemma AppendKeeps(log: LogModel, key: Key, payload: seq<byte>, nonce: Option<Nonce>, fate: WriteFate)
    requires Sound(log)
    ensures var (next, r) := AppendOf(log, key, payload, nonce, fate);
            var lands := AppendLands(log, key, payload, nonce, fate);
            && Sound(next)
            && (if lands then GainsSealed(FramesIn(log.file), FramesIn(next.file), key, log.count, payload)
                else FramesIn(next.file) == FramesIn(log.file))
            && (r.Ok? <==> lands && fate.Written?)
            && (lands ==> !log.broken)
            && (r.Ok? ==> !next.broken && next.count == log.count + 1)
            && (r.Err? ==> next == log || (next.broken && !log.broken && next.count == log.count))
            && (lands && r.Err? ==> next.broken)
  {
    hide WriteRecordOf, SealRecord, FramesIn, Readable, Walk;
    assert FramesIn(log.file) + [] == FramesIn(log.file);
    if |payload| <= MAX_RECORD_LEN {
      var body := SealRecord(key, log.count, payload, nonce);
      if body.Ok? {
        var f := Frame(KIND_SEALED, body.value);
        WriteKeeps(log, KIND_SEALED, body.value, fate);
        assert SealedAs(f, key, log.count, payload);
        var (next, r) := WriteRecordOf(log, KIND_SEALED, body.value, fate);
        assert AppendOf(log, key, payload, nonce, fate) == (next, r);
      }
    }
  }

  function PlainFrames(plain: seq<seq<byte>>): seq<Frame> {
    seq(|plain|, i requires 0 <= i < |plain| => Frame(KIND_PLAIN, plain[i]))
  }

  lemma {:induction false} AppendPlainsKeep(log: LogModel, plain: seq<seq<byte>>, writes: nat -> WriteFate)
    requires Sound(log) && !log.broken
    ensures var (next, r) := AppendPlains(log, plain, writes);
            r.Ok? ==> && Sound(next) && !next.broken && next.count == log.count + |plain|
                      && FramesIn(next.file) == FramesIn(log.file) + PlainFrames(plain)
    decreases |plain|
  {
    var frames := FramesIn(log.file);
    hide WriteRecordOf, FramesIn, Sound, Lands;
    if plain != [] {
      WriteKeeps(log, KIND_PLAIN, plain[0], writes(log.count));
      var (next, r) := AppendPlainOf(log, plain[0], writes(log.count));
      if r.Ok? {
        AppendPlainsKeep(next, plain[1..], writes);
        assert PlainFrames(plain) == [Frame(KIND_PLAIN, plain[0])] + PlainFrames(plain[1..]);
        assert frames + PlainFrames(plain) == frames + [Frame(KIND_PLAIN, plain[0])] + PlainFrames(plain[1..]);
      }
    } else {
      assert frames + PlainFrames(plain) == frames;
    }
  }

  lemma {:induction false} AppendsKeep(log: LogModel, key: Key, payloads: seq<seq<byte>>, nonces: nat -> Option<Nonce>,
                                       writes: nat -> WriteFate)
    requires Sound(log) && !log.broken
    ensures var (next, r) := Appends(log, key, payloads, nonces, writes);
            r.Ok? ==> && Sound(next) && !next.broken && next.count == log.count + |payloads|
                      && FramesIn(log.file) <= FramesIn(next.file)
                      && SealedFrom(FramesIn(next.file), key, log.count, payloads)
    decreases |payloads|
  {
    hide AppendOf, FramesIn, SealedAs, SealedFrom, AppendLands, GainsSealed;
    NothingSealed(FramesIn(log.file), key);
    SoundCounts(log);
    hide Sound, Readable;
    if payloads != [] {
      AppendKeeps(log, key, payloads[0], nonces(log.count), writes(log.count));
      var (next, r) := AppendOf(log, key, payloads[0], nonces(log.count), writes(log.count));
      if r.Ok? {
        GainedLast(FramesIn(log.file), FramesIn(next.file), key, log.count, payloads[0]);
        AppendsKeep(next, key, payloads[1..], nonces, writes);
        var (last, s) := Appends(next, key, payloads[1..], nonces, writes);
        if s.Ok? {
          var frames := FramesIn(last.file);
          assert frames[log.count] == FramesIn(next.file)[log.count];
          SealedFromOneMore(frames, key, log.count, payloads);
        }
      }
    }
  }

  lemma GainedLast(before: seq<Frame>, after: seq<Frame>, key: Key, sequence: nat, payload: seq<byte>)
    requires GainsSealed(before, after, key, sequence, payload)
    ensures |after| == |before| + 1 && before <= after && SealedAs(after[|before|], key, sequence, payload)
  {
    hide SealedAs;
  }

  lemma SealedFromOneMore(frames: seq<Frame>, key: Key, from: nat, payloads: seq<seq<byte>>)
    requires payloads != [] && SealedFrom(frames, key, from + 1, payloads[1..])
    requires SealedAs(frames[from], key, from, payloads[0])
    ensures SealedFrom(frames, key, from, payloads)
  {
    hide SealedAs;
    forall i | 0 < i < |payloads|
      ensures SealedAs(frames[from + i], key, from + i, payloads[i])
    {
      assert SealedAs(frames[from + 1 + (i - 1)], key, from + 1 + (i - 1), payloads[1..][i - 1]);
    }
  }

  lemma NothingSealed(frames: seq<Frame>, key: Key)
    ensures SealedFrom(frames, key, |frames|, [])
  {
  }

  lemma SoundCounts(log: LogModel)
    requires Sound(log) && !log.broken
    ensures log.count == |FramesIn(log.file)|
  {
  }

  lemma FreshLogIsEmpty()
    ensures Sound(LogModel(HEADER, 0, false, false)) && FramesIn(HEADER) == []
  {
    HeaderReads([]);
    assert HEADER + [] == HEADER;
  }

  /**
   The rewrite. On success the file holds exactly the plain records and then
   the payloads, each sealed under the new key for the place it now has; on
   any failure, at whatever step, the log is exactly as it was.
   */
  lemma CompactRewrites(log: LogModel, key: Key, plain: seq<seq<byte>>, payloads: seq<seq<byte>>, fates: RewriteFates)
    ensures var (next, r) := CompactOf(log, key, plain, payloads, fates);
            && (r.Err? ==> next == log)
            && (r.Ok? ==> && Sound(next) && !next.broken && !next.repaired && next.count == |plain| + |payloads|
                          && SealedFrom(FramesIn(next.file), key, |plain|, payloads)
                          && forall i :: 0 <= i < |plain| ==> FramesIn(next.file)[i] == Frame(KIND_PLAIN, plain[i]))
  {
    hide AppendPlains, Appends, FramesIn, SealedAs;
    FreshLogIsEmpty();
    var created := LogModel(HEADER, 0, false, false);
    AppendPlainsKeep(created, plain, fates.writes);
    var (begun, r) := AppendPlains(created, plain, fates.writes);
    if r.Ok? {
      AppendsKeep(begun, key, payloads, fates.nonces, fates.writes);
      var (done, s) := Appends(begun, key, payloads, fates.nonces, fates.writes);
      if s.Ok? {
        var first := FramesIn(begun.file);
        assert forall i :: 0 <= i < |plain| ==> FramesIn(done.file)[i] == first[i];
      }
    }
  }
}
