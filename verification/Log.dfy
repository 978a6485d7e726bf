/** The append-only log file: frames, the repair of a torn tail, and records sealed to their position. */
module LogFile {
  import opened Wrappers
  import opened Bytes
  import opened Store
  import opened Aead
  import Decimal

  const MAGIC: seq<byte> := [0x4C, 0x53, 0x4C, 0x4F, 0x47, 0x31]
  const FORMAT_VERSION: byte := 1
  const HEADER: seq<byte> := MAGIC + [0, FORMAT_VERSION]

  const KIND_PLAIN: byte := 0
  const KIND_SEALED: byte := 1

  datatype Frame = Frame(kind: byte, payload: seq<byte>)

  datatype Record = Record(isSealed: bool, payload: seq<byte>)

  // How a write ends: in full, or failing after some of its bytes got through.
  // A crash during the write leaves the file as a failure does.
  datatype WriteFate = Written | Failed(reached: nat)

  // ----- frames -----

  predicate Writable(f: Frame) {
    |f.payload| + 1 <= MAX_RECORD_LEN
  }

  function FrameBytes(f: Frame): seq<byte> {
    BigEndian(|f.payload| + 1, 4) + [f.kind] + f.payload
  }

  function FramesBytes(frames: seq<Frame>): seq<byte> {
    if frames == [] then [] else FrameBytes(frames[0]) + FramesBytes(frames[1..])
  }

  function LengthAt(file: seq<byte>, offset: nat): nat
    requires offset + 4 <= |file|
  {
    FromBigEndian(file[offset..offset + 4])
  }

  function FrameAt(file: seq<byte>, offset: nat, length: nat): Frame
    requires 1 <= length && offset + 4 + length <= |file|
  {
    Frame(file[offset + 4], file[offset + 5..offset + 4 + length])
  }

  function Preceded(frames: seq<Frame>, rest: Result<(seq<Frame>, nat), StoreError>)
    : Result<(seq<Frame>, nat), StoreError>
  {
    match rest
    case Err(e) => Err(e)
    case Ok((more, end)) => Ok((frames + more, end))
  }

  // The whole frames from `offset` on, and where the last of them ends. A
  // frame cut short ends the walk; an impossible length refuses the file.
  function Walk(file: seq<byte>, offset: nat): (r: Result<(seq<Frame>, nat), StoreError>)
    requires offset <= |file|
    ensures r.Ok? ==> offset <= r.value.1 <= |file|
    decreases |file| - offset
  {
    if |file| < offset + 4 then Ok(([], offset))
    else
      var length := LengthAt(file, offset);
      if length == 0 || length > MAX_RECORD_LEN then Err(Corrupt(offset))
      else if |file| < offset + 4 + length then Ok(([], offset))
      else Preceded([FrameAt(file, offset, length)], Walk(file, offset + 4 + length))
  }

  // ----- the two loops over the file -----

  function ScanOf(file: seq<byte>): Result<(nat, nat), StoreError>
    requires |file| >= HEADER_LEN
  {
    match Walk(file, HEADER_LEN)
    case Err(e) => Err(e)
    case Ok((frames, end)) => Ok((|frames|, end))
  }

  lemma PrecededTwice(first: seq<Frame>, second: seq<Frame>, rest: Result<(seq<Frame>, nat), StoreError>)
    ensures Preceded(first, Preceded(second, rest)) == Preceded(first + second, rest)
    ensures Preceded([], rest) == rest
  {
    if rest.Ok? {
      assert first + (second + rest.value.0) == (first + second) + rest.value.0;
      assert [] + rest.value.0 == rest.value.0;
    }
  }

  /** Counts the whole frames and finds where the last of them ends. */
  method Scan(file: seq<byte>) returns (r: Result<(nat, nat), StoreError>)
    requires |file| >= HEADER_LEN
    ensures r == ScanOf(file)
  {
    hide LengthAt, FrameAt, Preceded;
    var count := 0;
    var goodLen := HEADER_LEN;
    ghost var seen: seq<Frame> := [];
    PrecededTwice([], [], Walk(file, HEADER_LEN));
    while true
      invariant HEADER_LEN <= goodLen <= |file| && count == |seen|
      invariant Preceded(seen, Walk(file, goodLen)) == Walk(file, HEADER_LEN)
      decreases |file| - goodLen
    {
      if |file| < goodLen + 4 {
        ScanEnds(file, seen, goodLen);
        return Ok((count, goodLen));
      }
      var length := LengthAt(file, goodLen);
      if length == 0 || length > MAX_RECORD_LEN {
        ScanEnds(file, seen, goodLen);
        return Err(Corrupt(goodLen));
      }
      if |file| < goodLen + 4 + length {
        ScanEnds(file, seen, goodLen);
        return Ok((count, goodLen));
      }
      ghost var f := FrameAt(file, goodLen, length);
      PrecededTwice(seen, [f], Walk(file, goodLen + 4 + length));
      seen := seen + [f];
      count := count + 1;
      goodLen := goodLen + 4 + length;
    }
  }

  lemma ScanEnds(file: seq<byte>, seen: seq<Frame>, goodLen: nat)
    requires HEADER_LEN <= goodLen <= |file|
    requires Preceded(seen, Walk(file, goodLen)) == Walk(file, HEADER_LEN)
    ensures Walk(file, goodLen) == Ok(([], goodLen)) ==> ScanOf(file) == Ok((|seen|, goodLen))
    ensures Walk(file, goodLen) == Err(Corrupt(goodLen)) ==> ScanOf(file) == Err(Corrupt(goodLen))
  {
  }

  type Visit<T> = (nat, Frame) -> Result<seq<T>, StoreError>

  // What the visitor makes of each whole frame from `offset` on, stopping at
  // the first refusal, the visitor's or the walk's own.
  function Visited<T>(file: seq<byte>, offset: nat, sequence: nat, visit: Visit<T>): Result<seq<T>, StoreError>
    requires offset <= |file|
    decreases |file| - offset
  {
    if |file| < offset + 4 then Ok([])
    else
      var length := LengthAt(file, offset);
      if length == 0 || length > MAX_RECORD_LEN then Err(Corrupt(offset))
      else if |file| < offset + 4 + length then Ok([])
      else
        var mine :- visit(sequence, FrameAt(file, offset, length));
        var rest :- Visited(file, offset + 4 + length, sequence + 1, visit);
        Ok(mine + rest)
  }

  function ForEach<T>(file: seq<byte>, visit: Visit<T>): Result<seq<T>, StoreError> {
    if |file| < HEADER_LEN then Err(NotALog) else Visited(file, HEADER_LEN, 0, visit)
  }

  /** Hands each whole record to the visitor, collecting what it keeps. */
  method ForEachRecord<T>(file: seq<byte>, visit: Visit<T>) returns (r: Result<seq<T>, StoreError>)
    ensures r == ForEach(file, visit)
  {
    hide LengthAt, FrameAt;
    if |file| < HEADER_LEN {
      return Err(NotALog);
    }
    var out: seq<T> := [];
    var sequence := 0;
    var offset := HEADER_LEN;
    AfterTwice([], [], Visited(file, HEADER_LEN, 0, visit));
    while true
      invariant HEADER_LEN <= offset <= |file|
      invariant After(out, Visited(file, offset, sequence, visit)) == ForEach(file, visit)
      decreases |file| - offset
    {
      if |file| < offset + 4 {
        assert out + [] == out;
        return Ok(out);
      }
      var length := LengthAt(file, offset);
      if length == 0 || length > MAX_RECORD_LEN {
        return Err(Corrupt(offset));
      }
      if |file| < offset + 4 + length {
        assert out + [] == out;
        return Ok(out);
      }
      var mine := visit(sequence, FrameAt(file, offset, length));
      if mine.Err? {
        return Err(mine.error);
      }
      AfterTwice(out, mine.value, Visited(file, offset + 4 + length, sequence + 1, visit));
      out := out + mine.value;
      sequence := sequence + 1;
      offset := offset + 4 + length;
    }
  }

  // The visitor applied to a list of frames.
  function VisitAll<T>(frames: seq<Frame>, sequence: nat, visit: Visit<T>): Result<seq<T>, StoreError>
    decreases |frames|
  {
    if frames == [] then Ok([])
    else
      var mine :- visit(sequence, frames[0]);
      var rest :- VisitAll(frames[1..], sequence + 1, visit);
      Ok(mine + rest)
  }

  /**
   The two loops agree on every byte string: where the scan accepts, the
   visitor sees exactly the frames scanned, in order; where the scan refuses,
   the visit fails too, and at the same offset unless a visitor refused first.
   */
  lemma {:induction false} WalksAgree<T>(file: seq<byte>, offset: nat, sequence: nat, visit: Visit<T>)
    requires offset <= |file|
    ensures match Walk(file, offset)
            case Ok((frames, _)) => Visited(file, offset, sequence, visit) == VisitAll(frames, sequence, visit)
            case Err(e) =>
              && Visited(file, offset, sequence, visit).Err?
              && ((forall n, f :: visit(n, f).Ok?) ==> Visited(file, offset, sequence, visit) == Err(e))
    decreases |file| - offset
  {
    hide LengthAt, FrameAt;
    if |file| >= offset + 4 {
      var length := LengthAt(file, offset);
      if 1 <= length <= MAX_RECORD_LEN && offset + 4 + length <= |file| {
        WalksAgree(file, offset + 4 + length, sequence + 1, visit);
        var f := FrameAt(file, offset, length);
        var rest := Walk(file, offset + 4 + length);
        if rest.Ok? {
          assert ([f] + rest.value.0)[1..] == rest.value.0;
        }
      }
    }
  }

  // ----- frames and bytes -----

  lemma FrameStarts(f: Frame, tail: seq<byte>, before: seq<byte>)
    requires Writable(f)
    ensures var file := before + FrameBytes(f) + tail;
            && |FrameBytes(f)| == 5 + |f.payload|
            && LengthAt(file, |before|) == |f.payload| + 1
            && FrameAt(file, |before|, |f.payload| + 1) == f
  {
    hide BigEndian, FromBigEndian;
    var file := before + FrameBytes(f) + tail;
    assert file[|before|..|before| + 4] == BigEndian(|f.payload| + 1, 4);
    FourBytesHold(|f.payload| + 1);
    assert file[|before| + 4] == f.kind;
    assert file[|before| + 5..|before| + 5 + |f.payload|] == f.payload;
  }

  lemma FourBytesHold(n: nat)
    requires n <= MAX_RECORD_LEN
    ensures FromBigEndian(BigEndian(n, 4)) == n
  {
    assert Pow256(4) == 0x1_0000_0000 by {
      assert Pow256(1) == 256 && Pow256(2) == 65536 && Pow256(3) == 0x100_0000;
    }
    BigEndianRoundTrip(n, 4);
  }

  // What an interrupted write can leave after the last whole frame: too few
  // bytes for a length, or a possible length and too few bytes for the rest.
  predicate Torn(tail: seq<byte>) {
    |tail| < 4 || (1 <= LengthAt(tail, 0) <= MAX_RECORD_LEN && |tail| < 4 + LengthAt(tail, 0))
  }

  predicate AllWritable(frames: seq<Frame>) {
    forall i :: 0 <= i < |frames| ==> Writable(frames[i])
  }

  lemma LengthWithin(file: seq<byte>, offset: nat, tail: seq<byte>)
    requires offset <= |file| && tail == file[offset..] && |tail| >= 4
    ensures LengthAt(tail, 0) == LengthAt(file, offset)
  {
    assert tail[0..4] == file[offset..offset + 4];
  }

  lemma FrameFromBytes(file: seq<byte>, offset: nat, length: nat)
    requires offset + 4 <= |file| && 1 <= length <= MAX_RECORD_LEN && length == LengthAt(file, offset)
    requires offset + 4 + length <= |file|
    ensures FrameBytes(FrameAt(file, offset, length)) == file[offset..offset + 4 + length]
    ensures Writable(FrameAt(file, offset, length))
  {
    hide BigEndian, FromBigEndian;
    FromBigEndianRoundTrip(file[offset..offset + 4]);
    assert file[offset..offset + 4 + length]
        == file[offset..offset + 4] + [file[offset + 4]] + file[offset + 5..offset + 4 + length];
  }

  // What the walk accepts is whole writable frames and a torn tail.
  lemma {:induction false} WalkSound(file: seq<byte>, offset: nat)
    requires offset <= |file|
    ensures Walk(file, offset).Ok? ==>
      var (frames, end) := Walk(file, offset).value;
      && offset <= end <= |file|
      && AllWritable(frames) && file[offset..end] == FramesBytes(frames) && Torn(file[end..])
    decreases |file| - offset
  {
    hide LengthAt, FrameAt, FrameBytes;
    if |file| >= offset + 4 {
      LengthWithin(file, offset, file[offset..]);
      var length := LengthAt(file, offset);
      if 1 <= length <= MAX_RECORD_LEN && offset + 4 + length <= |file| {
        WalkSound(file, offset + 4 + length);
        FrameFromBytes(file, offset, length);
        var f := FrameAt(file, offset, length);
        var rest := Walk(file, offset + 4 + length);
        if rest.Ok? {
          assert ([f] + rest.value.0)[1..] == rest.value.0;
          assert file[offset..rest.value.1]
              == file[offset..offset + 4 + length] + file[offset + 4 + length..rest.value.1];
        }
      }
    }
  }

  // And all such files are accepted, with those frames.
  lemma {:induction false} WalkComplete(before: seq<byte>, frames: seq<Frame>, tail: seq<byte>)
    requires AllWritable(frames) && Torn(tail)
    ensures Walk(before + FramesBytes(frames) + tail, |before|) == Ok((frames, |before| + |FramesBytes(frames)|))
    decreases |frames|
  {
    hide LengthAt, FrameAt, FrameBytes;
    var file := before + FramesBytes(frames) + tail;
    if frames == [] {
      assert file[|before|..] == tail;
      if |tail| >= 4 {
        LengthWithin(file, |before|, tail);
      }
    } else {
      var f, rest := frames[0], frames[1..];
      var next := FramesBytes(rest) + tail;
      assert file == before + FrameBytes(f) + next;
      FrameStarts(f, next, before);
      var moved := before + FrameBytes(f);
      assert file == moved + FramesBytes(rest) + tail;
      WalkComplete(moved, rest, tail);
      assert [f] + rest == frames;
    }
  }

  /** A file's frames are exactly what the walk says, and a file it refuses has no such reading. */
  lemma WalkExactly(file: seq<byte>, frames: seq<Frame>, end: nat)
    requires |file| >= HEADER_LEN
    ensures Walk(file, HEADER_LEN) == Ok((frames, end))
      <==> (&& HEADER_LEN <= end <= |file| && AllWritable(frames)
            && file[HEADER_LEN..end] == FramesBytes(frames) && Torn(file[end..]))
  {
    hide Walk, Torn, FramesBytes;
    WalkSound(file, HEADER_LEN);
    if HEADER_LEN <= end <= |file| && AllWritable(frames)
       && file[HEADER_LEN..end] == FramesBytes(frames) && Torn(file[end..])
    {
      assert file == file[..HEADER_LEN] + FramesBytes(frames) + file[end..];
      WalkComplete(file[..HEADER_LEN], frames, file[end..]);
    }
  }

  lemma {:induction false} FramesBytesAppend(frames: seq<Frame>, more: seq<Frame>)
    ensures FramesBytes(frames + more) == FramesBytes(frames) + FramesBytes(more)
    decreases |frames|
  {
    hide FrameBytes;
    if frames == [] {
      assert frames + more == more;
    } else {
      FramesBytesAppend(frames[1..], more);
      assert (frames + more)[1..] == frames[1..] + more;
    }
  }

  lemma FramesBytesOne(f: Frame)
    ensures FramesBytes([f]) == FrameBytes(f)
  {
    assert [f][1..] == [];
    assert FramesBytes([]) == [];
  }

  // A write cut short leaves a torn tail.
  lemma CutFrameIsTorn(f: Frame, n: nat)
    requires Writable(f) && n < |FrameBytes(f)|
    ensures Torn(FrameBytes(f)[..n])
  {
    FrameStarts(f, [], []);
    assert [] + FrameBytes(f) + [] == FrameBytes(f);
    if n >= 4 {
      assert FrameBytes(f)[..n][0..4] == FrameBytes(f)[0..4];
    }
  }

  // ----- the log -----

  datatype LogModel = LogModel(file: seq<byte>, count: nat, broken: bool, repaired: bool)

  function Reached(framed: seq<byte>, n: nat): seq<byte> {
    if n < |framed| then framed[..n] else framed
  }

  function CheckHeader(file: seq<byte>): Result<(), StoreError> {
    if |file| < HEADER_LEN || file[..|MAGIC|] != MAGIC then Err(NotALog)
    else if file[HEADER_LEN - 1] != FORMAT_VERSION then Err(UnsupportedVersion(file[HEADER_LEN - 1]))
    else Ok(())
  }

  // The opened log and what the file holds afterwards. `fate` is that of the
  // one write opening may make: the header of a new file, or the truncation.
  function OpenOf(stored: Option<seq<byte>>, fate: WriteFate): (Result<LogModel, StoreError>, seq<byte>) {
    if stored.None? || stored.value == [] then
      match fate
      case Written => (Ok(LogModel(HEADER, 0, false, false)), HEADER)
      case Failed(n) => (Err(Io), Reached(HEADER, n))
    else
      var file := stored.value;
      match CheckHeader(file)
      case Err(e) => (Err(e), file)
      case Ok(_) =>
        match ScanOf(file)
        case Err(e) => (Err(e), file)
        case Ok((count, goodLen)) =>
          if |file| == goodLen then (Ok(LogModel(file, count, false, false)), file)
          else
            match fate
            case Written => (Ok(LogModel(file[..goodLen], count, false, true)), file[..goodLen])
            case Failed(n) => (Err(Io), if n > 0 then file[..goodLen] else file)
  }

  function WriteRecordOf(log: LogModel, kind: byte, payload: seq<byte>, fate: WriteFate)
    : (LogModel, Result<(), StoreError>)
  {
    if log.broken then (log, Err(Broken))
    else if |payload| + 1 > MAX_RECORD_LEN then (log, Err(RecordTooLarge(|payload|, MAX_RECORD_LEN)))
    else
      var framed := FrameBytes(Frame(kind, payload));
      match fate
      case Written => (log.(file := log.file + framed, count := log.count + 1), Ok(()))
      case Failed(n) => (log.(file := log.file + Reached(framed, n), broken := true), Err(Io))
  }

  function AppendPlainOf(log: LogModel, payload: seq<byte>, fate: WriteFate): (LogModel, Result<(), StoreError>) {
    WriteRecordOf(log, KIND_PLAIN, payload, fate)
  }

  // ----- sealed records -----

  function RecordContext(sequence: nat): Aad {
    NewAad("localsecrets.log.v1", [Decimal.Render(sequence)])
  }

  function SealRecord(key: Key, sequence: nat, payload: seq<byte>, nonce: Option<Nonce>)
    : Result<seq<byte>, StoreError>
  {
    match Seal(key, nonce, payload, RecordContext(sequence))
    case Err(_) => Err(Crypto)
    case Ok(envelope) => Ok(envelope.nonce + envelope.ciphertext)
  }

  function OpenRecord(key: Key, sequence: nat, payload: seq<byte>): Result<seq<byte>, StoreError> {
    if |payload| < NONCE_LEN then Err(Unreadable(sequence))
    else
      match Aead.Open(key, Envelope(payload[..NONCE_LEN], payload[NONCE_LEN..]), RecordContext(sequence))
      case Err(_) => Err(Unreadable(sequence))
      case Ok(plain) => Ok(plain)
  }

  function AppendOf(log: LogModel, key: Key, payload: seq<byte>, nonce: Option<Nonce>, fate: WriteFate)
    : (LogModel, Result<(), StoreError>)
  {
    if |payload| > MAX_RECORD_LEN then (log, Err(RecordTooLarge(|payload|, MAX_RECORD_LEN)))
    else
      match SealRecord(key, log.count, payload, nonce)
      case Err(e) => (log, Err(e))
      case Ok(body) => WriteRecordOf(log, KIND_SEALED, body, fate)
  }

  function KeepPlain(sequence: nat, f: Frame): Result<seq<seq<byte>>, StoreError> {
    Ok(if f.kind == KIND_PLAIN then [f.payload] else [])
  }

  function ReadOne(key: Key, sequence: nat, f: Frame): Result<Record, StoreError> {
    if f.kind == KIND_PLAIN then Ok(Record(false, f.payload))
    else
      match OpenRecord(key, sequence, f.payload)
      case Err(e) => Err(e)
      case Ok(plain) => Ok(Record(true, plain))
  }

  function KeepRecord(key: Key): Visit<Record> {
    (sequence: nat, f: Frame) =>
      match ReadOne(key, sequence, f)
      case Err(e) => Err(e)
      case Ok(record) => Ok([record])
  }

  function ReadPlainOf(file: seq<byte>): Result<seq<seq<byte>>, StoreError> {
    ForEach(file, KeepPlain)
  }

  function ReadRecordsOf(file: seq<byte>, key: Key): Result<seq<Record>, StoreError> {
    ForEach(file, KeepRecord(key))
  }

  // ----- the rewrite -----

  // How the steps of a rewrite end; the functions give the fate and the nonce
  // of the record written at each position.
  datatype RewriteFates = RewriteFates(removed: bool, created: WriteFate, writes: nat -> WriteFate,
                                       nonces: nat -> Option<Nonce>, synced: bool, renamed: bool)

  function AppendPlains(log: LogModel, plain: seq<seq<byte>>, writes: nat -> WriteFate)
    : (LogModel, Result<(), StoreError>)
    decreases |plain|
  {
    if plain == [] then (log, Ok(()))
    else
      match AppendPlainOf(log, plain[0], writes(log.count))
      case (next, Err(e)) => (next, Err(e))
      case (next, Ok(_)) => AppendPlains(next, plain[1..], writes)
  }

  function Appends(log: LogModel, key: Key, payloads: seq<seq<byte>>, nonces: nat -> Option<Nonce>,
                   writes: nat -> WriteFate)
    : (LogModel, Result<(), StoreError>)
    decreases |payloads|
  {
    if payloads == [] then (log, Ok(()))
    else
      match AppendOf(log, key, payloads[0], nonces(log.count), writes(log.count))
      case (next, Err(e)) => (next, Err(e))
      case (next, Ok(_)) => Appends(next, key, payloads[1..], nonces, writes)
  }

  // The new file is built aside and takes the old one's place in one step.
  function CompactOf(log: LogModel, key: Key, plain: seq<seq<byte>>, payloads: seq<seq<byte>>, fates: RewriteFates)
    : (LogModel, Result<(), StoreError>)
  {
    if !fates.removed then (log, Err(Io))
    else
      match OpenOf(None, fates.created).0
      case Err(e) => (log, Err(e))
      case Ok(created) =>
        match AppendPlains(created, plain, fates.writes)
        case (_, Err(e)) => (log, Err(e))
        case (begun, Ok(_)) =>
          match Appends(begun, key, payloads, fates.nonces, fates.writes)
          case (_, Err(e)) => (log, Err(e))
          case (done, Ok(_)) =>
            if !fates.synced || !fates.renamed then (log, Err(Io))
            else (LogModel(done.file, done.count, false, false), Ok(()))
  }

  class Log {
    var file: seq<byte>
    var count: nat
    var broken: bool
    var repaired: bool

    constructor (file: seq<byte>, count: nat, repaired: bool)
      ensures Model() == LogModel(file, count, false, repaired)
    {
      this.file, this.count, this.broken, this.repaired := file, count, false, repaired;
    }

    function Model(): LogModel
      reads this
    {
      LogModel(file, count, broken, repaired)
    }

    static method Open(stored: Option<seq<byte>>, fate: WriteFate)
      returns (result: Result<Log, StoreError>, left: seq<byte>)
      ensures left == OpenOf(stored, fate).1
      ensures result.Ok? ==> fresh(result.value) && OpenOf(stored, fate).0 == Ok(result.value.Model())
      ensures result.Err? ==> OpenOf(stored, fate).0 == Err(result.error)
    {
      if stored.None? || stored.value == [] {
        match fate {
          case Written =>
            var log := new Log(HEADER, 0, false);
            return Ok(log), HEADER;
          case Failed(n) =>
            return Err(Io), Reached(HEADER, n);
        }
      }
      var file := stored.value;
      var header := CheckHeader(file);
      if header.Err? {
        return Err(header.error), file;
      }
      var scanned := Scan(file);
      if scanned.Err? {
        return Err(scanned.error), file;
      }
      var (count, goodLen) := scanned.value;
      var repaired := |file| != goodLen;
      if repaired {
        if fate.Failed? {
          return Err(Io), if fate.reached > 0 then file[..goodLen] else file;
        }
        file := file[..goodLen];
      }
      var log := new Log(file, count, repaired);
      return Ok(log), file;
    }

    method WriteRecord(kind: byte, payload: seq<byte>, fate: WriteFate) returns (r: Result<(), StoreError>)
      modifies this
      ensures (Model(), r) == WriteRecordOf(old(Model()), kind, payload, fate)
    {
      if broken {
        return Err(Broken);
      }
      var length := |payload| + 1;
      if length > MAX_RECORD_LEN {
        return Err(RecordTooLarge(|payload|, MAX_RECORD_LEN));
      }
      var framed := BigEndian(length, 4);
      framed := framed + [kind];
      framed := framed + payload;
      match fate {
        case Failed(n) =>
          file := file + Reached(framed, n);
          broken := true;
          return Err(Io);
        case Written =>
          file := file + framed;
      }
      count := count + 1;
      return Ok(());
    }

    method AppendPlain(payload: seq<byte>, fate: WriteFate) returns (r: Result<(), StoreError>)
      modifies this
      ensures (Model(), r) == AppendPlainOf(old(Model()), payload, fate)
    {
      r := WriteRecord(KIND_PLAIN, payload, fate);
    }

    method Append(key: Key, payload: seq<byte>, nonce: Option<Nonce>, fate: WriteFate)
      returns (r: Result<(), StoreError>)
      modifies this
      ensures (Model(), r) == AppendOf(old(Model()), key, payload, nonce, fate)
    {
      if |payload| > MAX_RECORD_LEN {
        return Err(RecordTooLarge(|payload|, MAX_RECORD_LEN));
      }
      var body := SealRecord(key, count, payload, nonce);
      if body.Err? {
        return Err(body.error);
      }
      r := WriteRecord(KIND_SEALED, body.value, fate);
    }

    method ReadPlain() returns (r: Result<seq<seq<byte>>, StoreError>)
      ensures r == ReadPlainOf(file)
    {
      r := ForEachRecord(file, KeepPlain);
    }

    method ReadRecords(key: Key) returns (r: Result<seq<Record>, StoreError>)
      ensures r == ReadRecordsOf(file, key)
    {
      r := ForEachRecord(file, KeepRecord(key));
    }

    method Compact(key: Key, plain: seq<seq<byte>>, payloads: seq<seq<byte>>, fates: RewriteFates)
      returns (r: Result<(), StoreError>)
      modifies this
      ensures (Model(), r) == CompactOf(old(Model()), key, plain, payloads, fates)
    {
      hide OpenOf, AppendPlainOf, AppendOf;
      if !fates.removed {
        return Err(Io);
      }
      var result, _ := Open(None, fates.created);
      if result.Err? {
        return Err(result.error);
      }
      var aside := result.value;
      ghost var created := aside.Model();
      for i := 0 to |plain|
        invariant fresh(aside) && Model() == old(Model())
        invariant AppendPlains(aside.Model(), plain[i..], fates.writes) == AppendPlains(created, plain, fates.writes)
      {
        assert plain[i..][1..] == plain[i + 1..];
        var written := aside.AppendPlain(plain[i], fates.writes(aside.count));
        if written.Err? {
          return Err(written.error);
        }
      }
      ghost var begun := aside.Model();
      for i := 0 to |payloads|
        invariant fresh(aside) && Model() == old(Model())
        invariant Appends(aside.Model(), key, payloads[i..], fates.nonces, fates.writes)
               == Appends(begun, key, payloads, fates.nonces, fates.writes)
      {
        assert payloads[i..][1..] == payloads[i + 1..];
        var written := aside.Append(key, payloads[i], fates.nonces(aside.count), fates.writes(aside.count));
        if written.Err? {
          return Err(written.error);
        }
      }
      if !fates.synced || !fates.renamed {
        return Err(Io);
      }
      file, count, broken, repaired := aside.file, aside.count, false, false;
      return Ok(());
    }
  }
}
