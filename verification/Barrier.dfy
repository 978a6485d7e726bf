/** The one record stored unsealed, which carries the root key under the master key, and its form as JSON. */
module Barrier {
  import opened Wrappers
  import opened Bytes
  import opened JsonValue
  import opened Timestamps
  import opened Events
  import Aead
  import Hex
  import JsonGrammar
  import JsonRoundTrip
  import Utf8

  const BARRIER_FORMAT: int64 := 1

  datatype Barrier = Barrier(threshold: byte, shares: byte, rootKey: Sealed, createdAt: Timestamp)

  function Context(): Aead.Aad {
    Aead.KeyWrap("root-key", "barrier")
  }

  function BarrierFields(b: Barrier): seq<(string, Value)> {
    [("type", String("barrier")), ("v", Int(BARRIER_FORMAT)), ("threshold", Int(b.threshold)),
     ("shares", Int(b.shares)),
     ("root_key_nonce", String(Hex.EncodeBytes(b.rootKey.nonce))),
     ("root_key_ciphertext", String(Hex.EncodeBytes(b.rootKey.ciphertext))), ("created_at", TimeValue(b.createdAt))]
  }

  function BarrierValue(b: Barrier): Value {
    Object(BarrierFields(b))
  }

  function ToBytes(b: Barrier): seq<byte> {
    BarrierWritable(b);
    Utf8.Encode(JsonValue.Write(BarrierValue(b)))
  }

  function Small(value: Value, name: string): Result<byte, string> {
    match Get(value, name)
    case Some(Int(n)) => if 0 <= n < 256 then Ok(n) else Err("bad share count")
    case _ => Err("bad share count")
  }

  function Blob(value: Value, name: string): Result<seq<byte>, string> {
    match Get(value, name)
    case Some(String(s)) =>
      (match Hex.DecodeText(s)
       case Some(b) => Ok(b)
       case None => Err("bad key material"))
    case _ => Err("bad key material")
  }

  function Moment(value: Value, name: string): Result<Timestamp, string> {
    match Get(value, name)
    case Some(String(s)) =>
      (match ParseRfc3339(s)
       case Some(t) => Ok(t)
       case None => Err("bad timestamp"))
    case _ => Err("bad timestamp")
  }

  function FromValue(value: Value): Result<Barrier, string> {
    if Get(value, "type") != Some(String("barrier")) then Err("not a barrier record")
    else if Get(value, "v") != Some(Int(BARRIER_FORMAT)) then
      Err("barrier written in a format this build does not know")
    else
      var threshold :- Small(value, "threshold");
      var shares :- Small(value, "shares");
      var nonce :- Blob(value, "root_key_nonce");
      var ciphertext :- Blob(value, "root_key_ciphertext");
      var createdAt :- Moment(value, "created_at");
      Ok(Barrier(threshold, shares, Sealed(nonce, ciphertext), createdAt))
  }

  function FromBytes(bytes: seq<byte>): Result<Barrier, string> {
    match Utf8.Decode(bytes)
    case None => Err("not UTF-8")
    case Some(text) =>
      match JsonGrammar.Parse(text)
      case Err(_) => Err("not JSON")
      case Ok(value) => FromValue(value)
  }

  lemma BarrierWritable(b: Barrier)
    ensures FloatFree(BarrierValue(b)) && DistinctNames(BarrierFields(b))
    ensures DistinctKeys(BarrierValue(b)) && Nested(BarrierValue(b), JsonGrammar.MAX_DEPTH)
  {
    hide Hex.EncodeBytes, ToRfc3339;
  }

  lemma BlobReads(v: Value, name: string, b: seq<byte>)
    requires Get(v, name) == Some(String(Hex.EncodeBytes(b)))
    ensures Blob(v, name) == Ok(b)
  {
    hide Hex.EncodeBytes, Hex.DecodeText;
    Hex.RoundTrip(b);
  }

  lemma MomentReads(v: Value, name: string, at: Timestamp)
    requires Get(v, name) == Some(TimeValue(at))
    ensures Moment(v, name) == Ok(at)
  {
    hide ToRfc3339, ParseRfc3339;
    WriteThenRead(at);
  }

  lemma BarrierReads(b: Barrier)
    ensures FromValue(BarrierValue(b)) == Ok(b)
  {
    var v, f := BarrierValue(b), BarrierFields(b);
    hide Find, Hex.EncodeBytes, TimeValue, Blob, Moment;
    BarrierWritable(b);
    FindAt(f, 0); FindAt(f, 1); FindAt(f, 2); FindAt(f, 3); FindAt(f, 4); FindAt(f, 5); FindAt(f, 6);
    BlobReads(v, "root_key_nonce", b.rootKey.nonce);
    BlobReads(v, "root_key_ciphertext", b.rootKey.ciphertext);
    MomentReads(v, "created_at", b.createdAt);
  }

  /** Every barrier reads back from its bytes, whatever its counts and key material. */
  lemma BarrierRoundTrip(b: Barrier)
    ensures FromBytes(ToBytes(b)) == Ok(b)
  {
    BarrierWritable(b);
    BarrierReads(b);
    JsonRoundTrip.WriteThenParse(BarrierValue(b));
    Utf8.EncodeDecode(JsonValue.Write(BarrierValue(b)));
    hide FromValue, BarrierValue, JsonGrammar.Parse, Utf8.Encode, Utf8.Decode, JsonValue.Write;
  }
}
