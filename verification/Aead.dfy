/**
 Authenticated encryption as an ideal: the canonical associated data is the
 source's own byte encoding, and the cipher opens exactly what was sealed
 under the same key for the same associated data.

 The stand-in ciphertext spells out the key, the nonce and the associated data
 ahead of the plaintext, in a form that can be read in one way only. It models
 authenticity, not secrecy; nothing here depends on its length.
 */
module Aead {
  import opened Wrappers
  import opened Bytes
  import Utf8

  const NONCE_LEN := 12
  const MAX_PLAINTEXT_LEN := 65536

  type Key = k: seq<byte> | |k| == 32 witness seq(32, _ => 0)
  type Nonce = n: seq<byte> | |n| == 12 witness seq(12, _ => 0)
  type Aad = seq<byte>

  datatype AeadError = Decrypt | PlaintextTooLarge(len: nat, max: nat) | Encrypt | Entropy

  datatype Envelope = Envelope(nonce: seq<byte>, ciphertext: seq<byte>)

  // ----- canonical associated data -----

  // A length a 64-bit counter can hold, which every length in memory is.
  predicate Countable(n: nat) {
    n < Pow256(8)
  }

  predicate FitsInMemory(s: string) {
    Countable(|Utf8.Encode(s)|)
  }

  function PushField(buf: seq<byte>, field: seq<byte>): seq<byte> {
    buf + BigEndian(|field|, 8) + field
  }

  function PushFields(buf: seq<byte>, fields: seq<string>): seq<byte>
    decreases |fields|
  {
    if fields == [] then buf else PushFields(PushField(buf, Utf8.Encode(fields[0])), fields[1..])
  }

  function NewAad(domain: string, fields: seq<string>): Aad {
    PushFields(PushField([], Utf8.Encode(domain)) + BigEndian(|fields|, 8), fields)
  }

  /** The field loop. */
  method NewAadLoop(domain: string, fields: seq<string>) returns (buf: Aad)
    ensures buf == NewAad(domain, fields)
  {
    buf := PushField([], Utf8.Encode(domain));
    buf := buf + BigEndian(|fields|, 8);
    for i := 0 to |fields|
      invariant PushFields(buf, fields[i..]) == NewAad(domain, fields)
    {
      assert fields[i..][1..] == fields[i + 1..];
      buf := PushField(buf, Utf8.Encode(fields[i]));
    }
  }

  function SecretSlot(projectId: string, environmentId: string, key: string): Aad {
    NewAad("localsecrets.secret.v1", [projectId, environmentId, key])
  }

  function KeyWrap(purpose: string, ownerId: string): Aad {
    NewAad("localsecrets.keywrap.v1", [purpose, ownerId])
  }

  // Two length-prefixed fields at the start of equal buffers are equal.
  lemma FieldPrefixUnique(f: seq<byte>, x: seq<byte>, g: seq<byte>, y: seq<byte>)
    requires Countable(|f|) && Countable(|g|)
    requires BigEndian(|f|, 8) + f + x == BigEndian(|g|, 8) + g + y
    ensures f == g && x == y
  {
    hide BigEndian, Pow256;
    var s, t := BigEndian(|f|, 8) + f + x, BigEndian(|g|, 8) + g + y;
    assert s[..8] == BigEndian(|f|, 8) && t[..8] == BigEndian(|g|, 8);
    BigEndianInjective(|f|, |g|, 8);
    assert s[8..8 + |f|] == f && t[8..8 + |g|] == g;
    assert s[8 + |f|..] == x && t[8 + |g|..] == y;
  }

  lemma {:induction false} PushFieldsTail(buf: seq<byte>, fields: seq<string>)
    ensures PushFields(buf, fields) == buf + PushFields([], fields)
    decreases |fields|
  {
    hide BigEndian, Utf8.Encode;
    if fields != [] {
      var f := Utf8.Encode(fields[0]);
      PushFieldsTail(PushField(buf, f), fields[1..]);
      PushFieldsTail(PushField([], f), fields[1..]);
      assert PushField(buf, f) == buf + PushField([], f);
    }
  }

  lemma {:induction false} FieldsUnique(fields: seq<string>, others: seq<string>)
    requires |fields| == |others|
    requires forall k :: 0 <= k < |fields| ==> FitsInMemory(fields[k]) && FitsInMemory(others[k])
    requires PushFields([], fields) == PushFields([], others)
    ensures fields == others
    decreases |fields|
  {
    hide BigEndian, Utf8.Encode, Pow256;
    if fields != [] {
      var f, g := Utf8.Encode(fields[0]), Utf8.Encode(others[0]);
      PushFieldsTail(PushField([], f), fields[1..]);
      PushFieldsTail(PushField([], g), others[1..]);
      var x, y := PushFields([], fields[1..]), PushFields([], others[1..]);
      assert PushField([], f) + x == BigEndian(|f|, 8) + f + x;
      assert PushField([], g) + y == BigEndian(|g|, 8) + g + y;
      assert FitsInMemory(fields[0]) && FitsInMemory(others[0]);
      FieldPrefixUnique(f, x, g, y);
      Utf8.EncodeInjective(fields[0], others[0]);
      FieldsUnique(fields[1..], others[1..]);
      assert fields == [fields[0]] + fields[1..];
      assert others == [others[0]] + others[1..];
    }
  }

  /** The associated data determines the domain and every field. */
  lemma AadInjective(domain: string, fields: seq<string>, otherDomain: string, others: seq<string>)
    requires FitsInMemory(domain) && FitsInMemory(otherDomain) && Countable(|fields|) && Countable(|others|)
    requires forall k :: 0 <= k < |fields| ==> FitsInMemory(fields[k])
    requires forall k :: 0 <= k < |others| ==> FitsInMemory(others[k])
    ensures NewAad(domain, fields) == NewAad(otherDomain, others) <==> domain == otherDomain && fields == others
  {
    hide BigEndian, Utf8.Encode, Pow256, PushFields;
    if NewAad(domain, fields) == NewAad(otherDomain, others) {
      var d, e := Utf8.Encode(domain), Utf8.Encode(otherDomain);
      var n, m := BigEndian(|fields|, 8), BigEndian(|others|, 8);
      PushFieldsTail(PushField([], d) + n, fields);
      PushFieldsTail(PushField([], e) + m, others);
      var x, y := PushFields([], fields), PushFields([], others);
      assert PushField([], d) + n + x == BigEndian(|d|, 8) + d + (n + x);
      assert PushField([], e) + m + y == BigEndian(|e|, 8) + e + (m + y);
      FieldPrefixUnique(d, n + x, e, m + y);
      Utf8.EncodeInjective(domain, otherDomain);
      assert (n + x)[..8] == n && (m + y)[..8] == m && (n + x)[8..] == x && (m + y)[8..] == y;
      BigEndianInjective(|fields|, |others|, 8);
      FieldsUnique(fields, others);
    }
  }

  lemma ShortTextFits(s: string)
    requires Utf8.Ascii(s) && |s| <= 64
    ensures FitsInMemory(s)
  {
    Utf8.EncodeAscii(s);
    assert Pow256(1) == 256;
    assert Pow256(8) >= Pow256(1) by { Pow256Grows(1, 8); }
  }

  lemma {:induction false} Pow256Grows(m: nat, n: nat)
    requires m <= n
    ensures Pow256(m) <= Pow256(n)
    decreases n
  {
    if m < n {
      Pow256Grows(m, n - 1);
    }
  }

  /** No two slots share associated data, and no slot shares it with a wrapped key. */
  lemma SlotsAreSeparate(p: string, e: string, k: string, q: string, f: string, l: string, purpose: string,
                         owner: string)
    requires FitsInMemory(p) && FitsInMemory(e) && FitsInMemory(k)
    requires FitsInMemory(q) && FitsInMemory(f) && FitsInMemory(l)
    requires FitsInMemory(purpose) && FitsInMemory(owner)
    ensures SecretSlot(p, e, k) == SecretSlot(q, f, l) <==> p == q && e == f && k == l
    ensures SecretSlot(p, e, k) != KeyWrap(purpose, owner)
  {
    hide NewAad, FitsInMemory, Pow256;
    ShortTextFits("localsecrets.secret.v1");
    ShortTextFits("localsecrets.keywrap.v1");
    SmallCounts();
    AadInjective("localsecrets.secret.v1", [p, e, k], "localsecrets.secret.v1", [q, f, l]);
    AadInjective("localsecrets.secret.v1", [p, e, k], "localsecrets.keywrap.v1", [purpose, owner]);
    assert |[p, e, k]| != |[purpose, owner]|;
    if [p, e, k] == [q, f, l] {
      assert [p, e, k][0] == [q, f, l][0] && [p, e, k][1] == [q, f, l][1] && [p, e, k][2] == [q, f, l][2];
    }
  }

  lemma SmallCounts()
    ensures Countable(1) && Countable(2) && Countable(3)
  {
    assert Pow256(1) == 256;
    Pow256Grows(1, 8);
  }

  /** No two wrapped keys share associated data. */
  lemma KeyWrapsAreSeparate(purpose: string, owner: string, otherPurpose: string, otherOwner: string)
    requires FitsInMemory(purpose) && FitsInMemory(owner) && FitsInMemory(otherPurpose) && FitsInMemory(otherOwner)
    ensures KeyWrap(purpose, owner) == KeyWrap(otherPurpose, otherOwner)
       <==> purpose == otherPurpose && owner == otherOwner
  {
    hide NewAad, FitsInMemory, Pow256;
    ShortTextFits("localsecrets.keywrap.v1");
    SmallCounts();
    AadInjective("localsecrets.keywrap.v1", [purpose, owner], "localsecrets.keywrap.v1", [otherPurpose, otherOwner]);
    if [purpose, owner] == [otherPurpose, otherOwner] {
      assert [purpose, owner][0] == [otherPurpose, otherOwner][0]
          && [purpose, owner][1] == [otherPurpose, otherOwner][1];
    }
  }

  // ----- the ideal cipher -----

  // Bytes followed by a mark that nothing inside them can be taken for.
  function Delimited(s: seq<byte>): (d: seq<byte>)
    ensures d != []
  {
    if s == [] then [0] else [1, s[0]] + Delimited(s[1..])
  }

  function CipherHeader(key: Key, nonce: Nonce, aad: Aad): seq<byte> {
    key + nonce + Delimited(aad)
  }

  // The nonce is None when no entropy could be read.
  function Seal(key: Key, nonce: Option<Nonce>, plaintext: seq<byte>, aad: Aad): Result<Envelope, AeadError> {
    if |plaintext| > MAX_PLAINTEXT_LEN then Err(PlaintextTooLarge(|plaintext|, MAX_PLAINTEXT_LEN))
    else if nonce.None? then Err(Entropy)
    else Ok(Envelope(nonce.value, CipherHeader(key, nonce.value, aad) + plaintext))
  }

  function Open(key: Key, envelope: Envelope, aad: Aad): Result<seq<byte>, AeadError> {
    if |envelope.nonce| != NONCE_LEN then Err(Decrypt)
    else
      var header := CipherHeader(key, envelope.nonce, aad);
      if header <= envelope.ciphertext then Ok(envelope.ciphertext[|header|..]) else Err(Decrypt)
  }

  function KeyFromBytes(bytes: seq<byte>): Option<Key> {
    if |bytes| == 32 then Some(bytes) else None
  }

  function Wrap(key: Key, nonce: Option<Nonce>, inner: Key, aad: Aad): Result<Envelope, AeadError> {
    Seal(key, nonce, inner, aad)
  }

  function UnwrapKey(key: Key, envelope: Envelope, aad: Aad): Result<Key, AeadError> {
    match Open(key, envelope, aad)
    case Err(e) => Err(e)
    case Ok(material) => if |material| == 32 then Ok(material) else Err(Decrypt)
  }

  lemma {:induction false} DelimitedPrefixFree(s: seq<byte>, x: seq<byte>, t: seq<byte>, y: seq<byte>)
    requires Delimited(s) + x == Delimited(t) + y
    ensures s == t && x == y
    decreases |s|
  {
    var u, v := Delimited(s) + x, Delimited(t) + y;
    assert u[0] == Delimited(s)[0] && v[0] == Delimited(t)[0];
    if s == [] {
      assert t == [];
      assert u[1..] == x && v[1..] == y;
    } else {
      assert t != [];
      assert u[1] == s[0] && v[1] == t[0];
      assert u[2..] == Delimited(s[1..]) + x && v[2..] == Delimited(t[1..]) + y;
      DelimitedPrefixFree(s[1..], x, t[1..], y);
      assert s == [s[0]] + s[1..] && t == [t[0]] + t[1..];
    }
  }

  /** What was sealed opens under the sealing key and associated data, and under no others. */
  lemma OpensExactly(key: Key, nonce: Nonce, plaintext: seq<byte>, aad: Aad, otherKey: Key, otherAad: Aad)
    requires |plaintext| <= MAX_PLAINTEXT_LEN
    ensures var sealed := Seal(key, Some(nonce), plaintext, aad);
            && sealed.Ok?
            && Open(otherKey, sealed.value, otherAad)
               == if otherKey == key && otherAad == aad then Ok(plaintext) else Err(Decrypt)
  {
    hide Delimited;
    var ciphertext := CipherHeader(key, nonce, aad) + plaintext;
    var header := CipherHeader(otherKey, nonce, otherAad);
    if header <= ciphertext {
      var rest := ciphertext[|header|..];
      assert ciphertext == header + rest;
      assert ciphertext[..32] == key && (header + rest)[..32] == otherKey;
      assert ciphertext[44..] == Delimited(aad) + plaintext;
      assert (header + rest)[44..] == Delimited(otherAad) + rest;
      DelimitedPrefixFree(aad, plaintext, otherAad, rest);
    }
  }

  lemma UnwrapUndoesWrap(key: Key, nonce: Nonce, inner: Key, aad: Aad, otherKey: Key, otherAad: Aad)
    ensures var wrapped := Wrap(key, Some(nonce), inner, aad);
            && wrapped.Ok?
            && UnwrapKey(otherKey, wrapped.value, otherAad)
               == if otherKey == key && otherAad == aad then Ok(inner) else Err(Decrypt)
  {
    OpensExactly(key, nonce, inner, aad, otherKey, otherAad);
  }
}
