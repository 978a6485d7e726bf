/** How many bytes events and sealed records take, exactly. */
module RecordLengths {
  import opened Wrappers
  import opened Bytes
  import opened JsonValue
  import Aead
  import Decimal
  import Events
  import Hex
  import LogFile
  import Timestamps
  import Utf8

  type Event = Events.Event

  // ----- text that is written as it stands -----

  // Printable ASCII other than the quote and the backslash.
  predicate Bare(s: string) {
    forall i :: 0 <= i < |s| ==> ' ' <= s[i] < 128 as char && s[i] != '"' && s[i] != '\\'
  }

  function Size(s: string): nat {
    |Utf8.Encode(s)|
  }

  // The bytes a text takes between its quotes.
  function Escaped(s: string): nat {
    Size(WriteChars(s))
  }

  lemma {:induction false} BareChars(s: string)
    requires Bare(s)
    ensures WriteChars(s) == s
  {
    if s != "" {
      BareChars(s[1..]);
      assert s == [s[0]] + s[1..];
    }
  }

  /** A text of bare characters is written byte for byte. */
  lemma BareLength(s: string)
    requires Bare(s)
    ensures Escaped(s) == |s|
  {
    BareChars(s);
    Utf8.EncodeAscii(s);
  }

  lemma {:induction false} HexIsBare(b: seq<byte>)
    ensures Bare(Hex.EncodeBytes(b)) && |Hex.EncodeBytes(b)| == 2 * |b|
  {
    if b != [] {
      HexIsBare(b[1..]);
    }
  }

  lemma {:induction false} PaddedIsBare(n: nat, width: nat)
    requires n < Timestamps.Pow10(width)
    ensures Bare(Timestamps.Padded(n, width))
    decreases width
  {
    if width > 0 {
      PaddedIsBare(n / 10, width - 1);
    }
  }

  lemma BareJoins(s: string, t: string)
    requires Bare(s) && Bare(t)
    ensures Bare(s + t)
  {
  }

  lemma MarksAreBare()
    ensures Bare("-") && Bare("T") && Bare(":") && Bare("Z")
  {
  }

  lemma FieldsAreBare(f: Timestamps.Fields)
    requires Timestamps.ValidFields(f)
    ensures Bare(Timestamps.Write(f))
  {
    hide Bare, Timestamps.Padded, Timestamps.Pow10, Timestamps.ValidFields;
    Timestamps.FieldText(f);
    MarksAreBare();
    PaddedIsBare(f.year, 4);
    PaddedIsBare(f.month, 2);
    PaddedIsBare(f.day, 2);
    PaddedIsBare(f.hour, 2);
    PaddedIsBare(f.minute, 2);
    PaddedIsBare(f.second, 2);
    var s := Timestamps.Padded(f.year, 4);
    BareJoins(s, "-"); s := s + "-";
    BareJoins(s, Timestamps.Padded(f.month, 2)); s := s + Timestamps.Padded(f.month, 2);
    BareJoins(s, "-"); s := s + "-";
    BareJoins(s, Timestamps.Padded(f.day, 2)); s := s + Timestamps.Padded(f.day, 2);
    BareJoins(s, "T"); s := s + "T";
    BareJoins(s, Timestamps.Padded(f.hour, 2)); s := s + Timestamps.Padded(f.hour, 2);
    BareJoins(s, ":"); s := s + ":";
    BareJoins(s, Timestamps.Padded(f.minute, 2)); s := s + Timestamps.Padded(f.minute, 2);
    BareJoins(s, ":"); s := s + ":";
    BareJoins(s, Timestamps.Padded(f.second, 2)); s := s + Timestamps.Padded(f.second, 2);
    BareJoins(s, "Z");
  }

  lemma TimeIsBare(t: Timestamps.Timestamp)
    ensures Bare(Timestamps.ToRfc3339(t))
  {
    Timestamps.FieldsOfValid(t);
    hide Timestamps.FieldsOf, Bare;
    FieldsAreBare(Timestamps.FieldsOf(t));
  }

  // ----- sizes of JSON -----

  lemma SizeJoins(s: string, t: string)
    ensures Size(s + t) == Size(s) + Size(t)
  {
    hide Utf8.Encode;
    Utf8.EncodeConcat(s, t);
  }

  lemma StringSize(s: string)
    ensures Size(WriteString(s)) == Escaped(s) + 2
    ensures JsonValue.Write(String(s)) == WriteString(s)
  {
    hide WriteChars;
    OneByteEach();
    SizeJoins("\"" + WriteChars(s), "\"");
    SizeJoins("\"", WriteChars(s));
  }

  lemma OneByteEach()
    ensures Size("\"") == 1 && Size(":") == 1 && Size(",") == 1 && Size("{") == 1 && Size("}") == 1 && Size("") == 0
    ensures Size("1") == 1
  {
    Utf8.EncodeAscii("\"");
    Utf8.EncodeAscii(":");
    Utf8.EncodeAscii(",");
    Utf8.EncodeAscii("{");
    Utf8.EncodeAscii("}");
    Utf8.EncodeAscii("1");
  }

  function FieldSize(field: (string, Value)): nat
    requires FloatFree(field.1)
  {
    Size(WriteString(field.0)) + 1 + Size(JsonValue.Write(field.1))
  }

  // The fields from `position` on, with a comma before each but the first.
  function FieldsSize(fields: seq<(string, Value)>, position: nat): nat
    requires position <= |fields| && forall k :: 0 <= k < |fields| ==> FloatFree(fields[k].1)
    decreases |fields| - position
  {
    if position == |fields| then 0
    else (if position > 0 then 1 else 0) + FieldSize(fields[position]) + FieldsSize(fields, position + 1)
  }

  lemma {:induction false} FieldsTakeSize(fields: seq<(string, Value)>, position: nat)
    requires position <= |fields| && forall k :: 0 <= k < |fields| ==> FloatFree(fields[k].1)
    ensures Size(WriteFields(fields, position)) == FieldsSize(fields, position)
    decreases |fields| - position
  {
    hide Size, WriteString, JsonValue.Write;
    OneByteEach();
    if position < |fields| {
      var name, value := WriteString(fields[position].0), JsonValue.Write(fields[position].1);
      var rest := WriteFields(fields, position + 1);
      FieldsTakeSize(fields, position + 1);
      SizeJoins(Comma(position) + (name + ":" + value), rest);
      SizeJoins(Comma(position), name + ":" + value);
      SizeJoins(name + ":", value);
      SizeJoins(name, ":");
    }
  }

  lemma ObjectSize(fields: seq<(string, Value)>)
    requires forall k :: 0 <= k < |fields| ==> FloatFree(fields[k].1)
    ensures FloatFree(Object(fields)) && Size(JsonValue.Write(Object(fields))) == 2 + FieldsSize(fields, 0)
  {
    hide Size, WriteFields, FieldsSize;
    OneByteEach();
    FieldsTakeSize(fields, 0);
    SizeJoins("{" + WriteFields(fields, 0), "}");
    SizeJoins("{", WriteFields(fields, 0));
  }

  // A field holding text, under a bare name.
  lemma TextFieldSize(name: string, s: string)
    requires Bare(name)
    ensures FieldSize((name, String(s))) == |name| + 5 + Escaped(s)
  {
    hide Size, WriteChars, WriteString, Escaped;
    StringSize(name);
    StringSize(s);
    BareLength(name);
  }

  lemma BareFieldSize(name: string, s: string)
    requires Bare(name) && Bare(s)
    ensures FieldSize((name, String(s))) == |name| + 5 + |s|
  {
    hide FieldSize, Escaped, Bare;
    TextFieldSize(name, s);
    BareLength(s);
  }

  type Field = (string, Value)

  lemma ThreeFields(a: Field, b: Field, c: Field)
    requires FloatFree(a.1) && FloatFree(b.1) && FloatFree(c.1)
    ensures FloatFree(Object([a, b, c]))
    ensures Size(JsonValue.Write(Object([a, b, c]))) == 4 + FieldSize(a) + FieldSize(b) + FieldSize(c)
  {
    var f := [a, b, c];
    hide FieldSize, Size, JsonValue.Write;
    ObjectSize(f);
    assert FieldsSize(f, 3) == 0;
    assert FieldsSize(f, 2) == 1 + FieldSize(c);
    assert FieldsSize(f, 1) == 1 + FieldSize(b) + FieldsSize(f, 2);
  }

  lemma SixFields(a: Field, b: Field, c: Field, d: Field, e: Field, g: Field)
    requires FloatFree(a.1) && FloatFree(b.1) && FloatFree(c.1) && FloatFree(d.1) && FloatFree(e.1) && FloatFree(g.1)
    ensures FloatFree(Object([a, b, c, d, e, g]))
    ensures Size(JsonValue.Write(Object([a, b, c, d, e, g])))
         == 7 + FieldSize(a) + FieldSize(b) + FieldSize(c) + FieldSize(d) + FieldSize(e) + FieldSize(g)
  {
    var f := [a, b, c, d, e, g];
    hide FieldSize, Size, JsonValue.Write;
    ObjectSize(f);
    assert FieldsSize(f, 6) == 0;
    assert FieldsSize(f, 5) == 1 + FieldSize(g);
    assert FieldsSize(f, 4) == 1 + FieldSize(e) + FieldsSize(f, 5);
    assert FieldsSize(f, 3) == 1 + FieldSize(d) + FieldsSize(f, 4);
    assert FieldsSize(f, 2) == 1 + FieldSize(c) + FieldsSize(f, 3);
    assert FieldsSize(f, 1) == 1 + FieldSize(b) + FieldsSize(f, 2);
  }

  lemma SealedSize(sealed: Events.Sealed)
    ensures FloatFree(Events.SealedToValue(sealed))
    ensures Size(JsonValue.Write(Events.SealedToValue(sealed))) == 34 + 2 * |sealed.nonce| + 2 * |sealed.ciphertext|
  {
    hide Hex.EncodeBytes, FieldSize, Bare, Size, JsonValue.Write;
    var nonce, ciphertext := Hex.EncodeBytes(sealed.nonce), Hex.EncodeBytes(sealed.ciphertext);
    HexIsBare(sealed.nonce);
    HexIsBare(sealed.ciphertext);
    NamesAreBare();
    BareFieldSize("nonce", nonce);
    BareFieldSize("ciphertext", ciphertext);
    FormatSize();
    ThreeFields(("v", Int(Events.SEALED_FORMAT)), ("nonce", String(nonce)), ("ciphertext", String(ciphertext)));
  }

  lemma FormatSize()
    ensures FieldSize(("v", Int(Events.SEALED_FORMAT))) == 5
  {
    assert JsonValue.Write(Int(1)) == "1";
    OneByteEach();
    StringSize("v");
    BareLength("v");
    hide Size, WriteString;
  }

  lemma NamesAreBare()
    ensures Bare("nonce") && Bare("ciphertext") && Bare("type") && Bare("at") && Bare("key") && Bare("value")
  {
  }

  lemma LongerNamesAreBare()
    ensures Bare("project_id") && Bare("environment_id") && Bare("secret.set")
  {
  }

  lemma ProjectNamesAreBare()
    ensures Bare("id") && Bare("slug") && Bare("name") && Bare("data_key") && Bare("created_at")
    ensures Bare("project.created")
  {
  }

  lemma AuditNamesAreBare()
    ensures Bare("actor") && Bare("action") && Bare("target") && Bare("outcome") && Bare("audit")
  {
  }

  // ----- sizes of events -----

  lemma SealedFieldSize(name: string, sealed: Events.Sealed)
    requires Bare(name)
    ensures FloatFree(Events.SealedToValue(sealed))
    ensures FieldSize((name, Events.SealedToValue(sealed)))
         == |name| + 37 + 2 * |sealed.nonce| + 2 * |sealed.ciphertext|
  {
    hide WriteString, JsonValue.Write, Events.SealedToValue, Size, Bare, Escaped;
    SealedSize(sealed);
    StringSize(name);
    BareLength(name);
  }

  lemma TimeFieldSize(name: string, at: Timestamps.Timestamp)
    requires Bare(name)
    ensures FieldSize((name, Events.TimeValue(at))) == |name| + 25
  {
    hide FieldSize, Bare, Timestamps.ToRfc3339;
    TimeIsBare(at);
    BareFieldSize(name, Timestamps.ToRfc3339(at));
  }

  /** A secret's event, to the byte, from its names and the lengths of what is sealed in it. */
  lemma SecretSetSize(e: Event)
    requires e.SecretSet?
    ensures |Events.ToBytes(e)|
         == 137 + Escaped(e.ownerId) + Escaped(e.inEnvironment) + Escaped(e.key)
            + 2 * |e.value.nonce| + 2 * |e.value.ciphertext|
  {
    hide Bare, Escaped, FieldSize, JsonValue.Write, Events.SealedToValue, Events.TimeValue, Size, Events.ToBytes;
    NamesAreBare();
    LongerNamesAreBare();
    BareFieldSize("type", "secret.set");
    TextFieldSize("project_id", e.ownerId);
    TextFieldSize("environment_id", e.inEnvironment);
    TextFieldSize("key", e.key);
    SealedFieldSize("value", e.value);
    TimeFieldSize("at", e.at);
    TimeIsFloatFree(e.at);
    SixFields(("type", String("secret.set")), ("project_id", String(e.ownerId)),
              ("environment_id", String(e.inEnvironment)), ("key", String(e.key)),
              ("value", Events.SealedToValue(e.value)), ("at", Events.TimeValue(e.at)));
    BytesAreSize(e);
  }

  lemma TimeIsFloatFree(at: Timestamps.Timestamp)
    ensures FloatFree(Events.TimeValue(at))
  {
    hide Timestamps.ToRfc3339;
  }

  /** An audit event, to the byte, from its texts. */
  lemma AuditedSize(e: Event)
    requires e.Audited?
    ensures |Events.ToBytes(e)| == 92 + Escaped(e.actor) + Escaped(e.action) + Escaped(e.target) + Escaped(e.outcome)
  {
    hide Bare, Escaped, FieldSize, JsonValue.Write, Events.TimeValue, Size, Events.ToBytes;
    NamesAreBare();
    AuditNamesAreBare();
    BareFieldSize("type", "audit");
    TimeFieldSize("at", e.at);
    TimeIsFloatFree(e.at);
    TextFieldSize("actor", e.actor);
    TextFieldSize("action", e.action);
    TextFieldSize("target", e.target);
    TextFieldSize("outcome", e.outcome);
    SixFields(("type", String("audit")), ("at", Events.TimeValue(e.at)), ("actor", String(e.actor)),
              ("action", String(e.action)), ("target", String(e.target)), ("outcome", String(e.outcome)));
    BytesAreSize(e);
  }

  /** A project's event, to the byte: another wrapping of its data key leaves it as long as it was. */
  lemma ProjectCreatedSize(e: Event)
    requires e.ProjectCreated?
    ensures |Events.ToBytes(e)|
         == 136 + Escaped(e.id) + Escaped(e.slug) + Escaped(e.name) + 2 * |e.dataKey.nonce| + 2 * |e.dataKey.ciphertext|
  {
    hide Bare, Escaped, FieldSize, JsonValue.Write, Events.SealedToValue, Events.TimeValue, Size, Events.ToBytes;
    NamesAreBare();
    ProjectNamesAreBare();
    BareFieldSize("type", "project.created");
    TextFieldSize("id", e.id);
    TextFieldSize("slug", e.slug);
    TextFieldSize("name", e.name);
    SealedFieldSize("data_key", e.dataKey);
    TimeFieldSize("created_at", e.createdAt);
    TimeIsFloatFree(e.createdAt);
    SixFields(("type", String("project.created")), ("id", String(e.id)), ("slug", String(e.slug)),
              ("name", String(e.name)), ("data_key", Events.SealedToValue(e.dataKey)),
              ("created_at", Events.TimeValue(e.createdAt)));
    BytesAreSize(e);
  }

  lemma BytesAreSize(e: Event)
    ensures FloatFree(Object(Events.ToFields(e)))
    ensures |Events.ToBytes(e)| == Size(JsonValue.Write(Object(Events.ToFields(e))))
  {
    Events.ToValueWritable(e);
    hide Utf8.Encode, JsonValue.Write, Events.ToFields;
  }

  // ----- sizes of what is sealed -----

  lemma {:induction false} DelimitedLength(s: seq<byte>)
    ensures |Aead.Delimited(s)| == 2 * |s| + 1
  {
    if s != [] {
      DelimitedLength(s[1..]);
    }
  }

  lemma PushFieldLength(buf: seq<byte>, field: seq<byte>)
    ensures |Aead.PushField(buf, field)| == |buf| + 8 + |field|
  {
  }

  // What sealing adds to a plaintext, with this cipher.
  function Overhead(context: Aead.Aad): nat {
    45 + 2 * |context|
  }

  lemma CiphertextLength(key: Aead.Key, nonce: Aead.Nonce, plaintext: seq<byte>, context: Aead.Aad)
    ensures var sealed := Aead.Seal(key, Some(nonce), plaintext, context);
            && (sealed.Ok? <==> |plaintext| <= Aead.MAX_PLAINTEXT_LEN)
            && (sealed.Ok? ==> |sealed.value.nonce| == 12
                               && |sealed.value.ciphertext| == Overhead(context) + |plaintext|)
  {
    hide Aead.Delimited;
    DelimitedLength(context);
  }

  lemma {:induction false} RenderWithin(n: nat, digits: nat)
    requires digits >= 1 && n < Timestamps.Pow10(digits)
    ensures |Decimal.Render(n)| <= digits
    decreases n
  {
    if n >= 10 {
      assert Timestamps.Pow10(1) == 10;
      assert digits > 1;
      RenderWithin(n / 10, digits - 1);
    }
  }

  // A 64-bit count has at most twenty digits.
  lemma TwentyDigits(n: nat)
    requires Aead.Countable(n)
    ensures |Decimal.Render(n)| <= 20
  {
    assert Pow256(4) == 0x1_0000_0000 by {
      assert Pow256(2) == 65536;
    }
    assert Pow256(6) == 0x1_0000_0000_0000;
    assert Pow256(8) == 0x1_0000_0000_0000_0000;
    assert Timestamps.Pow10(2) == 100;
    assert Timestamps.Pow10(4) == 10_000;
    assert Timestamps.Pow10(6) == 1_000_000;
    assert Timestamps.Pow10(8) == 100_000_000;
    assert Timestamps.Pow10(10) == 10_000_000_000;
    assert Timestamps.Pow10(12) == 1_000_000_000_000;
    assert Timestamps.Pow10(14) == 100_000_000_000_000;
    assert Timestamps.Pow10(16) == 10_000_000_000_000_000;
    assert Timestamps.Pow10(18) == 1_000_000_000_000_000_000;
    assert Timestamps.Pow10(20) == 100_000_000_000_000_000_000;
    RenderWithin(n, 20);
  }

  lemma RecordContextLength(sequence: nat)
    requires Aead.Countable(sequence)
    ensures |LogFile.RecordContext(sequence)| <= 80
  {
    hide BigEndian, Utf8.Encode, Aead.PushField, Decimal.Render, Pow256;
    var domain, n := "localsecrets.log.v1", Decimal.Render(sequence);
    TwentyDigits(sequence);
    Utf8.EncodeAscii(domain);
    Utf8.EncodeAscii(n);
    var begun := Aead.PushField([], Utf8.Encode(domain)) + BigEndian(1, 8);
    PushFieldLength([], Utf8.Encode(domain));
    PushFieldLength(begun, Utf8.Encode(n));
    assert [n][1..] == [];
    assert Aead.PushFields(begun, [n]) == Aead.PushField(begun, Utf8.Encode(n));
  }

  /** Given a nonce and a write that completes, a record is appended exactly when its payload is within the limit. */
  lemma AppendsExactly(log: LogFile.LogModel, key: Aead.Key, payload: seq<byte>, nonce: Aead.Nonce)
    requires !log.broken && Aead.Countable(log.count)
    ensures var (next, r) := LogFile.AppendOf(log, key, payload, Some(nonce), LogFile.Written);
            && (r.Ok? <==> |payload| <= Aead.MAX_PLAINTEXT_LEN)
            && (r.Ok? ==> next.count == log.count + 1 && !next.broken)
  {
    hide Aead.CipherHeader, LogFile.RecordContext, LogFile.FrameBytes, Aead.Countable;
    RecordContextLength(log.count);
    CiphertextLength(key, nonce, payload, LogFile.RecordContext(log.count));
  }

  lemma FewerAreCountable(m: nat, n: nat)
    requires m <= n && Aead.Countable(n)
    ensures Aead.Countable(m)
  {
    hide Pow256;
  }

  // The records at these positions each get a nonce and are written in full.
  predicate AllComplete(nonces: nat -> Option<Aead.Nonce>, writes: nat -> LogFile.WriteFate, from: nat, end: nat) {
    forall i :: from <= i < end ==> nonces(i).Some? && writes(i).Written?
  }

  /** And a list of records is appended exactly when every payload is within the limit. */
  lemma {:induction false} AppendsAllExactly(log: LogFile.LogModel, key: Aead.Key, payloads: seq<seq<byte>>,
                                             nonces: nat -> Option<Aead.Nonce>, writes: nat -> LogFile.WriteFate)
    requires !log.broken && Aead.Countable(log.count + |payloads|)
    requires AllComplete(nonces, writes, log.count, log.count + |payloads|)
    ensures LogFile.Appends(log, key, payloads, nonces, writes).1.Ok?
       <==> forall i :: 0 <= i < |payloads| ==> |payloads[i]| <= Aead.MAX_PLAINTEXT_LEN
    decreases |payloads|
  {
    hide LogFile.AppendOf, Aead.Countable;
    if payloads != [] {
      FewerAreCountable(log.count, log.count + |payloads|);
      AppendsExactly(log, key, payloads[0], nonces(log.count).value);
      var (next, r) := LogFile.AppendOf(log, key, payloads[0], nonces(log.count), writes(log.count));
      if r.Ok? {
        AppendsAllExactly(next, key, payloads[1..], nonces, writes);
        if forall i :: 0 <= i < |payloads[1..]| ==> |payloads[1..][i]| <= Aead.MAX_PLAINTEXT_LEN {
          forall i | 0 <= i < |payloads|
            ensures |payloads[i]| <= Aead.MAX_PLAINTEXT_LEN
          {
            assert i > 0 ==> payloads[i] == payloads[1..][i - 1];
          }
        }
      }
    }
  }
}
