/** What the log records, each kind of event, and how it is spelled as JSON. */
module Events {
  import opened Wrappers
  import opened Bytes
  import opened JsonValue
  import opened Store
  import opened Timestamps
  import Aead
  import Hex
  import JsonGrammar
  import JsonRoundTrip
  import Utf8

  // An envelope in the form the records keep it in.
  datatype Sealed = Sealed(nonce: seq<byte>, ciphertext: seq<byte>)

  function SealedOf(envelope: Aead.Envelope): Sealed {
    Sealed(envelope.nonce, envelope.ciphertext)
  }

  function EnvelopeOf(s: Sealed): Aead.Envelope {
    Aead.Envelope(s.nonce, s.ciphertext)
  }

  datatype TokenKind = Root | Session | Machine

  datatype Event =
    | UserCreated(id: string, email: string, passwordHash: string, createdAt: Timestamp)
    | TokenIssued(id: string, tokenHash: seq<byte>, kind: TokenKind, userId: Option<string>, projectId: Option<string>,
                  environmentId: Option<string>, title: Option<string>, expiresAt: Option<Timestamp>,
                  createdAt: Timestamp)
    | TokenRevoked(id: string, at: Timestamp)
    | ProjectCreated(id: string, slug: string, name: string, dataKey: Sealed, createdAt: Timestamp)
    | EnvironmentCreated(id: string, ownerId: string, slug: string, name: string, createdAt: Timestamp)
    | SecretSet(ownerId: string, inEnvironment: string, key: string, value: Sealed, at: Timestamp)
    | SecretDeleted(ownerId: string, inEnvironment: string, key: string, at: Timestamp)
    | Audited(at: Timestamp, actor: string, action: string, target: string, outcome: string)

  const SEALED_FORMAT: int64 := 1

  // ----- writing -----

  function SealedToValue(s: Sealed): Value {
    Object([("v", Int(SEALED_FORMAT)), ("nonce", String(Hex.EncodeBytes(s.nonce))),
            ("ciphertext", String(Hex.EncodeBytes(s.ciphertext)))])
  }

  function KindName(kind: TokenKind): string {
    match kind
    case Root => "root"
    case Session => "session"
    case Machine => "machine"
  }

  function OptionalText(text: Option<string>): Value {
    match text
    case Some(t) => String(t)
    case None => Null
  }

  function TimeValue(at: Timestamp): Value {
    String(ToRfc3339(at))
  }

  function OptionalTime(at: Option<Timestamp>): Value {
    match at
    case Some(t) => TimeValue(t)
    case None => Null
  }

  function ToFields(e: Event): seq<(string, Value)> {
    match e
    case UserCreated(id, email, passwordHash, createdAt) =>
      [("type", String("user.created")), ("id", String(id)), ("email", String(email)),
       ("password_hash", String(passwordHash)), ("created_at", TimeValue(createdAt))]
    case TokenIssued(id, tokenHash, kind, userId, projectId, environmentId, title, expiresAt, createdAt) =>
      [("type", String("token.issued")), ("id", String(id)), ("token_hash", String(Hex.EncodeBytes(tokenHash))),
       ("kind", String(KindName(kind))), ("user_id", OptionalText(userId)), ("project_id", OptionalText(projectId)),
       ("environment_id", OptionalText(environmentId)), ("label", OptionalText(title)),
       ("expires_at", OptionalTime(expiresAt)), ("created_at", TimeValue(createdAt))]
    case TokenRevoked(id, at) =>
      [("type", String("token.revoked")), ("id", String(id)), ("at", TimeValue(at))]
    case ProjectCreated(id, slug, name, dataKey, createdAt) =>
      [("type", String("project.created")), ("id", String(id)), ("slug", String(slug)), ("name", String(name)),
       ("data_key", SealedToValue(dataKey)), ("created_at", TimeValue(createdAt))]
    case EnvironmentCreated(id, ownerId, slug, name, createdAt) =>
      [("type", String("environment.created")), ("id", String(id)), ("project_id", String(ownerId)),
       ("slug", String(slug)), ("name", String(name)), ("created_at", TimeValue(createdAt))]
    case SecretSet(ownerId, inEnvironment, key, value, at) =>
      [("type", String("secret.set")), ("project_id", String(ownerId)), ("environment_id", String(inEnvironment)),
       ("key", String(key)), ("value", SealedToValue(value)), ("at", TimeValue(at))]
    case SecretDeleted(ownerId, inEnvironment, key, at) =>
      [("type", String("secret.deleted")), ("project_id", String(ownerId)), ("environment_id", String(inEnvironment)),
       ("key", String(key)), ("at", TimeValue(at))]
    case Audited(at, actor, action, target, outcome) =>
      [("type", String("audit")), ("at", TimeValue(at)), ("actor", String(actor)), ("action", String(action)),
       ("target", String(target)), ("outcome", String(outcome))]
  }

  function ToValue(e: Event): Value {
    Object(ToFields(e))
  }

  // ----- reading -----

  function TextField(value: Value, name: string): Result<string, StoreError> {
    match Get(value, name)
    case Some(String(s)) => Ok(s)
    case _ => Err(MalformedEvent(name))
  }

  function OptionalTextField(value: Value, name: string): Result<Option<string>, StoreError> {
    match Get(value, name)
    case None => Ok(None)
    case Some(Null) => Ok(None)
    case Some(String(s)) => Ok(Some(s))
    case _ => Err(MalformedEvent(name))
  }

  function TimeField(value: Value, name: string): Result<Timestamp, StoreError> {
    match Get(value, name)
    case Some(String(s)) =>
      (match ParseRfc3339(s)
       case Some(t) => Ok(t)
       case None => Err(MalformedEvent(name)))
    case _ => Err(MalformedEvent(name))
  }

  function OptionalTimeField(value: Value, name: string): Result<Option<Timestamp>, StoreError> {
    match Get(value, name)
    case None => Ok(None)
    case Some(Null) => Ok(None)
    case Some(String(s)) =>
      (match ParseRfc3339(s)
       case Some(t) => Ok(Some(t))
       case None => Err(MalformedEvent(name)))
    case _ => Err(MalformedEvent(name))
  }

  function BytesField(value: Value, name: string): Result<seq<byte>, StoreError> {
    match Get(value, name)
    case Some(String(s)) =>
      (match Hex.DecodeText(s)
       case Some(b) => Ok(b)
       case None => Err(MalformedEvent(name)))
    case _ => Err(MalformedEvent(name))
  }

  function SealedFromValue(value: Value): Result<Sealed, StoreError> {
    match Get(value, "v")
    case Some(Int(format)) =>
      if format != SEALED_FORMAT then Err(MalformedEvent("unknown sealed value format"))
      else
        var nonce :- BytesField(value, "nonce");
        var ciphertext :- BytesField(value, "ciphertext");
        Ok(Sealed(nonce, ciphertext))
    case _ => Err(MalformedEvent("sealed value has no format marker"))
  }

  function SealedField(value: Value, name: string, missing: string): Result<Sealed, StoreError> {
    match Get(value, name)
    case None => Err(MalformedEvent(missing))
    case Some(inner) => SealedFromValue(inner)
  }

  function KindNamed(text: string): Result<TokenKind, StoreError> {
    if text == "root" then Ok(Root)
    else if text == "session" then Ok(Session)
    else if text == "machine" then Ok(Machine)
    else Err(MalformedEvent("unknown token kind"))
  }

  function UserFrom(v: Value): Result<Event, StoreError> {
    var id :- TextField(v, "id");
    var email :- TextField(v, "email");
    var passwordHash :- TextField(v, "password_hash");
    var createdAt :- TimeField(v, "created_at");
    Ok(UserCreated(id, email, passwordHash, createdAt))
  }

  function TokenFrom(v: Value): Result<Event, StoreError> {
    var id :- TextField(v, "id");
    var tokenHash :- BytesField(v, "token_hash");
    var kindText :- TextField(v, "kind");
    var kind :- KindNamed(kindText);
    var userId :- OptionalTextField(v, "user_id");
    var projectId :- OptionalTextField(v, "project_id");
    var environmentId :- OptionalTextField(v, "environment_id");
    var title :- OptionalTextField(v, "label");
    var expiresAt :- OptionalTimeField(v, "expires_at");
    var createdAt :- TimeField(v, "created_at");
    Ok(TokenIssued(id, tokenHash, kind, userId, projectId, environmentId, title, expiresAt, createdAt))
  }

  function RevocationFrom(v: Value): Result<Event, StoreError> {
    var id :- TextField(v, "id");
    var at :- TimeField(v, "at");
    Ok(TokenRevoked(id, at))
  }

  function ProjectFrom(v: Value): Result<Event, StoreError> {
    var id :- TextField(v, "id");
    var slug :- TextField(v, "slug");
    var name :- TextField(v, "name");
    var dataKey :- SealedField(v, "data_key", "missing data_key");
    var createdAt :- TimeField(v, "created_at");
    Ok(ProjectCreated(id, slug, name, dataKey, createdAt))
  }

  function EnvironmentFrom(v: Value): Result<Event, StoreError> {
    var id :- TextField(v, "id");
    var ownerId :- TextField(v, "project_id");
    var slug :- TextField(v, "slug");
    var name :- TextField(v, "name");
    var createdAt :- TimeField(v, "created_at");
    Ok(EnvironmentCreated(id, ownerId, slug, name, createdAt))
  }

  function SecretFrom(v: Value): Result<Event, StoreError> {
    var ownerId :- TextField(v, "project_id");
    var inEnvironment :- TextField(v, "environment_id");
    var key :- TextField(v, "key");
    var value :- SealedField(v, "value", "missing value");
    var at :- TimeField(v, "at");
    Ok(SecretSet(ownerId, inEnvironment, key, value, at))
  }

  function DeletionFrom(v: Value): Result<Event, StoreError> {
    var ownerId :- TextField(v, "project_id");
    var inEnvironment :- TextField(v, "environment_id");
    var key :- TextField(v, "key");
    var at :- TimeField(v, "at");
    Ok(SecretDeleted(ownerId, inEnvironment, key, at))
  }

  function AuditFrom(v: Value): Result<Event, StoreError> {
    var at :- TimeField(v, "at");
    var actor :- TextField(v, "actor");
    var action :- TextField(v, "action");
    var target :- TextField(v, "target");
    var outcome :- TextField(v, "outcome");
    Ok(Audited(at, actor, action, target, outcome))
  }

  function FromValue(v: Value): Result<Event, StoreError> {
    var kind :- TextField(v, "type");
    if kind == "user.created" then UserFrom(v)
    else if kind == "token.issued" then TokenFrom(v)
    else if kind == "token.revoked" then RevocationFrom(v)
    else if kind == "project.created" then ProjectFrom(v)
    else if kind == "environment.created" then EnvironmentFrom(v)
    else if kind == "secret.set" then SecretFrom(v)
    else if kind == "secret.deleted" then DeletionFrom(v)
    else if kind == "audit" then AuditFrom(v)
    else Err(MalformedEvent("unknown event type"))
  }

  // ----- the two as bytes -----

  function ToBytes(e: Event): seq<byte> {
    ToValueWritable(e);
    Utf8.Encode(JsonValue.Write(ToValue(e)))
  }

  function FromBytes(bytes: seq<byte>): Result<Event, StoreError> {
    match Utf8.Decode(bytes)
    case None => Err(MalformedEvent("not UTF-8"))
    case Some(text) =>
      match JsonGrammar.Parse(text)
      case Err(_) => Err(MalformedEvent("not JSON"))
      case Ok(value) => FromValue(value)
  }

  predicate Flat(v: Value) {
    v.Null? || v.Bool? || v.Int? || v.String?
  }

  lemma SealedWritable(s: Sealed)
    ensures FloatFree(SealedToValue(s)) && DistinctKeys(SealedToValue(s))
    ensures forall limit: nat :: limit >= 1 ==> Nested(SealedToValue(s), limit)
  {
    hide Hex.EncodeBytes;
    assert "v"[0] != "nonce"[0] && "v"[0] != "ciphertext"[0] && "nonce"[0] != "ciphertext"[0];
  }

  lemma ToValueWritable(e: Event)
    ensures FloatFree(ToValue(e))
  {
    hide Hex.EncodeBytes, ToRfc3339;
    match e {
      case ProjectCreated(_, _, _, dataKey, _) => SealedWritable(dataKey);
      case SecretSet(_, _, _, value, _) => SealedWritable(value);
      case _ =>
    }
  }

  // ----- the round trip -----

  // The named field is where it was put, if no earlier one has its name.
  lemma {:induction false} FindAt(fields: seq<(string, Value)>, k: nat)
    requires k < |fields| && DistinctNames(fields)
    ensures Find(fields, fields[k].0) == Some(fields[k].1)
  {
    if k > 0 {
      assert fields[1..][k - 1] == fields[k];
      FindAt(fields[1..], k - 1);
    }
  }

  lemma NamesDiffer(e: Event)
    ensures DistinctNames(ToFields(e))
  {
    hide Hex.EncodeBytes, ToRfc3339, KindName, OptionalText, OptionalTime, TimeValue, SealedToValue;
  }

  // What each reader makes of a field in place.
  lemma TextReads(v: Value, name: string, text: string)
    requires Get(v, name) == Some(String(text))
    ensures TextField(v, name) == Ok(text)
  {
  }

  lemma OptionalTextReads(v: Value, name: string, text: Option<string>)
    requires Get(v, name) == Some(OptionalText(text))
    ensures OptionalTextField(v, name) == Ok(text)
  {
  }

  lemma TimeReads(v: Value, name: string, at: Timestamp)
    requires Get(v, name) == Some(TimeValue(at))
    ensures TimeField(v, name) == Ok(at)
  {
    hide ToRfc3339, ParseRfc3339;
    WriteThenRead(at);
  }

  lemma OptionalTimeReads(v: Value, name: string, at: Option<Timestamp>)
    requires Get(v, name) == Some(OptionalTime(at))
    ensures OptionalTimeField(v, name) == Ok(at)
  {
    hide ToRfc3339, ParseRfc3339;
    if at.Some? {
      WriteThenRead(at.value);
    }
  }

  lemma BytesRead(v: Value, name: string, b: seq<byte>)
    requires Get(v, name) == Some(String(Hex.EncodeBytes(b)))
    ensures BytesField(v, name) == Ok(b)
  {
    hide Hex.EncodeBytes, Hex.DecodeText;
    Hex.RoundTrip(b);
  }

  lemma SealedReads(v: Value, name: string, missing: string, sealed: Sealed)
    requires Get(v, name) == Some(SealedToValue(sealed))
    ensures SealedField(v, name, missing) == Ok(sealed)
  {
    var inner := SealedToValue(sealed);
    hide Hex.EncodeBytes, Hex.DecodeText, Find;
    SealedWritable(sealed);
    FindAt(inner.fields, 0);
    FindAt(inner.fields, 1);
    FindAt(inner.fields, 2);
    BytesRead(inner, "nonce", sealed.nonce);
    BytesRead(inner, "ciphertext", sealed.ciphertext);
  }

  lemma KindReads(kind: TokenKind)
    ensures KindNamed(KindName(kind)) == Ok(kind)
  {
    assert "session" != "root" && "machine" != "root" && "machine" != "session";
  }

  // The type tag selects the reader for its own kind of event.
  lemma TypeSelects(e: Event)
    ensures FromValue(ToValue(e))
         == match e
            case UserCreated(_, _, _, _) => UserFrom(ToValue(e))
            case TokenIssued(_, _, _, _, _, _, _, _, _) => TokenFrom(ToValue(e))
            case TokenRevoked(_, _) => RevocationFrom(ToValue(e))
            case ProjectCreated(_, _, _, _, _) => ProjectFrom(ToValue(e))
            case EnvironmentCreated(_, _, _, _, _) => EnvironmentFrom(ToValue(e))
            case SecretSet(_, _, _, _, _) => SecretFrom(ToValue(e))
            case SecretDeleted(_, _, _, _) => DeletionFrom(ToValue(e))
            case Audited(_, _, _, _, _) => AuditFrom(ToValue(e))
  {
    hide Hex.EncodeBytes, ToRfc3339, KindName, OptionalText, OptionalTime, TimeValue, SealedToValue,
         UserFrom, TokenFrom, RevocationFrom, ProjectFrom, EnvironmentFrom, SecretFrom, DeletionFrom, AuditFrom;
    TypeNamesDiffer();
    assert Find(ToFields(e), "type") == Some(ToFields(e)[0].1);
  }

  lemma TypeNamesDiffer()
    ensures DistinctNames([("user.created", Null), ("token.issued", Null), ("token.revoked", Null),
      ("project.created", Null), ("environment.created", Null), ("secret.set", Null), ("secret.deleted", Null),
       ("audit", Null)])
  {
  }

  lemma UserReads(e: Event)
    requires e.UserCreated?
    ensures UserFrom(ToValue(e)) == Ok(e)
  {
    var v, f := ToValue(e), ToFields(e);
    hide Find, TimeValue, TextField, TimeField;
    NamesDiffer(e);
    FindAt(f, 1); FindAt(f, 2); FindAt(f, 3); FindAt(f, 4);
    TextReads(v, "id", e.id);
    TextReads(v, "email", e.email);
    TextReads(v, "password_hash", e.passwordHash);
    TimeReads(v, "created_at", e.createdAt);
  }

  lemma TokenReads(e: Event)
    requires e.TokenIssued?
    ensures TokenFrom(ToValue(e)) == Ok(e)
  {
    var v, f := ToValue(e), ToFields(e);
    hide Find, TimeValue, OptionalText, OptionalTime, Hex.EncodeBytes, KindName, KindNamed,
         TextField, OptionalTextField, TimeField, OptionalTimeField, BytesField;
    NamesDiffer(e);
    FindAt(f, 1); FindAt(f, 2); FindAt(f, 3); FindAt(f, 4); FindAt(f, 5);
    FindAt(f, 6); FindAt(f, 7); FindAt(f, 8); FindAt(f, 9);
    TextReads(v, "id", e.id);
    BytesRead(v, "token_hash", e.tokenHash);
    TextReads(v, "kind", KindName(e.kind));
    KindReads(e.kind);
    OptionalTextReads(v, "user_id", e.userId);
    OptionalTextReads(v, "project_id", e.projectId);
    OptionalTextReads(v, "environment_id", e.environmentId);
    OptionalTextReads(v, "label", e.title);
    OptionalTimeReads(v, "expires_at", e.expiresAt);
    TimeReads(v, "created_at", e.createdAt);
  }

  lemma RevocationReads(e: Event)
    requires e.TokenRevoked?
    ensures RevocationFrom(ToValue(e)) == Ok(e)
  {
    var v, f := ToValue(e), ToFields(e);
    hide Find, TimeValue, TextField, TimeField;
    NamesDiffer(e);
    FindAt(f, 1); FindAt(f, 2);
    TextReads(v, "id", e.id);
    TimeReads(v, "at", e.at);
  }

  lemma ProjectReads(e: Event)
    requires e.ProjectCreated?
    ensures ProjectFrom(ToValue(e)) == Ok(e)
  {
    var v, f := ToValue(e), ToFields(e);
    hide Find, TimeValue, TextField, TimeField, SealedField, SealedToValue;
    NamesDiffer(e);
    FindAt(f, 1); FindAt(f, 2); FindAt(f, 3); FindAt(f, 4); FindAt(f, 5);
    TextReads(v, "id", e.id);
    TextReads(v, "slug", e.slug);
    TextReads(v, "name", e.name);
    SealedReads(v, "data_key", "missing data_key", e.dataKey);
    TimeReads(v, "created_at", e.createdAt);
  }

  lemma EnvironmentReads(e: Event)
    requires e.EnvironmentCreated?
    ensures EnvironmentFrom(ToValue(e)) == Ok(e)
  {
    var v, f := ToValue(e), ToFields(e);
    hide Find, TimeValue, TextField, TimeField;
    NamesDiffer(e);
    FindAt(f, 1); FindAt(f, 2); FindAt(f, 3); FindAt(f, 4); FindAt(f, 5);
    TextReads(v, "id", e.id);
    TextReads(v, "project_id", e.ownerId);
    TextReads(v, "slug", e.slug);
    TextReads(v, "name", e.name);
    TimeReads(v, "created_at", e.createdAt);
  }

  lemma SecretReads(e: Event)
    requires e.SecretSet?
    ensures SecretFrom(ToValue(e)) == Ok(e)
  {
    var v, f := ToValue(e), ToFields(e);
    hide Find, TimeValue, TextField, TimeField, SealedField, SealedToValue;
    NamesDiffer(e);
    FindAt(f, 1); FindAt(f, 2); FindAt(f, 3); FindAt(f, 4); FindAt(f, 5);
    TextReads(v, "project_id", e.ownerId);
    TextReads(v, "environment_id", e.inEnvironment);
    TextReads(v, "key", e.key);
    SealedReads(v, "value", "missing value", e.value);
    TimeReads(v, "at", e.at);
  }

  lemma DeletionReads(e: Event)
    requires e.SecretDeleted?
    ensures DeletionFrom(ToValue(e)) == Ok(e)
  {
    var v, f := ToValue(e), ToFields(e);
    hide Find, TimeValue, TextField, TimeField;
    NamesDiffer(e);
    FindAt(f, 1); FindAt(f, 2); FindAt(f, 3); FindAt(f, 4);
    TextReads(v, "project_id", e.ownerId);
    TextReads(v, "environment_id", e.inEnvironment);
    TextReads(v, "key", e.key);
    TimeReads(v, "at", e.at);
  }

  lemma AuditReads(e: Event)
    requires e.Audited?
    ensures AuditFrom(ToValue(e)) == Ok(e)
  {
    var v, f := ToValue(e), ToFields(e);
    hide Find, TimeValue, TextField, TimeField;
    NamesDiffer(e);
    FindAt(f, 1); FindAt(f, 2); FindAt(f, 3); FindAt(f, 4); FindAt(f, 5);
    TimeReads(v, "at", e.at);
    TextReads(v, "actor", e.actor);
    TextReads(v, "action", e.action);
    TextReads(v, "target", e.target);
    TextReads(v, "outcome", e.outcome);
  }

  lemma ValueRoundTrip(e: Event)
    ensures FromValue(ToValue(e)) == Ok(e)
  {
    hide *;
    TypeSelects(e);
    match e {
      case UserCreated(_, _, _, _) => UserReads(e);
      case TokenIssued(_, _, _, _, _, _, _, _, _) => TokenReads(e);
      case TokenRevoked(_, _) => RevocationReads(e);
      case ProjectCreated(_, _, _, _, _) => ProjectReads(e);
      case EnvironmentCreated(_, _, _, _, _) => EnvironmentReads(e);
      case SecretSet(_, _, _, _, _) => SecretReads(e);
      case SecretDeleted(_, _, _, _) => DeletionReads(e);
      case Audited(_, _, _, _, _) => AuditReads(e);
    }
  }

  ghost predicate Shallow(v: Value) {
    Flat(v) || exists s :: v == SealedToValue(s)
  }

  lemma FieldsAreShallow(e: Event)
    ensures forall k :: 0 <= k < |ToFields(e)| ==> Shallow(ToFields(e)[k].1)
  {
    hide Hex.EncodeBytes, ToRfc3339, KindName, SealedToValue;
  }

  lemma ShallowWithinLimits(v: Value)
    requires Shallow(v)
    ensures DistinctKeys(v) && Nested(v, JsonGrammar.MAX_DEPTH - 1)
  {
    if !Flat(v) {
      var s :| v == SealedToValue(s);
      SealedWritable(s);
    }
  }

  lemma ToValueWithinLimits(e: Event)
    ensures DistinctKeys(ToValue(e)) && Nested(ToValue(e), JsonGrammar.MAX_DEPTH)
  {
    hide ToFields, Shallow;
    NamesDiffer(e);
    FieldsAreShallow(e);
    forall k | 0 <= k < |ToFields(e)|
      ensures DistinctKeys(ToFields(e)[k].1) && Nested(ToFields(e)[k].1, JsonGrammar.MAX_DEPTH - 1)
    {
      ShallowWithinLimits(ToFields(e)[k].1);
    }
  }

  /** Every event, with its optional fields present, absent or empty, reads back from its bytes. */
  lemma EventRoundTrip(e: Event)
    ensures FromBytes(ToBytes(e)) == Ok(e)
  {
    ToValueWritable(e);
    ToValueWithinLimits(e);
    ValueRoundTrip(e);
    JsonRoundTrip.WriteThenParse(ToValue(e));
    Utf8.EncodeDecode(JsonValue.Write(ToValue(e)));
    hide FromValue, ToValue, JsonGrammar.Parse, Utf8.Encode, Utf8.Decode, JsonValue.Write;
  }

  /** Different events are different bytes. */
  lemma ToBytesInjective(e: Event, f: Event)
    requires ToBytes(e) == ToBytes(f)
    ensures e == f
  {
    hide *;
    EventRoundTrip(e);
    EventRoundTrip(f);
  }
}
