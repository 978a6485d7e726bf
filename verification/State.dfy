/** The current state, which is what the log folds to, and the lookups on it. */
module StoreState {
  import opened Wrappers
  import opened Bytes
  import opened Events
  import opened Timestamps
  import opened Text

  datatype User = User(id: string, email: string, passwordHash: string, createdAt: Timestamp)

  datatype Token = Token(id: string, tokenHash: seq<byte>, kind: TokenKind, userId: Option<string>,
                         projectId: Option<string>, environmentId: Option<string>, title: Option<string>,
                         expiresAt: Option<Timestamp>, revokedAt: Option<Timestamp>, createdAt: Timestamp)
  {
    // Revocation is absolute: no moment, past or future, brings a token back.
    predicate IsValidAt(now: Timestamp) {
      revokedAt.None? && (expiresAt.Some? ==> now < expiresAt.value)
    }
  }

  datatype Project = Project(id: string, slug: string, name: string, dataKey: Sealed, createdAt: Timestamp)

  datatype Environment = Environment(id: string, projectId: string, slug: string, name: string, createdAt: Timestamp)

  datatype Slot = Slot(projectId: string, environmentId: string, key: string)

  datatype Secret = Secret(slot: Slot, value: Sealed, updatedAt: Timestamp)

  datatype State = State(users: seq<User>, tokens: seq<Token>, projects: seq<Project>, environments: seq<Environment>,
                         secrets: seq<Secret>)

  const EMPTY := State([], [], [], [], [])

  // ----- searching in order -----

  // The position of the first match, or the length if there is none.
  function FirstIndex<T>(s: seq<T>, p: T -> bool): (i: nat)
    ensures i <= |s| && (i < |s| ==> p(s[i]))
    ensures forall j :: 0 <= j < i ==> !p(s[j])
  {
    if s == [] || p(s[0]) then 0 else 1 + FirstIndex(s[1..], p)
  }

  function Find<T>(s: seq<T>, p: T -> bool): Option<T> {
    var i := FirstIndex(s, p);
    if i < |s| then Some(s[i]) else None
  }

  function Filter<T(!new)>(s: seq<T>, p: T -> bool): (r: seq<T>)
    ensures forall x :: x in r <==> x in s && p(x)
    ensures |r| <= |s|
  {
    if s == [] then []
    else
      var rest := Filter(s[..|s| - 1], p);
      if p(s[|s| - 1]) then rest + [s[|s| - 1]] else rest
  }

  function EmailIs(email: string): User -> bool {
    (u: User) => u.email == email
  }

  function TokenIs(id: string): Token -> bool {
    (t: Token) => t.id == id
  }

  function HashIs(hash: seq<byte>): Token -> bool {
    (t: Token) => t.tokenHash == hash
  }

  function ProjectIs(id: string): Project -> bool {
    (p: Project) => p.id == id
  }

  function SlugIs(slug: string): Project -> bool {
    (p: Project) => p.slug == slug
  }

  function EnvironmentIs(projectId: string, slug: string): Environment -> bool {
    (e: Environment) => e.projectId == projectId && e.slug == slug
  }

  function At(slot: Slot): Secret -> bool {
    (s: Secret) => s.slot == slot
  }

  function NotAt(slot: Slot): Secret -> bool {
    (s: Secret) => s.slot != slot
  }

  function In(projectId: string, environmentId: string): Secret -> bool {
    (s: Secret) => s.slot.projectId == projectId && s.slot.environmentId == environmentId
  }

  // ----- lookups -----

  function UserByEmail(s: State, email: string): Option<User> {
    Find(s.users, EmailIs(AsciiLowercase(Trim(email))))
  }

  function TokenById(s: State, id: string): Option<Token> {
    Find(s.tokens, TokenIs(id))
  }

  function TokenByHash(s: State, hash: seq<byte>): Option<Token> {
    Find(s.tokens, HashIs(hash))
  }

  function ProjectBySlug(s: State, slug: string): Option<Project> {
    Find(s.projects, SlugIs(slug))
  }

  function ProjectById(s: State, id: string): Option<Project> {
    Find(s.projects, ProjectIs(id))
  }

  function EnvironmentBySlug(s: State, projectId: string, slug: string): Option<Environment> {
    Find(s.environments, EnvironmentIs(projectId, slug))
  }

  function SecretAt(s: State, slot: Slot): Option<Secret> {
    Find(s.secrets, At(slot))
  }

  // Inserted after the keys that do not come after it.
  function Insert(x: Secret, sorted: seq<Secret>): seq<Secret> {
    if sorted == [] || TextBefore(x.slot.key, sorted[0].slot.key) then [x] + sorted
    else [sorted[0]] + Insert(x, sorted[1..])
  }

  // The stable sort by key.
  function SortByKey(s: seq<Secret>): seq<Secret> {
    if s == [] then [] else Insert(s[|s| - 1], SortByKey(s[..|s| - 1]))
  }

  function SecretsIn(s: State, projectId: string, environmentId: string): seq<Secret> {
    SortByKey(Filter(s.secrets, In(projectId, environmentId)))
  }

  // ----- the fold -----

  function Revoke(tokens: seq<Token>, id: string, at: Timestamp): (r: seq<Token>)
    ensures |r| == |tokens|
  {
    var i := FirstIndex(tokens, TokenIs(id));
    if i < |tokens| then tokens[i := tokens[i].(revokedAt := Some(at))] else tokens
  }

  function Put(secrets: seq<Secret>, slot: Slot, value: Sealed, at: Timestamp): seq<Secret> {
    var i := FirstIndex(secrets, At(slot));
    if i < |secrets| then secrets[i := secrets[i].(value := value, updatedAt := at)]
    else secrets + [Secret(slot, value, at)]
  }

  function Applied(s: State, e: Event): State {
    match e
    case UserCreated(id, email, passwordHash, createdAt) =>
      s.(users := s.users + [User(id, email, passwordHash, createdAt)])
    case TokenIssued(id, tokenHash, kind, userId, projectId, environmentId, title, expiresAt, createdAt) =>
      s.(tokens := s.tokens + [Token(id, tokenHash, kind, userId, projectId, environmentId, title, expiresAt, None,
                                     createdAt)])
    case TokenRevoked(id, at) =>
      s.(tokens := Revoke(s.tokens, id, at))
    case ProjectCreated(id, slug, name, dataKey, createdAt) =>
      s.(projects := s.projects + [Project(id, slug, name, dataKey, createdAt)])
    case EnvironmentCreated(id, ownerId, slug, name, createdAt) =>
      s.(environments := s.environments + [Environment(id, ownerId, slug, name, createdAt)])
    case SecretSet(ownerId, inEnvironment, key, value, at) =>
      s.(secrets := Put(s.secrets, Slot(ownerId, inEnvironment, key), value, at))
    case SecretDeleted(ownerId, inEnvironment, key, _) =>
      s.(secrets := Filter(s.secrets, NotAt(Slot(ownerId, inEnvironment, key))))
    case Audited(_, _, _, _, _) => s
  }

  function FoldFrom(s: State, events: seq<Event>): State
    decreases |events|
  {
    if events == [] then s else FoldFrom(Applied(s, events[0]), events[1..])
  }

  function Fold(events: seq<Event>): State {
    FoldFrom(EMPTY, events)
  }

  lemma {:induction false} FoldOneMore(s: State, events: seq<Event>, e: Event)
    ensures FoldFrom(s, events + [e]) == Applied(FoldFrom(s, events), e)
    decreases |events|
  {
    hide Applied;
    if events == [] {
      assert (events + [e])[1..] == [];
      assert FoldFrom(Applied(s, e), []) == Applied(s, e);
    } else {
      assert (events + [e])[1..] == events[1..] + [e];
      FoldOneMore(Applied(s, events[0]), events[1..], e);
    }
  }

  /** The state as the program holds it, edited in place. */
  class LiveState {
    var users: seq<User>
    var tokens: seq<Token>
    var projects: seq<Project>
    var environments: seq<Environment>
    var secrets: seq<Secret>

    constructor ()
      ensures Model() == EMPTY
    {
      users, tokens, projects, environments, secrets := [], [], [], [], [];
    }

    function Model(): State
      reads this
    {
      State(users, tokens, projects, environments, secrets)
    }

    method Apply(e: Event)
      modifies this
      ensures Model() == Applied(old(Model()), e)
    {
      match e {
        case UserCreated(id, email, passwordHash, createdAt) =>
          users := users + [User(id, email, passwordHash, createdAt)];
        case TokenIssued(id, tokenHash, kind, userId, projectId, environmentId, title, expiresAt, createdAt) =>
          tokens := tokens + [Token(id, tokenHash, kind, userId, projectId, environmentId, title, expiresAt, None,
                                    createdAt)];
        case TokenRevoked(id, at) =>
          var i := Position(tokens, TokenIs(id));
          if i < |tokens| {
            tokens := tokens[i := tokens[i].(revokedAt := Some(at))];
          }
        case ProjectCreated(id, slug, name, dataKey, createdAt) =>
          projects := projects + [Project(id, slug, name, dataKey, createdAt)];
        case EnvironmentCreated(id, ownerId, slug, name, createdAt) =>
          environments := environments + [Environment(id, ownerId, slug, name, createdAt)];
        case SecretSet(ownerId, inEnvironment, key, value, at) =>
          var slot := Slot(ownerId, inEnvironment, key);
          var i := Position(secrets, At(slot));
          if i < |secrets| {
            secrets := secrets[i := secrets[i].(value := value, updatedAt := at)];
          } else {
            secrets := secrets + [Secret(slot, value, at)];
          }
        case SecretDeleted(ownerId, inEnvironment, key, _) =>
          secrets := Retain(secrets, NotAt(Slot(ownerId, inEnvironment, key)));
        case Audited(_, _, _, _, _) =>
      }
    }

    /** One environment's secrets, sorted by key. */
    method ListSecretsIn(projectId: string, environmentId: string) returns (found: seq<Secret>)
      ensures found == SecretsIn(Model(), projectId, environmentId)
    {
      found := Retain(secrets, In(projectId, environmentId));
      found := SortByKey(found);
    }
  }

  /** The first match, by looking at each in turn. */
  method Position<T>(s: seq<T>, p: T -> bool) returns (i: nat)
    ensures i == FirstIndex(s, p)
  {
    i := 0;
    while i < |s| && !p(s[i])
      invariant i <= |s| && forall j :: 0 <= j < i ==> !p(s[j])
    {
      i := i + 1;
    }
    FirstIsUnique(s, p, i);
  }

  lemma FirstIsUnique<T>(s: seq<T>, p: T -> bool, i: nat)
    requires i <= |s| && (i < |s| ==> p(s[i])) && forall j :: 0 <= j < i ==> !p(s[j])
    ensures FirstIndex(s, p) == i
  {
  }

  /** The matches, in order. */
  method Retain<T(!new)>(s: seq<T>, p: T -> bool) returns (kept: seq<T>)
    ensures kept == Filter(s, p)
  {
    kept := [];
    for i := 0 to |s|
      invariant kept == Filter(s[..i], p)
    {
      assert s[..i + 1][..i] == s[..i];
      if p(s[i]) {
        kept := kept + [s[i]];
      }
    }
    assert s[..|s|] == s;
  }

  // ----- looking up -----

  /** An account is found by its address however that is capitalised and padded. */
  lemma LookupIgnoresCase(s: State, p: string, a: string, q: string, b: string)
    requires AllWhitespace(p) && AllWhitespace(q) && SameButForCase(a, b)
    ensures UserByEmail(s, p + a + q) == UserByEmail(s, b)
  {
    hide Find, AllWhitespace, SameButForCase, Trim;
    NormalForm(p, a, q, b);
  }

  // ----- last writer wins -----

  predicate DistinctSlots(secrets: seq<Secret>) {
    forall i, j :: 0 <= i < j < |secrets| ==> secrets[i].slot != secrets[j].slot
  }

  predicate OneEntryPerSlot(s: State) {
    DistinctSlots(s.secrets)
  }

  // What a slot holds: its value and when it was written.
  function Stored(s: State, slot: Slot): Option<(Sealed, Timestamp)> {
    match SecretAt(s, slot)
    case None => None
    case Some(secret) => Some((secret.value, secret.updatedAt))
  }

  // What the last event about a slot left there.
  function LastWrite(events: seq<Event>, slot: Slot): Option<(Sealed, Timestamp)> {
    if events == [] then None
    else
      match events[|events| - 1]
      case SecretSet(p, e, k, value, at) =>
        if Slot(p, e, k) == slot then Some((value, at)) else LastWrite(events[..|events| - 1], slot)
      case SecretDeleted(p, e, k, _) =>
        if Slot(p, e, k) == slot then None else LastWrite(events[..|events| - 1], slot)
      case _ => LastWrite(events[..|events| - 1], slot)
  }

  lemma FoundAt<T>(s: seq<T>, p: T -> bool, k: nat)
    requires k < |s| && p(s[k]) && forall j :: 0 <= j < |s| && j != k ==> !p(s[j])
    ensures Find(s, p) == Some(s[k])
  {
  }

  lemma NoneMatch<T>(s: seq<T>, p: T -> bool)
    ensures Find(s, p).None? <==> forall j :: 0 <= j < |s| ==> !p(s[j])
  {
  }

  lemma {:induction false} FilterKeepsDistinct(secrets: seq<Secret>, p: Secret -> bool)
    requires DistinctSlots(secrets)
    ensures DistinctSlots(Filter(secrets, p))
  {
    if secrets != [] {
      var front, last := secrets[..|secrets| - 1], secrets[|secrets| - 1];
      FilterKeepsDistinct(front, p);
      var rest := Filter(front, p);
      forall i | 0 <= i < |rest|
        ensures rest[i].slot != last.slot
      {
        assert rest[i] in front;
        var m :| 0 <= m < |front| && front[m] == rest[i];
        assert secrets[m] == rest[i];
      }
    }
  }

  lemma OnlyOneThere(secrets: seq<Secret>, slot: Slot, m: nat)
    requires DistinctSlots(secrets) && m < |secrets|
    ensures secrets[m].slot == slot ==> Find(secrets, At(slot)) == Some(secrets[m])
  {
    if secrets[m].slot == slot {
      FoundAt(secrets, At(slot), m);
    }
  }

  lemma {:induction false} FindInFilter(secrets: seq<Secret>, p: Secret -> bool, slot: Slot)
    requires DistinctSlots(secrets)
    ensures Find(Filter(secrets, p), At(slot))
         == match Find(secrets, At(slot)) { case None => None case Some(s) => if p(s) then Some(s) else None }
  {
    hide Filter, FirstIndex;
    var r := Filter(secrets, p);
    FilterKeepsDistinct(secrets, p);
    NoneMatch(r, At(slot));
    NoneMatch(secrets, At(slot));
    var found := Find(secrets, At(slot));
    if found.Some? && p(found.value) {
      assert found.value in r;
      var k :| 0 <= k < |r| && r[k] == found.value;
      FoundAt(r, At(slot), k);
    } else {
      forall k | 0 <= k < |r|
        ensures !At(slot)(r[k])
      {
        assert r[k] in r;
        var m :| 0 <= m < |secrets| && secrets[m] == r[k];
        OnlyOneThere(secrets, slot, m);
      }
    }
  }

  lemma PutStores(secrets: seq<Secret>, slot: Slot, value: Sealed, at: Timestamp, other: Slot)
    requires DistinctSlots(secrets)
    ensures var r := Put(secrets, slot, value, at);
            && DistinctSlots(r)
            && Find(r, At(other)) == if other == slot then Some(Secret(slot, value, at)) else Find(secrets, At(other))
  {
    var r := Put(secrets, slot, value, at);
    var i := FirstIndex(secrets, At(slot));
    assert forall j :: 0 <= j < |r| ==> r[j].slot == if j < |secrets| then secrets[j].slot else slot;
    if other == slot {
      FoundAt(r, At(slot), i);
    } else {
      var k := FirstIndex(secrets, At(other));
      if k < |secrets| {
        FoundAt(r, At(other), k);
      } else {
        NoneMatch(r, At(other));
      }
    }
  }

  /** One event's effect on one slot. */
  lemma ApplyStores(s: State, e: Event, slot: Slot)
    requires OneEntryPerSlot(s)
    ensures OneEntryPerSlot(Applied(s, e))
    ensures Stored(Applied(s, e), slot)
         == match e
            case SecretSet(p, n, k, value, at) => if Slot(p, n, k) == slot then Some((value, at)) else Stored(s, slot)
            case SecretDeleted(p, n, k, _) => if Slot(p, n, k) == slot then None else Stored(s, slot)
            case _ => Stored(s, slot)
  {
    hide Put, Filter, Find;
    match e {
      case SecretSet(p, n, k, value, at) =>
        PutStores(s.secrets, Slot(p, n, k), value, at, slot);
      case SecretDeleted(p, n, k, _) =>
        FilterKeepsDistinct(s.secrets, NotAt(Slot(p, n, k)));
        FindInFilter(s.secrets, NotAt(Slot(p, n, k)), slot);
        FoundIsAt(s, slot);
      case _ =>
    }
  }

  lemma FoundIsAt(s: State, slot: Slot)
    ensures SecretAt(s, slot).Some? ==> SecretAt(s, slot).value.slot == slot && SecretAt(s, slot).value in s.secrets
  {
  }

  /** The fold is a map with the last writer winning, and keeps one entry per slot. */
  lemma {:induction false} LastWriterWins(events: seq<Event>, slot: Slot)
    ensures OneEntryPerSlot(Fold(events))
    ensures Stored(Fold(events), slot) == LastWrite(events, slot)
  {
    hide Applied, Stored, OneEntryPerSlot;
    if events == [] {
      EmptyStores(slot);
    } else {
      var front, last := events[..|events| - 1], events[|events| - 1];
      assert events == front + [last];
      LastWriterWins(front, slot);
      FoldOneMore(EMPTY, front, last);
      ApplyStores(Fold(front), last, slot);
    }
  }

  lemma EmptyStores(slot: Slot)
    ensures OneEntryPerSlot(EMPTY) && Stored(EMPTY, slot) == None
  {
  }

  // ----- the listing -----

  predicate SortedStrictly(s: seq<Secret>) {
    forall i, j :: 0 <= i < j < |s| ==> TextBefore(s[i].slot.key, s[j].slot.key)
  }

  lemma {:induction false} TextBeforeTransitive(s: string, t: string, u: string)
    requires TextBefore(s, t) && TextBefore(t, u)
    ensures TextBefore(s, u)
  {
    if s != "" && s[0] == t[0] && t[0] == u[0] {
      TextBeforeTransitive(s[1..], t[1..], u[1..]);
    }
  }

  lemma {:induction false} TextBeforeTotal(s: string, t: string)
    ensures TextBefore(s, t) || s == t || TextBefore(t, s)
    decreases |s|
  {
    if s != "" && t != "" && s[0] == t[0] {
      TextBeforeTotal(s[1..], t[1..]);
      assert s == [s[0]] + s[1..] && t == [t[0]] + t[1..];
    }
  }

  lemma {:induction false} InsertSorts(x: Secret, sorted: seq<Secret>)
    requires SortedStrictly(sorted) && forall i :: 0 <= i < |sorted| ==> sorted[i].slot.key != x.slot.key
    ensures SortedStrictly(Insert(x, sorted))
    ensures forall y :: y in Insert(x, sorted) <==> y == x || y in sorted
    decreases |sorted|
  {
    var r := Insert(x, sorted);
    if sorted != [] {
      var head, tail := sorted[0], sorted[1..];
      if TextBefore(x.slot.key, head.slot.key) {
        forall j | 1 <= j < |sorted|
          ensures TextBefore(x.slot.key, sorted[j].slot.key)
        {
          TextBeforeTransitive(x.slot.key, head.slot.key, sorted[j].slot.key);
        }
      } else {
        TextBeforeTotal(x.slot.key, head.slot.key);
        InsertSorts(x, tail);
        var rest := Insert(x, tail);
        forall j | 0 <= j < |rest|
          ensures TextBefore(head.slot.key, rest[j].slot.key)
        {
          if rest[j] != x {
            assert rest[j] in tail;
          }
        }
        assert sorted == [head] + tail;
      }
    }
  }

  lemma {:induction false} SortSorts(s: seq<Secret>)
    requires forall i, j :: 0 <= i < j < |s| ==> s[i].slot.key != s[j].slot.key
    ensures SortedStrictly(SortByKey(s))
    ensures forall y :: y in SortByKey(s) <==> y in s
  {
    if s != [] {
      var front, last := s[..|s| - 1], s[|s| - 1];
      SortSorts(front);
      var sorted := SortByKey(front);
      forall i | 0 <= i < |sorted|
        ensures sorted[i].slot.key != last.slot.key
      {
        assert sorted[i] in front;
      }
      InsertSorts(last, sorted);
      assert s == front + [last];
    }
  }

  /** The listing of an environment is strictly sorted by key and is exactly the secrets stored there. */
  lemma ListingIsSortedAndComplete(s: State, projectId: string, environmentId: string)
    requires OneEntryPerSlot(s)
    ensures SortedStrictly(SecretsIn(s, projectId, environmentId))
    ensures forall x :: x in SecretsIn(s, projectId, environmentId)
                   <==> x.slot.projectId == projectId && x.slot.environmentId == environmentId
                        && SecretAt(s, x.slot) == Some(x)
  {
    hide SortByKey, SortedStrictly, SecretAt;
    var found := Filter(s.secrets, In(projectId, environmentId));
    FilterKeepsDistinct(s.secrets, In(projectId, environmentId));
    KeysDiffer(found, projectId, environmentId);
    SortSorts(found);
    forall x: Secret
      ensures x in s.secrets <==> SecretAt(s, x.slot) == Some(x)
    {
      StoredThere(s, x);
    }
  }

  lemma KeysDiffer(found: seq<Secret>, projectId: string, environmentId: string)
    requires DistinctSlots(found)
    requires forall x :: x in found ==> x.slot.projectId == projectId && x.slot.environmentId == environmentId
    ensures forall i, j :: 0 <= i < j < |found| ==> found[i].slot.key != found[j].slot.key
  {
    forall i, j | 0 <= i < j < |found|
      ensures found[i].slot.key != found[j].slot.key
    {
      assert found[i] in found && found[j] in found;
    }
  }

  lemma StoredThere(s: State, x: Secret)
    requires OneEntryPerSlot(s)
    ensures x in s.secrets <==> SecretAt(s, x.slot) == Some(x)
  {
    FoundIsAt(s, x.slot);
    if x in s.secrets {
      var k :| 0 <= k < |s.secrets| && s.secrets[k] == x;
      FoundAt(s.secrets, At(x.slot), k);
    }
  }

  // ----- tokens -----

  // The same token, with revocation at most added.
  predicate SameToken(t: Token, u: Token) {
    u.(revokedAt := None) == t.(revokedAt := None) && (t.revokedAt.Some? ==> u.revokedAt.Some?)
  }

  /** Tokens keep their place, and revocation is never undone, through any further events. */
  lemma {:induction false} TokensPersist(s: State, events: seq<Event>, k: nat)
    requires k < |s.tokens|
    ensures |FoldFrom(s, events).tokens| >= |s.tokens|
    ensures SameToken(s.tokens[k], FoldFrom(s, events).tokens[k])
    decreases |events|
  {
    hide FirstIndex;
    if events != [] {
      TokensPersist(Applied(s, events[0]), events[1..], k);
    }
  }

  /** A user, once created, is there for good. */
  lemma {:induction false} UsersPersist(s: State, events: seq<Event>)
    ensures s.users <= FoldFrom(s, events).users
    decreases |events|
  {
    if events != [] {
      UsersPersist(Applied(s, events[0]), events[1..]);
    }
  }
}
