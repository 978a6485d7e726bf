/** Why a vault operation can fail. */
module VaultErrors {
  import Store

  datatype VaultError =
    | VaultSealed
    | AlreadyInitialized
    | NotInitialized
    | UnsealFailed
    | UnreadableBarrier(why: string)
    | InitIncomplete
    | BadShare
    | BadCredentials
    | Forbidden
    | NotFound(what: string)
    | Conflict(what: string)
    | Invalid(what: string)
    | ValueTooLarge(len: nat, limit: nat)
    | CryptoFailed
    | StoreFailed(error: Store.StoreError)
}

/** Input rules for slugs, secret keys and email addresses. */
module Validate {
  import opened Wrappers
  import opened VaultErrors
  import opened Text
  import Utf8

  const MAX_SLUG := 64
  const MAX_KEY := 256
  const MAX_EMAIL := 254

  predicate IsLower(c: char) {
    'a' <= c <= 'z'
  }

  predicate IsDigit(c: char) {
    '0' <= c <= '9'
  }

  predicate IsAlphanumeric(c: char) {
    IsLower(c) || 'A' <= c <= 'Z' || IsDigit(c)
  }

  function Slug(input: string, what: string): Result<string, VaultError> {
    if input == "" || |Utf8.Encode(input)| > MAX_SLUG then Err(Invalid(what))
    else if input[0] == '-' || input[|input| - 1] == '-' then Err(Invalid(what))
    else if exists i :: 0 <= i < |input| && !(IsLower(input[i]) || IsDigit(input[i]) || input[i] == '-')
    then Err(Invalid(what))
    else Ok(input)
  }

  predicate IsKeyChar(c: char) {
    IsAlphanumeric(c) || c == '_' || c == '.' || c == '-'
  }

  predicate IsSecretKey(input: string) {
    input != "" && |Utf8.Encode(input)| <= MAX_KEY && forall i :: 0 <= i < |input| ==> IsKeyChar(input[i])
  }

  function Email(input: string): Result<string, VaultError> {
    var trimmed := AsciiLowercase(Trim(input));
    var n := |Utf8.Encode(trimmed)|;
    if n < 3 || n > MAX_EMAIL then Err(Invalid("email"))
    else
      match SplitOnce(trimmed, '@')
      case None => Err(Invalid("email"))
      case Some((local, domain)) =>
        if local == "" || domain == "" || '@' in domain then Err(Invalid("email"))
        else if exists i :: 0 <= i < |trimmed| && (trimmed[i] <= ' ' || trimmed[i] == '\U{7f}')
        then Err(Invalid("email"))
        else Ok(trimmed)
  }

  /** An accepted address is the form every lookup reduces an address to. */
  lemma EmailIsNormal(input: string)
    requires Email(input).Ok?
    ensures AsciiLowercase(Trim(Email(input).value)) == Email(input).value
  {
    hide Trim, SplitOnce, Utf8.Encode;
    TrimIsClean(input);
    LowercaseKeepsTrim(Trim(input));
  }

  // ----- what is accepted, exactly -----

  predicate IsSlugEnd(c: char) {
    IsLower(c) || IsDigit(c)
  }

  // At most 64 characters, dashes only on the inside.
  predicate IsSlug(s: string) {
    && 1 <= |s| <= MAX_SLUG && IsSlugEnd(s[0]) && IsSlugEnd(s[|s| - 1])
    && forall i :: 0 < i < |s| - 1 ==> IsSlugEnd(s[i]) || s[i] == '-'
  }

  /** Slugs and keys are limited in characters as they are in bytes, since no other characters are accepted. */
  lemma NamesExactly(input: string, what: string)
    ensures Slug(input, what) == if IsSlug(input) then Ok(input) else Err(Invalid(what))
    ensures IsSecretKey(input) <==> 1 <= |input| <= MAX_KEY && forall i :: 0 <= i < |input| ==> IsKeyChar(input[i])
  {
    hide Utf8.Encode;
    if Utf8.Ascii(input) {
      Utf8.EncodeAscii(input);
    }
    Utf8.EncodeAtLeast(input);
  }

  // One character that an address may hold on either side of its sign.
  predicate IsAddressChar(c: char) {
    c > ' ' && c != '\U{7f}' && c != '@'
  }

  predicate IsAddressPart(part: string) {
    part != "" && forall i :: 0 <= i < |part| ==> IsAddressChar(part[i])
  }

  // Trimmed and in lower case, the input is `local@domain`, with something printable on each side of the one sign.
  predicate SpellsAddress(input: string, local: string, domain: string) {
    && AsciiLowercase(Trim(input)) == local + "@" + domain
    && IsAddressPart(local) && IsAddressPart(domain) && |Utf8.Encode(local + "@" + domain)| <= MAX_EMAIL
  }

  lemma SpelledIsAccepted(input: string, local: string, domain: string)
    requires SpellsAddress(input, local, domain)
    ensures Email(input) == Ok(local + "@" + domain)
  {
    hide Trim, SplitOnce, Utf8.Encode, AsciiLowercase;
    var address := local + "@" + domain;
    assert address == local + ['@'] + domain;
    SplitOnceAt(local, '@', domain);
    Utf8.EncodeAtLeast(address);
  }

  lemma AcceptedIsSpelled(input: string) returns (local: string, domain: string)
    requires Email(input).Ok?
    ensures SpellsAddress(input, local, domain)
  {
    hide Trim, SplitOnce, Utf8.Encode, AsciiLowercase;
    var address := AsciiLowercase(Trim(input));
    var parts := SplitOnce(address, '@').value;
    local, domain := parts.0, parts.1;
    SplitOnceIs(address, '@');
    assert forall i :: 0 <= i < |local| ==> local[i] == address[i];
    assert forall i :: 0 <= i < |domain| ==> domain[i] == address[|local| + 1 + i];
  }

  /** What is accepted as an address, exactly, and as which. */
  lemma EmailsExactly(input: string)
    ensures Email(input).Ok? <==> exists local, domain :: SpellsAddress(input, local, domain)
    ensures forall local, domain :: SpellsAddress(input, local, domain) ==> Email(input) == Ok(local + "@" + domain)
  {
    hide Email, SpellsAddress;
    forall local, domain | SpellsAddress(input, local, domain)
      ensures Email(input) == Ok(local + "@" + domain)
    {
      SpelledIsAccepted(input, local, domain);
    }
    if Email(input).Ok? {
      var local, domain := AcceptedIsSpelled(input);
    }
  }

  /** Neither case nor surrounding whitespace matters: inputs that differ in nothing else are one address. */
  lemma CaseDoesNotMatter(p: string, a: string, q: string, b: string)
    requires AllWhitespace(p) && AllWhitespace(q) && SameButForCase(a, b)
    ensures Email(p + a + q) == Email(b)
  {
    hide AllWhitespace, SameButForCase, Trim, SplitOnce, Utf8.Encode;
    NormalForm(p, a, q, b);
  }
}
